module ConnectionStates {

  // TcpConnection::StateE.
  datatype State = Connecting | Connected | Disconnecting | Disconnected
}
