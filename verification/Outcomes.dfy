// What a step of the program comes to.
module Outcomes {

  // A step goes well, or fails an assert, has a system call refused or uses what is not there.
  datatype Outcome<+T> = Ok(value: T) | Crash
}
