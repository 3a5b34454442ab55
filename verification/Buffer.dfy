/**
 The byte buffer of net/buffer.h and net/buffer.cc: a queue of bytes in a vector, with room in front.
 */
module Buffers {

  newtype byte = x: int | 0 <= x < 256

  const CHEAP_PREPEND: nat := 8
  const INITIAL_SIZE: nat := 1024
  const EXTRA_SIZE: nat := 65536

  // What readv returned: an error, or the bytes it scattered over the two areas.
  datatype ReadResult = ReadFailed | Received(bytes: seq<byte>)

  // ---------- Integers in network order ----------

  function Pow256(w: nat): (p: int)
    ensures p > 0
  {
    if w == 0 then 1 else 256 * Pow256(w - 1)
  }

  // The w low bytes of n, most significant first.
  function BytesOf(n: int, w: nat): (bs: seq<byte>)
    ensures |bs| == w
    decreases w
  {
    if w == 0 then [] else BytesOf(n / 256, w - 1) + [(n % 256) as byte]
  }

  function ValueOf(bs: seq<byte>): (n: int)
    ensures n >= 0
  {
    if bs == [] then 0 else 256 * ValueOf(bs[..|bs| - 1]) + bs[|bs| - 1] as int
  }

  // A signed integer of w bytes, as the host writes it and reads it back.
  function Encode(x: int, w: nat): (bs: seq<byte>)
    ensures |bs| == w
  {
    BytesOf(if x < 0 then x + Pow256(w) else x, w)
  }

  function Decode(bs: seq<byte>): int {
    var n := ValueOf(bs);
    if 2 * n >= Pow256(|bs|) then n - Pow256(|bs|) else n
  }

  predicate Fits(x: int, w: nat) {
    w > 0 && -Pow256(w) <= 2 * x < Pow256(w)
  }

  lemma {:induction false} ValueOfBytesOf(n: int, w: nat)
    requires 0 <= n < Pow256(w)
    ensures ValueOf(BytesOf(n, w)) == n
  {
    if w > 0 {
      ValueOfBytesOf(n / 256, w - 1);
      assert BytesOf(n, w)[..w - 1] == BytesOf(n / 256, w - 1);
    }
  }

  // Every signed integer of its width, negative ones included, comes back unchanged.
  lemma DecodeEncode(x: int, w: nat)
    requires Fits(x, w)
    ensures Decode(Encode(x, w)) == x
  {
    ValueOfBytesOf(if x < 0 then x + Pow256(w) else x, w);
  }

  // The byte at place i is the digit of 256 to the w - 1 - i: most significant first.
  lemma {:induction false} BytesOfAt(n: int, w: nat, i: nat)
    requires i < w
    ensures BytesOf(n, w)[i] as int == n / Pow256(w - 1 - i) % 256
    decreases w
  {
    if i == w - 1 {
      assert Pow256(0) == 1;
    } else {
      BytesOfAt(n / 256, w - 1, i);
      DivDiv(n, Pow256(w - 2 - i));
    }
  }

  lemma DivDiv(n: int, p: int)
    requires p > 0
    ensures n / 256 / p == n / (256 * p)
  {
    var q := n / 256 / p;
    var r := n / 256 % p;
    assert n / 256 == q * p + r;
    assert n == 256 * (q * p + r) + n % 256;
    assert 0 <= 256 * r + n % 256 < 256 * p;
    DivIs(n, 256 * p, q, 256 * r + n % 256);
  }

  lemma DivIs(n: int, d: int, q: int, r: int)
    requires d > 0 && n == q * d + r && 0 <= r < d
    ensures n / d == q
  {
    var k := n / d;
    DivBounds(n, d);
    if k > q {
      Scaled(q + 1, k, d);
    } else if k < q {
      Scaled(k + 1, q, d);
    }
  }

  lemma DivBounds(n: int, d: int)
    requires d > 0
    ensures n / d * d <= n < n / d * d + d
  {
  }

  lemma Scaled(a: int, b: int, d: int)
    requires d > 0 && a <= b
    ensures a * d <= b * d && (a - 1) * d == a * d - d
  {
  }

  // Integers that differ by a power of the width have the same bytes.
  lemma {:induction false} BytesWrap(n: int, w: nat)
    ensures BytesOf(n + Pow256(w), w) == BytesOf(n, w)
    decreases w
  {
    if w > 0 {
      var p := Pow256(w - 1);
      assert (n + 256 * p) / 256 == n / 256 + p && (n + 256 * p) % 256 == n % 256;
      BytesWrap(n / 256, w - 1);
    }
  }

  // An integer is written in network order: byte i is the digit of 256 to the w - 1 - i, with flooring division, so
  // that a negative integer becomes its two's complement.
  lemma EncodeAt(x: int, w: nat, i: nat)
    requires i < w
    ensures Encode(x, w)[i] as int == x / Pow256(w - 1 - i) % 256
  {
    BytesWrap(x, w);
    BytesOfAt(x, w, i);
  }

  // Every byte string is the encoding of the integer it is read as.
  lemma EncodeDecode(bs: seq<byte>)
    requires bs != []
    ensures Fits(Decode(bs), |bs|) && Encode(Decode(bs), |bs|) == bs
  {
    BytesOfValueOf(bs);
  }

  lemma {:induction false} BytesOfValueOf(bs: seq<byte>)
    ensures BytesOf(ValueOf(bs), |bs|) == bs && ValueOf(bs) < Pow256(|bs|)
  {
    if bs != [] {
      var init, last := bs[..|bs| - 1], bs[|bs| - 1] as int;
      BytesOfValueOf(init);
      assert (256 * ValueOf(init) + last) / 256 == ValueOf(init);
      assert bs == init + [bs[|bs| - 1]];
    }
  }

  datatype Item = Item(value: int, width: nat)

  function EncodeAll(items: seq<Item>): (bs: seq<byte>) {
    if items == [] then [] else Encode(items[0].value, items[0].width) + EncodeAll(items[1..])
  }

  function Larger(x: nat, y: nat): nat {
    if x < y then y else x
  }

  // ---------- The queue the buffer stands for ----------

  datatype Op =
    | Append(bytes: seq<byte>)
    | Retrieve(len: nat)
    | Prepend(bytes: seq<byte>)
    | Unwrite(len: nat)
    | Shrink(reserve: nat)
    | ReadFrom(result: ReadResult)

  // What an operation means for the bytes in the queue.
  function QueueStep(c: seq<byte>, op: Op): (r: seq<byte>) {
    match op
    case Append(bytes) => c + bytes
    case Retrieve(len) => if len <= |c| then c[len..] else c
    case Prepend(bytes) => bytes + c
    case Unwrite(len) => if len <= |c| then c[..|c| - len] else c
    case Shrink(_) => c
    case ReadFrom(result) => if result.Received? then c + result.bytes else c
  }

  function QueueRun(c: seq<byte>, ops: seq<Op>): (r: seq<byte>) {
    if ops == [] then c else QueueStep(QueueRun(c, ops[..|ops| - 1]), ops[|ops| - 1])
  }

  class Buffer {
    var data: seq<byte>
    var reader: nat
    var writer: nat
    ghost var prepended: bool

    // reader <= writer <= size; without prepends at least eight bytes stay free in front.
    ghost predicate Valid()
      reads this
    {
      reader <= writer <= |data| && CHEAP_PREPEND <= |data| && (!prepended ==> reader >= CHEAP_PREPEND)
    }

    ghost function Contents(): (c: seq<byte>)
      requires Valid()
      reads this
    {
      data[reader..writer]
    }

    function ReadableBytes(): (n: nat)
      requires Valid()
      reads this
      ensures n == |Contents()|
    {
      writer - reader
    }

    function WritableBytes(): (n: nat)
      requires Valid()
      reads this
    {
      |data| - writer
    }

    function PrependableBytes(): (n: nat)
      reads this
    {
      reader
    }

    // The asserts of the source: when the operation may be called.
    predicate Legal(op: Op)
      requires Valid()
      reads this
    {
      match op
      case Append(_) => true
      case Retrieve(len) => len <= ReadableBytes()
      case Prepend(bytes) => |bytes| <= PrependableBytes()
      case Unwrite(len) => len <= ReadableBytes()
      case Shrink(_) => true
      case ReadFrom(result) =>
        result.Received? ==>
          |result.bytes| <= WritableBytes() + if WritableBytes() < EXTRA_SIZE then EXTRA_SIZE else 0
    }

    constructor (initialSize: nat := INITIAL_SIZE)
      ensures Valid() && Contents() == [] && !prepended
      ensures WritableBytes() == initialSize && PrependableBytes() == CHEAP_PREPEND
    {
      data := seq(CHEAP_PREPEND + initialSize, _ => 0);
      reader, writer, prepended := CHEAP_PREPEND, CHEAP_PREPEND, false;
    }

    method RetrieveAll()
      requires Valid()
      modifies this
      ensures Valid() && Contents() == [] && prepended == old(prepended)
      ensures PrependableBytes() == CHEAP_PREPEND && data == old(data)
    {
      reader, writer := CHEAP_PREPEND, CHEAP_PREPEND;
    }

    method Take(len: nat)
      requires Valid() && len <= ReadableBytes()
      modifies this
      ensures Valid() && Contents() == old(Contents())[len..] && prepended == old(prepended)
      ensures Contents() == [] ==> PrependableBytes() == CHEAP_PREPEND
    {
      if len < ReadableBytes() {
        reader := reader + len;
      } else {
        RetrieveAll();
      }
    }

    method RetrieveAsString(len: nat) returns (s: seq<byte>)
      requires Valid() && len <= ReadableBytes()
      modifies this
      ensures Valid() && old(Contents()) == s + Contents() && |s| == len && prepended == old(prepended)
    {
      s := data[reader..reader + len];
      Take(len);
    }

    // Grows the vector, or moves the contents to the front when that alone makes enough room.
    method MakeSpace(len: nat)
      requires Valid() && WritableBytes() < len
      modifies this
      ensures Valid() && Contents() == old(Contents()) && WritableBytes() >= len && prepended == old(prepended)
      ensures
        if old(WritableBytes() + PrependableBytes()) < len + CHEAP_PREPEND
        then PrependableBytes() == old(PrependableBytes()) && WritableBytes() == len
        else old(PrependableBytes()) > CHEAP_PREPEND == PrependableBytes() && |data| == old(|data|)
    {
      if WritableBytes() + PrependableBytes() < len + CHEAP_PREPEND {
        data := data + seq(writer + len - |data|, _ => 0);
      } else {
        assert CHEAP_PREPEND < reader;
        var readable := ReadableBytes();
        ghost var c := Contents();
        for k := 0 to readable
          invariant reader == old(reader) && writer == old(writer) && |data| == old(|data|)
          invariant prepended == old(prepended)
          invariant forall i :: 0 <= i < k ==> data[CHEAP_PREPEND + i] == c[i]
          invariant forall i :: k <= i < readable ==> data[reader + i] == c[i]
        {
          data := data[CHEAP_PREPEND + k := data[reader + k]];
        }
        reader := CHEAP_PREPEND;
        writer := reader + readable;
        assert data[reader..writer] == c;
      }
    }

    method EnsureWritableBytes(len: nat)
      requires Valid()
      modifies this
      ensures Valid() && Contents() == old(Contents()) && WritableBytes() >= len && prepended == old(prepended)
      ensures PrependableBytes() == old(PrependableBytes()) || PrependableBytes() == CHEAP_PREPEND
      ensures len <= old(WritableBytes()) ==> unchanged(this)
      ensures len > old(WritableBytes()) && old(WritableBytes() + PrependableBytes()) < len + CHEAP_PREPEND ==>
        PrependableBytes() == old(PrependableBytes()) && WritableBytes() == len
    {
      if WritableBytes() < len {
        MakeSpace(len);
      }
    }

    method Put(bytes: seq<byte>)
      requires Valid()
      modifies this
      ensures Valid() && Contents() == old(Contents()) + bytes && prepended == old(prepended)
      ensures |bytes| <= old(WritableBytes()) ==>
        PrependableBytes() == old(PrependableBytes()) && WritableBytes() == old(WritableBytes()) - |bytes|
    {
      EnsureWritableBytes(|bytes|);
      Fill(bytes);
    }

    method TakeBack(len: nat)
      requires Valid() && len <= ReadableBytes()
      modifies this
      ensures Valid() && Contents() == old(Contents())[..|old(Contents())| - len] && prepended == old(prepended)
    {
      ghost var c := Contents();
      writer := writer - len;
      assert data[reader..writer] == c[..|c| - len];
    }

    method PutFront(bytes: seq<byte>)
      requires Valid() && |bytes| <= PrependableBytes()
      modifies this
      ensures Valid() && Contents() == bytes + old(Contents()) && prepended
    {
      ghost var c := Contents();
      prepended := true;
      reader := reader - |bytes|;
      data := data[..reader] + bytes + data[reader + |bytes|..];
      assert data[reader..writer] == bytes + c;
    }

    // Replaces the vector by one with room for `reserve` more bytes.
    method ShrinkTo(reserve: nat)
      requires Valid()
      modifies this
      ensures Valid() && Contents() == old(Contents()) && WritableBytes() >= reserve
      ensures PrependableBytes() == CHEAP_PREPEND && !prepended
      ensures |data| == CHEAP_PREPEND + Larger(INITIAL_SIZE, |Contents()| + reserve)
    {
      var other := new Buffer();
      other.EnsureWritableBytes(ReadableBytes() + reserve);
      var readable := data[reader..writer];
      other.Put(readable);
      data, reader, writer, prepended := other.data, other.reader, other.writer, other.prepended;
    }

    // Bytes arrive in the free room of the vector, and the writer index moves past them.
    method Fill(bytes: seq<byte>)
      requires Valid() && |bytes| <= WritableBytes()
      modifies this
      ensures Valid() && Contents() == old(Contents()) + bytes && prepended == old(prepended)
      ensures reader == old(reader) && |data| == old(|data|)
    {
      data := data[..writer] + bytes + data[writer + |bytes|..];
      writer := writer + |bytes|;
    }

    // readFd: bytes beyond the room in the vector arrive in the stack buffer and are appended.
    method ReadFd(result: ReadResult) returns (n: int)
      requires Valid() && Legal(ReadFrom(result))
      modifies this
      ensures Valid() && prepended == old(prepended)
      ensures result.ReadFailed? ==> n < 0 && Contents() == old(Contents())
      ensures result.Received? ==> n == |result.bytes| && Contents() == old(Contents()) + result.bytes
    {
      var writable := WritableBytes();
      if result.ReadFailed? {
        n := -1;
        return;
      }
      n := |result.bytes|;
      if n <= writable {
        Fill(result.bytes);
      } else {
        Fill(result.bytes[..writable]);
        Put(result.bytes[writable..]);
        assert result.bytes == result.bytes[..writable] + result.bytes[writable..];
      }
    }

    // ---------- Integers ----------

    method AppendInt(x: int, w: nat)
      requires Valid()
      modifies this
      ensures Valid() && Contents() == old(Contents()) + Encode(x, w) && prepended == old(prepended)
    {
      Put(Encode(x, w));
    }

    function PeekInt(w: nat): (x: int)
      requires Valid() && w <= ReadableBytes()
      reads this
    {
      Decode(data[reader..reader + w])
    }

    method ReadInt(w: nat) returns (x: int)
      requires Valid() && w <= ReadableBytes()
      modifies this
      ensures Valid() && x == Decode(old(Contents())[..w]) && Contents() == old(Contents())[w..]
      ensures prepended == old(prepended)
    {
      x := PeekInt(w);
      assert data[reader..reader + w] == Contents()[..w];
      Take(w);
    }

    method PrependInt(x: int, w: nat)
      requires Valid() && w <= PrependableBytes()
      modifies this
      ensures Valid() && Contents() == Encode(x, w) + old(Contents()) && prepended
    {
      PutFront(Encode(x, w));
    }

    // Integers of mixed widths, appended in turn.
    method AppendAll(items: seq<Item>)
      requires Valid()
      modifies this
      ensures Valid() && Contents() == old(Contents()) + EncodeAll(items)
    {
      hide Encode;
      assert items[..0] == [];
      for i := 0 to |items|
        invariant Valid() && Contents() == old(Contents()) + EncodeAll(items[..i])
      {
        AppendInt(items[i].value, items[i].width);
        EncodeAllSnoc(items[..i], items[i]);
        assert items[..i + 1] == items[..i] + [items[i]];
      }
      assert items[..|items|] == items;
    }

    // Reading them off the front, width by width, whatever follows.
    method ReadAll(widths: seq<nat>, ghost items: seq<Item>, ghost rest: seq<byte>) returns (values: seq<int>)
      requires Valid() && Contents() == EncodeAll(items) + rest && |widths| == |items|
      requires forall i :: 0 <= i < |items| ==> Fits(items[i].value, items[i].width) && widths[i] == items[i].width
      modifies this
      ensures Valid() && Contents() == rest
      ensures |values| == |items| && forall i :: 0 <= i < |items| ==> values[i] == items[i].value
    {
      hide Encode, Decode, Fits;
      values := [];
      assert items[0..] == items;
      for i := 0 to |widths|
        invariant Valid() && Contents() == EncodeAll(items[i..]) + rest
        invariant |values| == i && forall k :: 0 <= k < i ==> values[k] == items[k].value
      {
        EncodeAllHead(items, i, rest);
        DecodeEncode(items[i].value, items[i].width);
        var x := ReadInt(widths[i]);
        values := values + [x];
      }
      assert EncodeAll(items[|items|..]) + rest == rest;
    }

    // Integers of mixed widths appended to any buffer are read back in order, after what was there before.
    method WriteThenRead(items: seq<Item>, widths: seq<nat>) returns (earlier: seq<byte>, values: seq<int>)
      requires Valid() && |widths| == |items|
      requires forall i :: 0 <= i < |items| ==> Fits(items[i].value, items[i].width) && widths[i] == items[i].width
      modifies this
      ensures Valid() && earlier == old(Contents()) && Contents() == []
      ensures |values| == |items| && forall i :: 0 <= i < |items| ==> values[i] == items[i].value
    {
      hide Fits;
      var before := ReadableBytes();
      AppendAll(items);
      earlier := RetrieveAsString(before);
      SameSplit(old(Contents()), EncodeAll(items), earlier, Contents());
      assert Contents() == EncodeAll(items) + [];
      values := ReadAll(widths, items, []);
    }

    // ---------- Any sequence of operations ----------

    method Perform(op: Op)
      requires Valid() && Legal(op)
      modifies this
      ensures Valid() && Contents() == QueueStep(old(Contents()), op)
      ensures !op.Prepend? && !old(prepended) ==> !prepended
    {
      match op
      case Append(bytes) => Put(bytes);
      case Retrieve(len) => Take(len);
      case Prepend(bytes) => PutFront(bytes);
      case Unwrite(len) => TakeBack(len);
      case Shrink(reserve) => ShrinkTo(reserve);
      case ReadFrom(result) => var n := ReadFd(result);
    }

    // Runs the operations up to the first whose assert would fail: the buffer is a queue of bytes all along.
    method PerformAll(ops: seq<Op>) returns (done: nat)
      requires Valid()
      modifies this
      ensures done <= |ops| && Valid() && Contents() == QueueRun(old(Contents()), ops[..done])
      ensures done < |ops| ==> !Legal(ops[done])
      ensures !old(prepended) && (forall i :: 0 <= i < done ==> !ops[i].Prepend?) ==>
        PrependableBytes() >= CHEAP_PREPEND
    {
      done := 0;
      while done < |ops| && Legal(ops[done])
        invariant done <= |ops| && Valid() && Contents() == QueueRun(old(Contents()), ops[..done])
        invariant !old(prepended) && (forall i :: 0 <= i < done ==> !ops[i].Prepend?) ==> !prepended
      {
        assert ops[..done + 1][..done] == ops[..done];
        Perform(ops[done]);
        done := done + 1;
      }
    }
  }

  lemma SameSplit(a: seq<byte>, b: seq<byte>, c: seq<byte>, d: seq<byte>)
    requires a + b == c + d && |a| == |c|
    ensures a == c && b == d
  {
    assert (a + b)[..|a|] == a && (c + d)[..|c|] == c;
    assert (a + b)[|a|..] == b && (c + d)[|c|..] == d;
  }

  lemma EncodeAllHead(items: seq<Item>, i: nat, rest: seq<byte>)
    requires i < |items|
    ensures
      var (w, all) := (items[i].width, EncodeAll(items[i..]) + rest);
      && w <= |all| && all[..w] == Encode(items[i].value, w) && all[w..] == EncodeAll(items[i + 1..]) + rest
  {
    hide Encode;
    assert items[i..][1..] == items[i + 1..];
  }

  lemma {:induction false} EncodeAllSnoc(items: seq<Item>, x: Item)
    ensures EncodeAll(items + [x]) == EncodeAll(items) + Encode(x.value, x.width)
  {
    if items == [] {
      assert (items + [x])[1..] == [];
    } else {
      EncodeAllSnoc(items[1..], x);
      assert (items + [x])[1..] == items[1..] + [x];
    }
  }
}
