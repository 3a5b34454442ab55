/**
 Formatting of integers into a fixed buffer: base/log_stream.cc and the buffer of base/log_stream.h.
 */
module LogStreams {
  import opened CDivision

  // ---------- Numerals ----------

  // The printed digits mirrored around zero, indexed by a remainder plus 9.
  const DIGITS := "9876543210123456789"
  const HEX_DIGITS := "0123456789ABCDEF"

  // The numeral of n in a base up to 16, most significant digit first.
  function Numeral(n: nat, base: nat): (s: string)
    requires 2 <= base <= 16
    ensures |s| > 0
  {
    if n < base then [HEX_DIGITS[n]]
    else Division(n, base); Smaller(n, base); Numeral(n / base, base) + [HEX_DIGITS[n % base]]
  }

  function Decimal(v: int): string {
    if v < 0 then "-" + Numeral(-v, 10) else Numeral(v, 10)
  }

  function Hexadecimal(v: nat): string {
    "0x" + Numeral(v, 16)
  }

  // The value of a digit; 16 if the character is none.
  function DigitValue(c: char): nat {
    if '0' <= c <= '9' then (c - '0') as nat
    else if 'A' <= c <= 'F' then (c - 'A') as nat + 10
    else 16
  }

  predicate AllDigits(s: string, base: nat) {
    forall i :: 0 <= i < |s| ==> DigitValue(s[i]) < base
  }

  // What a reader makes of a numeral.
  function Parse(s: string, base: nat): nat {
    if s == [] then 0 else Parse(s[..|s| - 1], base) * base + DigitValue(s[|s| - 1])
  }

  function ParseDecimal(s: string): int {
    var negative := s != [] && s[0] == '-';
    var n: int := Parse(if negative then s[1..] else s, 10);
    if negative then -n else n
  }

  // Digits only, at least one, and a leading zero only in "0".
  predicate IsNumeral(s: string, base: nat) {
    AllDigits(s, base) && |s| > 0 && (s[0] == '0' ==> |s| == 1)
  }

  lemma DigitOf(d: nat)
    requires d < 16
    ensures DigitValue(HEX_DIGITS[d]) == d && (HEX_DIGITS[d] == '0' ==> d == 0)
    ensures d < 10 ==> DIGITS[9 + d] == HEX_DIGITS[d] && DIGITS[9 - d] == HEX_DIGITS[d]
  {
  }

  lemma DigitChar(c: char)
    requires DigitValue(c) < 16
    ensures HEX_DIGITS[DigitValue(c)] == c
  {
  }

  lemma Division(n: nat, base: nat)
    requires base >= 2
    ensures n / base * base + n % base == n && n % base < base && (n >= base ==> n / base > 0)
  {
  }

  lemma Smaller(n: nat, base: nat)
    requires base >= 2
    ensures n > 0 ==> n / base < n
  {
  }

  // What is printed is a numeral.
  lemma {:induction false} NumeralShape(n: nat, base: nat)
    requires 2 <= base <= 16
    ensures IsNumeral(Numeral(n, base), base) && (n > 0 ==> Numeral(n, base)[0] != '0')
  {
    hide Numeral, DigitValue, IsNumeral;
    LastDigit(n, base);
    Division(n, base);
    Smaller(n, base);
    var c := HEX_DIGITS[n % base];
    DigitOf(n % base);
    if n / base != 0 {
      NumeralShape(n / base, base);
      ShapeSnoc(Numeral(n / base, base), c, base);
    } else {
      ShapeDigit(c, base);
      assert [] + [c] == [c];
    }
  }

  lemma ShapeDigit(c: char, base: nat)
    requires DigitValue(c) < base
    ensures IsNumeral([c], base)
  {
  }

  lemma ShapeSnoc(t: string, c: char, base: nat)
    requires IsNumeral(t, base) && t[0] != '0' && DigitValue(c) < base
    ensures IsNumeral(t + [c], base) && (t + [c])[0] != '0'
  {
    hide DigitValue;
  }

  // Printing then reading gives the number back.
  lemma {:induction false} ParseNumeral(n: nat, base: nat)
    requires 2 <= base <= 16
    ensures Parse(Numeral(n, base), base) == n
  {
    hide Numeral, Parse, DigitValue;
    LastDigit(n, base);
    Division(n, base);
    Smaller(n, base);
    DigitOf(n % base);
    var front := if n / base != 0 then Numeral(n / base, base) else [];
    ParseSnoc(front, HEX_DIGITS[n % base], base);
    if n / base != 0 {
      ParseNumeral(n / base, base);
    } else {
      ParseNone(base);
    }
  }

  lemma ParseNone(base: nat)
    ensures Parse([], base) == 0
  {
  }

  lemma ParseSnoc(s: string, c: char, base: nat)
    ensures Parse(s + [c], base) == Parse(s, base) * base + DigitValue(c)
  {
    assert (s + [c])[..|s|] == s;
  }

  // Reading then printing gives the text back: each number has one numeral.
  lemma {:induction false} NumeralParse(s: string, base: nat)
    requires 2 <= base <= 16 && IsNumeral(s, base)
    ensures Numeral(Parse(s, base), base) == s
    ensures s != "0" ==> Parse(s, base) > 0
  {
    hide Numeral, Parse, DigitValue;
    var t, c := s[..|s| - 1], s[|s| - 1];
    assert s == t + [c];
    if t == [] {
      ParseDigit(c, base);
      assert s == [c];
    } else {
      assert IsNumeral(t, base) && t != "0";
      NumeralParse(t, base);
      NumeralSnoc(t, c, base);
    }
  }

  lemma ParseDigit(c: char, base: nat)
    requires 2 <= base <= 16 && DigitValue(c) < base
    ensures Numeral(Parse([c], base), base) == [c] && (c != '0' ==> Parse([c], base) > 0)
  {
    assert [c][..0] == [];
    DigitChar(c);
    OneDigit(DigitValue(c), base);
  }

  lemma NumeralSnoc(t: string, c: char, base: nat)
    requires 2 <= base <= 16 && DigitValue(c) < base && Parse(t, base) > 0 && Numeral(Parse(t, base), base) == t
    ensures Numeral(Parse(t + [c], base), base) == t + [c] && Parse(t + [c], base) > 0
  {
    hide Numeral, Parse, DigitValue;
    ParseSnoc(t, c, base);
    DigitChar(c);
    Shifted(Parse(t, base), base, DigitValue(c));
  }

  lemma Shifted(q: nat, base: nat, d: nat)
    requires 2 <= base <= 16 && d < base && q > 0
    ensures q * base + d > 0 && Numeral(q * base + d, base) == Numeral(q, base) + [HEX_DIGITS[d]]
  {
    hide Numeral;
    Quotient(q, base, d);
    LastDigit(q * base + d, base);
  }

  lemma OneDigit(d: nat, base: nat)
    requires 2 <= base <= 16 && d < base
    ensures Numeral(d, base) == [HEX_DIGITS[d]]
  {
  }

  lemma Quotient(q: nat, base: nat, d: nat)
    requires base >= 2 && d < base && q > 0
    ensures (q * base + d) / base == q && (q * base + d) % base == d && q * base + d >= base
  {
    var n := q * base + d;
    QuotientBelow(n, base, q);
    QuotientBelow(n, base, q + 1);
    assert base * (q + 1) == base * q + base && base * q == q * base;
    assert n / base == q;
    assert q * base >= base;
  }

  // Decimal text and integers, the most negative included.
  lemma DecimalRoundTrip(v: int)
    ensures ParseDecimal(Decimal(v)) == v
    ensures v >= 0 ==> IsNumeral(Decimal(v), 10)
    ensures v < 0 ==> Decimal(v)[0] == '-' && IsNumeral(Decimal(v)[1..], 10) && Decimal(v)[1] != '0'
  {
    ParseNumeral(if v < 0 then -v else v, 10);
    NumeralShape(if v < 0 then -v else v, 10);
    var s := Decimal(v);
    if v < 0 {
      assert s[1..] == Numeral(-v, 10);
    }
  }

  // A pointer is "0x" and its hexadecimal numeral.
  lemma HexadecimalRoundTrip(v: nat)
    ensures Hexadecimal(v)[..2] == "0x" && IsNumeral(Hexadecimal(v)[2..], 16)
    ensures Parse(Hexadecimal(v)[2..], 16) == v
  {
    hide Numeral, IsNumeral, Parse;
    ParseNumeral(v, 16);
    NumeralShape(v, 16);
    assert Hexadecimal(v)[2..] == Numeral(v, 16);
  }

  function Power(base: nat, k: nat): nat {
    if k == 0 then 1 else base * Power(base, k - 1)
  }

  // A numeral has k digits or fewer exactly when the number is below base to the k.
  lemma {:induction false} NumeralLength(n: nat, base: nat, k: nat)
    requires 2 <= base <= 16 && k > 0
    ensures |Numeral(n, base)| <= k <==> n < Power(base, k)
    decreases k
  {
    hide Numeral;
    LastDigit(n, base);
    QuotientBelow(n, base, Power(base, k - 1));
    PowerPositive(base, k - 1);
    if n / base != 0 && k > 1 {
      NumeralLength(n / base, base, k - 1);
    }
  }

  lemma {:induction false} PowerPositive(base: nat, k: nat)
    requires base >= 2
    ensures Power(base, k) >= 1
  {
    if k > 0 {
      PowerPositive(base, k - 1);
    }
  }

  lemma QuotientBelow(n: nat, base: nat, p: nat)
    requires base >= 2
    ensures n / base < p <==> n < base * p
  {
    var q := n / base;
    assert base * q <= n < base * (q + 1);
    if q < p {
      assert base * (q + 1) <= base * p;
    } else {
      assert base * p <= base * q;
    }
  }

  const MAX_NUMERIC := 32

  predicate Word(v: int) {
    -0x8000_0000_0000_0000 <= v < 0x1_0000_0000_0000_0000
  }

  // Every 64-bit integer and pointer, with its terminator, stays within the reserve.
  lemma WithinReserve(v: int)
    requires Word(v)
    ensures |Decimal(v)| <= 20
    ensures v >= 0 ==> |Hexadecimal(v)| <= 18
  {
    PowersOf();
    if v < 0 {
      NumeralLength(-v, 10, 19);
    } else {
      NumeralLength(v, 10, 20);
      NumeralLength(v, 16, 16);
    }
  }

  lemma PowersOf()
    ensures Power(10, 19) == 10_000_000_000_000_000_000
    ensures Power(10, 20) == 100_000_000_000_000_000_000
    ensures Power(16, 16) == 0x1_0000_0000_0000_0000
  {
    assert Power(10, 5) == 100_000;
    assert Power(10, 10) == 10_000_000_000;
    assert Power(10, 15) == 1_000_000_000_000_000;
    assert Power(16, 8) == 0x1_0000_0000;
  }

  // ---------- Conversion in place ----------

  function Reversed(s: string): (r: string)
    ensures |r| == |s|
  {
    seq(|s|, i requires 0 <= i < |s| => s[|s| - 1 - i])
  }

  lemma ReversedSnoc(s: string, c: char)
    ensures Reversed(s + [c]) == [c] + Reversed(s)
  {
  }

  // std::reverse.
  method ReverseRange(buf: array<char>, lo: nat, hi: nat)
    requires lo <= hi <= buf.Length
    modifies buf
    ensures buf[lo..hi] == Reversed(old(buf[lo..hi]))
    ensures forall i :: 0 <= i < buf.Length && !(lo <= i < hi) ==> buf[i] == old(buf[i])
  {
    var first, last := lo, hi;
    while first + 1 < last
      invariant lo <= first <= hi && lo <= last <= hi && first - lo == hi - last && first <= last
      invariant forall i :: 0 <= i < buf.Length && !(lo <= i < first) && !(last <= i < hi) ==> buf[i] == old(buf[i])
      invariant forall i :: lo <= i < first || last <= i < hi ==> buf[i] == old(buf[lo + hi - 1 - i])
    {
      last := last - 1;
      buf[first], buf[last] := buf[last], buf[first];
      first := first + 1;
    }
    ghost var was, mine := old(buf[lo..hi]), buf[lo..hi];
    forall k | 0 <= k < hi - lo ensures mine[k] == Reversed(was)[k] {
      assert mine[k] == buf[lo + k] && Reversed(was)[k] == old(buf[hi - 1 - k]);
    }
  }

  function Abs(v: int): nat {
    if v < 0 then -v else v
  }

  // One turn of the digit loop: C's remainder and quotient of a negative number mirror those of its magnitude.
  lemma NextDigit(i: int)
    ensures -9 <= TruncMod(i, 10) <= 9 && DIGITS[9 + TruncMod(i, 10)] == HEX_DIGITS[Abs(i) % 10]
    ensures Abs(TruncDiv(i, 10)) == Abs(i) / 10
  {
    DigitOf(Abs(i) % 10);
  }

  // The digits still to come, then those already written, last first.
  ghost predicate Progress(n: nat, base: nat, rest: nat, more: bool, written: string)
    requires 2 <= base <= 16
  {
    Numeral(n, base) == (if more then Numeral(rest, base) else []) + Reversed(written)
  }

  lemma ProgressStart(n: nat, base: nat)
    requires 2 <= base <= 16
    ensures Progress(n, base, n, true, [])
  {
  }

  lemma ProgressStep(n: nat, base: nat, rest: nat, written: string)
    requires 2 <= base <= 16 && Progress(n, base, rest, true, written)
    ensures Progress(n, base, rest / base, rest / base != 0, written + [HEX_DIGITS[rest % base]])
    ensures |written| < |Numeral(n, base)|
  {
    hide Numeral, Reversed;
    var c := HEX_DIGITS[rest % base];
    ReversedSnoc(written, c);
    LastDigit(rest, base);
    var front := if rest / base != 0 then Numeral(rest / base, base) else [];
    assert front + [c] + Reversed(written) == front + Reversed(written + [c]);
  }

  lemma LastDigit(n: nat, base: nat)
    requires 2 <= base <= 16
    ensures n % base < base
    ensures Numeral(n, base) == (if n / base != 0 then Numeral(n / base, base) else []) + [HEX_DIGITS[n % base]]
  {
    Division(n, base);
    if n < base {
      BelowBase(n, base);
    }
  }

  lemma BelowBase(n: nat, base: nat)
    requires n < base
    ensures n / base == 0 && n % base == n
  {
  }

  lemma ProgressEnd(n: nat, base: nat, rest: nat, written: string)
    requires 2 <= base <= 16 && Progress(n, base, rest, false, written)
    ensures Reversed(written) == Numeral(n, base) && Reversed(written + "-") == "-" + Numeral(n, base)
  {
    ReversedSnoc(written, '-');
  }

  // Storing a character where p points and moving p on, in the text that begins at `at`.
  method PutChar(buf: array<char>, at: nat, p: nat, c: char) returns (q: nat)
    requires at <= p < buf.Length
    modifies buf
    ensures q == p + 1 && buf[at..q] == old(buf[at..p]) + [c]
    ensures forall i :: 0 <= i < buf.Length && i != p ==> buf[i] == old(buf[i])
  {
    buf[p] := c;
    q := p + 1;
  }

  // convert.
  method Convert(buf: array<char>, at: nat, value: int) returns (len: nat)
    requires Word(value) && at + MAX_NUMERIC <= buf.Length
    modifies buf
    ensures len <= 20 && buf[at..at + len] == Decimal(value) && buf[at + len] == '\0'
    ensures forall i :: 0 <= i < buf.Length && !(at <= i <= at + len) ==> buf[i] == old(buf[i])
  {
    hide Numeral, Reversed, Progress, TruncDiv, TruncMod;
    var i, p, more := value, at, true;
    WithinReserve(value);
    ProgressStart(Abs(value), 10);
    assert buf[at..p] == [];
    while more
      invariant at <= p <= at + 20 && (value < 0 ==> p <= at + 19)
      invariant Progress(Abs(value), 10, Abs(i), more, buf[at..p])
      invariant forall k :: 0 <= k < buf.Length && !(at <= k < p) ==> buf[k] == old(buf[k])
      decreases if more then Abs(i) + 1 else 0
    {
      NextDigit(i);
      ProgressStep(Abs(value), 10, Abs(i), buf[at..p]);
      var lsd := TruncMod(i, 10);
      i := TruncDiv(i, 10);
      p := PutChar(buf, at, p, DIGITS[9 + lsd]);
      more := i != 0;
    }
    ProgressEnd(Abs(value), 10, Abs(i), buf[at..p]);
    if value < 0 {
      p := PutChar(buf, at, p, '-');
    }
    buf[p] := '\0';
    ReverseRange(buf, at, p);
    len := p - at;
  }

  // convertHex.
  method ConvertHex(buf: array<char>, at: nat, value: nat) returns (len: nat)
    requires Word(value) && at + MAX_NUMERIC - 2 <= buf.Length
    modifies buf
    ensures len <= 16 && buf[at..at + len] == Numeral(value, 16) && buf[at + len] == '\0'
    ensures forall i :: 0 <= i < buf.Length && !(at <= i <= at + len) ==> buf[i] == old(buf[i])
  {
    hide Numeral, Reversed, Progress;
    var i, p, more := value, at, true;
    WithinReserve(value);
    ProgressStart(value, 16);
    assert buf[at..p] == [];
    while more
      invariant at <= p <= at + 16
      invariant Progress(value, 16, i, more, buf[at..p])
      invariant forall k :: 0 <= k < buf.Length && !(at <= k < p) ==> buf[k] == old(buf[k])
      decreases if more then i + 1 else 0
    {
      ProgressStep(value, 16, i, buf[at..p]);
      var lsd := i % 16;
      i := i / 16;
      p := PutChar(buf, at, p, HEX_DIGITS[lsd]);
      more := i != 0;
    }
    ProgressEnd(value, 16, i, buf[at..p]);
    buf[p] := '\0';
    ReverseRange(buf, at, p);
    len := p - at;
  }

  // ---------- What a stream holds ----------

  // What is put into a stream: characters, an integer of some width, or a pointer.
  datatype Piece = Text(text: string) | Number(value: int) | Pointer(address: nat)

  predicate IsPiece(p: Piece) {
    (p.Number? ==> Word(p.value)) && (p.Pointer? ==> Word(p.address))
  }

  function Shown(p: Piece): string {
    match p
    case Text(text) => text
    case Number(v) => Decimal(v)
    case Pointer(a) => Hexadecimal(a)
  }

  // Text needs one free byte more than its length, numbers the whole reserve.
  predicate Fits(size: nat, used: nat, p: Piece) {
    if p.Text? then used + |p.text| < size else used + MAX_NUMERIC <= size
  }

  // The pieces a buffer with `used` bytes in use takes.
  function Stored(size: nat, used: nat, pieces: seq<Piece>): seq<Piece>
    decreases |pieces|
  {
    if pieces == [] then []
    else if Fits(size, used, pieces[0]) then
      [pieces[0]] + Stored(size, used + |Shown(pieces[0])|, pieces[1..])
    else Stored(size, used, pieces[1..])
  }

  function Concat(pieces: seq<Piece>): string {
    if pieces == [] then [] else Shown(pieces[0]) + Concat(pieces[1..])
  }

  // a is b with some pieces left out.
  predicate Subsequence(a: seq<Piece>, b: seq<Piece>) {
    a == [] || (b != [] && ((a[0] == b[0] && Subsequence(a[1..], b[1..])) || Subsequence(a, b[1..])))
  }

  predicate ArePieces(pieces: seq<Piece>) {
    forall i :: 0 <= i < |pieces| ==> IsPiece(pieces[i])
  }

  lemma PieceRoom(size: nat, used: nat, p: Piece)
    requires IsPiece(p) && Fits(size, used, p)
    ensures used + |Shown(p)| < size
  {
    match p
    case Text(_) =>
    case Number(v) => WithinReserve(v);
    case Pointer(a) => WithinReserve(a);
  }

  // Each piece is stored whole or not at all, in order, and at least one byte stays free.
  lemma {:induction false} StoredBounded(size: nat, used: nat, pieces: seq<Piece>)
    requires used < size && ArePieces(pieces)
    ensures used + |Concat(Stored(size, used, pieces))| < size
    ensures Subsequence(Stored(size, used, pieces), pieces)
    decreases |pieces|
  {
    hide Shown;
    if pieces != [] {
      var p := pieces[0];
      if Fits(size, used, p) {
        PieceRoom(size, used, p);
        StoredBounded(size, used + |Shown(p)|, pieces[1..]);
        assert Stored(size, used, pieces)[1..] == Stored(size, used + |Shown(p)|, pieces[1..]);
      } else {
        StoredBounded(size, used, pieces[1..]);
      }
    }
  }

  // Whether a piece is stored depends only on the room left when its turn comes: text needs one byte more than its
  // length, a number or a pointer the whole reserve.
  lemma {:induction false} StoredExact(size: nat, used: nat, pieces: seq<Piece>, p: Piece)
    ensures
      var before := Stored(size, used, pieces);
      var free := size - used - |Concat(before)|;
      Stored(size, used, pieces + [p]) ==
        before + if (if p.Text? then |p.text| < free else 32 <= free) then [p] else []
    decreases |pieces|
  {
    hide Shown;
    if pieces == [] {
      assert (pieces + [p])[1..] == [] && (pieces + [p])[0] == p;
      StoredSingle(size, used, p);
    } else {
      assert (pieces + [p])[1..] == pieces[1..] + [p] && (pieces + [p])[0] == pieces[0];
      var used1 := if Fits(size, used, pieces[0]) then used + |Shown(pieces[0])| else used;
      StoredExact(size, used1, pieces[1..], p);
      if Fits(size, used, pieces[0]) {
        var rest := Stored(size, used1, pieces[1..]);
        assert ([pieces[0]] + rest)[1..] == rest;
      }
    }
  }

  lemma StoredSingle(size: nat, used: nat, p: Piece)
    ensures Stored(size, used, [p]) ==
      if (if p.Text? then |p.text| < size - used else 32 <= size - used) then [p] else []
  {
    assert [p][1..] == [];
  }

  // Nothing is left out while the reserve remains free.
  lemma {:induction false} StoredAll(size: nat, used: nat, pieces: seq<Piece>)
    requires used + |Concat(pieces)| + MAX_NUMERIC <= size
    ensures Stored(size, used, pieces) == pieces
    decreases |pieces|
  {
    hide Shown;
    if pieces != [] {
      var p := pieces[0];
      assert p.Text? ==> Shown(p) == p.text by {
        TextShown(p);
      }
      StoredAll(size, used + |Shown(p)|, pieces[1..]);
    }
  }

  // The first piece is taken or left out, and the rest follows.
  lemma StoredNext(size: nat, used: nat, pieces: seq<Piece>, k: nat, before: string)
    requires k < |pieces|
    ensures
      var shown := if Fits(size, used, pieces[k]) then Shown(pieces[k]) else [];
      before + Concat(Stored(size, used, pieces[k..])) ==
      before + shown + Concat(Stored(size, used + |shown|, pieces[k + 1..]))
  {
    hide Shown, Fits;
    assert pieces[k..][1..] == pieces[k + 1..];
    var shown := if Fits(size, used, pieces[k]) then Shown(pieces[k]) else [];
    var rest := Stored(size, used + |shown|, pieces[k + 1..]);
    if Fits(size, used, pieces[k]) {
      assert ([pieces[k]] + rest)[1..] == rest;
      assert before + (shown + Concat(rest)) == before + shown + Concat(rest);
    }
  }

  lemma StoredNone(size: nat, used: nat)
    ensures Concat(Stored(size, used, [])) == []
  {
  }

  lemma TextShown(p: Piece)
    ensures p.Text? ==> Shown(p) == p.text
  {
  }

  lemma PointerText(before: string, bytes: string, at: nat, len: nat, p: nat)
    requires at + 2 + len <= |bytes| && bytes[..at] == before && bytes[at] == '0' && bytes[at + 1] == 'x'
    requires bytes[at + 2..at + 2 + len] == Numeral(p, 16)
    ensures bytes[..at + 2 + len] == before + Hexadecimal(p)
  {
    hide Numeral;
    assert bytes[..at + 2 + len] == bytes[..at] + [bytes[at], bytes[at + 1]] + bytes[at + 2..at + 2 + len];
  }

  // FixedBuffer.
  class FixedBuffer {
    const data: array<char>
    var cur: nat

    ghost predicate Valid()
      reads this
    {
      cur < data.Length
    }

    ghost function Contents(): string
      requires Valid()
      reads this, data
    {
      data[..cur]
    }

    constructor (size: nat)
      requires size > 0
      ensures Valid() && Contents() == [] && data.Length == size && fresh(data)
    {
      data := new char[size];
      cur := 0;
    }

    function Avail(): (n: int)
      reads this
    {
      data.Length - cur
    }

    method Append(text: string)
      requires Valid()
      modifies this, data
      ensures Valid() && Contents() == old(Contents()) + if Fits(data.Length, old(cur), Text(text)) then text else []
    {
      if Avail() > |text| {
        forall i | 0 <= i < |text| {
          data[cur + i] := text[i];
        }
        cur := cur + |text|;
        assert data[..cur] == old(data[..cur]) + text;
      }
    }

    method Add(len: nat)
      requires cur + len < data.Length
      modifies `cur
      ensures Valid() && cur == old(cur) + len
    {
      cur := cur + len;
    }
  }

  // LogStream.
  class LogStream {
    const buffer: FixedBuffer

    constructor ()
      ensures fresh(buffer) && fresh(buffer.data) && buffer.data.Length == SMALL_BUFFER
      ensures buffer.Valid() && buffer.Contents() == []
    {
      buffer := new FixedBuffer(SMALL_BUFFER);
    }

    // formatInteger.
    method FormatInteger(v: int)
      requires buffer.Valid() && Word(v)
      modifies buffer, buffer.data
      ensures buffer.Valid()
      ensures buffer.Contents() ==
              old(buffer.Contents()) + if Fits(buffer.data.Length, old(buffer.cur), Number(v)) then Decimal(v) else []
    {
      hide Decimal;
      if buffer.Avail() >= MAX_NUMERIC {
        var len := Convert(buffer.data, buffer.cur, v);
        buffer.Add(len);
        assert buffer.Contents() == old(buffer.Contents()) + Decimal(v);
      }
    }

    // operator<< of a pointer.
    method FormatPointer(p: nat)
      requires buffer.Valid() && Word(p)
      modifies buffer, buffer.data
      ensures buffer.Valid()
      ensures buffer.Contents() ==
              old(buffer.Contents()) +
              if Fits(buffer.data.Length, old(buffer.cur), Pointer(p)) then Hexadecimal(p) else []
    {
      hide Numeral, Hexadecimal;
      if buffer.Avail() >= MAX_NUMERIC {
        var at := buffer.cur;
        buffer.data[at] := '0';
        buffer.data[at + 1] := 'x';
        var len := ConvertHex(buffer.data, at + 2, p);
        buffer.Add(len + 2);
        PointerText(old(buffer.Contents()), buffer.data[..], at, len, p);
        assert buffer.Contents() == buffer.data[..][..at + 2 + len];
      }
    }

    method Put(p: Piece)
      requires buffer.Valid() && IsPiece(p)
      modifies buffer, buffer.data
      ensures buffer.Valid()
      ensures buffer.Contents() ==
              old(buffer.Contents()) + if Fits(buffer.data.Length, old(buffer.cur), p) then Shown(p) else []
    {
      hide Numeral;
      match p
      case Text(text) => buffer.Append(text);
      case Number(v) => FormatInteger(v);
      case Pointer(a) => FormatPointer(a);
    }

    // Any chain of insertions stores the pieces that fit, each of them whole.
    method PutAll(pieces: seq<Piece>)
      requires buffer.Valid() && ArePieces(pieces)
      modifies buffer, buffer.data
      ensures buffer.Valid()
      ensures buffer.Contents() ==
              old(buffer.Contents()) + Concat(Stored(buffer.data.Length, old(buffer.cur), pieces))
    {
      hide Shown, Fits, Stored, Concat;
      var k := 0;
      ghost var size := buffer.data.Length;
      assert pieces[0..] == pieces;
      while k < |pieces|
        invariant k <= |pieces| && buffer.Valid()
        invariant buffer.Contents() + Concat(Stored(size, buffer.cur, pieces[k..])) ==
                  old(buffer.Contents()) + Concat(Stored(size, old(buffer.cur), pieces))
      {
        StoredNext(size, buffer.cur, pieces, k, buffer.Contents());
        Put(pieces[k]);
        k := k + 1;
      }
      StoredNone(size, buffer.cur);
      assert pieces[|pieces|..] == [];
    }
  }

  const SMALL_BUFFER := 4000
}
