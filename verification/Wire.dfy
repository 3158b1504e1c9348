// The low-level fixed format: integers, strings and byte strings, as written to and read from the
// cache buffers. Each `XBytes` function is the encoding, each `ParseX` the decoder.
module Wire {
  import opened Text

  datatype Parsed<+T> = Ok(value: T, rest: Bytes) | Err {
    predicate IsFailure() { Err? }
    function PropagateFailure<U>(): Parsed<U> requires Err? { Err }
    function Extract(): (T, Bytes) requires Ok? { (value, rest) }
  }

  const MIN_ONE_BYTE_INT := -10
  const MAX_ONE_BYTE_INT := 117
  const MIN_TWO_BYTES_INT := -100
  const MAX_TWO_BYTES_INT := 16283
  const MIN_FOUR_BYTES_INT := -10000
  const MAX_FOUR_BYTES_INT := 536860911
  const LONG_INT_TRAILER: byte := 15

  predicate IsShortInt(v: int) {
    MIN_FOUR_BYTES_INT <= v <= MAX_FOUR_BYTES_INT
  }

  function ShortIntBytes(v: int): Bytes
    requires IsShortInt(v)
  {
    if MIN_ONE_BYTE_INT <= v <= MAX_ONE_BYTE_INT then
      [(v - MIN_ONE_BYTE_INT) * 2]
    else if MIN_TWO_BYTES_INT <= v <= MAX_TWO_BYTES_INT then
      var x := (v - MIN_TWO_BYTES_INT) * 4 + 1;
      [x % 256, x / 256]
    else
      var x := (v - MIN_FOUR_BYTES_INT) * 8 + 3;
      [x % 256, x / 256 % 256, x / 65536 % 256, x / 16777216]
  }

  /** Finishes reading a short integer whose first byte has been consumed. */
  function ParseShortInt(first: byte, b: Bytes): Parsed<int> {
    if first % 2 == 0 then
      Ok(first / 2 + MIN_ONE_BYTE_INT, b)
    else if first / 2 % 2 == 0 then
      if |b| < 1 then Err
      else Ok(b[0] * 64 + first / 4 + MIN_TWO_BYTES_INT, b[1..])
    else if |b| < 3 then Err
    else Ok((b[1] + 256 * b[2]) * 8192 + b[0] * 32 + first / 8 + MIN_FOUR_BYTES_INT, b[3..])
  }

  lemma ShortIntRoundTrip(v: int, rest: Bytes)
    requires IsShortInt(v)
    ensures var e := ShortIntBytes(v);
            |e| >= 1 && e[0] != LONG_INT_TRAILER && ParseShortInt(e[0], e[1..] + rest) == Ok(v, rest)
  {
    if MIN_ONE_BYTE_INT <= v <= MAX_ONE_BYTE_INT {
      assert ShortIntBytes(v)[1..] + rest == rest;
    } else if MIN_TWO_BYTES_INT <= v <= MAX_TWO_BYTES_INT {
      TwoBytesRoundTrip(v, rest);
    } else {
      FourBytesRoundTrip(v, rest);
    }
  }

  lemma TwoBytesRoundTrip(v: int, rest: Bytes)
    requires MIN_TWO_BYTES_INT <= v <= MAX_TWO_BYTES_INT
    requires !(MIN_ONE_BYTE_INT <= v <= MAX_ONE_BYTE_INT)
    ensures var e := ShortIntBytes(v);
            |e| == 2 && e[0] != LONG_INT_TRAILER && ParseShortInt(e[0], e[1..] + rest) == Ok(v, rest)
  {
    var e := ShortIntBytes(v);
    var x := (v - MIN_TWO_BYTES_INT) * 4 + 1;
    var low: int, high: int := e[0], e[1];
    assert low % 4 == 1 && low + 256 * high == x;
    assert e[1..] + rest == [e[1]] + rest;
    assert ([e[1]] + rest)[1..] == rest;
  }

  lemma FourBytesRoundTrip(v: int, rest: Bytes)
    requires IsShortInt(v) && !(MIN_TWO_BYTES_INT <= v <= MAX_TWO_BYTES_INT)
    ensures var e := ShortIntBytes(v);
            |e| == 4 && e[0] != LONG_INT_TRAILER && ParseShortInt(e[0], e[1..] + rest) == Ok(v, rest)
  {
    var e := ShortIntBytes(v);
    var x := (v - MIN_FOUR_BYTES_INT) * 8 + 3;
    FourBytesSum(x);
    assert e[0] % 8 == 3;
    assert e[1..] + rest == [e[1], e[2], e[3]] + rest;
    assert ([e[1], e[2], e[3]] + rest)[3..] == rest;
  }

  lemma FourBytesSum(x: nat)
    requires x % 8 == 3
    ensures x % 256 + 256 * (x / 256 % 256) + 65536 * (x / 65536 % 256) + 16777216 * (x / 16777216) == x
    ensures x % 256 % 8 == 3
  {
    assert x / 256 == 256 * (x / 65536) + x / 256 % 256;
    assert x / 65536 == 256 * (x / 16777216) + x / 65536 % 256;
  }

  // Arbitrary integers: short ones as above, others as a trailer byte, a short integer holding
  // the byte count and sign, and the absolute value in little-endian order.

  function LittleEndian(n: nat): Bytes {
    if n == 0 then [] else [n % 256] + LittleEndian(n / 256)
  }

  function FromLittleEndian(b: Bytes): nat {
    if b == [] then 0 else b[0] + 256 * FromLittleEndian(b[1..])
  }

  lemma {:induction false} LittleEndianRoundTrip(n: nat)
    ensures FromLittleEndian(LittleEndian(n)) == n
  {
    if n != 0 {
      LittleEndianRoundTrip(n / 256);
      assert LittleEndian(n)[1..] == LittleEndian(n / 256);
    }
  }

  function Abs(v: int): nat {
    if v < 0 then -v else v
  }

  function SizeAndSign(v: int): nat {
    2 * |LittleEndian(Abs(v))| + (if v < 0 then 1 else 0)
  }

  /** The writer raises ValueError for an integer whose byte count does not fit. */
  predicate FitsInt(v: int) {
    IsShortInt(v) || SizeAndSign(v) <= MAX_FOUR_BYTES_INT
  }

  function IntBytes(v: int): Bytes
    requires FitsInt(v)
  {
    if IsShortInt(v) then ShortIntBytes(v)
    else [LONG_INT_TRAILER] + ShortIntBytes(SizeAndSign(v)) + LittleEndian(Abs(v))
  }

  /** Finishes reading an integer whose trailer byte has been consumed. */
  function ParseLongInt(b: Bytes): (r: Parsed<int>)
    ensures r.Ok? ==> |r.rest| < |b|
  {
    if |b| < 1 then Err
    else
      var (sizeAndSign, data) :- ParseShortInt(b[0], b[1..]);
      if sizeAndSign < 0 then Err
      else
        var size := sizeAndSign / 2;
        if |data| < size then Err
        else
          var n: int := FromLittleEndian(data[..size]);
          Ok(if sizeAndSign % 2 == 1 then -n else n, data[size..])
  }

  /** A successful read consumes at least one byte. */
  function ParseInt(b: Bytes): (r: Parsed<int>)
    ensures r.Ok? ==> |r.rest| < |b|
  {
    if |b| < 1 then Err
    else if b[0] != LONG_INT_TRAILER then ParseShortInt(b[0], b[1..])
    else ParseLongInt(b[1..])
  }

  lemma IntRoundTrip(v: int, rest: Bytes)
    requires FitsInt(v)
    ensures ParseInt(IntBytes(v) + rest) == Ok(v, rest)
  {
    if IsShortInt(v) {
      ShortIntRoundTrip(v, rest);
      HeadTail(ShortIntBytes(v), rest);
    } else {
      var head, magnitude := ShortIntBytes(SizeAndSign(v)), LittleEndian(Abs(v));
      ShortIntRoundTrip(SizeAndSign(v), magnitude + rest);
      LongIntRoundTrip(v, head, magnitude, rest);
      TrailerFirst(head, magnitude, rest);
    }
  }

  lemma HeadTail(head: Bytes, rest: Bytes)
    requires |head| >= 1
    ensures (head + rest)[0] == head[0] && (head + rest)[1..] == head[1..] + rest
  {
  }

  lemma TrailerFirst(head: Bytes, magnitude: Bytes, rest: Bytes)
    ensures var b := [LONG_INT_TRAILER] + head + magnitude + rest;
            b[0] == LONG_INT_TRAILER && b[1..] == head + (magnitude + rest)
  {
  }

  /** The length field head stands for is read back, then the digits. */
  lemma LongIntRoundTrip(v: int, head: Bytes, magnitude: Bytes, rest: Bytes)
    requires magnitude == LittleEndian(Abs(v)) && |head| >= 1
    requires ParseShortInt(head[0], head[1..] + (magnitude + rest)) == Ok(SizeAndSign(v), magnitude + rest)
    ensures ParseLongInt(head + (magnitude + rest)) == Ok(v, rest)
  {
    HeadTail(head, magnitude + rest);
    assert (magnitude + rest)[..|magnitude|] == magnitude;
    assert (magnitude + rest)[|magnitude|..] == rest;
    LittleEndianRoundTrip(Abs(v));
  }

  /** Integers of each width: the lowest bits of the first byte say which it is; 15 starts the longest. */
  lemma IntExamples()
    ensures IntBytes(-10) == [0] && IntBytes(0) == [20] && IntBytes(117) == [254]
    ensures IntBytes(-100) == [1, 0] && IntBytes(118) == [105, 3] && IntBytes(16283) == [253, 255]
    ensures IntBytes(-10000) == [3, 0, 0, 0] && IntBytes(16284) == [99, 53, 3, 0]
    ensures IntBytes(-65536) == [15, 34, 0, 0, 1]
  {
  }

  // Strings and byte strings share one format: the length as a short integer, then the bytes.

  /** The writer raises ValueError for longer strings. */
  predicate FitsStr(s: Bytes) {
    |s| <= MAX_FOUR_BYTES_INT
  }

  function StrBytes(s: Bytes): Bytes
    requires FitsStr(s)
  {
    ShortIntBytes(|s|) + s
  }

  /** A successful read consumes at least one byte. */
  function ParseStr(b: Bytes): (r: Parsed<Bytes>)
    ensures r.Ok? ==> |r.rest| < |b|
  {
    if |b| < 1 || b[0] == LONG_INT_TRAILER then Err
    else
      var (size, data) :- ParseShortInt(b[0], b[1..]);
      if size < 0 || |data| < size then Err
      else Ok(data[..size], data[size..])
  }

  lemma StrRoundTrip(s: Bytes, rest: Bytes)
    requires FitsStr(s)
    ensures ParseStr(StrBytes(s) + rest) == Ok(s, rest)
  {
    var head := ShortIntBytes(|s|);
    ShortIntRoundTrip(|s|, s + rest);
    StrAfterLength(head, s, rest);
  }

  lemma StrAfterLength(head: Bytes, s: Bytes, rest: Bytes)
    requires |head| >= 1 && head[0] != LONG_INT_TRAILER
    requires ParseShortInt(head[0], head[1..] + (s + rest)) == Ok(|s|, s + rest)
    ensures ParseStr((head + s) + rest) == Ok(s, rest)
  {
    assert (head + s) + rest == head + (s + rest);
    HeadTail(head, s + rest);
    assert (s + rest)[..|s|] == s;
    assert (s + rest)[|s|..] == rest;
  }

  /** Equal encodings of strings, whatever follows, come from equal strings. */
  lemma StrBytesInjective(s: Bytes, x: Bytes, t: Bytes, y: Bytes)
    requires FitsStr(s) && FitsStr(t) && StrBytes(s) + x == StrBytes(t) + y
    ensures s == t && x == y
  {
    StrRoundTrip(s, x);
    StrRoundTrip(t, y);
  }

  // Codecs of larger values do not depend on how integers and strings are encoded, only on that
  // their ends can be told.

  datatype Format = Format(
    fitsInt: int -> bool, intBytes: int -> Bytes, parseInt: Bytes -> Parsed<int>,
    fitsStr: Bytes -> bool, strBytes: Bytes -> Bytes, parseStr: Bytes -> Parsed<Bytes>)

  ghost predicate IntDelimits(f: Format, v: int, rest: Bytes) {
    f.fitsInt(v) ==> f.parseInt(f.intBytes(v) + rest) == Ok(v, rest)
  }

  ghost predicate StrDelimits(f: Format, s: Bytes, rest: Bytes) {
    f.fitsStr(s) ==> f.parseStr(f.strBytes(s) + rest) == Ok(s, rest)
  }

  /** A successful read consumes something. */
  ghost predicate Consumes(f: Format) {
    && (forall b {:trigger f.parseInt(b)} :: f.parseInt(b).Ok? ==> |f.parseInt(b).rest| < |b|)
    && (forall b {:trigger f.parseStr(b)} :: f.parseStr(b).Ok? ==> |f.parseStr(b).rest| < |b|)
  }

  /** What was written can be read back, whatever follows. */
  ghost predicate Delimits(f: Format) {
    && Consumes(f)
    && (forall v, rest :: IntDelimits(f, v, rest))
    && (forall s, rest :: StrDelimits(f, s, rest))
  }

  /** The functions above. */
  ghost predicate IsFixed(f: Format) {
    && (forall v {:trigger FitsInt(v)} :: f.fitsInt(v) <==> FitsInt(v))
    && (forall v {:trigger IntBytes(v)} | FitsInt(v) :: f.intBytes(v) == IntBytes(v))
    && (forall b {:trigger ParseInt(b)} :: f.parseInt(b) == ParseInt(b))
    && (forall s {:trigger FitsStr(s)} :: f.fitsStr(s) <==> FitsStr(s))
    && (forall s {:trigger StrBytes(s)} | FitsStr(s) :: f.strBytes(s) == StrBytes(s))
    && (forall b {:trigger ParseStr(b)} :: f.parseStr(b) == ParseStr(b))
  }

  lemma FixedDelimits(f: Format)
    requires IsFixed(f)
    ensures Delimits(f)
  {
    forall v, rest
      ensures IntDelimits(f, v, rest)
    {
      if FitsInt(v) {
        IntRoundTrip(v, rest);
        assert f.parseInt(IntBytes(v) + rest) == ParseInt(IntBytes(v) + rest);
      }
    }
    forall s, rest
      ensures StrDelimits(f, s, rest)
    {
      if FitsStr(s) {
        StrRoundTrip(s, rest);
        assert f.parseStr(StrBytes(s) + rest) == ParseStr(StrBytes(s) + rest);
      }
    }
    forall b
      ensures f.parseInt(b).Ok? ==> |f.parseInt(b).rest| < |b|
    {
      assert f.parseInt(b) == ParseInt(b);
    }
    forall b
      ensures f.parseStr(b).Ok? ==> |f.parseStr(b).rest| < |b|
    {
      assert f.parseStr(b) == ParseStr(b);
    }
  }

  ghost function Fixed(): Format {
    Format(v => FitsInt(v), v => if FitsInt(v) then IntBytes(v) else [], b => ParseInt(b),
           s => FitsStr(s), s => if FitsStr(s) then StrBytes(s) else [], b => ParseStr(b))
  }

  lemma FixedIsFixed()
    ensures IsFixed(Fixed())
  {
  }

  /** The growing output buffer. A failed write is a ValueError. */
  class WriteBuffer {
    var data: Bytes

    constructor ()
      ensures data == []
    {
      data := [];
    }

    method WriteTag(tag: byte)
      modifies this
      ensures data == old(data) + [tag]
    {
      data := data + [tag];
    }

    method WriteIntBare(v: int) returns (ok: bool)
      modifies this
      ensures ok <==> FitsInt(v)
      ensures ok ==> data == old(data) + IntBytes(v)
    {
      ok := IsShortInt(v) || SizeAndSign(v) <= MAX_FOUR_BYTES_INT;
      if ok {
        data := data + IntBytes(v);
      }
    }

    method WriteStrBare(s: Bytes) returns (ok: bool)
      modifies this
      ensures ok <==> FitsStr(s)
      ensures ok ==> data == old(data) + StrBytes(s)
    {
      ok := |s| <= MAX_FOUR_BYTES_INT;
      if ok {
        data := data + ShortIntBytes(|s|) + s;
      }
    }
  }

  /** The input buffer: a fixed source and a cursor. None is a ValueError. */
  class ReadBuffer {
    const source: Bytes
    var pos: nat

    ghost predicate Valid()
      reads this
    {
      pos <= |source|
    }

    ghost function Rest(): Bytes
      reads this
      requires Valid()
    {
      source[pos..]
    }

    constructor (source: Bytes)
      ensures Valid() && Rest() == source
    {
      this.source := source;
      pos := 0;
    }

    method ReadTag() returns (r: Option<byte>)
      requires Valid()
      modifies this
      ensures Valid()
      ensures old(Rest()) == [] <==> r.None?
      ensures r.Some? ==> old(Rest()) == [r.value] + Rest()
    {
      if pos == |source| {
        return None;
      }
      r := Some(source[pos]);
      pos := pos + 1;
    }

    /** Takes the next n bytes. */
    method Take(n: nat) returns (r: Option<Bytes>)
      requires Valid()
      modifies this
      ensures Valid()
      ensures r.None? <==> |old(Rest())| < n
      ensures r.Some? ==> r.value == old(Rest())[..n] && Rest() == old(Rest())[n..]
    {
      if |source| - pos < n {
        return None;
      }
      r := Some(source[pos..pos + n]);
      pos := pos + n;
    }

    method ReadShortInt(first: byte) returns (r: Option<int>)
      requires Valid()
      modifies this
      ensures Valid()
      ensures Matches(ParseShortInt(first, old(Rest())), r)
    {
      if first % 2 == 0 {
        return Some(first / 2 + MIN_ONE_BYTE_INT);
      }
      if first / 2 % 2 == 0 {
        var second := Take(1);
        if second.None? {
          return None;
        }
        return Some(second.value[0] * 64 + first / 4 + MIN_TWO_BYTES_INT);
      }
      var more := Take(3);
      if more.None? {
        return None;
      }
      var second: int, lo: int, hi: int := more.value[0], more.value[1], more.value[2];
      var twoMore := lo + 256 * hi;
      var higher := twoMore * 8192 + second * 32;
      r := Some(higher + first / 8 + MIN_FOUR_BYTES_INT);
    }

    /** What reading should have done, given what the decoder makes of the unread bytes. */
    ghost predicate Matches<T(!new)>(p: Parsed<T>, r: Option<T>)
      reads this
      requires Valid()
    {
      if p.Ok? then r == Some(p.value) && Rest() == p.rest else r.None?
    }

    method ReadIntBare() returns (r: Option<int>)
      requires Valid()
      modifies this
      ensures Valid()
      ensures Matches(ParseInt(old(Rest())), r)
    {
      var first := Take(1);
      if first.None? {
        return None;
      }
      if first.value[0] != LONG_INT_TRAILER {
        r := ReadShortInt(first.value[0]);
        return;
      }
      r := ReadLongInt();
    }

    /** Reads the rest of an integer whose trailer byte has been read. */
    method ReadLongInt() returns (r: Option<int>)
      requires Valid()
      modifies this
      ensures Valid()
      ensures Matches(ParseLongInt(old(Rest())), r)
    {
      var first := Take(1);
      if first.None? {
        return None;
      }
      var sizeAndSign := ReadShortInt(first.value[0]);
      if sizeAndSign.None? || sizeAndSign.value < 0 {
        return None;
      }
      var digits := Take(sizeAndSign.value / 2);
      if digits.None? {
        return None;
      }
      var num: int := FromLittleEndian(digits.value);
      r := Some(if sizeAndSign.value % 2 == 1 then -num else num);
    }

    method ReadStrBare() returns (r: Option<Bytes>)
      requires Valid()
      modifies this
      ensures Valid()
      ensures Matches(ParseStr(old(Rest())), r)
    {
      var first := Take(1);
      if first.None? || first.value[0] == LONG_INT_TRAILER {
        return None;
      }
      var size := ReadShortInt(first.value[0]);
      if size.None? || size.value < 0 {
        return None;
      }
      r := Take(size.value);
    }
  }

  // The same primitives, described by the format.

  method PutInt(ghost f: Format, data: WriteBuffer, v: int) returns (ok: bool)
    requires IsFixed(f)
    modifies data
    ensures ok <==> f.fitsInt(v)
    ensures ok ==> data.data == old(data.data) + f.intBytes(v)
  {
    ok := data.WriteIntBare(v);
  }

  method PutStr(ghost f: Format, data: WriteBuffer, s: Bytes) returns (ok: bool)
    requires IsFixed(f)
    modifies data
    ensures ok <==> f.fitsStr(s)
    ensures ok ==> data.data == old(data.data) + f.strBytes(s)
  {
    ok := data.WriteStrBare(s);
  }

  method GetInt(ghost f: Format, data: ReadBuffer) returns (r: Option<int>)
    requires IsFixed(f) && data.Valid()
    modifies data
    ensures data.Valid()
    ensures data.Matches(f.parseInt(old(data.Rest())), r)
  {
    r := data.ReadIntBare();
  }

  method GetStr(ghost f: Format, data: ReadBuffer) returns (r: Option<Bytes>)
    requires IsFixed(f) && data.Valid()
    modifies data
    ensures data.Valid()
    ensures data.Matches(f.parseStr(old(data.Rest())), r)
  {
    r := data.ReadStrBare();
  }
}
