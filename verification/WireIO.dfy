/**
 The byte loops shared by the generated codecs.  The source repeats these loops inline
 in every Unmarshal and MarshalTo; here each is one method, proved against module Wire.
 */
module WireIO {
  import opened Common
  import opened Wire

  /** whole is what remains to be read, put after the n bytes already read. */
  ghost predicate Continues(
      whole: Result<(nat, nat), DecodeError>, rest: Result<(nat, nat), DecodeError>,
      exact: nat, scale: nat, n: nat)
  {
    match rest
    case Ok((v, k)) => whole == Ok((exact + scale * v, n + k))
    case Err(e) => whole == Err(e)
  }

  lemma OneByte(s: bytes, groups: nat, whole: Result<(nat, nat), DecodeError>, exact: nat, scale: nat, n: nat)
    requires groups > 0 && s != []
    requires Continues(whole, VarintAt(s, groups), exact, scale, n)
    ensures s[0] < 128 ==> whole == Ok((exact + scale * (s[0] % 128), n + 1))
    ensures s[0] >= 128 ==>
      Continues(whole, VarintAt(s[1..], groups - 1), exact + scale * (s[0] % 128), scale * 128, n + 1)
  {
    var rest := VarintAt(s[1..], groups - 1);
    if s[0] >= 128 && rest.Ok? {
      ShiftStep(scale, s[0] % 128, rest.value.0);
    }
  }

  lemma ShiftStep(p: nat, x: nat, v: nat)
    ensures p * (x + 128 * v) == p * x + p * 128 * v
  {
  }

  lemma CutEarly(x: nat, y: nat)
    ensures (x % TWO_64 + y) % TWO_64 == (x + y) % TWO_64
  {
    ModAddMultiple(x % TWO_64 + y, x / TWO_64);
  }

  /** Reads a varint at index start; next is the index after it. */
  method DecodeVarint(d: bytes, start: nat) returns (r: Result<(uint64, nat), DecodeError>)
    requires start <= |d|
    ensures r == match ReadVarint(d[start..])
                 case Ok((v, n)) => Ok((v, start + n))
                 case Err(e) => Err(e)
  {
    var acc: nat := 0;
    var i: nat, shift: nat, scale: nat := start, 0, 1;  // scale == 2^shift
    ghost var whole := VarintAt(d[start..], 10);
    ghost var exact: nat, groups: nat := 0, 10;  // exact is acc before it was cut to 64 bits
    while true
      invariant start <= i <= |d| && shift == 70 - 7 * groups
      invariant acc == exact % TWO_64
      invariant Continues(whole, VarintAt(d[i..], groups), exact, scale, i - start)
      decreases groups
    {
      if shift >= 64 { return Err(IntOverflow); }
      if i >= |d| { return Err(UnexpectedEOF); }
      var b := d[i];
      OneByte(d[i..], groups, whole, exact, scale, i - start);
      assert d[i..][1..] == d[i + 1..];
      var group: nat := scale * (b % 128);
      CutEarly(exact, group);
      i, acc, exact := i + 1, (acc + group) % TWO_64, exact + group;
      if b < 128 { return Ok((acc, i)); }
      shift, scale, groups := shift + 7, scale * 128, groups - 1;
    }
  }

  /** The number of bytes the varint encoding of x takes. */
  method SizeOfVarint(x: uint64) returns (n: nat)
    ensures n == |Varint(x)|
  {
    var y: nat := x / 128;
    n := 1;
    while y != 0
      invariant n + (if y == 0 then 0 else |Varint(y)|) == |Varint(x)|
      decreases y
    {
      n := n + 1;
      y := y / 128;
    }
  }

  method DecodeTag(d: bytes, start: nat) returns (r: Result<Tag, DecodeError>)
    requires start <= |d|
    ensures r == ReadTag(d[start..])
  {
    var got :- DecodeVarint(d, start);
    var (wire, i) := got;
    var num := ToInt32(wire / 8);
    if wire % 8 == 4 { return Err(EndGroup); }
    if num <= 0 { return Err(IllegalTag); }
    return Ok(Tag(num, wire % 8, i - start));
  }

  method DecodeText(d: bytes, start: nat) returns (r: Result<(bytes, nat), DecodeError>)
    requires start <= |d|
    ensures r == match ReadText(d[start..])
                 case Ok((text, n)) => Ok((text, start + n))
                 case Err(e) => Err(e)
  {
    var got :- DecodeVarint(d, start);
    var (length, i) := got;
    if length >= TWO_63 { return Err(InvalidLength); }
    var post := i + length;
    if post > |d| { return Err(UnexpectedEOF); }
    assert d[start..][i - start..i - start + length] == d[i..post];
    return Ok((d[i..post], post));
  }

  /** skipStatistics and skipAnnotatedvalue: the length of the field at the front of d. */
  method SkipField(d: bytes) returns (r: Result<nat, DecodeError>)
    ensures r == Skip(d)
    decreases |d|
  {
    hide ReadVarint, SkipGroup;
    var got :- DecodeVarint(d, 0);
    var (wire, i) := got;
    assert d[0..] == d;
    match wire % 8 {
      case 0 =>
        var got :- DecodeVarint(d, i);
        var (_, j) := got;
        return Ok(j);
      case 1 =>
        return Ok(i + 8);
      case 2 =>
        var got :- DecodeVarint(d, i);
        var (length, j) := got;
        if length >= TWO_63 { return Err(InvalidLength); }
        return Ok(j + length);
      case 3 =>
        r := FinishGroup(d, i);
      case 4 =>
        return Ok(i);
      case 5 =>
        return Ok(i + 4);
      case _ =>
        return Err(IllegalWireType);
    }
  }

  /** What SkipGroup says at from follows from what it says at i. */
  ghost predicate GroupContinues(d: bytes, from: nat, i: nat)
    requires from <= i <= |d|
  {
    match SkipGroup(d[i..])
    case Ok(n) => SkipGroup(d[from..]) == Ok(i - from + n)
    case Err(e) => SkipGroup(d[from..]) == Err(e)
  }

  lemma GroupStep(d: bytes, from: nat, i: nat, next: nat)
    requires from <= i <= |d| && GroupContinues(d, from, i)
    requires ReadVarint(d[i..]).Ok? && ReadVarint(d[i..]).value.0 % 8 != 4
    requires Skip(d[i..]) == Ok(next)
    ensures i + next > |d| ==> SkipGroup(d[from..]) == Err(UnexpectedEOF)
    ensures i + next <= |d| ==> GroupContinues(d, from, i + next)
  {
    hide ReadVarint, Skip;
    if i + next <= |d| {
      assert d[i..][next..] == d[i + next..];
    }
  }

  /** The inner loop of a group: fields are skipped until an end-group tag. */
  method FinishGroup(d: bytes, from: nat) returns (r: Result<nat, DecodeError>)
    requires 1 <= from <= |d|
    ensures r == match SkipGroup(d[from..])
                 case Ok(n) => Ok(from + n)
                 case Err(e) => Err(e)
    decreases |d|, 0
  {
    var i := from;
    while true
      invariant from <= i <= |d| && GroupContinues(d, from, i)
      decreases |d| - i
    {
      var got :- DecodeVarint(d, i);
      var (inner, j) := got;
      if inner % 8 == 4 { return Ok(j); }
      var next :- SkipField(d[i..]);
      GroupStep(d, from, i, next);
      if i + next > |d| { return Err(UnexpectedEOF); }
      i := i + next;
    }
  }

  /**
   The field at index i, with the index after it: the tag is read and checked, the
   payload is read as the schema demands, and a field outside the schema is skipped.
   */
  method DecodeField(schema: seq<Kind>, d: bytes, i: nat) returns (r: Result<(Field, nat), DecodeError>)
    requires i <= |d|
    ensures r == match ReadField(schema, d[i..])
                 case Ok((f, n)) => Ok((f, i + n))
                 case Err(e) => Err(e)
  {
    hide ReadVarint, Skip;
    var tag :- DecodeTag(d, i);
    var Tag(num, wireType, size) := tag;
    assert d[i..][size..] == d[i + size..];
    if num > |schema| {
      var skippy :- SkipField(d[i..]);
      if i + skippy > |d| { return Err(UnexpectedEOF); }
      assert d[i..][..skippy] == d[i..i + skippy];
      return Ok((UnknownField(d[i..i + skippy]), i + skippy));
    } else if schema[num - 1].Number? {
      if wireType != 0 { return Err(WrongWireType); }
      var got :- DecodeVarint(d, i + size);
      return Ok((NumberField(num, got.0), got.1));
    } else {
      if wireType != 2 { return Err(WrongWireType); }
      var got :- DecodeText(d, i + size);
      return Ok((TextField(num, got.0), got.1));
    }
  }

  // ---------------------------------------------------------------- writing

  /** s with x written over it at index i. */
  function Splice(s: bytes, i: nat, x: bytes): (r: bytes)
    requires i + |x| <= |s|
    ensures |r| == |s| && r[i..i + |x|] == x
  {
    s[..i] + x + s[i + |x|..]
  }

  lemma SpliceNext(s: bytes, i: nat, x: bytes, y: bytes)
    requires i + |x| + |y| <= |s|
    ensures Splice(Splice(s, i, x), i + |x|, y) == Splice(s, i, x + y)
  {
  }

  /** One more part of an encoding written: done grows, what is left shrinks. */
  lemma WriteNext(s: bytes, i: nat, done: bytes, part: bytes, rest: bytes)
    requires i + |done + (part + rest)| <= |s|
    ensures Splice(Splice(s, i, done), i + |done|, part) == Splice(s, i, done + part)
    ensures done + part + rest == done + (part + rest)
  {
    SpliceNext(s, i, done, part);
  }

  lemma PayloadParts(num: nat, text: bytes)
    requires 1 <= num <= 15
    ensures PayloadImage(num, text) == [num * 8 + 2] + Varint(|text|) + text
  {
  }

  lemma SpliceNothing(s: bytes, i: nat)
    requires i <= |s|
    ensures Splice(s, i, []) == s
  {
  }

  method PutByte(buf: array<byte>, i: nat, b: byte) returns (j: nat)
    requires i < buf.Length
    modifies buf
    ensures j == i + 1 && buf[..] == Splice(old(buf[..]), i, [b])
  {
    buf[i] := b;
    j := i + 1;
  }

  method PutBytes(buf: array<byte>, i: nat, text: bytes) returns (j: nat)
    requires i + |text| <= buf.Length
    modifies buf
    ensures j == i + |text| && buf[..] == Splice(old(buf[..]), i, text)
  {
    j := i + |text|;
    forall k | i <= k < j {
      buf[k] := text[k - i];
    }
  }

  method PutVarint(buf: array<byte>, i: nat, v: uint64) returns (j: nat)
    requires i + |Varint(v)| <= buf.Length
    modifies buf
    ensures j == i + |Varint(v)| && buf[..] == Splice(old(buf[..]), i, Varint(v))
  {
    hide Splice, Varint;
    SpliceNothing(buf[..], i);
    var w: nat := v;
    j := i;
    ghost var done: bytes := [];
    while w >= 128
      invariant j == i + |done| && done + Varint(w) == Varint(v)
      invariant buf[..] == Splice(old(buf[..]), i, done)
      decreases w
    {
      VarintStep(w);
      WriteNext(old(buf[..]), i, done, [w % 128 + 128], Varint(w / 128));
      j := PutByte(buf, j, w % 128 + 128);
      done := done + [w % 128 + 128];
      w := w / 128;
    }
    VarintStep(w);
    SpliceNext(old(buf[..]), i, done, [w]);
    j := PutByte(buf, j, w);
  }

  lemma VarintStep(w: nat)
    ensures Varint(w) == if w < 128 then [w] else [w % 128 + 128] + Varint(w / 128)
  {
  }

  /** One tagged number, or nothing when it is zero. */
  method PutNumber(buf: array<byte>, i: nat, tag: byte, v: int64, ghost num: nat) returns (j: nat)
    requires 1 <= num <= 15 && tag == num * 8
    requires i + |NumberImage(num, v)| <= buf.Length
    modifies buf
    ensures j == i + |NumberImage(num, v)|
    ensures buf[..] == Splice(old(buf[..]), i, NumberImage(num, v))
  {
    j := i;
    if v != 0 {
      SpliceNext(buf[..], i, [tag], Varint(ToUint64(v)));
      j := PutByte(buf, j, tag);
      j := PutVarint(buf, j, ToUint64(v));
    }
  }

  /** A tag and the length prefix of what follows it. */
  method PutHeader(buf: array<byte>, i: nat, tag: byte, size: uint64) returns (j: nat)
    requires i + 1 + |Varint(size)| <= buf.Length
    modifies buf
    ensures j == i + 1 + |Varint(size)|
    ensures buf[..] == Splice(old(buf[..]), i, [tag] + Varint(size))
  {
    SpliceNext(buf[..], i, [tag], Varint(size));
    j := PutByte(buf, i, tag);
    j := PutVarint(buf, j, size);
  }

  /** One tagged string. */
  method PutPayload(buf: array<byte>, i: nat, tag: byte, text: bytes, ghost num: nat) returns (j: nat)
    requires 1 <= num <= 15 && tag == num * 8 + 2 && |text| < TWO_63
    requires i + |PayloadImage(num, text)| <= buf.Length
    modifies buf
    ensures j == i + |PayloadImage(num, text)|
    ensures buf[..] == Splice(old(buf[..]), i, PayloadImage(num, text))
  {
    ghost var head := [tag] + Varint(|text|);
    assert PayloadImage(num, text) == head + text;
    SpliceNext(buf[..], i, head, text);
    j := PutHeader(buf, i, tag, |text|);
    j := PutBytes(buf, j, text);
  }

  /** One tagged string, or nothing when it is empty. */
  method PutText(buf: array<byte>, i: nat, tag: byte, text: bytes, ghost num: nat) returns (j: nat)
    requires 1 <= num <= 15 && tag == num * 8 + 2 && |text| < TWO_63
    requires i + |TextImage(num, text)| <= buf.Length
    modifies buf
    ensures j == i + |TextImage(num, text)|
    ensures buf[..] == Splice(old(buf[..]), i, TextImage(num, text))
  {
    j := i;
    if text != [] {
      j := PutPayload(buf, i, tag, text, num);
    }
  }

  // ---------------------------------------------------------------- sizes

  method NumberSize(v: int64, ghost num: nat) returns (n: nat)
    requires 1 <= num <= 15
    ensures n == |NumberImage(num, v)|
  {
    n := 0;
    if v != 0 {
      n := SizeOfVarint(ToUint64(v));
      n := 1 + n;
    }
  }

  method TextSize(text: bytes, ghost num: nat) returns (n: nat)
    requires 1 <= num <= 15 && |text| < TWO_63
    ensures n == |TextImage(num, text)|
  {
    n := 0;
    if text != [] {
      n := PayloadSize(|text|);
    }
  }

  /** A payload with its tag and length prefix. */
  method PayloadSize(size: nat) returns (n: nat)
    requires size < TWO_63
    ensures n == 1 + |Varint(size)| + size
  {
    n := SizeOfVarint(size);
    n := 1 + size + n;
  }
}
