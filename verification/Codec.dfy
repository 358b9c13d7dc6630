/**
 The protobuf reader and writer and the Connect frame of the native
 qualification (qualification/devin-native.ts).  Numbers are JavaScript numbers:
 a sum that a double cannot hold is rounded.
 */
module Codec {
  import opened Wrappers

  type byte = x: int | 0 <= x < 256

  datatype Error = BadInteger | BadField | BadLength | BadFrame

  type Checked<+T> = Result<T, Error>

  // ------------------------------------------------------------------- numbers

  const Exact: nat := 0x20_0000_0000_0000

  // How the sum of two numbers is rounded to a double: below Exact not at all,
  // above it in a way that nothing here depends on.
  type Rounding = f: nat -> nat | forall x: nat :: x < Exact ==> f(x) == x witness (x: nat) => x

  // n with k groups of seven zero bits after it.
  function Shifted(n: nat, k: nat): (r: nat)
    ensures n <= r
  {
    if k == 0 then n else 128 * Shifted(n, k - 1)
  }

  // ------------------------------------------------------------------ encoding

  function Varint(n: nat): (bytes: seq<byte>)
    ensures |bytes| >= 1
  {
    if n < 128 then [n] else [n % 128 + 128] + Varint(n / 128)
  }

  method EncodeVarint(n: nat) returns (bytes: seq<byte>)
    ensures bytes == Varint(n)
  {
    bytes := [];
    var rest: nat, more := n, true;
    ghost var all := Varint(n);
    while more
      invariant more ==> bytes + Varint(rest) == all
      invariant !more ==> rest == 0 && bytes == all
      decreases more, rest
    {
      var b := rest % 128;
      rest := rest / 128;
      bytes := bytes + [if rest != 0 then b + 128 else b];
      more := rest != 0;
    }
  }

  function Encoded(number: nat, body: seq<byte>): seq<byte> {
    Varint(number * 8 + 2) + Varint(|body|) + body
  }

  // ------------------------------------------------------------------- framing

  function BigEndian32(n: nat): (bytes: seq<byte>)
    requires n < 0x1_0000_0000
    ensures |bytes| == 4
  {
    [n / 0x100_0000, n / 0x1_0000 % 256, n / 256 % 256, n % 256]
  }

  // A body too long for the header's length field is an error.
  function Frame(body: seq<byte>, flags: byte): Checked<seq<byte>> {
    if |body| >= 0x1_0000_0000 then Err(BadFrame) else Ok([flags] + BigEndian32(|body|) + body)
  }

  function ReadBigEndian32(bytes: seq<byte>, at: nat): nat
    requires at + 4 <= |bytes|
  {
    var a: nat, b: nat, c: nat, d: nat := bytes[at], bytes[at + 1], bytes[at + 2], bytes[at + 3];
    a * 0x100_0000 + b * 0x1_0000 + c * 256 + d
  }

  // The only frame a model request may be.
  function Unframe(view: seq<byte>): Checked<seq<byte>> {
    if |view| < 5 || view[0] != 0 || ReadBigEndian32(view, 1) != |view| - 5 then Err(BadFrame)
    else Ok(view[5..])
  }

  // ------------------------------------------------------------------ decoding

  datatype Read = Read(n: nat, next: nat)

  // The loop of integer(): n is the sum of the first k groups of seven bits.
  function IntegerFrom(round: Rounding, bytes: seq<byte>, offset: nat, n: nat, k: nat): (r: Checked<Read>)
    ensures r.Ok? ==> offset < r.value.next <= |bytes|
    decreases |bytes| - offset
  {
    if offset >= |bytes| || 7 * k > 49 then Err(BadInteger)
    else
      var b := bytes[offset];
      var sum := round(n + Shifted(b % 128, k));
      if b < 128 then Ok(Read(sum, offset + 1)) else IntegerFrom(round, bytes, offset + 1, sum, k + 1)
  }

  function Integer(round: Rounding, bytes: seq<byte>, offset: nat): (r: Checked<Read>)
    ensures r.Ok? ==> offset < r.value.next <= |bytes|
  {
    IntegerFrom(round, bytes, offset, 0, 0)
  }

  // A reader of integers moves forward, and not past the end.
  ghost predicate MovesOn(integer: nat -> Checked<Read>, end: nat) {
    forall at: nat :: integer(at).Ok? ==> at < integer(at).value.next <= end
  }

  function IntegerReader(round: Rounding, bytes: seq<byte>): (integer: nat -> Checked<Read>)
    ensures MovesOn(integer, |bytes|)
    ensures forall at: nat :: integer(at) == Integer(round, bytes, at)
  {
    (at: nat) => Integer(round, bytes, at)
  }

  datatype Field = Field(number: nat, bytes: seq<byte>)

  // One field: what it adds to the result, and where the next begins.
  datatype Step = Step(found: seq<Field>, next: nat)

  function OneField(integer: nat -> Checked<Read>, bytes: seq<byte>, offset: nat): (r: Checked<Step>)
    requires MovesOn(integer, |bytes|)
    ensures r.Ok? ==> offset < r.value.next <= |bytes|
  {
    if integer(offset).Err? then Err(integer(offset).error) else
    var Read(tag, at) := integer(offset).value;
    if tag / 8 == 0 then Err(BadField) else Payload(integer, bytes, tag, at)
  }

  // What follows the tag of a field.
  function Payload(integer: nat -> Checked<Read>, bytes: seq<byte>, tag: nat, at: nat): (r: Checked<Step>)
    requires MovesOn(integer, |bytes|)
    ensures r.Ok? ==> at < r.value.next <= |bytes|
  {
    if tag % 8 == 0 then
      if integer(at).Err? then Err(integer(at).error) else Ok(Step([], integer(at).value.next))
    else if tag % 8 == 2 then
      if integer(at).Err? then Err(integer(at).error) else
      var Read(length, start) := integer(at).value;
      if start + length > |bytes| then Err(BadLength)
      else Ok(Step([Field(tag / 8, bytes[start..start + length])], start + length))
    else if tag % 8 == 1 then
      if at + 8 > |bytes| then Err(BadLength) else Ok(Step([], at + 8))
    else if tag % 8 == 5 then
      if at + 4 > |bytes| then Err(BadLength) else Ok(Step([], at + 4))
    else Err(BadLength)
  }

  // The same for a reader of fields.
  ghost predicate Advances(one: nat -> Checked<Step>, end: nat) {
    forall at: nat :: one(at).Ok? ==> at < one(at).value.next <= end
  }

  function FieldReader(round: Rounding, bytes: seq<byte>): (one: nat -> Checked<Step>)
    ensures Advances(one, |bytes|)
    ensures forall at: nat :: one(at) == OneField(IntegerReader(round, bytes), bytes, at)
  {
    var integer := IntegerReader(round, bytes);
    (at: nat) => OneField(integer, bytes, at)
  }

  // The loop of fields(), for any reader of one field.
  function FieldsFrom(one: nat -> Checked<Step>, end: nat, offset: nat): Checked<seq<Field>>
    requires Advances(one, end) && offset <= end
    decreases end - offset
  {
    if offset == end then Ok([])
    else
      var step := one(offset);
      if step.Err? then Err(step.error)
      else Prepended(step.value.found, FieldsFrom(one, end, step.value.next))
  }

  function Fields(round: Rounding, bytes: seq<byte>): Checked<seq<Field>> {
    FieldsFrom(FieldReader(round, bytes), |bytes|, 0)
  }

  method DecodeInteger(round: Rounding, bytes: seq<byte>, offset: nat) returns (r: Checked<Read>)
    ensures r == Integer(round, bytes, offset)
  {
    var n: nat, k: nat, at := 0, 0, offset;
    while true
      invariant offset <= at
      invariant Integer(round, bytes, offset) == IntegerFrom(round, bytes, at, n, k)
      decreases |bytes| - at
    {
      if at >= |bytes| || 7 * k > 49 { return Err(BadInteger); }
      var b := bytes[at];
      at := at + 1;
      n := round(n + Shifted(b % 128, k));
      if b < 128 { return Ok(Read(n, at)); }
      k := k + 1;
    }
  }

  // The body of the loop of fields().
  method DecodeField(round: Rounding, bytes: seq<byte>, offset: nat) returns (r: Checked<Step>)
    ensures r == OneField(IntegerReader(round, bytes), bytes, offset)
  {
    var tag := DecodeInteger(round, bytes, offset);
    if tag.Err? { return Err(tag.error); }
    if tag.value.n / 8 == 0 { return Err(BadField); }
    r := DecodePayload(round, bytes, tag.value.n, tag.value.next);
  }

  method DecodePayload(round: Rounding, bytes: seq<byte>, tag: nat, after: nat) returns (r: Checked<Step>)
    ensures r == Payload(IntegerReader(round, bytes), bytes, tag, after)
  {
    var wire, number, at := tag % 8, tag / 8, after;
    if wire == 0 {
      var skipped := DecodeInteger(round, bytes, at);
      if skipped.Err? { return Err(skipped.error); }
      return Ok(Step([], skipped.value.next));
    }
    var length := -1;
    if wire == 2 {
      var read := DecodeInteger(round, bytes, at);
      if read.Err? { return Err(read.error); }
      length, at := read.value.n, read.value.next;
    } else if wire == 1 {
      length := 8;
    } else if wire == 5 {
      length := 4;
    }
    if length < 0 || at + length > |bytes| { return Err(BadLength); }
    var found := if wire == 2 then [Field(number, bytes[at..at + length])] else [];
    return Ok(Step(found, at + length));
  }

  method DecodeFields(round: Rounding, bytes: seq<byte>) returns (r: Checked<seq<Field>>)
    ensures r == Fields(round, bytes)
  {
    var result: seq<Field>, offset := [], 0;
    ghost var one, all := FieldReader(round, bytes), Fields(round, bytes);
    PrependedNothing(all);
    while offset < |bytes|
      invariant offset <= |bytes|
      invariant all == Prepended(result, FieldsFrom(one, |bytes|, offset))
      decreases |bytes| - offset
    {
      PrependedTwice(one, |bytes|, offset, result);
      var step := DecodeField(round, bytes, offset);
      if step.Err? { return Err(step.error); }
      result, offset := result + step.value.found, step.value.next;
    }
    assert result + [] == result;
    return Ok(result);
  }

  lemma PrependedNothing(r: Checked<seq<Field>>)
    ensures Prepended([], r) == r
  {
    if r.Ok? { assert [] + r.value == r.value; }
  }

  function Prepended(found: seq<Field>, r: Checked<seq<Field>>): Checked<seq<Field>> {
    match r case Err(e) => Err(e) case Ok(rest) => Ok(found + rest)
  }

  lemma PrependedTwice(one: nat -> Checked<Step>, end: nat, offset: nat, found: seq<Field>)
    requires Advances(one, end) && offset < end
    ensures Prepended(found, FieldsFrom(one, end, offset))
      == if one(offset).Err? then Err(one(offset).error)
         else Prepended(found + one(offset).value.found, FieldsFrom(one, end, one(offset).value.next))
  {
    if one(offset).Ok? {
      var Step(more, next) := one(offset).value;
      if FieldsFrom(one, end, next).Ok? {
        var rest := FieldsFrom(one, end, next).value;
        assert found + (more + rest) == found + more + rest;
      }
    }
  }
}
