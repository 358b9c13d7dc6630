/**
 What the reader accepts, exactly: bytes that are a sequence of whole fields.
 What the writer makes is of that form and reads back as it was.
 */
module CodecLaws {
  import opened Wrappers
  import opened Codec

  // ------------------------------------------------------------------- varints

  // Up to eight bytes, all but the last marked as continued.
  predicate IsVarint(raw: seq<byte>) {
    1 <= |raw| <= 8 && Continued(raw, 0, |raw|)
  }

  predicate Continued(bytes: seq<byte>, at: nat, end: nat)
    requires at < end <= |bytes|
    decreases end - at
  {
    if at + 1 == end then bytes[at] < 128 else bytes[at] >= 128 && Continued(bytes, at + 1, end)
  }

  // The groups of bytes[at..end], the first the lowest.
  function SumOf(bytes: seq<byte>, at: nat, end: nat): nat
    requires at <= end <= |bytes|
    decreases end - at
  {
    if at == end then 0 else bytes[at] % 128 + 128 * SumOf(bytes, at + 1, end)
  }

  lemma {:induction false} SameGroups(a: seq<byte>, at: nat, end: nat, b: seq<byte>, from: nat)
    requires at <= end <= |a| && from + (end - at) <= |b|
    requires forall i :: at <= i < end ==> a[i] == b[i - at + from]
    ensures SumOf(a, at, end) == SumOf(b, from, from + (end - at))
    ensures at < end ==> Continued(a, at, end) == Continued(b, from, from + (end - at))
    decreases end - at
  {
    if at < end {
      assert a[at] == b[from];
      SameGroups(a, at + 1, end, b, from + 1);
    }
  }

  lemma SliceGroups(bytes: seq<byte>, at: nat, raw: seq<byte>)
    requires LiesAt(bytes, at, raw)
    ensures SumOf(bytes, at, at + |raw|) == SumOf(raw, 0, |raw|)
    ensures raw != [] ==> Continued(bytes, at, at + |raw|) == Continued(raw, 0, |raw|)
  {
    forall i | at <= i < at + |raw| ensures bytes[i] == raw[i - at] {
      assert bytes[at..at + |raw|][i - at] == raw[i - at];
    }
    SameGroups(bytes, at, at + |raw|, raw, 0);
  }

  // Only a value of eight bytes can be too large for a double.
  function Value(round: Rounding, raw: seq<byte>): nat { round(SumOf(raw, 0, |raw|)) }

  lemma {:induction false} ShiftedSum(b: nat, rest: nat, k: nat)
    ensures Shifted(b + 128 * rest, k) == Shifted(b, k) + Shifted(rest, k + 1)
    decreases k
  {
    if k > 0 { ShiftedSum(b, rest, k - 1); } else { assert Shifted(rest, 1) == 128 * Shifted(rest, 0); }
  }

  // The next group fills the places it shifts past.
  lemma {:induction false} GroupFits(n: nat, b: nat, k: nat)
    requires n < Shifted(1, k) && b < 128
    ensures n + Shifted(b, k) < Shifted(1, k + 1)
  {
    ShiftedIsLinear(b, k);
  }

  lemma {:induction false} ShiftedIsLinear(b: nat, k: nat)
    requires b < 128
    ensures Shifted(b, k) <= 127 * Shifted(1, k)
    decreases k
  {
    if k > 0 { ShiftedIsLinear(b, k - 1); }
  }

  lemma {:induction false} ShiftedGrows(k: nat, m: nat)
    requires k <= m
    ensures Shifted(1, k) <= Shifted(1, m)
    decreases m
  {
    if k < m { ShiftedGrows(k, m - 1); }
  }

  lemma EightGroups()
    ensures Shifted(1, 7) == 0x2_0000_0000_0000 && Shifted(1, 8) == 0x100_0000_0000_0000
  {
    assert Shifted(1, 2) == 0x4000;
    assert Shifted(1, 4) == 0x1000_0000;
    assert Shifted(1, 6) == 0x400_0000_0000;
  }

  lemma SevenGroupsAreExact(k: nat)
    requires k <= 7
    ensures Shifted(1, k) <= Exact
  {
    ShiftedGrows(k, 7);
    EightGroups();
  }

  lemma SumStep(n: nat, bytes: seq<byte>, at: nat, end: nat, k: nat)
    requires at < end <= |bytes|
    ensures n + Shifted(SumOf(bytes, at, end), k)
      == n + Shifted(bytes[at] % 128, k) + Shifted(SumOf(bytes, at + 1, end), k + 1)
  {
    ShiftedSum(bytes[at] % 128, SumOf(bytes, at + 1, end), k);
  }

  lemma GroupIsExact(round: Rounding, n: nat, b: nat, k: nat)
    requires n < Shifted(1, k) && b < 128 && k < 7
    ensures n + Shifted(b, k) < Shifted(1, k + 1)
    ensures round(n + Shifted(b, k)) == n + Shifted(b, k)
  {
    GroupFits(n, b, k);
    SevenGroupsAreExact(k + 1);
  }

  lemma LastGroup(round: Rounding, bytes: seq<byte>, offset: nat, n: nat, k: nat)
    requires offset < |bytes| && k <= 7 && bytes[offset] < 128
    ensures IntegerFrom(round, bytes, offset, n, k)
      == Ok(Read(round(n + Shifted(SumOf(bytes, offset, offset + 1), k)), offset + 1))
  {
    assert SumOf(bytes, offset + 1, offset + 1) == 0;
  }

  lemma MoreGroups(round: Rounding, bytes: seq<byte>, offset: nat, n: nat, k: nat)
    requires offset < |bytes| && k < 7 && bytes[offset] >= 128 && n < Shifted(1, k)
    ensures var sum := n + Shifted(bytes[offset] % 128, k);
      && sum < Shifted(1, k + 1)
      && IntegerFrom(round, bytes, offset, n, k) == IntegerFrom(round, bytes, offset + 1, sum, k + 1)
  {
    GroupIsExact(round, n, bytes[offset] % 128, k);
  }

  // A varint there is read there.
  lemma {:induction false} IntegerFromReads(round: Rounding, bytes: seq<byte>, offset: nat, n: nat, k: nat, end: nat)
    requires offset < end <= |bytes| && Continued(bytes, offset, end) && k + (end - offset) <= 8
    requires n < Shifted(1, k)
    ensures IntegerFrom(round, bytes, offset, n, k) == Ok(Read(round(n + Shifted(SumOf(bytes, offset, end), k)), end))
    decreases end - offset
  {
    if offset + 1 == end {
      LastGroup(round, bytes, offset, n, k);
    } else {
      SumStep(n, bytes, offset, end, k);
      MoreGroups(round, bytes, offset, n, k);
      IntegerFromReads(round, bytes, offset + 1, n + Shifted(bytes[offset] % 128, k), k + 1, end);
    }
  }

  ghost predicate LiesAt(bytes: seq<byte>, offset: nat, piece: seq<byte>) {
    offset + |piece| <= |bytes| && bytes[offset..offset + |piece|] == piece
  }

  lemma IntegerReads(round: Rounding, bytes: seq<byte>, offset: nat, raw: seq<byte>)
    requires IsVarint(raw) && LiesAt(bytes, offset, raw)
    ensures Integer(round, bytes, offset) == Ok(Read(Value(round, raw), offset + |raw|))
  {
    SliceGroups(bytes, offset, raw);
    IntegerFromReads(round, bytes, offset, 0, 0, offset + |raw|);
  }

  // What is read was a varint.
  lemma {:induction false} IntegerFromShape(round: Rounding, bytes: seq<byte>, offset: nat, n: nat, k: nat)
    requires IntegerFrom(round, bytes, offset, n, k).Ok?
    ensures var next := IntegerFrom(round, bytes, offset, n, k).value.next;
      next - offset + k <= 8 && Continued(bytes, offset, next)
    decreases |bytes| - offset
  {
    if bytes[offset] >= 128 {
      IntegerFromShape(round, bytes, offset + 1, round(n + Shifted(bytes[offset] % 128, k)), k + 1);
    }
  }

  lemma IntegerShape(round: Rounding, bytes: seq<byte>, offset: nat)
    requires Integer(round, bytes, offset).Ok?
    ensures var Read(n, next) := Integer(round, bytes, offset).value;
      IsVarint(bytes[offset..next]) && n == Value(round, bytes[offset..next])
  {
    IntegerFromShape(round, bytes, offset, 0, 0);
    var raw := bytes[offset..Integer(round, bytes, offset).value.next];
    SliceGroups(bytes, offset, raw);
    IntegerReads(round, bytes, offset, raw);
  }

  // What the bytes of a varint are worth.
  type Valuation = seq<byte> -> nat

  // A reader of integers that reads a varint wherever one lies, and nothing else.
  ghost predicate ReadsVarints(worth: Valuation, integer: nat -> Checked<Read>, bytes: seq<byte>)
    requires MovesOn(integer, |bytes|)
  {
    && (forall at: nat, raw {:trigger LiesAt(bytes, at, raw)} :: IsVarint(raw) && LiesAt(bytes, at, raw) ==>
          integer(at) == Ok(Read(worth(raw), at + |raw|)))
    && (forall at: nat :: integer(at).Ok? ==> WasVarint(worth, bytes, at, integer(at).value))
  }

  ghost predicate WasVarint(worth: Valuation, bytes: seq<byte>, at: nat, read: Read)
    requires at <= read.next <= |bytes|
  {
    IsVarint(bytes[at..read.next]) && read.n == worth(bytes[at..read.next])
  }

  function Values(round: Rounding): (worth: Valuation)
    ensures forall raw :: worth(raw) == Value(round, raw)
  {
    (raw: seq<byte>) => Value(round, raw)
  }

  lemma IntegersAreVarints(round: Rounding, bytes: seq<byte>)
    ensures ReadsVarints(Values(round), IntegerReader(round, bytes), bytes)
  {
    var integer := IntegerReader(round, bytes);
    forall at: nat, raw | IsVarint(raw) && LiesAt(bytes, at, raw)
      ensures integer(at) == Ok(Read(Value(round, raw), at + |raw|))
    {
      IntegerReads(round, bytes, at, raw);
    }
    forall at: nat | integer(at).Ok? ensures WasVarint(Values(round), bytes, at, integer(at).value) {
      IntegerShape(round, bytes, at);
    }
  }

  // -------------------------------------------------------------------- fields

  datatype Token =
    | VarintField(tag: seq<byte>, number: seq<byte>)
    | Fixed64Field(tag: seq<byte>, body: seq<byte>)
    | DelimitedField(tag: seq<byte>, length: seq<byte>, body: seq<byte>)
    | Fixed32Field(tag: seq<byte>, body: seq<byte>)

  predicate Good(worth: Valuation, t: Token) {
    && IsVarint(t.tag) && worth(t.tag) / 8 >= 1
    && match t
       case VarintField(tag, number) => worth(tag) % 8 == 0 && IsVarint(number)
       case Fixed64Field(tag, body) => worth(tag) % 8 == 1 && |body| == 8
       case DelimitedField(tag, length, body) =>
         worth(tag) % 8 == 2 && IsVarint(length) && worth(length) == |body|
       case Fixed32Field(tag, body) => worth(tag) % 8 == 5 && |body| == 4
  }

  function Bytes(t: Token): seq<byte> {
    match t
    case VarintField(tag, number) => tag + number
    case Fixed64Field(tag, body) => tag + body
    case DelimitedField(tag, length, body) => tag + (length + body)
    case Fixed32Field(tag, body) => tag + body
  }

  function Kept(worth: Valuation, t: Token): seq<Field> {
    if t.DelimitedField? then [Field(worth(t.tag) / 8, t.body)] else []
  }

  predicate AllGood(worth: Valuation, tokens: seq<Token>) {
    tokens == [] || (Good(worth, tokens[0]) && AllGood(worth, tokens[1..]))
  }

  function Flattened(tokens: seq<Token>): seq<byte> {
    if tokens == [] then [] else Bytes(tokens[0]) + Flattened(tokens[1..])
  }

  function AllKept(worth: Valuation, tokens: seq<Token>): seq<Field> {
    if tokens == [] then [] else Kept(worth, tokens[0]) + AllKept(worth, tokens[1..])
  }

  // Two pieces that lie at an offset one after the other.
  lemma PiecesAt(bytes: seq<byte>, offset: nat, a: seq<byte>, b: seq<byte>)
    requires LiesAt(bytes, offset, a + b)
    ensures LiesAt(bytes, offset, a) && LiesAt(bytes, offset + |a|, b)
  {
    var piece := bytes[offset..offset + |a + b|];
    assert piece[..|a|] == a && piece[|a|..] == b;
    assert piece[..|a|] == bytes[offset..offset + |a|];
    assert piece[|a|..] == bytes[offset + |a|..offset + |a| + |b|];
  }

  lemma DelimitedIsOne(integer: nat -> Checked<Read>, bytes: seq<byte>, offset: nat, tag: Read, length: Read,
                       body: seq<byte>)
    requires MovesOn(integer, |bytes|) && integer(offset) == Ok(tag) && integer(tag.next) == Ok(length)
    requires tag.n / 8 >= 1 && tag.n % 8 == 2 && length.n == |body| && LiesAt(bytes, length.next, body)
    ensures OneField(integer, bytes, offset) == Ok(Step([Field(tag.n / 8, body)], length.next + |body|))
  {
  }

  lemma VarintAt(worth: Valuation, integer: nat -> Checked<Read>, bytes: seq<byte>, at: nat, raw: seq<byte>)
    requires MovesOn(integer, |bytes|) && ReadsVarints(worth, integer, bytes)
    requires IsVarint(raw) && LiesAt(bytes, at, raw)
    ensures integer(at) == Ok(Read(worth(raw), at + |raw|))
  {
  }

  lemma DelimitedReads(worth: Valuation, integer: nat -> Checked<Read>, bytes: seq<byte>, offset: nat, t: Token)
    requires MovesOn(integer, |bytes|) && ReadsVarints(worth, integer, bytes)
    requires Good(worth, t) && t.DelimitedField? && LiesAt(bytes, offset, Bytes(t))
    ensures OneField(integer, bytes, offset) == Ok(Step(Kept(worth, t), offset + |Bytes(t)|))
  {
    var at := offset + |t.tag|;
    var start := at + |t.length|;
    PiecesAt(bytes, offset, t.tag, t.length + t.body);
    PiecesAt(bytes, at, t.length, t.body);
    VarintAt(worth, integer, bytes, offset, t.tag);
    VarintAt(worth, integer, bytes, at, t.length);
    DelimitedIsOne(integer, bytes, offset, Read(worth(t.tag), at), Read(|t.body|, start), t.body);
  }

  lemma VarintFieldReads(worth: Valuation, integer: nat -> Checked<Read>, bytes: seq<byte>, offset: nat, t: Token)
    requires MovesOn(integer, |bytes|) && ReadsVarints(worth, integer, bytes)
    requires Good(worth, t) && t.VarintField? && LiesAt(bytes, offset, Bytes(t))
    ensures OneField(integer, bytes, offset) == Ok(Step(Kept(worth, t), offset + |Bytes(t)|))
  {
    PiecesAt(bytes, offset, t.tag, t.number);
  }

  lemma FixedReads(worth: Valuation, integer: nat -> Checked<Read>, bytes: seq<byte>, offset: nat, t: Token)
    requires MovesOn(integer, |bytes|) && ReadsVarints(worth, integer, bytes)
    requires Good(worth, t) && (t.Fixed64Field? || t.Fixed32Field?) && LiesAt(bytes, offset, Bytes(t))
    ensures OneField(integer, bytes, offset) == Ok(Step(Kept(worth, t), offset + |Bytes(t)|))
  {
    PiecesAt(bytes, offset, t.tag, t.body);
  }

  lemma OneFieldReads(worth: Valuation, integer: nat -> Checked<Read>, bytes: seq<byte>, offset: nat, t: Token)
    requires MovesOn(integer, |bytes|) && ReadsVarints(worth, integer, bytes)
    requires Good(worth, t) && LiesAt(bytes, offset, Bytes(t))
    ensures OneField(integer, bytes, offset) == Ok(Step(Kept(worth, t), offset + |Bytes(t)|))
  {
    match t
    case VarintField(_, _) => VarintFieldReads(worth, integer, bytes, offset, t);
    case DelimitedField(_, _, _) => DelimitedReads(worth, integer, bytes, offset, t);
    case Fixed64Field(_, _) => FixedReads(worth, integer, bytes, offset, t);
    case Fixed32Field(_, _) => FixedReads(worth, integer, bytes, offset, t);
  }

  lemma Adjacent(bytes: seq<byte>, a: nat, b: nat, c: nat)
    requires a <= b <= c <= |bytes|
    ensures bytes[a..b] + bytes[b..c] == bytes[a..c]
  {
  }

  lemma DelimitedShape(worth: Valuation, integer: nat -> Checked<Read>, bytes: seq<byte>, offset: nat)
      returns (t: Token)
    requires MovesOn(integer, |bytes|) && ReadsVarints(worth, integer, bytes)
    requires OneField(integer, bytes, offset).Ok? && integer(offset).value.n % 8 == 2
    ensures Good(worth, t) && Bytes(t) == bytes[offset..OneField(integer, bytes, offset).value.next]
    ensures Kept(worth, t) == OneField(integer, bytes, offset).value.found
  {
    var at, next := integer(offset).value.next, OneField(integer, bytes, offset).value.next;
    var start := integer(at).value.next;
    t := DelimitedField(bytes[offset..at], bytes[at..start], bytes[start..next]);
    Adjacent(bytes, at, start, next);
    Adjacent(bytes, offset, at, next);
  }

  lemma SkippedShape(worth: Valuation, integer: nat -> Checked<Read>, bytes: seq<byte>, offset: nat) returns (t: Token)
    requires MovesOn(integer, |bytes|) && ReadsVarints(worth, integer, bytes)
    requires OneField(integer, bytes, offset).Ok? && integer(offset).value.n % 8 != 2
    ensures Good(worth, t) && Bytes(t) == bytes[offset..OneField(integer, bytes, offset).value.next]
    ensures Kept(worth, t) == OneField(integer, bytes, offset).value.found
  {
    var Read(n, at) := integer(offset).value;
    var next := OneField(integer, bytes, offset).value.next;
    Adjacent(bytes, offset, at, next);
    if n % 8 == 0 {
      t := VarintField(bytes[offset..at], bytes[at..next]);
    } else if n % 8 == 1 {
      t := Fixed64Field(bytes[offset..at], bytes[at..next]);
    } else {
      t := Fixed32Field(bytes[offset..at], bytes[at..next]);
    }
  }

  lemma OneFieldShape(worth: Valuation, integer: nat -> Checked<Read>, bytes: seq<byte>, offset: nat) returns (t: Token)
    requires MovesOn(integer, |bytes|) && ReadsVarints(worth, integer, bytes)
    requires OneField(integer, bytes, offset).Ok?
    ensures Good(worth, t) && Bytes(t) == bytes[offset..OneField(integer, bytes, offset).value.next]
    ensures Kept(worth, t) == OneField(integer, bytes, offset).value.found
  {
    if integer(offset).value.n % 8 == 2 {
      t := DelimitedShape(worth, integer, bytes, offset);
    } else {
      t := SkippedShape(worth, integer, bytes, offset);
    }
  }

  lemma TailLies(bytes: seq<byte>, offset: nat, first: seq<byte>, rest: seq<byte>)
    requires offset <= |bytes| && bytes[offset..] == first + rest
    ensures LiesAt(bytes, offset, first)
    ensures offset + |first| <= |bytes| && bytes[offset + |first|..] == rest
  {
    assert bytes[offset..][..|first|] == first && bytes[offset..][|first|..] == rest;
  }

  // The reader reads a token wherever one lies, and only where one lies.
  ghost predicate ReadsTokens(worth: Valuation, one: nat -> Checked<Step>, bytes: seq<byte>) {
    forall at: nat, t :: ReadsToken(worth, one, bytes, at, t)
  }

  ghost predicate ReadsToken(worth: Valuation, one: nat -> Checked<Step>, bytes: seq<byte>, at: nat, t: Token) {
    Good(worth, t) && LiesAt(bytes, at, Bytes(t)) ==> one(at) == Ok(Step(Kept(worth, t), at + |Bytes(t)|))
  }

  lemma {:induction false} FieldsRead(worth: Valuation, one: nat -> Checked<Step>, bytes: seq<byte>, offset: nat,
                                      tokens: seq<Token>)
    requires Advances(one, |bytes|) && ReadsTokens(worth, one, bytes)
    requires AllGood(worth, tokens) && offset <= |bytes| && bytes[offset..] == Flattened(tokens)
    ensures FieldsFrom(one, |bytes|, offset) == Ok(AllKept(worth, tokens))
    decreases |tokens|
  {
    if tokens != [] {
      var first := Bytes(tokens[0]);
      FirstReads(worth, one, bytes, offset, tokens[0], Flattened(tokens[1..]));
      FieldsRead(worth, one, bytes, offset + |first|, tokens[1..]);
    }
  }

  lemma FirstReads(worth: Valuation, one: nat -> Checked<Step>, bytes: seq<byte>, offset: nat, t: Token,
                   tail: seq<byte>)
    requires ReadsTokens(worth, one, bytes) && Good(worth, t)
    requires offset <= |bytes| && bytes[offset..] == Bytes(t) + tail
    ensures one(offset) == Ok(Step(Kept(worth, t), offset + |Bytes(t)|))
    ensures offset + |Bytes(t)| <= |bytes| && bytes[offset + |Bytes(t)|..] == tail
  {
    TailLies(bytes, offset, Bytes(t), tail);
    assert ReadsToken(worth, one, bytes, offset, t);
  }

  lemma TokensCons(worth: Valuation, t: Token, rest: seq<Token>)
    requires Good(worth, t) && AllGood(worth, rest)
    ensures AllGood(worth, [t] + rest)
    ensures Flattened([t] + rest) == Bytes(t) + Flattened(rest)
    ensures AllKept(worth, [t] + rest) == Kept(worth, t) + AllKept(worth, rest)
  {
    assert ([t] + rest)[1..] == rest;
  }

  ghost predicate IsToken(worth: Valuation, bytes: seq<byte>, at: nat, step: Step, t: Token)
    requires at <= step.next <= |bytes|
  {
    Good(worth, t) && Bytes(t) == bytes[at..step.next] && Kept(worth, t) == step.found
  }

  ghost predicate ReadsOnlyTokens(worth: Valuation, one: nat -> Checked<Step>, bytes: seq<byte>)
    requires Advances(one, |bytes|)
  {
    forall at: nat :: one(at).Ok? ==> exists t :: IsToken(worth, bytes, at, one(at).value, t)
  }

  // Reading goes from token to token, to the end.
  ghost predicate TokensFrom(worth: Valuation, bytes: seq<byte>, offset: nat, tokens: seq<Token>, found: seq<Field>)
    requires offset <= |bytes|
  {
    AllGood(worth, tokens) && Flattened(tokens) == bytes[offset..] && AllKept(worth, tokens) == found
  }

  lemma OneMoreToken(worth: Valuation, bytes: seq<byte>, offset: nat, step: Step, t: Token, rest: seq<Token>,
                     found: seq<Field>)
    requires offset <= step.next <= |bytes|
    requires IsToken(worth, bytes, offset, step, t) && TokensFrom(worth, bytes, step.next, rest, found)
    ensures TokensFrom(worth, bytes, offset, [t] + rest, step.found + found)
  {
    TokensCons(worth, t, rest);
    Adjacent(bytes, offset, step.next, |bytes|);
  }

  lemma {:induction false} FieldsShape(worth: Valuation, one: nat -> Checked<Step>, bytes: seq<byte>, offset: nat)
      returns (tokens: seq<Token>)
    requires Advances(one, |bytes|) && ReadsOnlyTokens(worth, one, bytes)
    requires offset <= |bytes| && FieldsFrom(one, |bytes|, offset).Ok?
    ensures TokensFrom(worth, bytes, offset, tokens, FieldsFrom(one, |bytes|, offset).value)
    decreases |bytes| - offset
  {
    if offset == |bytes| {
      tokens := [];
    } else {
      var step := one(offset).value;
      var t :| IsToken(worth, bytes, offset, step, t);
      var rest := FieldsShape(worth, one, bytes, step.next);
      OneMoreToken(worth, bytes, offset, step, t, rest, FieldsFrom(one, |bytes|, step.next).value);
      tokens := [t] + rest;
    }
  }

  lemma OneReadsToken(worth: Valuation, integer: nat -> Checked<Read>, one: nat -> Checked<Step>,
                      bytes: seq<byte>, at: nat, t: Token)
    requires MovesOn(integer, |bytes|) && ReadsVarints(worth, integer, bytes)
    requires one(at) == OneField(integer, bytes, at)
    ensures ReadsToken(worth, one, bytes, at, t)
  {
    if Good(worth, t) && LiesAt(bytes, at, Bytes(t)) { OneFieldReads(worth, integer, bytes, at, t); }
  }

  lemma OneReadsTokens(worth: Valuation, integer: nat -> Checked<Read>, one: nat -> Checked<Step>, bytes: seq<byte>)
    requires MovesOn(integer, |bytes|) && ReadsVarints(worth, integer, bytes)
    requires forall at: nat :: one(at) == OneField(integer, bytes, at)
    ensures ReadsTokens(worth, one, bytes)
  {
    forall at: nat, t ensures ReadsToken(worth, one, bytes, at, t) {
      OneReadsToken(worth, integer, one, bytes, at, t);
    }
  }

  lemma OneReadsOnlyTokens(worth: Valuation, integer: nat -> Checked<Read>, one: nat -> Checked<Step>, bytes: seq<byte>)
    requires MovesOn(integer, |bytes|) && ReadsVarints(worth, integer, bytes) && Advances(one, |bytes|)
    requires forall at: nat :: one(at) == OneField(integer, bytes, at)
    ensures ReadsOnlyTokens(worth, one, bytes)
  {
    forall at: nat | one(at).Ok? ensures exists t :: IsToken(worth, bytes, at, one(at).value, t) {
      assert OneField(integer, bytes, at).Ok?;
      var t := OneFieldShape(worth, integer, bytes, at);
      assert IsToken(worth, bytes, at, one(at).value, t);
    }
  }

  lemma ReaderReadsTokens(round: Rounding, bytes: seq<byte>)
    ensures ReadsTokens(Values(round), FieldReader(round, bytes), bytes)
    ensures ReadsOnlyTokens(Values(round), FieldReader(round, bytes), bytes)
  {
    IntegersAreVarints(round, bytes);
    OneReadsTokens(Values(round), IntegerReader(round, bytes), FieldReader(round, bytes), bytes);
    OneReadsOnlyTokens(Values(round), IntegerReader(round, bytes), FieldReader(round, bytes), bytes);
  }

  // The bytes are the tokens one after the other, and these are what is kept.
  ghost predicate Parses(worth: Valuation, bytes: seq<byte>, tokens: seq<Token>, found: seq<Field>) {
    AllGood(worth, tokens) && Flattened(tokens) == bytes && AllKept(worth, tokens) == found
  }

  lemma LoopReadsExactly(worth: Valuation, one: nat -> Checked<Step>, bytes: seq<byte>, found: seq<Field>)
    requires Advances(one, |bytes|) && ReadsTokens(worth, one, bytes) && ReadsOnlyTokens(worth, one, bytes)
    ensures FieldsFrom(one, |bytes|, 0) == Ok(found) <==> exists tokens :: Parses(worth, bytes, tokens, found)
  {
    assert bytes[0..] == bytes;
    if FieldsFrom(one, |bytes|, 0) == Ok(found) {
      var tokens := FieldsShape(worth, one, bytes, 0);
      assert Parses(worth, bytes, tokens, found);
    }
    forall tokens | Parses(worth, bytes, tokens, found)
      ensures FieldsFrom(one, |bytes|, 0) == Ok(found)
    {
      FieldsRead(worth, one, bytes, 0, tokens);
    }
  }

  // The reader accepts exactly the sequences of whole fields, consumes every
  // byte of them, and returns their length-delimited fields in order.
  lemma ReadsExactly(round: Rounding, bytes: seq<byte>, found: seq<Field>)
    ensures Fields(round, bytes) == Ok(found) <==> exists tokens :: Parses(Values(round), bytes, tokens, found)
  {
    ReaderReadsTokens(round, bytes);
    LoopReadsExactly(Values(round), FieldReader(round, bytes), bytes, found);
  }

  // ---------------------------------------------------------------- round trips

  lemma {:induction false} VarintSums(n: nat)
    ensures SumOf(Varint(n), 0, |Varint(n)|) == n && Continued(Varint(n), 0, |Varint(n)|)
  {
    var raw := Varint(n);
    if n >= 128 {
      VarintSums(n / 128);
      assert raw == [raw[0]] + Varint(n / 128);
      SameGroups(raw, 1, |raw|, Varint(n / 128), 0);
    } else {
      assert SumOf(raw, 1, 1) == 0;
    }
  }

  lemma {:induction false} VarintLength(n: nat, k: nat)
    requires k >= 1
    ensures |Varint(n)| <= k <==> n < Shifted(1, k)
    decreases k
  {
    if k > 1 { VarintLength(n / 128, k - 1); } else { assert Shifted(1, 1) == 128; }
  }

  // A number reads back exactly when it fits eight bytes and is a double, which
  // every number below two to the fifty-third is.
  lemma VarintRoundTrip(round: Rounding, n: nat)
    ensures Integer(round, Varint(n), 0) == Ok(Read(n, |Varint(n)|)) <==> n < Shifted(1, 8) && round(n) == n
    ensures n < Exact ==> n < Shifted(1, 8) && round(n) == n
  {
    VarintLength(n, 8);
    EightGroups();
    if n < Shifted(1, 8) {
      VarintReadsBack(round, n);
    } else if Integer(round, Varint(n), 0) == Ok(Read(n, |Varint(n)|)) {
      IntegerFromShape(round, Varint(n), 0, 0, 0);
    }
  }

  lemma VarintReadsBack(round: Rounding, n: nat)
    requires |Varint(n)| <= 8
    ensures Integer(round, Varint(n), 0) == Ok(Read(round(n), |Varint(n)|))
  {
    VarintSums(n);
    assert Varint(n)[0..|Varint(n)|] == Varint(n);
    IntegerReads(round, Varint(n), 0, Varint(n));
  }

  // Fields as written, with fields that are skipped between them.
  datatype Item = Piece(field: Field) | Skipped(token: Token)

  predicate Writable(worth: Valuation, item: Item) {
    match item
    case Piece(Field(number, body)) => 1 <= number && number * 8 + 2 < Exact && |body| < Exact
    case Skipped(token) => Good(worth, token) && !token.DelimitedField?
  }

  function WrittenOne(item: Item): seq<byte> {
    match item
    case Piece(Field(number, body)) => Encoded(number, body)
    case Skipped(token) => Bytes(token)
  }

  function PieceOf(item: Item): seq<Field> { if item.Piece? then [item.field] else [] }

  function Written(items: seq<Item>): seq<byte> {
    if items == [] then [] else WrittenOne(items[0]) + Written(items[1..])
  }

  function Pieces(items: seq<Item>): seq<Field> {
    if items == [] then [] else PieceOf(items[0]) + Pieces(items[1..])
  }

  function TokenOf(item: Item): Token {
    match item
    case Piece(Field(number, body)) => DelimitedField(Varint(number * 8 + 2), Varint(|body|), body)
    case Skipped(token) => token
  }

  // Numbers below Exact are worth themselves.
  ghost predicate WorthItself(worth: Valuation) {
    forall n: nat :: n < Exact ==> IsVarint(Varint(n)) && worth(Varint(n)) == n
  }

  lemma ValuesAreSo(round: Rounding)
    ensures WorthItself(Values(round))
  {
    forall n: nat | n < Exact ensures IsVarint(Varint(n)) && Values(round)(Varint(n)) == n {
      VarintSums(n);
      VarintLength(n, 8);
      EightGroups();
    }
  }

  lemma ItemIsToken(worth: Valuation, item: Item)
    requires WorthItself(worth) && Writable(worth, item)
    ensures Good(worth, TokenOf(item))
    ensures Bytes(TokenOf(item)) == WrittenOne(item) && Kept(worth, TokenOf(item)) == PieceOf(item)
  {
    if item.Piece? {
      var tag, length := item.field.number * 8 + 2, |item.field.bytes|;
      assert worth(Varint(tag)) == tag && worth(Varint(length)) == length;
      assert Varint(tag) + Varint(length) + item.field.bytes == Varint(tag) + (Varint(length) + item.field.bytes);
    }
  }

  lemma {:induction false} ItemsAreTokens(worth: Valuation, items: seq<Item>) returns (tokens: seq<Token>)
    requires WorthItself(worth) && forall i :: 0 <= i < |items| ==> Writable(worth, items[i])
    ensures Parses(worth, Written(items), tokens, Pieces(items))
  {
    tokens := [];
    if items != [] {
      ItemIsToken(worth, items[0]);
      var rest := ItemsAreTokens(worth, items[1..]);
      tokens := [TokenOf(items[0])] + rest;
      TokensCons(worth, TokenOf(items[0]), rest);
    }
  }

  // Reading what was written gives back exactly the fields written, whatever
  // skipped fields stand between them.
  lemma FieldsRoundTrip(round: Rounding, items: seq<Item>)
    requires forall i :: 0 <= i < |items| ==> Writable(Values(round), items[i])
    ensures Fields(round, Written(items)) == Ok(Pieces(items))
  {
    ValuesAreSo(round);
    var tokens := ItemsAreTokens(Values(round), items);
    ReadsExactly(round, Written(items), Pieces(items));
  }

  lemma BigEndianReadsBack(pre: seq<byte>, n: nat, post: seq<byte>)
    requires n < 0x1_0000_0000
    ensures ReadBigEndian32(pre + BigEndian32(n) + post, |pre|) == n
  {
    var view := pre + BigEndian32(n) + post;
    assert view[|pre|] == n / 0x100_0000 && view[|pre| + 1] == n / 0x1_0000 % 256;
    assert view[|pre| + 2] == n / 256 % 256 && view[|pre| + 3] == n % 256;
  }

  lemma BigEndianIsRead(view: seq<byte>, at: nat)
    requires at + 4 <= |view|
    ensures ReadBigEndian32(view, at) < 0x1_0000_0000
    ensures BigEndian32(ReadBigEndian32(view, at)) == view[at..at + 4]
  {
    var a: nat, b: nat, c: nat, d: nat := view[at], view[at + 1], view[at + 2], view[at + 3];
    var n := ReadBigEndian32(view, at);
    Digits((a * 256 + b) * 256 + c, d);
    Digits(a * 256 + b, c);
    Digits(a, b);
    assert n == ((a * 256 + b) * 256 + c) * 256 + d;
    assert n / 0x1_0000 == n / 256 / 256 && n / 0x100_0000 == n / 256 / 256 / 256;
    assert view[at..at + 4] == [a, b, c, d];
  }

  lemma Digits(high: nat, low: nat)
    requires low < 256
    ensures (high * 256 + low) / 256 == high && (high * 256 + low) % 256 == low
  {
  }

  // Unframing accepts exactly the frames that framing makes without flags, and
  // gives back what was framed.
  lemma UnframingInvertsFraming(view: seq<byte>, body: seq<byte>)
    ensures Unframe(view) == Ok(body) <==> Frame(body, 0) == Ok(view)
  {
    if Frame(body, 0) == Ok(view) {
      assert view == [0] + BigEndian32(|body|) + body;
      BigEndianReadsBack([0], |body|, body);
      assert view[5..] == body;
    }
    if Unframe(view) == Ok(body) {
      BigEndianIsRead(view, 1);
      assert view == [view[0]] + view[1..5] + view[5..];
    }
  }

  // A frame is its flags, the length of the body in four bytes, the highest first,
  // and the body; only a body too long for them cannot be framed.
  lemma FrameIs(body: seq<byte>, flags: byte)
    ensures Frame(body, flags).Ok? <==> |body| < 0x1_0000_0000
    ensures Frame(body, flags).Ok? ==>
      var view := Frame(body, flags).value;
      && |view| == 5 + |body| && view[0] == flags && view[5..] == body
      && var a: int, b: int, c: int, d: int := view[1], view[2], view[3], view[4];
         256 * (256 * (256 * a + b) + c) + d == |body|
  {
    if |body| < 0x1_0000_0000 { BigEndianReadsBack([flags], |body|, body); }
  }
}
