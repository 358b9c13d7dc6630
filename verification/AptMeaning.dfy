/**
 What the addresses found in an APT source file are, told by the text alone: by
 its lines, the words on them, and what stands before and after a word.
 */
module AptMeaning {
  import opened AptText
  import opened AptSources

  // ------------------------------------------------------------- one-line style

  predicate Blanks(t: string, a: nat, b: nat) {
    a < b <= |t| && forall i :: a <= i < b ==> IsBlank(t[i])
  }

  // As many characters as an address can have, and at least one.
  predicate IsToken(t: string, w: Span) {
    && w.start < w.end <= |t|
    && (forall i :: w.start <= i < w.end ==> !StopsToken(t[i]))
    && (w.end < |t| ==> StopsToken(t[w.end]))
  }

  // A line starts at p: blanks, at q "deb" or "deb-src", and from b blanks up to c.
  predicate Opens(t: string, p: nat, q: nat, b: nat, c: nat) {
    && p <= q < b < c <= |t| && (p == 0 || t[p - 1] == '\n')
    && (forall i :: p <= i < q ==> IsBlank(t[i]))
    && (t[q..b] == "deb" || t[q..b] == "deb-src")
    && Blanks(t, b, c)
  }

  // Options in brackets from c, closed at r, and blanks up to d.
  predicate Options(t: string, c: nat, r: nat, d: nat) {
    && c < r < |t| && t[c] == '[' && t[r] == ']'
    && (forall i :: c < i < r ==> !StopsOptions(t[i]))
    && Blanks(t, r + 1, d)
  }

  // From c options can be read, with an address after them.
  ghost predicate HasOptions(t: string, c: nat) {
    exists r, v: Span :: Options(t, c, r, v.start) && IsToken(t, v)
  }

  ghost predicate AfterTheOptions(t: string, w: Span) {
    exists p, q, b, c, r :: Opens(t, p, q, b, c) && Options(t, c, r, w.start)
  }

  ghost predicate AfterTheKeyword(t: string, w: Span) {
    !HasOptions(t, w.start) && exists p, q, b :: Opens(t, p, q, b, w.start)
  }

  ghost predicate Listable(t: string, w: Span) {
    IsToken(t, w) && (AfterTheOptions(t, w) || AfterTheKeyword(t, w))
  }

  // The line from p holds no newline but its last character.
  lemma PatternLine(t: string, p: nat)
    requires p < |t|
    ensures var n := PatternLineEnd(t, p);
      && (forall i :: p <= i < n - 1 ==> t[i] != '\n')
      && (n < |t| ==> t[n - 1] == '\n')
  {
    RunEndChars(t, p, |t|, IsNewline, false);
  }

  // Nothing without a newline runs over the end of the line.
  lemma StaysOnLine(t: string, p: nat, j: nat)
    requires p <= j < |t| && forall i :: p <= i < j ==> t[i] != '\n'
    ensures j < PatternLineEnd(t, p)
  {
    PatternLine(t, p);
  }

  lemma KeywordOpens(t: string, p: nat, n: nat)
    requires p < n <= |t| && (p == 0 || t[p - 1] == '\n')
    ensures var q := RunEnd(t, p, n, IsBlank, true);
      var c := AfterKeyword(t, q, n);
      c < n ==> Opens(t, p, q, KeywordEnd(t, q, n), c) && !IsBlank(t[c])
  {
    var q := RunEnd(t, p, n, IsBlank, true);
    RunEndChars(t, p, n, IsBlank, true);
    RunEndChars(t, KeywordEnd(t, q, n), n, IsBlank, true);
    var b := KeywordEnd(t, q, n);
    if b == q + 7 {
      assert t[q..b] == t[q..q + 3] + t[q + 3..b];
    }
  }

  lemma OpensKeyword(t: string, p: nat, q: nat, b: nat, c: nat, n: nat)
    requires Opens(t, p, q, b, c) && c < n <= |t| && !IsBlank(t[c])
    ensures RunEnd(t, p, n, IsBlank, true) == q && AfterKeyword(t, q, n) == c
  {
    assert t[q] == t[q..b][0] == 'd';
    RunEndIs(t, p, n, IsBlank, true, q);
    RunEndIs(t, b, n, IsBlank, true, c);
    if t[q..b] == "deb" {
      StartsWith(t, b, n, "-src");
    } else {
      SplitsKeyword(t, q, b);
    }
  }

  lemma SplitsKeyword(t: string, q: nat, b: nat)
    requires q <= b <= |t| && t[q..b] == "deb-src"
    ensures b == q + 7 && t[q..q + 3] == "deb" && t[q + 3..q + 7] == "-src"
  {
    var word := t[q..b];
    assert |word| == 7;
    assert t[q..q + 3] == word[..3] && t[q + 3..q + 7] == word[3..];
    assert word[..3] == "deb" && word[3..] == "-src";
  }

  lemma StartsWith(t: string, p: nat, n: nat, word: string)
    requires p <= n <= |t| && word != ""
    ensures At(t, p, n, word) ==> t[p] == word[0]
  {
  }

  // What is found from c on, where the keyword's blanks end.
  lemma OptionsFound(t: string, p: nat, c: nat)
    requires p < |t| && p <= c < PatternLineEnd(t, p)
    ensures var d := AfterOptions(t, c, PatternLineEnd(t, p));
      if HasOptions(t, c)
      then !StopsToken(t[d]) && exists r :: Options(t, c, r, d)
      else d == c
  {
    var n := PatternLineEnd(t, p);
    PatternLine(t, p);
    var e := RunEnd(t, c, n, StopsOptions, false);
    RunEndChars(t, c, n, StopsOptions, false);
    var d := AfterOptions(t, c, n);
    if d != c {
      RunEndChars(t, e + 1, n, IsBlank, true);
      assert Options(t, c, e, d);
      var f := RunEnd(t, d, |t|, StopsToken, false);
      RunEndChars(t, d, |t|, StopsToken, false);
      assert Span(d, f).start == d && IsToken(t, Span(d, f));
      assert HasOptions(t, c);
    }
    if HasOptions(t, c) {
      var r, v: Span :| Options(t, c, r, v.start) && IsToken(t, v);
      OptionsRead(t, p, c, r, v.start);
    }
  }

  lemma OptionsRead(t: string, p: nat, c: nat, r: nat, d: nat)
    requires p < |t| && p <= c < PatternLineEnd(t, p)
    requires Options(t, c, r, d) && d < |t| && !StopsToken(t[d])
    ensures AfterOptions(t, c, PatternLineEnd(t, p)) == d
  {
    var n := PatternLineEnd(t, p);
    PatternLine(t, p);
    StaysOnLine(t, p, d);
    RunEndIs(t, c, n, StopsOptions, false, r);
    RunEndIs(t, r + 1, n, IsBlank, true, d);
  }

  lemma TokenFound(t: string, p: nat, d: nat)
    requires p < |t| && p <= d < PatternLineEnd(t, p) && !StopsToken(t[d])
    ensures var w := TokenAt(t, d, PatternLineEnd(t, p));
      w.Word? && w.span.start == d && forall v: Span :: v.start == d && IsToken(t, v) <==> v == w.span
  {
    var n := PatternLineEnd(t, p);
    PatternLine(t, p);
    RunEndChars(t, d, n, StopsToken, false);
    forall v: Span | v.start == d && IsToken(t, v) ensures v.end == RunEnd(t, d, n, StopsToken, false) {
      RunEndIs(t, d, n, StopsToken, false, v.end);
    }
  }

  // The line from p starts at a line's start; what is found on it is listable.
  lemma LineFinds(t: string, p: nat, w: Span)
    requires p < |t| && (p == 0 || t[p - 1] == '\n')
    ensures ListToken(t, p, PatternLineEnd(t, p)) == Word(w)
      <==> Listable(t, w) && p <= w.start < PatternLineEnd(t, p)
  {
    var n := PatternLineEnd(t, p);
    KeywordOpens(t, p, n);
    var c := AfterKeyword(t, RunEnd(t, p, n, IsBlank, true), n);
    if c < n {
      OptionsFound(t, p, c);
      var d := AfterOptions(t, c, n);
      if !StopsToken(t[d]) { TokenFound(t, p, d); }
    }
    if Listable(t, w) && p <= w.start < n { ListableFound(t, p, w); }
  }

  // A line's start that no newline separates from j lies on the line of j.
  lemma SameStart(t: string, p: nat, p': nat, j: nat)
    requires p < |t| && p <= j < PatternLineEnd(t, p) && (p == 0 || t[p - 1] == '\n')
    requires p' <= j && (p' == 0 || t[p' - 1] == '\n')
    requires forall i :: p' <= i < j ==> t[i] != '\n'
    ensures p' == p
  {
    PatternLine(t, p);
  }

  lemma ListableFound(t: string, p: nat, w: Span)
    requires p < |t| && (p == 0 || t[p - 1] == '\n')
    requires Listable(t, w) && p <= w.start < PatternLineEnd(t, p)
    ensures ListToken(t, p, PatternLineEnd(t, p)) == Word(w)
  {
    if AfterTheOptions(t, w) {
      var p', q, b, c, r :| Opens(t, p', q, b, c) && Options(t, c, r, w.start);
      KeywordFound(t, p, p', q, b, c, w.start);
      OptionsRead(t, p, c, r, w.start);
    } else {
      var p', q, b :| Opens(t, p', q, b, w.start);
      KeywordFound(t, p, p', q, b, w.start, w.start);
      OptionsFound(t, p, w.start);
    }
    TokenFound(t, p, w.start);
  }

  // The keyword before c is that of the line on which d lies.
  lemma KeywordFound(t: string, p: nat, p': nat, q: nat, b: nat, c: nat, d: nat)
    requires p < |t| && p <= d < PatternLineEnd(t, p) && (p == 0 || t[p - 1] == '\n')
    requires Opens(t, p', q, b, c) && c <= d && !IsBlank(t[c])
    requires forall i :: c <= i < d ==> t[i] != '\n'
    ensures p' == p && c < PatternLineEnd(t, p)
    ensures AfterKeyword(t, RunEnd(t, p, PatternLineEnd(t, p), IsBlank, true), PatternLineEnd(t, p)) == c
  {
    OpensNoNewline(t, p', q, b, c);
    SameStart(t, p, p', d);
    OpensKeyword(t, p, q, b, c, PatternLineEnd(t, p));
  }

  lemma OpensNoNewline(t: string, p: nat, q: nat, b: nat, c: nat)
    requires Opens(t, p, q, b, c)
    ensures forall i :: p <= i < c ==> t[i] != '\n'
  {
    forall i | q <= i < b ensures t[i] != '\n' { assert t[i] == t[q..b][i - q]; }
  }

  lemma {:induction false} ListFindsFrom(t: string, p: nat, w: Span)
    requires p <= |t| && (p == 0 || p == |t| || t[p - 1] == '\n')
    ensures w in ListSpans(t, p) <==> Listable(t, w) && p <= w.start
    decreases |t| - p
  {
    if p < |t| {
      var n := PatternLineEnd(t, p);
      PatternLine(t, p);
      LineFinds(t, p, w);
      ListFindsFrom(t, n, w);
    }
  }

  // An address of a one-line file: a token after "deb" or "deb-src", from the start
  // of its line, and after the options if options with an address can be read there.
  lemma ListFinds(t: string, w: Span)
    ensures w in Spans(t, ListFormat) <==> Listable(t, w)
  {
    ListFindsFrom(t, 0, w);
  }

  // ------------------------------------------------------------ lines of a stanza

  // A line ends before i.
  predicate LineBreak(t: string, i: nat) {
    && 0 < i <= |t| && EndsLine(t[i - 1])
    && !(t[i - 1] == '\r' && i < |t| && t[i] == '\n')
  }

  predicate IsLine(t: string, l: Span) {
    && l.start < l.end <= |t|
    && (l.end < |t| ==> LineBreak(t, l.end))
    && forall i :: l.start < i < l.end ==> !LineBreak(t, i)
  }

  // These are the lines of the text, one after the other.
  predicate AreLines(t: string, lines: seq<Span>) {
    && (forall k :: 0 <= k < |lines| ==> IsLine(t, lines[k]))
    && (if lines == [] then t == "" else lines[0].start == 0 && lines[|lines| - 1].end == |t|)
    && forall k :: 0 < k < |lines| ==> lines[k].start == lines[k - 1].end
  }

  lemma LineEndIs(t: string, l: Span)
    requires IsLine(t, l)
    ensures LineEnd(t, l.start) == l.end
  {
    var i := RunEnd(t, l.start, |t|, EndsLine, false);
    RunEndChars(t, l.start, |t|, EndsLine, false);
    assert forall j :: l.start < j <= i ==> !LineBreak(t, j);
    if i < |t| {
      var n := EndingEnd(t, i);
      assert LineBreak(t, n);
      assert forall j :: l.start < j < n ==> !LineBreak(t, j);
    }
  }

  lemma LineIsLine(t: string, p: nat)
    requires p < |t|
    ensures IsLine(t, Span(p, LineEnd(t, p)))
  {
    var i := RunEnd(t, p, |t|, EndsLine, false);
    RunEndChars(t, p, |t|, EndsLine, false);
    assert forall j :: p < j <= i ==> !LineBreak(t, j);
    if i < |t| { assert LineBreak(t, EndingEnd(t, i)); }
  }

  // Every text has its lines.
  lemma LinesExist(t: string) returns (lines: seq<Span>)
    ensures AreLines(t, lines)
  {
    lines := [];
    var p := 0;
    while p < |t|
      invariant p <= |t| && (lines == [] ==> p == 0)
      invariant forall k :: 0 <= k < |lines| ==> IsLine(t, lines[k])
      invariant lines != [] ==> lines[0].start == 0 && lines[|lines| - 1].end == p
      invariant forall k :: 0 < k < |lines| ==> lines[k].start == lines[k - 1].end
      decreases |t| - p
    {
      LineIsLine(t, p);
      lines, p := lines + [Span(p, LineEnd(t, p))], LineEnd(t, p);
    }
  }

  predicate WithinText(t: string, l: Span) { l.start < l.end <= |t| }

  predicate BlankLine(t: string, l: Span)
    requires WithinText(t, l)
  {
    forall i :: l.start <= i < l.end ==> IsSpace(t[i])
  }

  predicate CommentLine(t: string, l: Span)
    requires WithinText(t, l)
  {
    exists i :: l.start <= i < l.end && t[i] == '#' && forall j :: l.start <= j < i ==> IsSpace(t[j])
  }

  // The line starts something new: it is not indented, and no comment.
  predicate Heading(t: string, l: Span)
    requires WithinText(t, l)
  {
    !IsSpace(t[l.start]) && t[l.start] != '#'
  }

  // The line opens with a field name that ends at this colon.
  predicate HeaderAt(t: string, l: Span, colon: nat)
    requires WithinText(t, l)
  {
    && l.start < colon < l.end && t[colon] == ':'
    && forall i :: l.start <= i < colon ==> !IsSpace(t[i]) && t[i] != ':'
  }

  // The word in capitals or small letters; `small` has small letters only.
  predicate Spells(s: string, small: string) {
    |s| == |small| && forall i :: 0 <= i < |s| ==>
      s[i] == small[i] || ('a' <= small[i] <= 'z' && s[i] as int == small[i] as int - 32)
  }

  ghost predicate Named(t: string, l: Span, name: string)
    requires WithinText(t, l)
  {
    exists colon: nat :: HeaderAt(t, l, colon) && Spells(t[l.start..colon], name)
  }

  // Line j is the last before or at line k that starts something new, in its stanza.
  predicate Governs(t: string, lines: seq<Span>, j: nat, k: nat)
    requires AreLines(t, lines)
  {
    && j <= k < |lines| && Heading(t, lines[j])
    && forall i :: j < i <= k ==> !BlankLine(t, lines[i]) && !Heading(t, lines[i])
  }

  ghost predicate BelongsTo(t: string, lines: seq<Span>, k: nat, name: string)
    requires AreLines(t, lines)
  {
    && k < |lines| && !BlankLine(t, lines[k]) && !CommentLine(t, lines[k])
    && exists j: nat :: Governs(t, lines, j, k) && Named(t, lines[j], name)
  }

  // Where the words of the line begin: past the field name, if there is one.
  ghost predicate BodyFrom(t: string, l: Span, b: nat)
    requires WithinText(t, l)
  {
    (0 < b && HeaderAt(t, l, b - 1)) || (b == l.start && forall colon: nat :: !HeaderAt(t, l, colon))
  }

  // A word of t[b..n], which begins and ends a word there.
  predicate IsWord(t: string, b: nat, n: nat, w: Span)
    requires b <= n <= |t|
  {
    && b <= w.start < w.end <= n
    && (forall i :: w.start <= i < w.end ==> !IsSpace(t[i]))
    && (b < w.start ==> IsSpace(t[w.start - 1])) && (w.end < n ==> IsSpace(t[w.end]))
  }

  // No word up to this place starts a comment.
  predicate Uncommented(t: string, b: nat, to: nat)
    requires to < |t|
  {
    forall i :: b <= i <= to && t[i] == '#' ==> b < i && !IsSpace(t[i - 1])
  }

  predicate WordIn(t: string, b: nat, n: nat, w: Span)
    requires b <= n <= |t|
  {
    IsWord(t, b, n, w) && Uncommented(t, b, w.start)
  }

  // A word of a field, on its k-th line of the text.
  ghost predicate FieldWord(t: string, lines: seq<Span>, k: nat, name: string, w: Span)
    requires AreLines(t, lines)
  {
    && BelongsTo(t, lines, k, name)
    && exists b: nat :: BodyFrom(t, lines[k], b) && b <= lines[k].end && WordIn(t, b, lines[k].end, w)
  }

  // No blank line from line i to before line k.
  predicate Unbroken(t: string, lines: seq<Span>, i: nat, k: nat)
    requires AreLines(t, lines)
  {
    forall j :: i <= j < k && j < |lines| ==> !BlankLine(t, lines[j])
  }

  predicate SameStanza(t: string, lines: seq<Span>, i: nat, k: nat)
    requires AreLines(t, lines)
  {
    Unbroken(t, lines, i, k + 1) && Unbroken(t, lines, k, i + 1)
  }

  // ------------------------------------------------------------ disabled stanzas

  // A decimal or hexadecimal zero; and one with a sign or without.
  predicate ZeroDigits(d: string) {
    AllZeros(d) || (|d| > 2 && d[0] == '0' && d[1] in ['x', 'X'] && AllZeros(d[2..]))
  }

  ghost predicate ZeroNumeral(v: string) {
    exists sign, digits :: sign in ["", "+", "-"] && v == sign + digits && ZeroDigits(digits)
  }

  ghost predicate Negative(v: string) {
    || Spells(v, "no") || Spells(v, "false") || Spells(v, "off") || Spells(v, "without") || Spells(v, "disable")
    || ZeroNumeral(v)
  }

  // A word of an Enabled line of the stanza of line k.
  ghost predicate EnabledWord(t: string, lines: seq<Span>, k: nat, v: Span)
    requires AreLines(t, lines)
  {
    exists i: nat :: SameStanza(t, lines, i, k) && FieldWord(t, lines, i, "enabled", v)
  }

  // The stanza is switched off: its Enabled lines have one word, a negative one.
  ghost predicate SwitchedOff(t: string, lines: seq<Span>, k: nat)
    requires AreLines(t, lines)
  {
    exists v: Span ::
      && EnabledWord(t, lines, k, v) && v.start <= v.end <= |t| && Negative(t[v.start..v.end])
      && forall u :: EnabledWord(t, lines, k, u) ==> u == v
  }

  lemma SpellsLower(v: string, small: string)
    requires forall i :: 0 <= i < |small| ==> 'a' <= small[i] <= 'z'
    ensures Lower(v) == small <==> Spells(v, small)
  {
    if Spells(v, small) {
      assert Lower(v) == small;
    }
    if Lower(v) == small {
      forall i | 0 <= i < |v| ensures LowerChar(v[i]) == small[i] { assert Lower(v)[i] == LowerChar(v[i]); }
    }
  }

  lemma LowerZeros(v: string)
    ensures AllZeros(Lower(v)) <==> AllZeros(v)
  {
    forall i | 0 <= i < |v| ensures Lower(v)[i] == '0' <==> v[i] == '0' {}
  }

  lemma LowerRest(v: string, n: nat)
    requires n <= |v|
    ensures Lower(v[n..]) == Lower(v)[n..]
  {
  }

  lemma ZeroDigitsLower(d: string)
    ensures ZeroDigits(d) <==> AllZeros(Lower(d)) || ("0x" <= Lower(d) && AllZeros(Lower(d)[2..]))
  {
    LowerZeros(d);
    if |d| >= 2 {
      LowerRest(d, 2);
      LowerZeros(d[2..]);
      assert "0x" <= Lower(d) <==> Lower(d)[0] == '0' && Lower(d)[1] == 'x';
    }
  }

  // The sign a value has, and what follows it.
  function SignLength(v: string): (n: nat)
    ensures n <= |v|
  {
    if v != "" && (v[0] == '+' || v[0] == '-') then 1 else 0
  }

  lemma SignIsOne(v: string)
    ensures v[..SignLength(v)] in ["", "+", "-"]
  {
    if SignLength(v) == 1 { assert v[..1] == [v[0]]; }
  }

  lemma Unsigned(v: string, sign: string, digits: string)
    requires sign in ["", "+", "-"] && v == sign + digits && ZeroDigits(digits)
    ensures sign == v[..SignLength(v)] && digits == v[SignLength(v)..]
  {
    assert digits[0] == '0';
  }

  lemma ZeroIsZero(v: string)
    ensures ZeroNumeral(v) <==> IsZero(Lower(v))
  {
    var n := SignLength(v);
    SignIsOne(v);
    LowerRest(v, n);
    ZeroDigitsLower(v[n..]);
    assert v == v[..n] + v[n..];
    forall sign, digits | sign in ["", "+", "-"] && v == sign + digits && ZeroDigits(digits)
      ensures digits == v[n..]
    {
      Unsigned(v, sign, digits);
    }
    assert ZeroNumeral(v) <==> ZeroDigits(v[n..]);
    LowerSign(v);
    LowerSign(Lower(v));
  }

  lemma LowerSign(v: string)
    ensures SignLength(Lower(v)) == SignLength(v)
    ensures IsZero(v) <==>
      AllZeros(v[SignLength(v)..]) || ("0x" <= v[SignLength(v)..] && AllZeros(v[SignLength(v)..][2..]))
  {
  }

  lemma NegativeIsDisabled(v: string)
    ensures Negative(v) <==> Disabled([v])
  {
    SpellsLower(v, "no");
    SpellsLower(v, "false");
    SpellsLower(v, "off");
    SpellsLower(v, "without");
    SpellsLower(v, "disable");
    ZeroIsZero(v);
  }

  // More than one word, or none, is no negative value.
  lemma ManyAreEnabled(words: seq<string>)
    requires |words| != 1
    ensures !Disabled(words)
  {
    var value := Lower(Joined(words));
    if |words| > 1 {
      assert Joined(words)[|words[0]|] == ' ' && value[|words[0]|] == ' ';
      assert ' ' in value;
      assert ' ' !in "no" && ' ' !in "false" && ' ' !in "off" && ' ' !in "without" && ' ' !in "disable";
    }
    ZeroHasNoSpace(value);
  }

  lemma ZeroHasNoSpace(v: string)
    ensures IsZero(v) ==> v != "" && ' ' !in v
  {
    LowerSign(v);
    var n := SignLength(v);
    assert v == v[..n] + v[n..];
    SignIsOne(v);
    if "0x" <= v[n..] { assert v[n..] == "0x" + v[n..][2..]; }
  }

  // ---------------------------------------------------------- what the loop keeps

  lemma KindIs(t: string, l: Span)
    requires WithinText(t, l)
    ensures KindOf(t, l.start, l.end).Blank? <==> BlankLine(t, l)
    ensures KindOf(t, l.start, l.end).Comment? <==> !BlankLine(t, l) && CommentLine(t, l)
    ensures Heading(t, l) ==> KindOf(t, l.start, l.end).Content?
  {
    RunEndChars(t, l.start, l.end, IsSpace, true);
    if CommentLine(t, l) {
      var i :| l.start <= i < l.end && t[i] == '#' && forall j :: l.start <= j < i ==> IsSpace(t[j]);
      RunEndIs(t, l.start, l.end, IsSpace, true, i);
    }
  }

  lemma HeaderIs(t: string, l: Span)
    requires WithinText(t, l)
    ensures HasHeader(t, l.start, l.end) <==> exists colon: nat :: HeaderAt(t, l, colon)
    ensures forall colon: nat :: HeaderAt(t, l, colon) ==> colon == NameEnd(t, l.start, l.end)
    ensures BodyFrom(t, l, BodyStart(t, l.start, l.end))
    ensures forall b: nat :: BodyFrom(t, l, b) ==> b == BodyStart(t, l.start, l.end)
  {
    var p, n := l.start, l.end;
    RunEndChars(t, p, n, StopsName, false);
    forall colon: nat | HeaderAt(t, l, colon) ensures colon == NameEnd(t, p, n) && HasHeader(t, p, n) {
      RunEndIs(t, p, n, StopsName, false, colon);
    }
    if HasHeader(t, p, n) { assert HeaderAt(t, l, NameEnd(t, p, n)); }
  }

  // The field of a line that starts something new is the one it names.
  lemma NamedField(t: string, l: Span, field: Field)
    requires WithinText(t, l) && Heading(t, l)
    ensures FieldOf(t, l.start, l.end, field).Uris? <==> Named(t, l, "uris")
    ensures FieldOf(t, l.start, l.end, field).Enabled? <==> Named(t, l, "enabled")
  {
    HeaderIs(t, l);
    var colon := NameEnd(t, l.start, l.end);
    if HasHeader(t, l.start, l.end) {
      SpellsLower(t[l.start..colon], "uris");
      SpellsLower(t[l.start..colon], "enabled");
      assert HeaderAt(t, l, colon);
    }
  }

  // A place where a word of t[b..n] may begin, with no comment before it.
  predicate Between(t: string, b: nat, p: nat, n: nat) {
    && b <= p <= n <= |t| && (p == b || p == n || IsSpace(t[p]))
    && forall i :: b <= i < p && t[i] == '#' ==> b < i && !IsSpace(t[i - 1])
  }

  lemma {:induction false} WordsAre(t: string, b: nat, p: nat, n: nat, w: Span)
    requires Between(t, b, p, n)
    ensures w in Words(t, p, n) <==> WordIn(t, b, n, w) && p <= w.start
    decreases n - p
  {
    var q := RunEnd(t, p, n, IsSpace, true);
    RunEndChars(t, p, n, IsSpace, true);
    if q < n && t[q] != '#' {
      var e := RunEnd(t, q, n, IsSpace, false);
      RunEndChars(t, q, n, IsSpace, false);
      WordsAre(t, b, e, n, w);
      FirstWord(t, b, p, q, e, n, w);
    } else {
      assert WordIn(t, b, n, w) ==> !IsSpace(t[w.start]);
      assert p < q ==> IsSpace(t[q - 1]);
    }
  }

  lemma FirstWord(t: string, b: nat, p: nat, q: nat, e: nat, n: nat, w: Span)
    requires Between(t, b, p, n) && p <= q < e <= n && t[q] != '#'
    requires forall i :: p <= i < q ==> IsSpace(t[i])
    requires forall i :: q <= i < e ==> !IsSpace(t[i])
    requires e < n ==> IsSpace(t[e])
    ensures Between(t, b, e, n)
    ensures WordIn(t, b, n, w) && p <= w.start <==> w == Span(q, e) || (WordIn(t, b, n, w) && e <= w.start)
  {
    assert p < q ==> IsSpace(t[q - 1]);
    assert WordIn(t, b, n, w) ==> !IsSpace(t[w.start]) && (b < w.start ==> IsSpace(t[w.start - 1]));
  }

  lemma LineWordsAre(t: string, l: Span, w: Span)
    requires WithinText(t, l)
    ensures w in LineWords(t, l.start, l.end)
      <==> exists b: nat :: BodyFrom(t, l, b) && b <= l.end && WordIn(t, b, l.end, w)
  {
    HeaderIs(t, l);
    var b := BodyStart(t, l.start, l.end);
    WordsAre(t, b, b, l.end, w);
  }

  // The field that line k belongs to if it continues the lines before it.
  ghost predicate Continues(t: string, lines: seq<Span>, k: nat, name: string)
    requires AreLines(t, lines)
  {
    0 < k <= |lines| && exists j: nat :: Governs(t, lines, j, k - 1) && Named(t, lines[j], name)
  }

  // A word of the field before line k, in the stanza that is open there.
  ghost predicate Seen(t: string, lines: seq<Span>, k: nat, name: string, w: Span)
    requires AreLines(t, lines)
  {
    exists i: nat :: i < k && FieldWord(t, lines, i, name, w) && Unbroken(t, lines, i, k)
  }

  // An address before line k, in a stanza that has ended and was not switched off.
  ghost predicate Ended(t: string, lines: seq<Span>, k: nat, w: Span)
    requires AreLines(t, lines)
  {
    exists i: nat ::
      && i < k && FieldWord(t, lines, i, "uris", w)
      && !Unbroken(t, lines, i, k) && !SwitchedOff(t, lines, i)
  }

  function StartOf(t: string, lines: seq<Span>, k: nat): (p: nat)
    requires AreLines(t, lines) && k <= |lines|
    ensures p <= |t|
    ensures if k == |lines| then p == |t| else p == lines[k].start
  {
    if k == 0 then 0 else lines[k - 1].end
  }

  ghost predicate Reads(t: string, words: seq<Span>, texts: seq<string>) {
    && |words| == |texts|
    && forall n :: 0 <= n < |words| ==>
      words[n].start <= words[n].end <= |t| && texts[n] == t[words[n].start..words[n].end]
  }

  ghost predicate FieldKept(t: string, lines: seq<Span>, k: nat, field: Field)
    requires AreLines(t, lines)
  {
    (field.Uris? <==> Continues(t, lines, k, "uris")) && (field.Enabled? <==> Continues(t, lines, k, "enabled"))
  }

  // What the loop knows before line k; `words` are those of the Enabled lines.
  ghost predicate Kept(t: string, lines: seq<Span>, k: nat, z: Stanza, words: seq<Span>)
    requires AreLines(t, lines)
  {
    && k <= |lines| && FieldKept(t, lines, k, z.field)
    && (forall w :: w in z.pending <==> Seen(t, lines, k, "uris", w))
    && (forall w :: w in words <==> Seen(t, lines, k, "enabled", w))
    && Reads(t, words, z.enabled) && InOrder(words, 0, StartOf(t, lines, k))
    && forall w :: w in z.result <==> Ended(t, lines, k, w)
  }

  lemma SeenNext(t: string, lines: seq<Span>, k: nat, name: string, w: Span)
    requires AreLines(t, lines) && k < |lines|
    ensures Seen(t, lines, k + 1, name, w)
      <==> !BlankLine(t, lines[k]) && (Seen(t, lines, k, name, w) || FieldWord(t, lines, k, name, w))
  {
    forall i: nat | i <= k
      ensures Unbroken(t, lines, i, k + 1) <==> Unbroken(t, lines, i, k) && !BlankLine(t, lines[k])
    {
    }
    if !BlankLine(t, lines[k]) {
      if Seen(t, lines, k, name, w) {
        var i: nat :| i < k && FieldWord(t, lines, i, name, w) && Unbroken(t, lines, i, k);
        assert Unbroken(t, lines, i, k + 1);
      }
      if FieldWord(t, lines, k, name, w) { assert Unbroken(t, lines, k, k); }
    }
  }

  lemma ContinuesNext(t: string, lines: seq<Span>, k: nat, name: string)
    requires AreLines(t, lines) && k < |lines|
    ensures Continues(t, lines, k + 1, name)
      <==> if BlankLine(t, lines[k]) then false
           else if Heading(t, lines[k]) then Named(t, lines[k], name)
           else Continues(t, lines, k, name)
  {
    forall j: nat | j < k
      ensures Governs(t, lines, j, k)
        <==> Governs(t, lines, j, k - 1) && !BlankLine(t, lines[k]) && !Heading(t, lines[k])
    {
    }
    if Heading(t, lines[k]) { assert Governs(t, lines, k, k); }
    if Continues(t, lines, k, name) {
      var j: nat :| Governs(t, lines, j, k - 1) && Named(t, lines[j], name);
      assert j < k;
      assert !BlankLine(t, lines[k]) && !Heading(t, lines[k]) ==> Governs(t, lines, j, k);
    }
  }

  lemma FieldNext(t: string, lines: seq<Span>, k: nat, field: Field)
    requires AreLines(t, lines) && k < |lines| && FieldKept(t, lines, k, field)
    requires !BlankLine(t, lines[k])
    ensures CommentLine(t, lines[k]) ==> FieldKept(t, lines, k + 1, field)
    ensures !CommentLine(t, lines[k]) ==> FieldKept(t, lines, k + 1, FieldOf(t, lines[k].start, lines[k].end, field))
  {
    ContinuesNext(t, lines, k, "uris");
    ContinuesNext(t, lines, k, "enabled");
    HeadingIs(t, lines[k]);
    if Heading(t, lines[k]) { NamedField(t, lines[k], field); }
  }

  lemma HeadingIs(t: string, l: Span)
    requires WithinText(t, l)
    ensures Heading(t, l) <==> !CommentLine(t, l) && !IsSpace(t[l.start])
  {
    if t[l.start] == '#' { assert CommentLine(t, l); }
  }

  lemma FieldWordIs(t: string, lines: seq<Span>, k: nat, name: string, w: Span)
    requires AreLines(t, lines) && k < |lines|
    ensures FieldWord(t, lines, k, name, w) <==>
      && !BlankLine(t, lines[k]) && !CommentLine(t, lines[k]) && Continues(t, lines, k + 1, name)
      && w in LineWords(t, lines[k].start, lines[k].end)
  {
    LineWordsAre(t, lines[k], w);
  }

  // The words of the Enabled lines of a stanza that ends before line k.
  lemma EnabledWordsAre(t: string, lines: seq<Span>, i: nat, k: nat, v: Span)
    requires AreLines(t, lines) && i < k <= |lines| && Unbroken(t, lines, i, k)
    requires k < |lines| ==> BlankLine(t, lines[k])
    ensures EnabledWord(t, lines, i, v) <==> Seen(t, lines, k, "enabled", v)
  {
    forall j: nat | k <= j < |lines| ensures !SameStanza(t, lines, j, i) {
      assert BlankLine(t, lines[k]);
    }
    if EnabledWord(t, lines, i, v) {
      var j: nat :| SameStanza(t, lines, j, i) && FieldWord(t, lines, j, "enabled", v);
      assert j < k && Unbroken(t, lines, j, k);
    }
    if Seen(t, lines, k, "enabled", v) {
      var j: nat :| j < k && FieldWord(t, lines, j, "enabled", v) && Unbroken(t, lines, j, k);
      assert SameStanza(t, lines, j, i);
    }
  }

  // The words are one word, a negative one.
  ghost predicate OneNegative(t: string, words: seq<Span>) {
    exists v: Span ::
      && v in words && v.start <= v.end <= |t| && Negative(t[v.start..v.end])
      && forall u :: u in words ==> u == v
  }

  lemma OneNegativeIs(t: string, words: seq<Span>, texts: seq<string>, stop: nat)
    requires Reads(t, words, texts) && InOrder(words, 0, stop)
    ensures OneNegative(t, words) <==> Disabled(texts)
  {
    if |words| == 1 {
      NegativeIsDisabled(texts[0]);
      assert texts == [texts[0]] && words[0] in words;
    } else {
      ManyAreEnabled(texts);
      if |words| > 1 {
        assert words[0] in words && words[1] in words;
        assert words[1..][0] == words[1] && words[0] != words[1];
      }
    }
  }

  lemma SwitchedOffIs(t: string, lines: seq<Span>, i: nat, k: nat, z: Stanza, words: seq<Span>)
    requires AreLines(t, lines) && Kept(t, lines, k, z, words)
    requires i < k && Unbroken(t, lines, i, k) && (k < |lines| ==> BlankLine(t, lines[k]))
    ensures SwitchedOff(t, lines, i) <==> Disabled(z.enabled)
  {
    forall v ensures EnabledWord(t, lines, i, v) <==> v in words { EnabledWordsAre(t, lines, i, k, v); }
    OneNegativeIs(t, words, z.enabled, StartOf(t, lines, k));
    SameWordsOff(t, lines, i, words);
  }

  lemma SameWordsOff(t: string, lines: seq<Span>, i: nat, words: seq<Span>)
    requires AreLines(t, lines) && forall v :: EnabledWord(t, lines, i, v) <==> v in words
    ensures SwitchedOff(t, lines, i) <==> OneNegative(t, words)
  {
  }

  // What is found once the stanza ends before line k.
  lemma FinishedIs(t: string, lines: seq<Span>, k: nat, z: Stanza, words: seq<Span>, w: Span)
    requires AreLines(t, lines) && Kept(t, lines, k, z, words) && (k < |lines| ==> BlankLine(t, lines[k]))
    ensures w in Finished(z)
      <==> exists i: nat :: i < k && FieldWord(t, lines, i, "uris", w) && !SwitchedOff(t, lines, i)
  {
    forall i: nat | i < k && Unbroken(t, lines, i, k) ensures SwitchedOff(t, lines, i) <==> Disabled(z.enabled) {
      SwitchedOffIs(t, lines, i, k, z, words);
    }
    assert w in z.result + z.pending <==> Ended(t, lines, k, w) || Seen(t, lines, k, "uris", w);
    if w in z.pending {
      var i: nat :| i < k && FieldWord(t, lines, i, "uris", w) && Unbroken(t, lines, i, k);
      assert !Disabled(z.enabled) ==> !SwitchedOff(t, lines, i);
    }
    if Disabled(z.enabled) {
      forall i: nat | i < k && FieldWord(t, lines, i, "uris", w) && !SwitchedOff(t, lines, i)
        ensures Ended(t, lines, k, w)
      {
        assert !Unbroken(t, lines, i, k);
      }
    }
  }

  lemma {:induction false} TextsRead(t: string, from: nat, stop: nat, words: seq<Span>)
    requires stop <= |t| && InOrder(words, from, stop)
    ensures Reads(t, words, Texts(t, from, stop, words))
    decreases |words|
  {
    if words != [] {
      InOrderEnds(words[1..], words[0].end, stop);
      TextsRead(t, words[0].end, stop, words[1..]);
    }
  }

  lemma ReadsBoth(t: string, a: seq<Span>, b: seq<Span>, x: seq<string>, y: seq<string>)
    requires Reads(t, a, x) && Reads(t, b, y)
    ensures Reads(t, a + b, x + y)
  {
  }

  lemma EndedNext(t: string, lines: seq<Span>, k: nat, w: Span)
    requires AreLines(t, lines) && k < |lines| && !BlankLine(t, lines[k])
    ensures Ended(t, lines, k + 1, w) <==> Ended(t, lines, k, w)
  {
    forall i: nat | i < k ensures Unbroken(t, lines, i, k + 1) <==> Unbroken(t, lines, i, k) {}
    assert Unbroken(t, lines, k, k + 1);
    if Ended(t, lines, k, w) {
      var i: nat :|
        && i < k && FieldWord(t, lines, i, "uris", w)
        && !Unbroken(t, lines, i, k) && !SwitchedOff(t, lines, i);
      assert !Unbroken(t, lines, i, k + 1);
    }
  }

  // A blank line ends the stanza.
  lemma BlankKept(t: string, lines: seq<Span>, k: nat, z: Stanza, words: seq<Span>)
    requires AreLines(t, lines) && k < |lines| && Kept(t, lines, k, z, words) && BlankLine(t, lines[k])
    ensures Kept(t, lines, k + 1, Stanza(Finished(z), [], [], Other), [])
  {
    ContinuesNext(t, lines, k, "uris");
    ContinuesNext(t, lines, k, "enabled");
    var next := k + 1;
    forall w ensures !Seen(t, lines, next, "uris", w) && !Seen(t, lines, next, "enabled", w) {
      SeenNext(t, lines, k, "uris", w);
      SeenNext(t, lines, k, "enabled", w);
    }
    forall w ensures w in Finished(z) <==> Ended(t, lines, k + 1, w) {
      FinishedIs(t, lines, k, z, words, w);
      forall i: nat | i <= k ensures !Unbroken(t, lines, i, next) { assert BlankLine(t, lines[k]); }
      if w in Finished(z) {
        var i: nat :| i < k && FieldWord(t, lines, i, "uris", w) && !SwitchedOff(t, lines, i);
        assert !Unbroken(t, lines, i, k + 1);
      }
    }
  }

  // Other lines leave what has ended, and add the words of their field.
  lemma OthersKept(t: string, lines: seq<Span>, k: nat, z: Stanza, z': Stanza, words: seq<Span>, words': seq<Span>)
    requires AreLines(t, lines) && k < |lines| && Kept(t, lines, k, z, words) && !BlankLine(t, lines[k])
    requires FieldKept(t, lines, k + 1, z'.field) && z'.result == z.result
    requires forall w :: w in z'.pending <==> w in z.pending || FieldWord(t, lines, k, "uris", w)
    requires forall w :: w in words' <==> w in words || FieldWord(t, lines, k, "enabled", w)
    requires Reads(t, words', z'.enabled) && InOrder(words', 0, StartOf(t, lines, k + 1))
    ensures Kept(t, lines, k + 1, z', words')
  {
    forall w
      ensures w in z'.pending <==> Seen(t, lines, k + 1, "uris", w)
      ensures w in words' <==> Seen(t, lines, k + 1, "enabled", w)
      ensures w in z'.result <==> Ended(t, lines, k + 1, w)
    {
      SeenNext(t, lines, k, "uris", w);
      SeenNext(t, lines, k, "enabled", w);
      EndedNext(t, lines, k, w);
    }
  }

  lemma CommentKept(t: string, lines: seq<Span>, k: nat, z: Stanza, words: seq<Span>)
    requires AreLines(t, lines) && k < |lines| && Kept(t, lines, k, z, words)
    requires !BlankLine(t, lines[k]) && CommentLine(t, lines[k])
    ensures Kept(t, lines, k + 1, z, words)
  {
    FieldNext(t, lines, k, z.field);
    InOrderWider(words, 0, StartOf(t, lines, k), 0, StartOf(t, lines, k + 1));
    OthersKept(t, lines, k, z, z, words, words);
  }

  // A line of a field adds its words to what is known of the field.
  lemma ContentKept(t: string, lines: seq<Span>, k: nat, z: Stanza, words: seq<Span>) returns (words': seq<Span>)
    requires AreLines(t, lines) && k < |lines| && Kept(t, lines, k, z, words)
    requires !BlankLine(t, lines[k]) && !CommentLine(t, lines[k])
    ensures Kept(t, lines, k + 1, AfterContent(t, lines[k].start, lines[k].end, z), words')
  {
    var p, n := lines[k].start, lines[k].end;
    var z' := AfterContent(t, p, n, z);
    var more := LineWords(t, p, n);
    FieldNext(t, lines, k, z.field);
    words' := if z'.field.Enabled? then words + more else words;
    forall w
      ensures FieldWord(t, lines, k, "uris", w) <==> z'.field.Uris? && w in more
      ensures FieldWord(t, lines, k, "enabled", w) <==> z'.field.Enabled? && w in more
    {
      FieldWordIs(t, lines, k, "uris", w);
      FieldWordIs(t, lines, k, "enabled", w);
    }
    InOrderWider(words, 0, StartOf(t, lines, k), 0, StartOf(t, lines, k + 1));
    if z'.field.Enabled? {
      TextsRead(t, BodyStart(t, p, n), n, more);
      ReadsBoth(t, words, more, z.enabled, Texts(t, BodyStart(t, p, n), n, more));
      InOrderWider(more, BodyStart(t, p, n), n, p, n);
      InOrderConcat(words, more, 0, p, n);
    }
    OthersKept(t, lines, k, z, z', words, words');
  }

  lemma LineKept(t: string, lines: seq<Span>, k: nat, z: Stanza, words: seq<Span>) returns (words': seq<Span>)
    requires AreLines(t, lines) && k < |lines| && Kept(t, lines, k, z, words)
    ensures Kept(t, lines, k + 1, AfterLine(t, lines[k].start, lines[k].end, z), words')
  {
    KindIs(t, lines[k]);
    match KindOf(t, lines[k].start, lines[k].end)
    case Blank =>
      BlankKept(t, lines, k, z, words);
      words' := [];
    case Comment =>
      CommentKept(t, lines, k, z, words);
      words' := words;
    case Content =>
      words' := ContentKept(t, lines, k, z, words);
  }

  // An address of a URIs line in a stanza that is not switched off.
  ghost predicate InUse(t: string, lines: seq<Span>, w: Span)
    requires AreLines(t, lines)
  {
    exists k: nat :: FieldWord(t, lines, k, "uris", w) && !SwitchedOff(t, lines, k)
  }

  lemma {:induction false} StanzaFindsFrom(t: string, lines: seq<Span>, k: nat, z: Stanza, words: seq<Span>, w: Span)
    requires AreLines(t, lines) && Kept(t, lines, k, z, words)
    ensures w in StanzaSpans(t, StartOf(t, lines, k), z) <==> InUse(t, lines, w)
    decreases |lines| - k
  {
    if k == |lines| {
      FinishedIs(t, lines, k, z, words, w);
    } else {
      LineEndIs(t, lines[k]);
      var words' := LineKept(t, lines, k, z, words);
      StanzaFindsFrom(t, lines, k + 1, AfterLine(t, lines[k].start, lines[k].end, z), words', w);
    }
  }

  // The addresses of a file of stanzas are the words, before any comment, of the
  // lines of URIs fields whose stanza is not switched off by the one word its
  // Enabled lines have.
  lemma StanzaFinds(t: string, lines: seq<Span>, w: Span)
    requires AreLines(t, lines)
    ensures w in Spans(t, StanzaFormat) <==> InUse(t, lines, w)
  {
    assert Kept(t, lines, 0, NewFile, []);
    StanzaFindsFrom(t, lines, 0, NewFile, [], w);
  }

  // ----------------------------------------------------------------- what is renamed

  predicate IsAzure(scheme: string, slash: string, w: string) {
    scheme in ["http://", "https://"] && slash in ["", "/"] && w == scheme + AzureHost + slash
  }

  // An address of the Azure mirror becomes that of the archive, slash and all, and
  // no other is renamed.
  lemma RenamesExactly(w: string)
    ensures forall scheme, slash :: IsAzure(scheme, slash, w) ==> Renamed(w) == "https://" + ArchiveHost + slash
    ensures (forall scheme, slash :: !IsAzure(scheme, slash, w)) ==> Renamed(w) == w
  {
    if Renamed(w) != w {
      var scheme := if w[4] == 's' then "https://" else "http://";
      var bare := scheme + AzureHost;
      assert IsAzure(scheme, if w == bare then "" else "/", w);
    }
  }
}
