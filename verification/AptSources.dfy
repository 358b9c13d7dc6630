/**
 Finding the addresses in an APT source file and rewriting those of the Azure
 mirror: scripts/browser_acquisition.py.
 */
module AptSources {
  import opened Wrappers
  import opened AptText

  datatype Format = ListFormat | StanzaFormat

  // Any other suffix is refused.
  function FormatOf(suffix: string): Option<Format> {
    if suffix == ".list" then Some(ListFormat)
    else if suffix == ".sources" then Some(StanzaFormat)
    else None
  }

  // ------------------------------------------------------------------ stanzas

  datatype Field = Uris | Enabled | Other

  datatype Stanza = Stanza(result: seq<Span>, pending: seq<Span>, enabled: seq<string>, field: Field)

  const NewFile := Stanza([], [], [], Other)

  function LowerChar(c: char): char {
    if 'A' <= c <= 'Z' then (c as int + 32) as char else c
  }

  function Lower(s: string): string { seq(|s|, i requires 0 <= i < |s| => LowerChar(s[i])) }

  function FieldNamed(name: string): Field {
    if Lower(name) == "uris" then Uris else if Lower(name) == "enabled" then Enabled else Other
  }

  function Joined(words: seq<string>): string {
    if words == [] then "" else if |words| == 1 then words[0] else words[0] + " " + Joined(words[1..])
  }

  predicate AllZeros(s: string) { s != "" && forall i :: 0 <= i < |s| ==> s[i] == '0' }

  // An optional sign, then a decimal or hexadecimal zero.
  predicate IsZero(s: string) {
    var digits := if s != "" && (s[0] == '+' || s[0] == '-') then s[1..] else s;
    AllZeros(digits) || ("0x" <= digits && AllZeros(digits[2..]))
  }

  predicate Disabled(enabled: seq<string>) {
    var value := Lower(Joined(enabled));
    value in ["no", "false", "off", "without", "disable"] || IsZero(value)
  }

  // What is found once the stanza ends: a disabled one adds nothing.
  function Finished(z: Stanza): seq<Span> {
    if Disabled(z.enabled) then z.result else z.result + z.pending
  }

  // Where the field name that opens the line t[p..n] would stop.
  function NameEnd(t: string, p: nat, n: nat): (q: nat)
    requires p < n <= |t|
    ensures p <= q <= n
  {
    RunEnd(t, p, n, StopsName, false)
  }

  predicate HasHeader(t: string, p: nat, n: nat)
    requires p < n <= |t|
  {
    && !IsSpace(t[p])
    && p < NameEnd(t, p, n) < n && t[NameEnd(t, p, n)] == ':'
  }

  // A line that starts with white space continues the field before it.
  function FieldOf(t: string, p: nat, n: nat, field: Field): Field
    requires p < n <= |t|
  {
    if IsSpace(t[p]) then field
    else if HasHeader(t, p, n) then FieldNamed(t[p..NameEnd(t, p, n)])
    else Other
  }

  function BodyStart(t: string, p: nat, n: nat): (b: nat)
    requires p < n <= |t|
    ensures p <= b <= n
  {
    if HasHeader(t, p, n) then NameEnd(t, p, n) + 1 else p
  }

  function Texts(t: string, from: nat, stop: nat, words: seq<Span>): (texts: seq<string>)
    requires stop <= |t| && InOrder(words, from, stop)
    decreases |words|
  {
    if words == [] then []
    else [t[words[0].start..words[0].end]] + Texts(t, words[0].end, stop, words[1..])
  }

  function LineWords(t: string, p: nat, n: nat): (words: seq<Span>)
    requires p < n <= |t|
    ensures InOrder(words, BodyStart(t, p, n), n)
  {
    WordsInOrder(t, BodyStart(t, p, n), n);
    Words(t, BodyStart(t, p, n), n)
  }

  datatype LineKind = Blank | Comment | Content

  function KindOf(t: string, p: nat, n: nat): LineKind
    requires p < n <= |t|
  {
    var q := RunEnd(t, p, n, IsSpace, true);
    if q == n then Blank else if t[q] == '#' then Comment else Content
  }

  function AfterWords(t: string, from: nat, stop: nat, words: seq<Span>, field: Field, z: Stanza): Stanza
    requires stop <= |t| && InOrder(words, from, stop)
  {
    match field
    case Uris => z.(pending := z.pending + words, field := field)
    case Enabled => z.(enabled := z.enabled + Texts(t, from, stop, words), field := field)
    case Other => z.(field := field)
  }

  function AfterContent(t: string, p: nat, n: nat, z: Stanza): Stanza
    requires p < n <= |t|
  {
    AfterWords(t, BodyStart(t, p, n), n, LineWords(t, p, n), FieldOf(t, p, n, z.field), z)
  }

  // One line t[p..n].
  function AfterLine(t: string, p: nat, n: nat, z: Stanza): Stanza
    requires p < n <= |t|
  {
    match KindOf(t, p, n)
    case Blank => Stanza(Finished(z), [], [], Other)
    case Comment => z
    case Content => AfterContent(t, p, n, z)
  }

  function StanzaSpans(t: string, p: nat, z: Stanza): seq<Span>
    requires p <= |t|
    decreases |t| - p
  {
    if p == |t| then Finished(z)
    else StanzaSpans(t, LineEnd(t, p), AfterLine(t, p, LineEnd(t, p), z))
  }

  // ------------------------------------------------------------- one-line style

  predicate At(t: string, p: nat, n: nat, word: string)
    requires p <= n <= |t|
  {
    p + |word| <= n && t[p..p + |word|] == word
  }

  // Past "[...]" and blanks when an address follows them; otherwise the bracket
  // is itself taken for the address.
  function AfterOptions(t: string, c: nat, n: nat): (d: nat)
    requires c < n <= |t|
    ensures c <= d < n
  {
    var k := if t[c] == '[' then AfterBlanks(t, OptionsEnd(t, c, n), n) else n;
    if k < n then k else c
  }

  // Past the bracket that closes on the line, else n.
  function OptionsEnd(t: string, c: nat, n: nat): (r: nat)
    requires c < n <= |t|
    ensures c <= r <= n
  {
    var r := RunEnd(t, c, n, StopsOptions, false);
    if r < n && t[r] == ']' then r + 1 else n
  }

  // Past the blanks at r when there are some and an address follows, else n.
  function AfterBlanks(t: string, r: nat, n: nat): (k: nat)
    requires r <= n <= |t|
    ensures r <= k <= n
  {
    var k := RunEnd(t, r, n, IsBlank, true);
    if r < k < n && !StopsToken(t[k]) then k else n
  }

  function TokenAt(t: string, d: nat, n: nat): (w: Found)
    requires d < n <= |t|
    ensures w.Word? ==> d <= w.span.start < w.span.end <= n
  {
    if StopsToken(t[d]) then Nothing else Word(Span(d, RunEnd(t, d, n, StopsToken, false)))
  }

  // The end of "deb" or "deb-src" at q, or nothing.
  function KeywordEnd(t: string, q: nat, n: nat): (b: nat)
    requires q <= n <= |t|
    ensures q <= b <= n
  {
    if !At(t, q, n, "deb") then q
    else if At(t, q + 3, n, "-src") then q + 7
    else q + 3
  }

  // Past the keyword at q and the blanks it must be followed by, else n.
  function AfterKeyword(t: string, q: nat, n: nat): (c: nat)
    requires q <= n <= |t|
    ensures q <= c <= n
  {
    var b := KeywordEnd(t, q, n);
    var c := RunEnd(t, b, n, IsBlank, true);
    if b == q || c == b then n else c
  }

  // The address of the line t[p..n].
  function ListToken(t: string, p: nat, n: nat): (w: Found)
    requires p < n <= |t|
    ensures w.Word? ==> p <= w.span.start < w.span.end <= n
  {
    var c := AfterKeyword(t, RunEnd(t, p, n, IsBlank, true), n);
    if c == n then Nothing else TokenAt(t, AfterOptions(t, c, n), n)
  }

  function Listed(w: Found): seq<Span> {
    if w.Word? then [w.span] else []
  }

  function ListSpans(t: string, p: nat): (spans: seq<Span>)
    requires p <= |t|
    decreases |t| - p
  {
    if p == |t| then [] else
      var n := PatternLineEnd(t, p);
      Listed(ListToken(t, p, n)) + ListSpans(t, n)
  }

  function Spans(t: string, format: Format): seq<Span> {
    match format
    case ListFormat => ListSpans(t, 0)
    case StanzaFormat => StanzaSpans(t, 0, NewFile)
  }

  // ------------------------------------------------------------------ in order

  lemma {:induction false} ListSpansInOrder(t: string, p: nat)
    requires p <= |t|
    ensures InOrder(ListSpans(t, p), p, |t|)
    decreases |t| - p
  {
    if p < |t| {
      var n := PatternLineEnd(t, p);
      ListSpansInOrder(t, n);
      InOrderConcat(Listed(ListToken(t, p, n)), ListSpans(t, n), p, n, |t|);
    }
  }

  // The spans found so far lie before p.
  ghost predicate FoundBefore(z: Stanza, p: nat) { InOrder(z.result + z.pending, 0, p) }

  lemma AfterLineFound(t: string, p: nat, n: nat, z: Stanza)
    requires p < n <= |t| && FoundBefore(z, p)
    ensures FoundBefore(AfterLine(t, p, n, z), n)
  {
    var z' := AfterLine(t, p, n, z);
    InOrderWider(z.result + z.pending, 0, p, 0, n);
    match KindOf(t, p, n)
    case Blank =>
      InOrderPrefix(z.result, z.pending, 0, n);
      assert z'.result + z'.pending == z'.result;
    case Comment =>
    case Content =>
      if FieldOf(t, p, n, z.field).Uris? {
        var words := LineWords(t, p, n);
        InOrderWider(words, BodyStart(t, p, n), n, p, n);
        InOrderConcat(z.result + z.pending, words, 0, p, n);
        assert z'.result + z'.pending == z.result + z.pending + words;
      }
  }

  lemma {:induction false} StanzaSpansInOrder(t: string, p: nat, z: Stanza)
    requires p <= |t| && FoundBefore(z, p)
    ensures InOrder(StanzaSpans(t, p, z), 0, |t|)
    decreases |t| - p
  {
    if p == |t| {
      InOrderPrefix(z.result, z.pending, 0, p);
    } else {
      AfterLineFound(t, p, LineEnd(t, p), z);
      StanzaSpansInOrder(t, LineEnd(t, p), AfterLine(t, p, LineEnd(t, p), z));
    }
  }

  // The addresses found are disjoint pieces of the text, in order.
  lemma SpansInOrder(t: string, format: Format)
    ensures InOrder(Spans(t, format), 0, |t|)
  {
    ListSpansInOrder(t, 0);
    StanzaSpansInOrder(t, 0, NewFile);
  }

  // ------------------------------------------------------------------- rewriting

  const ArchiveHost := "archive.ubuntu.com/ubuntu"
  const AzureHost := "azure." + ArchiveHost
  const Archive := "https://" + ArchiveHost

  // What becomes of an address.
  function Renamed(w: string): string {
    if w == "http://" + AzureHost || w == "https://" + AzureHost then Archive
    else if w == "http://" + AzureHost + "/" || w == "https://" + AzureHost + "/" then Archive + "/"
    else w
  }

  // Every span renamed at once; the rest of the text from p on as it was.  What
  // renaming does is a parameter, so that no proof about where things go can
  // look at the addresses.
  function Substituted(rename: string -> string, t: string, p: nat, spans: seq<Span>): string
    requires p <= |t| && InOrder(spans, p, |t|)
    decreases |spans|, 1
  {
    if spans == [] then t[p..] else t[p..spans[0].start] + SubstitutedTail(rename, t, spans)
  }

  // The same from the start of the first span.
  function SubstitutedTail(rename: string -> string, t: string, spans: seq<Span>): string
    requires spans != [] && InOrder(spans, spans[0].start, |t|)
    decreases |spans|, 0
  {
    var w := spans[0];
    rename(t[w.start..w.end]) + Substituted(rename, t, w.end, spans[1..])
  }

  function Rewritten(t: string, format: Format): string {
    SpansInOrder(t, format);
    Substituted(Renamed, t, 0, Spans(t, format))
  }

  // ------------------------------------------------------------------- the code

  // The loop over the words of one line.
  method ReadWords(t: string, p: nat, n: nat) returns (words: seq<Span>)
    requires p <= n <= |t|
    ensures words == Words(t, p, n)
  {
    words := [];
    var at := p;
    var next := NextWord(t, at, n);
    while next.Word?
      invariant p <= at <= n && next == NextWord(t, at, n)
      invariant words + Words(t, at, n) == Words(t, p, n)
      decreases n - at
    {
      words, at := words + [next.span], next.span.end;
      next := NextWord(t, at, n);
    }
  }

  method ReadHeader(t: string, p: nat, n: nat, field: Field) returns (now: Field, start: nat)
    requires p < n <= |t|
    ensures now == FieldOf(t, p, n, field) && start == BodyStart(t, p, n)
  {
    now, start := field, p;
    if !IsSpace(t[p]) {
      var colon := NameEnd(t, p, n);
      if p < colon < n && t[colon] == ':' {
        now, start := FieldNamed(t[p..colon]), colon + 1;
      } else {
        now := Other;
      }
    }
  }

  method StanzaUriSpans(text: string) returns (result: seq<Span>)
    ensures result == Spans(text, StanzaFormat)
  {
    result := [];
    var pending: seq<Span>, enabled: seq<string>, field := [], [], Other;
    var offset := 0;
    ghost var all := StanzaSpans(text, 0, NewFile);
    while offset < |text|
      invariant offset <= |text|
      invariant StanzaSpans(text, offset, Stanza(result, pending, enabled, field)) == all
      decreases |text| - offset
    {
      var end := LineEnd(text, offset);
      var first := RunEnd(text, offset, end, IsSpace, true);
      if first == end {
        if !Disabled(enabled) { result := result + pending; }
        pending, enabled, field := [], [], Other;
      } else if text[first] != '#' {
        var start;
        field, start := ReadHeader(text, offset, end, field);
        if field != Other {
          var words := ReadWords(text, start, end);
          assert words == LineWords(text, offset, end);
          if field == Uris { pending := pending + words; } else { enabled := enabled + Texts(text, start, end, words); }
        }
      }
      offset := end;
    }
    if !Disabled(enabled) { result := result + pending; }
  }

  lemma ListedNext(t: string, p: nat, found: seq<Span>, all: seq<Span>)
    requires p < |t| && found + ListSpans(t, p) == all
    ensures var n := PatternLineEnd(t, p);
      found + Listed(ListToken(t, p, n)) + ListSpans(t, n) == all
  {
  }

  method ListUriSpans(text: string) returns (result: seq<Span>)
    ensures result == Spans(text, ListFormat)
  {
    result := [];
    var offset := 0;
    ghost var all := ListSpans(text, 0);
    while offset < |text|
      invariant offset <= |text|
      invariant result + ListSpans(text, offset) == all
      decreases |text| - offset
    {
      var end := PatternLineEnd(text, offset);
      ListedNext(text, offset, result, all);
      result := result + Listed(ListToken(text, offset, end));
      offset := end;
    }
  }

  method UriSpans(text: string, suffix: string) returns (r: Option<seq<Span>>)
    ensures match FormatOf(suffix)
      case None => r == None
      case Some(format) => r == Some(Spans(text, format))
  {
    if suffix != ".list" && suffix != ".sources" { return None; }
    var spans;
    if suffix == ".list" { spans := ListUriSpans(text); } else { spans := StanzaUriSpans(text); }
    return Some(spans);
  }

  // Replacing from the last span to the first is replacing them all at once.
  method ReplaceUris(text: string, spans: seq<Span>) returns (r: string)
    requires InOrder(spans, 0, |text|)
    ensures r == Substituted(Renamed, text, 0, spans)
  {
    r := text;
    assert spans[..|spans|] == spans;
    var i := |spans|;
    ghost var from: nat := |text|;
    while i > 0
      invariant 0 <= i <= |spans|
      invariant HalfReplaced(Renamed, text, spans, i, from, r)
    {
      var w := spans[i - 1];
      OneMore(Renamed, text, spans, i, from, r);
      var word := r[w.start..w.end];
      if Renamed(word) != word {
        r := r[..w.start] + Renamed(word) + r[w.end..];
      }
      i, from := i - 1, w.start;
    }
    SubstitutedFrom(Renamed, text, 0, from, spans);
    assert spans[0..] == spans;
  }

  // The spans from the i-th on, which start at `from` or later, are renamed.
  ghost predicate HalfReplaced(rename: string -> string, t: string, spans: seq<Span>, i: nat, from: nat, r: string) {
    && i <= |spans| && from <= |t|
    && InOrder(spans[..i], 0, from) && InOrder(spans[i..], from, |t|)
    && r == t[..from] + Substituted(rename, t, from, spans[i..])
  }

  lemma OneMore(rename: string -> string, t: string, spans: seq<Span>, i: nat, from: nat, r: string)
    requires 0 < i && HalfReplaced(rename, t, spans, i, from, r)
    ensures var w := spans[i - 1];
      && w.start < w.end <= from && w.end <= |r| && r[w.start..w.end] == t[w.start..w.end]
      && HalfReplaced(rename, t, spans, i - 1, w.start, r[..w.start] + rename(r[w.start..w.end]) + r[w.end..])
      && r == r[..w.start] + r[w.start..w.end] + r[w.end..]
  {
    var w := spans[i - 1];
    assert spans[..i] == spans[..i - 1] + [w];
    InOrderLast(spans[..i - 1], w, 0, from);
    SubstitutedStep(rename, t, w, from, spans[i..], r);
    assert [w] + spans[i..] == spans[i - 1..];
  }

  lemma Joined3(a: string, b: string, c: string)
    ensures a + (b + c) == (a + b) + c
  {
  }

  lemma Reaching(t: string, p: nat, a: nat, x: string)
    requires p <= a <= |t|
    ensures t[..p] + (t[p..a] + x) == t[..a] + x
  {
    Joined3(t[..p], t[p..a], x);
    assert t[..p] + t[p..a] == t[..a];
  }

  lemma SubstitutedFrom(rename: string -> string, t: string, p: nat, from: nat, spans: seq<Span>)
    requires p <= from <= |t| && InOrder(spans, from, |t|)
    ensures InOrder(spans, p, |t|)
    ensures t[..p] + Substituted(rename, t, p, spans) == t[..from] + Substituted(rename, t, from, spans)
  {
    if spans == [] {
      assert t[..p] + t[p..] == t[..from] + t[from..];
    } else {
      var w := spans[0];
      var rest := SubstitutedTail(rename, t, spans);
      Reaching(t, p, w.start, rest);
      Reaching(t, from, w.start, rest);
    }
  }

  lemma SubstitutedStep(rename: string -> string, t: string, w: Span, from: nat, rest: seq<Span>, r: string)
    requires w.start < w.end <= from <= |t| && InOrder(rest, from, |t|)
    requires r == t[..from] + Substituted(rename, t, from, rest)
    ensures InOrder([w] + rest, w.start, |t|)
    ensures w.end <= |r| && r[w.start..w.end] == t[w.start..w.end]
    ensures t[..w.start] + Substituted(rename, t, w.start, [w] + rest)
      == r[..w.start] + rename(t[w.start..w.end]) + r[w.end..]
    ensures r == r[..w.start] + r[w.start..w.end] + r[w.end..]
  {
    SubstitutedFrom(rename, t, w.end, from, rest);
    InOrderWider(rest, from, |t|, w.end, |t|);
    assert ([w] + rest)[1..] == rest;
    OneRenamed(t, w, Substituted(rename, t, w.end, rest), rename(t[w.start..w.end]), r);
  }

  lemma OneRenamed(t: string, w: Span, tail: string, word: string, r: string)
    requires w.start < w.end <= |t| && r == t[..w.end] + tail
    ensures r[w.start..w.end] == t[w.start..w.end]
    ensures t[..w.start] + (t[w.start..w.start] + (word + tail)) == r[..w.start] + word + r[w.end..]
    ensures r == r[..w.start] + r[w.start..w.end] + r[w.end..]
  {
    assert r[..w.start] == t[..w.start] && r[w.end..] == tail;
    Reaching(t, w.start, w.start, word + tail);
    Joined3(t[..w.start], word, tail);
  }

  method Rewrite(text: string, suffix: string) returns (r: Option<string>)
    ensures FormatOf(suffix) == None ==> r == None
    ensures FormatOf(suffix).Some? ==> r == Some(Rewritten(text, FormatOf(suffix).value))
  {
    var spans := UriSpans(text, suffix);
    if spans == None { return None; }
    SpansInOrder(text, FormatOf(suffix).value);
    var replaced := ReplaceUris(text, spans.value);
    return Some(replaced);
  }
}
