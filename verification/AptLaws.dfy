/**
 Rewriting commutes with parsing: the addresses of the rewritten file are the
 old ones renamed one by one, and rewriting twice is rewriting once.
 */
module AptLaws {
  import opened AptText
  import opened AptSources

  // --------------------------------------------------- one-line style, exchanged

  lemma AtMoves(t: string, u: string, s: nat, e: nat, f: nat, q: nat, n: nat, word: string)
    requires Exchanged(t, u, s, e, f)
    requires q <= n <= |t| && Outside(q, s, e) && Outside(n, s, e)
    requires 'h' !in word && word != ""
    ensures To(q, s, e, f) <= To(n, s, e, f) <= |u|
    ensures At(u, To(q, s, e, f), To(n, s, e, f), word) == At(t, q, n, word)
    ensures At(t, q, n, word) ==>
      Outside(q + |word|, s, e) && To(q + |word|, s, e, f) == To(q, s, e, f) + |word|
  {
    var q', n' := To(q, s, e, f), To(n, s, e, f);
    if At(t, q, n, word) {
      PieceMoves(t, u, s, e, f, q, q + |word|);
    }
    if At(u, q', n', word) {
      PieceMoves(t, u, s, e, f, q, q + |word|);
    }
  }

  lemma KeywordEndMoves(t: string, u: string, s: nat, e: nat, f: nat, q: nat, n: nat)
    requires Exchanged(t, u, s, e, f)
    requires q <= n <= |t| && Outside(q, s, e) && Outside(n, s, e)
    ensures To(q, s, e, f) <= To(n, s, e, f) <= |u|
    ensures var b := KeywordEnd(t, q, n);
      && Outside(b, s, e)
      && KeywordEnd(u, To(q, s, e, f), To(n, s, e, f)) == To(b, s, e, f)
  {
    AtMoves(t, u, s, e, f, q, n, "deb");
    if At(t, q, n, "deb") { AtMoves(t, u, s, e, f, q + 3, n, "-src"); }
  }

  lemma OptionsEndMoves(t: string, u: string, s: nat, e: nat, f: nat, c: nat, n: nat)
    requires Exchanged(t, u, s, e, f)
    requires c < n <= |t| && Outside(c, s, e) && Outside(n, s, e)
    ensures To(c, s, e, f) < To(n, s, e, f) <= |u|
    ensures var r := OptionsEnd(t, c, n);
      && Outside(r, s, e)
      && OptionsEnd(u, To(c, s, e, f), To(n, s, e, f)) == To(r, s, e, f)
  {
    RunEndMoves(t, u, s, e, f, c, n, StopsOptions, false);
    var r := RunEnd(t, c, n, StopsOptions, false);
    if r < n && t[r] == ']' { StepMoves(t, u, s, e, f, r); }
  }

  lemma AfterOptionsMoves(t: string, u: string, s: nat, e: nat, f: nat, c: nat, n: nat)
    requires Exchanged(t, u, s, e, f)
    requires c < n <= |t| && Outside(c, s, e) && Outside(n, s, e)
    ensures To(c, s, e, f) < To(n, s, e, f) <= |u|
    ensures var d := AfterOptions(t, c, n);
      && Outside(d, s, e)
      && AfterOptions(u, To(c, s, e, f), To(n, s, e, f)) == To(d, s, e, f)
  {
    CharMoves(t, u, s, e, f, c);
    OptionsEndMoves(t, u, s, e, f, c, n);
    var r := OptionsEnd(t, c, n);
    if t[c] == '[' && r < n { AfterBlanksMoves(t, u, s, e, f, r, n); }
  }

  lemma AfterBlanksMoves(t: string, u: string, s: nat, e: nat, f: nat, r: nat, n: nat)
    requires Exchanged(t, u, s, e, f)
    requires r <= n <= |t| && Outside(r, s, e) && Outside(n, s, e)
    ensures To(r, s, e, f) <= To(n, s, e, f) <= |u|
    ensures var k := AfterBlanks(t, r, n);
      && Outside(k, s, e)
      && AfterBlanks(u, To(r, s, e, f), To(n, s, e, f)) == To(k, s, e, f)
  {
    RunEndMoves(t, u, s, e, f, r, n, IsBlank, true);
  }

  lemma TokenAtMoves(t: string, u: string, s: nat, e: nat, f: nat, d: nat, n: nat)
    requires Exchanged(t, u, s, e, f)
    requires d < n <= |t| && Outside(d, s, e) && Outside(n, s, e)
    ensures To(d, s, e, f) < To(n, s, e, f) <= |u|
    ensures TokenAt(u, To(d, s, e, f), To(n, s, e, f)) == ToFound(TokenAt(t, d, n), s, e, f)
  {
    CharMoves(t, u, s, e, f, d);
    RunEndMoves(t, u, s, e, f, d, n, StopsToken, false);
  }

  function ToFound(w: Found, s: nat, e: nat, f: nat): Found
    requires s <= f
  {
    if w.Word? then Word(ToSpan(w.span, s, e, f)) else Nothing
  }

  lemma AfterKeywordMoves(t: string, u: string, s: nat, e: nat, f: nat, q: nat, n: nat)
    requires Exchanged(t, u, s, e, f)
    requires q <= n <= |t| && Outside(q, s, e) && Outside(n, s, e)
    ensures To(q, s, e, f) <= To(n, s, e, f) <= |u|
    ensures var c := AfterKeyword(t, q, n);
      && Outside(c, s, e)
      && AfterKeyword(u, To(q, s, e, f), To(n, s, e, f)) == To(c, s, e, f)
  {
    KeywordEndMoves(t, u, s, e, f, q, n);
    RunEndMoves(t, u, s, e, f, KeywordEnd(t, q, n), n, IsBlank, true);
  }

  lemma ListTokenMoves(t: string, u: string, s: nat, e: nat, f: nat, p: nat, n: nat)
    requires Exchanged(t, u, s, e, f)
    requires p < n <= |t| && Outside(p, s, e) && Outside(n, s, e)
    ensures To(p, s, e, f) < To(n, s, e, f) <= |u|
    ensures ListToken(u, To(p, s, e, f), To(n, s, e, f)) == ToFound(ListToken(t, p, n), s, e, f)
  {
    CharMoves(t, u, s, e, f, p);
    RunEndMoves(t, u, s, e, f, p, n, IsBlank, true);
    AfterKeywordMoves(t, u, s, e, f, RunEnd(t, p, n, IsBlank, true), n);
    var c := AfterKeyword(t, RunEnd(t, p, n, IsBlank, true), n);
    if c != n {
      AfterOptionsMoves(t, u, s, e, f, c, n);
      TokenAtMoves(t, u, s, e, f, AfterOptions(t, c, n), n);
    }
  }

  lemma {:induction false} ListSpansMove(t: string, u: string, s: nat, e: nat, f: nat, p: nat)
    requires Exchanged(t, u, s, e, f) && p <= |t| && Outside(p, s, e)
    ensures To(p, s, e, f) <= |u|
    ensures ListSpans(u, To(p, s, e, f)) == ToSpans(ListSpans(t, p), s, e, f)
    decreases |t| - p
  {
    if p < |t| {
      PatternLineEndMoves(t, u, s, e, f, p);
      var n := PatternLineEnd(t, p);
      ListTokenMoves(t, u, s, e, f, p, n);
      ListSpansMove(t, u, s, e, f, n);
      ToSpansConcat(Listed(ListToken(t, p, n)), ListSpans(t, n), s, e, f);
      assert Listed(ToFound(ListToken(t, p, n), s, e, f)) == ToSpans(Listed(ListToken(t, p, n)), s, e, f);
    }
  }

  // ----------------------------------------------------------- stanzas, exchanged

  function ToStanza(z: Stanza, s: nat, e: nat, f: nat): Stanza
    requires s <= f
  {
    z.(result := ToSpans(z.result, s, e, f), pending := ToSpans(z.pending, s, e, f))
  }

  lemma FinishedMoves(z: Stanza, s: nat, e: nat, f: nat)
    requires s <= f
    ensures Finished(ToStanza(z, s, e, f)) == ToSpans(Finished(z), s, e, f)
  {
    ToSpansConcat(z.result, z.pending, s, e, f);
  }

  // The address is not in the line t[p..n], or is a word of the URIs there.
  ghost predicate Placeable(t: string, s: nat, e: nat, p: nat, n: nat, field: Field)
    requires p < n <= |t|
  {
    n <= s || e <= p || (p <= s < e <= n && FieldOf(t, p, n, field).Uris? && BodyStart(t, p, n) <= s)
  }

  lemma HeaderMoves(t: string, u: string, s: nat, e: nat, f: nat, p: nat, n: nat, field: Field)
    requires Exchanged(t, u, s, e, f)
    requires p < n <= |t| && Outside(p, s, e) && Outside(n, s, e) && Placeable(t, s, e, p, n, field)
    ensures To(p, s, e, f) < To(n, s, e, f) <= |u|
    ensures FieldOf(u, To(p, s, e, f), To(n, s, e, f), field) == FieldOf(t, p, n, field)
    ensures Outside(BodyStart(t, p, n), s, e)
    ensures BodyStart(u, To(p, s, e, f), To(n, s, e, f)) == To(BodyStart(t, p, n), s, e, f)
  {
    CharMoves(t, u, s, e, f, p);
    if !IsSpace(t[p]) {
      var q := NameEnd(t, p, n);
      RunEndMoves(t, u, s, e, f, p, n, StopsName, false);
      if HasHeader(t, p, n) {
        StepMoves(t, u, s, e, f, q);
        PieceMoves(t, u, s, e, f, p, q);
      }
    }
  }

  lemma {:induction false} TextsMove(t: string, u: string, s: nat, e: nat, f: nat,
                                     from: nat, stop: nat, words: seq<Span>)
    requires Exchanged(t, u, s, e, f)
    requires from <= stop <= s || e <= from <= stop <= |t|
    requires InOrder(words, from, stop)
    ensures 0 <= To(from, s, e, f) <= To(stop, s, e, f) <= |u|
    ensures InOrder(ToSpans(words, s, e, f), To(from, s, e, f), To(stop, s, e, f))
    ensures Texts(u, To(from, s, e, f), To(stop, s, e, f), ToSpans(words, s, e, f)) == Texts(t, from, stop, words)
    decreases |words|
  {
    if words != [] {
      PieceMoves(t, u, s, e, f, words[0].start, words[0].end);
      TextsMove(t, u, s, e, f, words[0].end, stop, words[1..]);
    }
  }

  lemma AfterLineMoves(t: string, u: string, s: nat, e: nat, f: nat, p: nat, n: nat, z: Stanza)
    requires Exchanged(t, u, s, e, f)
    requires p < n <= |t| && Outside(p, s, e) && Outside(n, s, e) && Placeable(t, s, e, p, n, z.field)
    ensures To(p, s, e, f) < To(n, s, e, f) <= |u|
    ensures AfterLine(u, To(p, s, e, f), To(n, s, e, f), ToStanza(z, s, e, f))
      == ToStanza(AfterLine(t, p, n, z), s, e, f)
  {
    KindMoves(t, u, s, e, f, p, n);
    match KindOf(t, p, n)
    case Blank => FinishedMoves(z, s, e, f);
    case Comment =>
    case Content => ContentMoves(t, u, s, e, f, p, n, z);
  }

  lemma ContentMoves(t: string, u: string, s: nat, e: nat, f: nat, p: nat, n: nat, z: Stanza)
    requires Exchanged(t, u, s, e, f)
    requires p < n <= |t| && Outside(p, s, e) && Outside(n, s, e) && Placeable(t, s, e, p, n, z.field)
    ensures To(p, s, e, f) < To(n, s, e, f) <= |u|
    ensures AfterContent(u, To(p, s, e, f), To(n, s, e, f), ToStanza(z, s, e, f))
      == ToStanza(AfterContent(t, p, n, z), s, e, f)
  {
    HeaderMoves(t, u, s, e, f, p, n, z.field);
    LineWordsMove(t, u, s, e, f, p, n, z.field);
    var words := LineWords(t, p, n);
    match FieldOf(t, p, n, z.field)
    case Uris => ToSpansConcat(z.pending, words, s, e, f);
    case Enabled => TextsMove(t, u, s, e, f, BodyStart(t, p, n), n, words);
    case Other =>
  }

  lemma LineWordsMove(t: string, u: string, s: nat, e: nat, f: nat, p: nat, n: nat, field: Field)
    requires Exchanged(t, u, s, e, f)
    requires p < n <= |t| && Outside(p, s, e) && Outside(n, s, e) && Placeable(t, s, e, p, n, field)
    ensures To(p, s, e, f) < To(n, s, e, f) <= |u|
    ensures LineWords(u, To(p, s, e, f), To(n, s, e, f)) == ToSpans(LineWords(t, p, n), s, e, f)
  {
    HeaderMoves(t, u, s, e, f, p, n, field);
    WordsMove(t, u, s, e, f, BodyStart(t, p, n), n);
  }

  lemma KindMoves(t: string, u: string, s: nat, e: nat, f: nat, p: nat, n: nat)
    requires Exchanged(t, u, s, e, f)
    requires p < n <= |t| && Outside(p, s, e) && Outside(n, s, e)
    ensures To(p, s, e, f) < To(n, s, e, f) <= |u|
    ensures KindOf(u, To(p, s, e, f), To(n, s, e, f)) == KindOf(t, p, n)
  {
    CharMoves(t, u, s, e, f, p);
    RunEndMoves(t, u, s, e, f, p, n, IsSpace, true);
  }

  // What is found from p on starts there or later.
  lemma {:induction false} FoundAfter(t: string, p: nat, z: Stanza, w: Span)
    requires p <= |t| && w in StanzaSpans(t, p, z) && w.start < p
    ensures w in z.result + z.pending
    decreases |t| - p
  {
    if p < |t| {
      var n := LineEnd(t, p);
      FoundAfter(t, n, AfterLine(t, p, n, z), w);
      FoundInLine(t, p, n, z, w);
    }
  }

  lemma FoundInLine(t: string, p: nat, n: nat, z: Stanza, w: Span)
    requires p < n <= |t| && w in AfterLine(t, p, n, z).result + AfterLine(t, p, n, z).pending
    ensures w in z.result + z.pending
      || (p <= w.start < w.end <= n && FieldOf(t, p, n, z.field).Uris? && BodyStart(t, p, n) <= w.start)
  {
    if w in LineWords(t, p, n) { InOrderMember(LineWords(t, p, n), BodyStart(t, p, n), n, w); }
  }

  lemma IsPlaceable(t: string, s: nat, e: nat, p: nat, n: nat, z: Stanza)
    requires p <= s < e && p < n <= |t| && FoundBefore(z, p)
    requires Span(s, e) in StanzaSpans(t, n, AfterLine(t, p, n, z))
    ensures Placeable(t, s, e, p, n, z.field)
  {
    if s < n {
      if Span(s, e) in z.result + z.pending { InOrderMember(z.result + z.pending, 0, p, Span(s, e)); }
      FoundAfter(t, n, AfterLine(t, p, n, z), Span(s, e));
      FoundInLine(t, p, n, z, Span(s, e));
    }
  }

  lemma {:induction false} StanzaSpansMove(t: string, u: string, s: nat, e: nat, f: nat, p: nat, z: Stanza)
    requires Exchanged(t, u, s, e, f) && p <= |t| && Outside(p, s, e)
    requires p <= s ==> FoundBefore(z, p) && Span(s, e) in StanzaSpans(t, p, z)
    ensures To(p, s, e, f) <= |u|
    ensures StanzaSpans(u, To(p, s, e, f), ToStanza(z, s, e, f)) == ToSpans(StanzaSpans(t, p, z), s, e, f)
    decreases |t| - p
  {
    FinishedMoves(z, s, e, f);
    if p < |t| {
      LineEndMoves(t, u, s, e, f, p);
      var n := LineEnd(t, p);
      var z' := AfterLine(t, p, n, z);
      if p <= s {
        AfterLineFound(t, p, n, z);
        IsPlaceable(t, s, e, p, n, z);
      }
      AfterLineMoves(t, u, s, e, f, p, n, z);
      StanzaSpansMove(t, u, s, e, f, n, z');
    }
  }

  // Exchanging one address leaves the others, moved.
  lemma SpansMove(t: string, u: string, s: nat, e: nat, f: nat, format: Format)
    requires Exchanged(t, u, s, e, f) && Span(s, e) in Spans(t, format)
    ensures Spans(u, format) == ToSpans(Spans(t, format), s, e, f)
  {
    match format
    case ListFormat => ListSpansMove(t, u, s, e, f, 0);
    case StanzaFormat =>
      StanzaSpansMove(t, u, s, e, f, 0, NewFile);
      assert ToStanza(NewFile, s, e, f) == NewFile;
  }

  // ------------------------------------------------------------------ rewriting

  // Where the spans go when all are renamed at once: q is where p has gone.
  function Placed(rename: string -> string, t: string, p: nat, q: nat, spans: seq<Span>): (placed: seq<Span>)
    requires p <= |t| && InOrder(spans, p, |t|)
    ensures |placed| == |spans|
    decreases |spans|
  {
    if spans == [] then [] else
      var w := spans[0];
      var start := q + w.start - p;
      var end := start + |rename(t[w.start..w.end])|;
      [Span(start, end)] + Placed(rename, t, w.end, end, spans[1..])
  }

  lemma PlacedFrom(rename: string -> string, t: string, p: nat, from: nat, q: nat, spans: seq<Span>)
    requires p <= from <= |t| && InOrder(spans, from, |t|)
    ensures InOrder(spans, p, |t|)
    ensures Placed(rename, t, p, q, spans) == Placed(rename, t, from, q + from - p, spans)
  {
    InOrderWider(spans, from, |t|, p, |t|);
  }

  lemma PlacedStep(rename: string -> string, t: string, p: nat, q: nat, w: Span, rest: seq<Span>)
    requires p <= w.start < w.end <= |t| && InOrder(rest, w.end, |t|)
    ensures InOrder([w] + rest, p, |t|)
    ensures var start := q + w.start - p;
      var end := start + |rename(t[w.start..w.end])|;
      Placed(rename, t, p, q, [w] + rest) == [Span(start, end)] + Placed(rename, t, w.end, end, rest)
  {
    assert ([w] + rest)[1..] == rest;
  }

  // Renaming one more span, before those placed already, moves them all.
  lemma {:induction false} PlacedMoves(rename: string -> string, t: string, p: nat, q: nat, spans: seq<Span>, s: nat,
                                       e: nat, f: nat)
    requires p <= |t| && InOrder(spans, p, |t|)
    requires s < e <= q && s < f
    ensures ToSpans(Placed(rename, t, p, q, spans), s, e, f) == Placed(rename, t, p, q - e + f, spans)
    decreases |spans|
  {
    if spans != [] {
      var w, rest := spans[0], spans[1..];
      var start := q + w.start - p;
      var end := start + |rename(t[w.start..w.end])|;
      PlacedMoves(rename, t, w.end, end, rest, s, e, f);
      assert spans == [w] + rest;
      PlacedStep(rename, t, p, q, w, rest);
      PlacedStep(rename, t, p, q - e + f, w, rest);
      ToSpansCons(Span(start, end), Placed(rename, t, w.end, end, rest), s, e, f);
    }
  }

  lemma {:induction false} SpansBeforeStay(spans: seq<Span>, from: nat, s: nat, e: nat, f: nat)
    requires s <= f && InOrder(spans, from, s)
    ensures ToSpans(spans, s, e, f) == spans
    decreases |spans|
  {
    if spans != [] { SpansBeforeStay(spans[1..], spans[0].end, s, e, f); }
  }

  predicate Plain(w: string) { forall i :: 0 <= i < |w| ==> !Special(w[i]) }

  predicate IsAddress(w: string) { w != "" && w[0] == 'h' && Plain(w) }

  // What is renamed, and what becomes of it, are web addresses; an address
  // renamed is not renamed again.
  ghost predicate Sound(rename: string -> string) {
    forall w :: SoundFor(rename, w)
  }

  ghost predicate SoundFor(rename: string -> string, w: string) {
    (rename(w) != w ==> IsAddress(w) && IsAddress(rename(w))) && rename(rename(w)) == rename(w)
  }

  lemma PlainConcat(a: string, b: string)
    requires Plain(a) && Plain(b)
    ensures Plain(a + b)
  {
  }

  lemma ArchiveIsPlain()
    ensures Plain(ArchiveHost) && Plain(Archive)
  {
    PlainConcat("archive.ubuntu", ".com/ubuntu");
    assert ArchiveHost == "archive.ubuntu" + ".com/ubuntu";
    PlainConcat("https://", ArchiveHost);
  }

  lemma AzureIsPlain()
    ensures Plain("http://" + AzureHost) && Plain("https://" + AzureHost)
  {
    ArchiveIsPlain();
    PlainConcat("azure.", ArchiveHost);
    PlainConcat("http://", AzureHost);
    PlainConcat("https://", AzureHost);
  }

  lemma RenamedIsPlain(w: string)
    requires Renamed(w) != w
    ensures IsAddress(w) && IsAddress(Renamed(w))
  {
    ArchiveIsPlain();
    AzureIsPlain();
    PlainConcat("http://" + AzureHost, "/");
    PlainConcat("https://" + AzureHost, "/");
    PlainConcat(Archive, "/");
  }

  lemma RenamedTwice(w: string)
    ensures Renamed(Renamed(w)) == Renamed(w)
  {
    if Renamed(w) != w { assert |Renamed(w)| <= |Archive| + 1 < |"http://" + AzureHost|; }
  }

  lemma RenamedSound()
    ensures Sound(Renamed)
  {
    forall w ensures SoundFor(Renamed, w) {
      RenamedTwice(w);
      if Renamed(w) != w { RenamedIsPlain(w); }
    }
  }

  lemma ExchangeExchanges(r: string, s: nat, e: nat, word: string)
    requires s < e <= |r| && IsAddress(r[s..e]) && IsAddress(word)
    ensures Exchanged(r, r[..s] + word + r[e..], s, e, s + |word|)
  {
    var w := r[s..e];
    forall i | s <= i < e ensures r[i] == w[i - s] {}
  }

  // What one more span does to the places.
  lemma PlacedTurn(rename: string -> string, t: string, w: Span, from: nat, after: seq<Span>)
    requires w.start < w.end <= from <= |t| && InOrder(after, from, |t|)
    requires rename(t[w.start..w.end]) != ""
    ensures InOrder([w] + after, w.start, |t|)
    ensures var f := w.start + |rename(t[w.start..w.end])|;
      Placed(rename, t, w.start, w.start, [w] + after)
        == [Span(w.start, f)] + ToSpans(Placed(rename, t, from, from, after), w.start, w.end, f)
  {
    var f := w.start + |rename(t[w.start..w.end])|;
    PlacedFrom(rename, t, w.end, from, f, after);
    PlacedStep(rename, t, w.start, w.start, w, after);
    PlacedMoves(rename, t, from, from, after, w.start, w.end, f);
  }

  lemma {:induction false} StandingStill(spans: seq<Span>, s: nat, e: nat)
    requires s <= e
    ensures ToSpans(spans, s, e, e) == spans
  {
    if spans != [] { StandingStill(spans[1..], s, e); }
  }

  ghost predicate WordTurns(r: string, u: string, w: Span, f: nat) {
    Exchanged(r, u, w.start, w.end, f) || (u == r && f == w.end)
  }

  // One turn of the loop: the last span not yet renamed.
  lemma WordMoves(r: string, u: string, format: Format, before: seq<Span>, w: Span, after: seq<Span>, f: nat)
    requires w.start < w.end && w.start < f
    requires WordTurns(r, u, w, f)
    requires InOrder(before, 0, w.start)
    requires Spans(r, format) == before + [w] + after
    ensures Spans(u, format) == before + ([Span(w.start, f)] + ToSpans(after, w.start, w.end, f))
  {
    PartsMove(before, w, after, f);
    if Exchanged(r, u, w.start, w.end, f) {
      assert w == (before + [w] + after)[|before|];
      SpansMove(r, u, w.start, w.end, f, format);
    } else {
      StandingStill(before + [w] + after, w.start, f);
    }
  }

  lemma PartsMove(before: seq<Span>, w: Span, after: seq<Span>, f: nat)
    requires w.start < w.end && w.start < f
    requires InOrder(before, 0, w.start)
    ensures ToSpans(before + [w] + after, w.start, w.end, f)
      == before + ([Span(w.start, f)] + ToSpans(after, w.start, w.end, f))
  {
    ToSpansConcat(before + [w], after, w.start, w.end, f);
    ToSpansConcat(before, [w], w.start, w.end, f);
    SpansBeforeStay(before, 0, w.start, w.end, f);
  }

  // The text after the spans from the i-th on are renamed, and where its own
  // spans are.
  function From(t: string, spans: seq<Span>, i: nat): nat
    requires i <= |spans|
  {
    if i == |spans| then |t| else spans[i].start
  }

  ghost predicate HalfMapped(rename: string -> string, t: string, format: Format, i: nat, r: string) {
    var spans := Spans(t, format);
    && i <= |spans|
    && HalfReplaced(rename, t, spans, i, From(t, spans, i), r)
    && Spans(r, format)
      == spans[..i] + Placed(rename, t, From(t, spans, i), From(t, spans, i), spans[i..])
  }

  // One turn of the loop, as before the span, the span, and after it.
  lemma TurnMaps(rename: string -> string, t: string, r: string, format: Format,
                 before: seq<Span>, w: Span, from: nat, after: seq<Span>)
    requires Sound(rename)
    requires w.start < w.end <= from <= |t| && w.end <= |r| && r[w.start..w.end] == t[w.start..w.end]
    requires InOrder(before, 0, w.start) && InOrder(after, from, |t|)
    requires Spans(r, format) == before + [w] + Placed(rename, t, from, from, after)
    ensures InOrder([w] + after, w.start, |t|)
    ensures Spans(r[..w.start] + rename(r[w.start..w.end]) + r[w.end..], format)
      == before + Placed(rename, t, w.start, w.start, [w] + after)
  {
    var word := rename(r[w.start..w.end]);
    RenamingExchanges(rename, r, w.start, w.end);
    PlacedTurn(rename, t, w, from, after);
    WordMoves(r, r[..w.start] + word + r[w.end..], format, before, w,
              Placed(rename, t, from, from, after), w.start + |word|);
  }

  lemma OneMoreMapped(rename: string -> string, t: string, format: Format, i: nat, r: string) returns (u: string)
    requires Sound(rename) && 0 < i && HalfMapped(rename, t, format, i, r)
    ensures HalfMapped(rename, t, format, i - 1, u)
  {
    var spans := Spans(t, format);
    var from, before, w, after := From(t, spans, i), spans[..i - 1], spans[i - 1], spans[i..];
    OneMore(rename, t, spans, i, from, r);
    u := r[..w.start] + rename(r[w.start..w.end]) + r[w.end..];
    assert spans[..i] == before + [w];
    assert [w] + after == spans[i - 1..];
    TurnMaps(rename, t, r, format, before, w, from, after);
  }

  lemma RenamingExchanges(rename: string -> string, r: string, s: nat, e: nat)
    requires Sound(rename) && s < e <= |r|
    ensures rename(r[s..e]) != ""
    ensures WordTurns(r, r[..s] + rename(r[s..e]) + r[e..], Span(s, e), s + |rename(r[s..e])|)
  {
    assert SoundFor(rename, r[s..e]);
    if rename(r[s..e]) == r[s..e] {
      assert r == r[..s] + r[s..e] + r[e..];
    } else {
      ExchangeExchanges(r, s, e, rename(r[s..e]));
    }
  }

  lemma {:induction false} AllMapped(rename: string -> string, t: string, format: Format, i: nat) returns (r: string)
    requires Sound(rename) && i <= |Spans(t, format)|
    ensures HalfMapped(rename, t, format, i, r)
    decreases |Spans(t, format)| - i
  {
    var spans := Spans(t, format);
    if i == |spans| {
      SpansInOrder(t, format);
      assert spans[..i] == spans;
      r := t;
    } else {
      r := AllMapped(rename, t, format, i + 1);
      r := OneMoreMapped(rename, t, format, i + 1, r);
    }
  }

  lemma SubstitutingMapsSpans(rename: string -> string, t: string, format: Format)
    requires Sound(rename)
    ensures InOrder(Spans(t, format), 0, |t|)
    ensures Spans(Substituted(rename, t, 0, Spans(t, format)), format)
      == Placed(rename, t, 0, 0, Spans(t, format))
  {
    var spans := Spans(t, format);
    var from := From(t, spans, 0);
    var r := AllMapped(rename, t, format, 0);
    assert spans[0..] == spans;
    PlacedFrom(rename, t, 0, from, 0, spans);
    SubstitutedFrom(rename, t, 0, from, spans);
    var u := Substituted(rename, t, 0, spans);
    assert t[..0] + u == u;
    assert r == u;
  }

  // The spans of the rewritten text are the old ones, mapped one by one.
  lemma RewritingMapsSpans(t: string, format: Format)
    ensures InOrder(Spans(t, format), 0, |t|)
    ensures Spans(Rewritten(t, format), format) == Placed(Renamed, t, 0, 0, Spans(t, format))
  {
    RenamedSound();
    SubstitutingMapsSpans(Renamed, t, format);
  }

  // What lies before, between and after the spans.
  function Gaps(t: string, p: nat, spans: seq<Span>): seq<string>
    requires p <= |t| && InOrder(spans, p, |t|)
    decreases |spans|
  {
    if spans == [] then [t[p..]] else [t[p..spans[0].start]] + Gaps(t, spans[0].end, spans[1..])
  }

  function Each(rename: string -> string, words: seq<string>): seq<string> {
    if words == [] then [] else [rename(words[0])] + Each(rename, words[1..])
  }

  // A piece of text read again after what was put before it.
  lemma PieceAt(pre: string, gap: string, word: string, rest: string)
    ensures var r, a := pre + (gap + (word + rest)), |pre| + |gap|;
      && a + |word| <= |r|
      && r[|pre|..a] == gap && r[a..a + |word|] == word
      && r == (pre + gap + word) + rest
  {
    Joined3(pre, gap, word + rest);
    Joined3(pre + gap, word, rest);
  }

  // In r, from q on, the words are those of t from p on, renamed, and the gaps
  // are those of t.
  ghost predicate ReadsBack(rename: string -> string, t: string, p: nat, spans: seq<Span>, r: string, q: nat)
    requires p <= |t| && InOrder(spans, p, |t|) && q <= |r|
  {
    var placed := Placed(rename, t, p, q, spans);
    && InOrder(placed, q, |r|)
    && Texts(r, q, |r|, placed) == Each(rename, Texts(t, p, |t|, spans))
    && Gaps(r, q, placed) == Gaps(t, p, spans)
  }

  lemma ReadsBackStep(rename: string -> string, t: string, p: nat, w: Span, rest: seq<Span>, r: string, q: nat)
    requires p <= w.start < w.end <= |t| && InOrder(rest, w.end, |t|)
    requires var word := rename(t[w.start..w.end]);
      var a := q + w.start - p;
      && word != "" && a + |word| <= |r|
      && r[q..a] == t[p..w.start] && r[a..a + |word|] == word
      && ReadsBack(rename, t, w.end, rest, r, a + |word|)
    ensures InOrder([w] + rest, p, |t|) && ReadsBack(rename, t, p, [w] + rest, r, q)
  {
    PlacedStep(rename, t, p, q, w, rest);
    assert ([w] + rest)[1..] == rest;
    var word := rename(t[w.start..w.end]);
    var end := q + w.start - p + |word|;
    var tail := Placed(rename, t, w.end, end, rest);
    assert ([Span(q + w.start - p, end)] + tail)[1..] == tail;
    var texts := Texts(t, w.end, |t|, rest);
    assert ([t[w.start..w.end]] + texts)[1..] == texts;
  }

  // The spans of the new text hold the old words renamed, with the old text
  // between them.
  lemma {:induction false} PlacedReadsBack(rename: string -> string, t: string, p: nat, spans: seq<Span>,
                                           pre: string, r: string)
    requires Sound(rename)
    requires p <= |t| && InOrder(spans, p, |t|) && r == pre + Substituted(rename, t, p, spans)
    ensures ReadsBack(rename, t, p, spans, r, |pre|)
    decreases |spans|
  {
    if spans != [] {
      var w, rest := spans[0], spans[1..];
      var gap, word := t[p..w.start], rename(t[w.start..w.end]);
      assert word != "" by { assert SoundFor(rename, t[w.start..w.end]); }
      PieceAt(pre, gap, word, Substituted(rename, t, w.end, rest));
      PlacedReadsBack(rename, t, w.end, rest, pre + gap + word, r);
      ReadsBackStep(rename, t, p, w, rest, r, |pre|);
      assert spans == [w] + rest;
    }
  }

  // When renaming changes none of the words, the text stays as it is.
  lemma {:induction false} NothingToRename(rename: string -> string, r: string, p: nat, spans: seq<Span>,
                                           words: seq<string>)
    requires Sound(rename) && p <= |r| && InOrder(spans, p, |r|)
    requires Texts(r, p, |r|, spans) == Each(rename, words)
    ensures Substituted(rename, r, p, spans) == r[p..]
    decreases |spans|
  {
    if spans != [] {
      var w := spans[0];
      assert SoundFor(rename, words[0]);
      assert r[w.start..w.end] == Texts(r, p, |r|, spans)[0];
      assert Texts(r, w.end, |r|, spans[1..]) == Texts(r, p, |r|, spans)[1..];
      assert Each(rename, words[1..]) == Each(rename, words)[1..];
      NothingToRename(rename, r, w.end, spans[1..], words[1..]);
      Reassembled(r, p, w);
    }
  }

  lemma Reassembled(r: string, p: nat, w: Span)
    requires p <= w.start <= w.end <= |r|
    ensures r[p..w.start] + (r[w.start..w.end] + r[w.end..]) == r[p..]
  {
    assert r[w.start..w.end] + r[w.end..] == r[w.start..];
  }

  // The addresses of the rewritten file are the old ones, renamed one by one,
  // and nothing outside them has changed.
  lemma RewritingCommutesWithParsing(t: string, format: Format)
    ensures InOrder(Spans(t, format), 0, |t|)
    ensures var r := Rewritten(t, format);
      && InOrder(Spans(r, format), 0, |r|)
      && Texts(r, 0, |r|, Spans(r, format)) == Each(Renamed, Texts(t, 0, |t|, Spans(t, format)))
      && Gaps(r, 0, Spans(r, format)) == Gaps(t, 0, Spans(t, format))
  {
    RenamedSound();
    RewritingMapsSpans(t, format);
    var r := Rewritten(t, format);
    assert "" + r == r;
    PlacedReadsBack(Renamed, t, 0, Spans(t, format), "", r);
  }

  // Rewriting twice is rewriting once.
  lemma RewritingTwice(t: string, format: Format)
    ensures Rewritten(Rewritten(t, format), format) == Rewritten(t, format)
  {
    var r := Rewritten(t, format);
    RenamedSound();
    RewritingCommutesWithParsing(t, format);
    NothingToRename(Renamed, r, 0, Spans(r, format), Texts(t, 0, |t|, Spans(t, format)));
  }

  lemma {:induction false} EachIsFixed(rename: string -> string, words: seq<string>, w: string)
    requires Sound(rename) && w in Each(rename, words)
    ensures rename(w) == w
  {
    assert SoundFor(rename, words[0]);
    if w != rename(words[0]) { EachIsFixed(rename, words[1..], w); }
  }

  // No address of the Azure mirror is left enabled.
  lemma NoAzureLeft(t: string, format: Format, w: string)
    requires InOrder(Spans(Rewritten(t, format), format), 0, |Rewritten(t, format)|)
    requires w in Texts(Rewritten(t, format), 0, |Rewritten(t, format)|, Spans(Rewritten(t, format), format))
    ensures w !in ["http://" + AzureHost, "http://" + AzureHost + "/"]
    ensures w !in ["https://" + AzureHost, "https://" + AzureHost + "/"]
  {
    RenamedSound();
    RewritingCommutesWithParsing(t, format);
    EachIsFixed(Renamed, Texts(t, 0, |t|, Spans(t, format)), w);
    ArchiveIsNotAzure();
  }

  lemma ArchiveIsNotAzure()
    ensures |Archive| + 1 < |"http://" + AzureHost|
  {
  }
}
