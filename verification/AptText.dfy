/**
 Characters, runs, lines and words of an APT source file, and what happens to
 them when one web address in the text is exchanged for another.  Every position
 is a position of the whole text.
 */
module AptText {
  datatype Span = Span(start: nat, end: nat)

  // The characters Python and its regular expressions call white space.
  predicate IsSpace(c: char) {
    || '\t' <= c <= '\r' || '\U{1C}' <= c <= ' '
    || c == '\U{85}' || c == '\U{A0}' || c == '\U{1680}'
    || '\U{2000}' <= c <= '\U{200A}' || c == '\U{2028}' || c == '\U{2029}'
    || c == '\U{202F}' || c == '\U{205F}' || c == '\U{3000}'
  }

  // Those that end a line for str.splitlines.
  predicate EndsLine(c: char) {
    || '\n' <= c <= '\r' || '\U{1C}' <= c <= '\U{1E}'
    || c == '\U{85}' || c == '\U{2028}' || c == '\U{2029}'
  }

  predicate IsNewline(c: char) { c == '\n' }
  predicate IsBlank(c: char) { c == ' ' || c == '\t' }
  predicate StopsName(c: char) { IsSpace(c) || c == ':' }
  predicate StopsOptions(c: char) { c == ']' || c == '\r' || c == '\n' }
  predicate StopsToken(c: char) { IsSpace(c) || c == '#' }

  // A character that means something outside a web address.
  predicate Special(c: char) { IsSpace(c) || c == '#' || c == ']' }

  // The end of the longest run in t[p..stop] of characters that are of the class,
  // or that are not.
  function RunEnd(t: string, p: nat, stop: nat, class_: char -> bool, of: bool): (end: nat)
    requires p <= stop <= |t|
    ensures p <= end <= stop
    ensures end < stop ==> class_(t[end]) != of
    decreases stop - p
  {
    if p < stop && class_(t[p]) == of then RunEnd(t, p + 1, stop, class_, of) else p
  }

  lemma {:induction false} RunEndChars(t: string, p: nat, stop: nat, class_: char -> bool, of: bool)
    requires p <= stop <= |t|
    ensures forall i :: p <= i < RunEnd(t, p, stop, class_, of) ==> class_(t[i]) == of
    decreases stop - p
  {
    if p < stop && class_(t[p]) == of { RunEndChars(t, p + 1, stop, class_, of); }
  }

  lemma {:induction false} RunEndIs(t: string, p: nat, stop: nat, class_: char -> bool, of: bool, end: nat)
    requires p <= end <= stop <= |t|
    requires forall i :: p <= i < end ==> class_(t[i]) == of
    requires end < stop ==> class_(t[end]) != of
    ensures RunEnd(t, p, stop, class_, of) == end
    decreases stop - p
  {
    if p < end { RunEndIs(t, p + 1, stop, class_, of, end); }
  }

  // Where the line that starts at p ends, its ending included; "\r\n" is one
  // ending.
  function LineEnd(t: string, p: nat): (n: nat)
    requires p < |t|
    ensures p < n <= |t|
  {
    var i := RunEnd(t, p, |t|, EndsLine, false);
    if i == |t| then i else EndingEnd(t, i)
  }

  function EndingEnd(t: string, i: nat): (n: nat)
    requires i < |t|
    ensures i < n <= |t|
  {
    if t[i] == '\r' && i + 1 < |t| && t[i + 1] == '\n' then i + 2 else i + 1
  }

  // The same for a pattern whose `^` matches after '\n' only.
  function PatternLineEnd(t: string, p: nat): (n: nat)
    requires p < |t|
    ensures p < n <= |t|
  {
    var i := RunEnd(t, p, |t|, IsNewline, false);
    if i == |t| then i else i + 1
  }

  datatype Found = Nothing | Word(span: Span)

  // The next word of t[p..stop], unless a comment starts first.
  function NextWord(t: string, p: nat, stop: nat): (w: Found)
    requires p <= stop <= |t|
    ensures w.Word? ==> p <= w.span.start < w.span.end <= stop
  {
    var q := RunEnd(t, p, stop, IsSpace, true);
    if q == stop || t[q] == '#' then Nothing
    else Word(Span(q, RunEnd(t, q, stop, IsSpace, false)))
  }

  function Words(t: string, p: nat, stop: nat): (words: seq<Span>)
    requires p <= stop <= |t|
    decreases stop - p
  {
    match NextWord(t, p, stop)
    case Nothing => []
    case Word(w) => [w] + Words(t, w.end, stop)
  }

  // Spans are nonempty, in order, and lie between `from` and `stop`.
  predicate InOrder(spans: seq<Span>, from: nat, stop: nat) {
    if spans == [] then from <= stop
    else from <= spans[0].start < spans[0].end <= stop && InOrder(spans[1..], spans[0].end, stop)
  }

  lemma {:induction false} InOrderConcat(a: seq<Span>, b: seq<Span>, from: nat, mid: nat, stop: nat)
    requires InOrder(a, from, mid) && InOrder(b, mid, stop)
    ensures InOrder(a + b, from, stop)
    decreases |a|
  {
    if a == [] {
      assert a + b == b;
      InOrderWider(b, mid, stop, from, stop);
    } else {
      InOrderConcat(a[1..], b, a[0].end, mid, stop);
      assert (a + b)[1..] == a[1..] + b;
      InOrderEnds(b, mid, stop);
      InOrderEnds(a, from, mid);
    }
  }

  lemma {:induction false} InOrderEnds(spans: seq<Span>, from: nat, stop: nat)
    requires InOrder(spans, from, stop)
    ensures from <= stop
  {
  }

  lemma {:induction false} InOrderWider(spans: seq<Span>, from: nat, stop: nat, from': nat, stop': nat)
    requires InOrder(spans, from, stop) && from' <= from && stop <= stop'
    ensures InOrder(spans, from', stop')
    decreases |spans|
  {
    if spans != [] { InOrderWider(spans[1..], spans[0].end, stop, spans[0].end, stop'); }
  }

  lemma {:induction false} InOrderPrefix(a: seq<Span>, b: seq<Span>, from: nat, stop: nat)
    requires InOrder(a + b, from, stop)
    ensures InOrder(a, from, stop)
    decreases |a|
  {
    InOrderEnds(a + b, from, stop);
    if a != [] {
      assert (a + b)[1..] == a[1..] + b;
      InOrderPrefix(a[1..], b, a[0].end, stop);
    }
  }

  lemma {:induction false} InOrderMember(spans: seq<Span>, from: nat, stop: nat, w: Span)
    requires InOrder(spans, from, stop) && w in spans
    ensures from <= w.start < w.end <= stop
    decreases |spans|
  {
    if w != spans[0] { InOrderMember(spans[1..], spans[0].end, stop, w); }
  }

  // The last of them, and those before it.
  lemma {:induction false} InOrderLast(a: seq<Span>, w: Span, from: nat, stop: nat)
    requires InOrder(a + [w], from, stop)
    ensures InOrder(a, from, w.start) && from <= w.start < w.end <= stop
    decreases |a|
  {
    if a == [] {
      assert a + [w] == [w];
    } else {
      assert (a + [w])[1..] == a[1..] + [w];
      InOrderLast(a[1..], w, a[0].end, stop);
    }
  }

  lemma {:induction false} WordsInOrder(t: string, p: nat, stop: nat)
    requires p <= stop <= |t|
    ensures InOrder(Words(t, p, stop), p, stop)
    decreases stop - p
  {
    var v := NextWord(t, p, stop);
    if v.Word? {
      WordsInOrder(t, v.span.end, stop);
    }
  }

  // -------------------------------------------------- exchanging an address

  // t[s..e] and u[s..f] are addresses, and the texts agree around them.
  ghost predicate Exchanged(t: string, u: string, s: nat, e: nat, f: nat) {
    && s < e <= |t| && s < f <= |u| && |t| - e == |u| - f
    && (forall i :: 0 <= i < s ==> t[i] == u[i])
    && (forall i :: e <= i < |t| ==> t[i] == u[i - e + f])
    && t[s] == 'h' && u[s] == 'h'
    && (forall i :: s <= i < e ==> !Special(t[i]))
    && (forall i :: s <= i < f ==> !Special(u[i]))
  }

  // A position not inside the address, and where it goes.
  predicate Outside(p: int, s: nat, e: nat) { p <= s || e <= p }

  function To(p: int, s: nat, e: nat, f: nat): int { if p <= s then p else p - e + f }

  lemma CharMoves(t: string, u: string, s: nat, e: nat, f: nat, p: nat)
    requires Exchanged(t, u, s, e, f) && Outside(p, s, e) && p < |t|
    ensures 0 <= To(p, s, e, f) < |u| && u[To(p, s, e, f)] == t[p]
  {
  }

  lemma StepMoves(t: string, u: string, s: nat, e: nat, f: nat, p: nat)
    requires Exchanged(t, u, s, e, f) && Outside(p, s, e) && p < |t|
    requires p != s
    ensures Outside(p + 1, s, e) && To(p + 1, s, e, f) == To(p, s, e, f) + 1
  {
  }

  // A run in the one text goes to the run in the other.
  lemma RunEndMoves(t: string, u: string, s: nat, e: nat, f: nat,
                    p: nat, stop: nat, class_: char -> bool, of: bool)
    requires Exchanged(t, u, s, e, f)
    requires p <= stop <= |t| && Outside(p, s, e) && Outside(stop, s, e)
    requires (forall c :: class_(c) ==> Special(c))
      || stop <= s || e <= p || RunEnd(t, p, stop, class_, of) < s
    ensures var end := RunEnd(t, p, stop, class_, of);
      && To(p, s, e, f) <= To(stop, s, e, f) <= |u|
      && Outside(end, s, e)
      && RunEnd(u, To(p, s, e, f), To(stop, s, e, f), class_, of) == To(end, s, e, f)
      && (end < stop ==> To(end, s, e, f) < To(stop, s, e, f) && u[To(end, s, e, f)] == t[end])
  {
    var end := RunEnd(t, p, stop, class_, of);
    RunEndChars(t, p, stop, class_, of);
    var p', end' := To(p, s, e, f), To(end, s, e, f);
    forall i | p' <= i < end' ensures class_(u[i]) == of {
      if i < s {
        assert u[i] == t[i];
      } else if f <= i {
        assert u[i] == t[i - f + e];
      } else {
        assert class_(t[s]) == of;
      }
    }
    if end < stop { CharMoves(t, u, s, e, f, end); }
    RunEndIs(u, p', To(stop, s, e, f), class_, of, end');
  }

  lemma EndingEndMoves(t: string, u: string, s: nat, e: nat, f: nat, i: nat)
    requires Exchanged(t, u, s, e, f) && i < |t| && i != s && Outside(i, s, e)
    requires To(i, s, e, f) < |u|
    ensures Outside(EndingEnd(t, i), s, e)
      && EndingEnd(u, To(i, s, e, f)) == To(EndingEnd(t, i), s, e, f)
  {
    CharMoves(t, u, s, e, f, i);
    StepMoves(t, u, s, e, f, i);
    if i + 1 < |t| { CharMoves(t, u, s, e, f, i + 1); }
  }

  lemma LineEndMoves(t: string, u: string, s: nat, e: nat, f: nat, p: nat)
    requires Exchanged(t, u, s, e, f) && p < |t| && Outside(p, s, e)
    ensures To(p, s, e, f) < |u|
      && Outside(LineEnd(t, p), s, e)
      && LineEnd(u, To(p, s, e, f)) == To(LineEnd(t, p), s, e, f)
  {
    var i := RunEnd(t, p, |t|, EndsLine, false);
    RunEndMoves(t, u, s, e, f, p, |t|, EndsLine, false);
    if i < |t| { EndingEndMoves(t, u, s, e, f, i); }
  }

  lemma PatternLineEndMoves(t: string, u: string, s: nat, e: nat, f: nat, p: nat)
    requires Exchanged(t, u, s, e, f) && p < |t| && Outside(p, s, e)
    ensures To(p, s, e, f) < |u|
      && Outside(PatternLineEnd(t, p), s, e)
      && PatternLineEnd(u, To(p, s, e, f)) == To(PatternLineEnd(t, p), s, e, f)
  {
    var i := RunEnd(t, p, |t|, IsNewline, false);
    RunEndMoves(t, u, s, e, f, p, |t|, IsNewline, false);
    if i < |t| {
      StepMoves(t, u, s, e, f, i);
    }
  }

  function ToSpan(w: Span, s: nat, e: nat, f: nat): (r: Span)
    requires s <= f
  {
    var a, b := To(w.start, s, e, f), To(w.end, s, e, f);
    if 0 <= a && 0 <= b then Span(a, b) else w
  }

  function ToSpans(spans: seq<Span>, s: nat, e: nat, f: nat): (r: seq<Span>)
    requires s <= f
    ensures |r| == |spans|
  {
    if spans == [] then [] else [ToSpan(spans[0], s, e, f)] + ToSpans(spans[1..], s, e, f)
  }

  lemma ToSpansCons(first: Span, rest: seq<Span>, s: nat, e: nat, f: nat)
    requires s <= f
    ensures ToSpans([first] + rest, s, e, f) == [ToSpan(first, s, e, f)] + ToSpans(rest, s, e, f)
  {
    assert ([first] + rest)[1..] == rest;
  }

  lemma {:induction false} ToSpansConcat(a: seq<Span>, b: seq<Span>, s: nat, e: nat, f: nat)
    requires s <= f
    ensures ToSpans(a + b, s, e, f) == ToSpans(a, s, e, f) + ToSpans(b, s, e, f)
  {
    if a == [] {
      assert a + b == b;
    } else {
      assert (a + b)[1..] == a[1..] + b;
      ToSpansConcat(a[1..], b, s, e, f);
    }
  }

  lemma NextWordMoves(t: string, u: string, s: nat, e: nat, f: nat, p: nat, stop: nat)
    requires Exchanged(t, u, s, e, f)
    requires p <= stop <= |t| && Outside(p, s, e) && Outside(stop, s, e)
    ensures To(p, s, e, f) <= To(stop, s, e, f) <= |u|
    ensures var v, w := NextWord(t, p, stop), NextWord(u, To(p, s, e, f), To(stop, s, e, f));
      if v.Word? then
        && Outside(v.span.start, s, e) && Outside(v.span.end, s, e)
        && w == Word(ToSpan(v.span, s, e, f))
      else
        w == Nothing
  {
    RunEndMoves(t, u, s, e, f, p, stop, IsSpace, true);
    var q := RunEnd(t, p, stop, IsSpace, true);
    if q < stop {
      RunEndMoves(t, u, s, e, f, q, stop, IsSpace, false);
    }
  }

  lemma {:induction false} WordsMove(t: string, u: string, s: nat, e: nat, f: nat, p: nat, stop: nat)
    requires Exchanged(t, u, s, e, f)
    requires p <= stop <= |t| && Outside(p, s, e) && Outside(stop, s, e)
    ensures To(p, s, e, f) <= To(stop, s, e, f) <= |u|
    ensures Words(u, To(p, s, e, f), To(stop, s, e, f)) == ToSpans(Words(t, p, stop), s, e, f)
    ensures forall w <- Words(t, p, stop) :: (Outside(w.start, s, e) && Outside(w.end, s, e))
    decreases stop - p
  {
    NextWordMoves(t, u, s, e, f, p, stop);
    var v := NextWord(t, p, stop);
    if v.Word? {
      WordsMove(t, u, s, e, f, v.span.end, stop);
      ToSpansConcat([v.span], Words(t, v.span.end, stop), s, e, f);
    }
  }

  // A piece of text that does not hold the address is the same in both.
  lemma PieceMoves(t: string, u: string, s: nat, e: nat, f: nat, p: nat, stop: nat)
    requires Exchanged(t, u, s, e, f)
    requires p <= stop <= s || e <= p <= stop <= |t|
    ensures var p', stop' := To(p, s, e, f), To(stop, s, e, f);
      0 <= p' <= stop' <= |u| && u[p'..stop'] == t[p..stop]
  {
  }
}
