/**
 What holds of the emulator for every stream: output may be split anywhere,
 feeding is a fold of token meanings, the grid stays in shape, and erasing in
 two halves erases everything.
 */
module TerminalLaws {
  import opened Wrappers
  import opened Texts
  import opened TerminalModel

  // ------------------------------------------------------ tokens are prefix-determined

  // A control sequence exactly as its grammar gives it: introducer, parameter
  // characters, intermediate characters, one final character.
  predicate IsControlSequence(p: string, n: nat, source: string, intermediate: string, final: char) {
    && n <= |p|
    && p[..n] == [ESC, '['] + source + intermediate + [final]
    && (forall i :: 0 <= i < |source| ==> IsParameter(source[i]))
    && (forall i :: 0 <= i < |intermediate| ==> IsIntermediate(intermediate[i]))
    && IsFinal(final)
  }

  // The scan finds a control sequence exactly when the text starts with one,
  // and it is the only one the text starts with.
  lemma ControlSequenceExact(p: string, n: nat, source: string, intermediate: string, final: char)
    requires |p| >= 2 && p[0] == ESC && p[1] == '['
    ensures Lex(p) == Lexeme(Csi(source, intermediate, final), n)
       <==> IsControlSequence(p, n, source, intermediate, final)
  {
    var i := RunEnd(p, 2, IsParameter);
    var j := RunEnd(p, i, IsIntermediate);
    if IsControlSequence(p, n, source, intermediate, final) {
      var a := 2 + |source|;
      var b := a + |intermediate|;
      var q := p[..n];
      assert forall k :: 2 <= k < a ==> q[k] == source[k - 2];
      assert forall k :: a <= k < b ==> q[k] == intermediate[k - a];
      assert q[b] == final && n == b + 1;
      assert forall k :: 0 <= k < n ==> p[k] == q[k];
      assert forall k :: 2 <= k < a ==> IsParameter(p[k]);
      assert forall k :: a <= k < b ==> IsIntermediate(p[k]);
      assert !IsParameter(p[a]) && !IsIntermediate(p[b]);
      assert i == a && j == b;
      assert p[2..i] == source && p[i..j] == intermediate;
    }
    if Lex(p) == Lexeme(Csi(source, intermediate, final), n) {
      assert p[..n] == [ESC, '['] + p[2..i] + p[i..j] + [p[j]];
    }
  }

  lemma RunEndExtends(p: string, q: string, start: nat, class_: char -> bool)
    requires start <= |p| && RunEnd(p, start, class_) < |p|
    ensures RunEnd(p + q, start, class_) == RunEnd(p, start, class_)
    decreases |p| - start
  {
    assert (p + q)[start] == p[start];
    if class_(p[start]) {
      RunEndExtends(p, q, start + 1, class_);
    }
  }

  lemma TerminatorExtends(p: string, q: string, start: nat)
    requires start <= |p| && Terminator(p, start) < |p|
    ensures Terminator(p + q, start) == Terminator(p, start)
    decreases |p| - start
  {
    var t := p + q;
    assert t[start] == p[start];
    if !EndsString(p, start) {
      assert start + 1 < |p| ==> t[start + 1] == p[start + 1];
      TerminatorExtends(p, q, start + 1);
    }
  }

  // A token, or the refusal of an escape, is decided by the text seen so far.
  lemma LexExtends(p: string, q: string)
    requires p != "" && !Lex(p).Incomplete?
    ensures Lex(p + q) == Lex(p)
  {
    var t := p + q;
    assert forall k :: 0 <= k < |p| ==> t[k] == p[k];
    if p[0] == ESC && p[1] == '[' {
      var i := RunEnd(p, 2, IsParameter);
      var j := RunEnd(p, i, IsIntermediate);
      RunEndExtends(p, q, 2, IsParameter);
      RunEndExtends(p, q, i, IsIntermediate);
      assert t[2..i] == p[2..i] && t[i..j] == p[i..j];
    } else if p[0] == ESC && p[1] == ']' {
      TerminatorExtends(p, q, 2);
    }
  }

  // ------------------------------------------------------------- chunk independence

  // Feed pieces in turn, stopping at the first error.
  function FeedAll(g: Glyphs, s: Screen, pending: string, pieces: seq<string>): Outcome
    requires s.Valid()
    decreases |pieces|
  {
    if pieces == [] then Consume(g, s, pending)
    else
      var o := Consume(g, s, pending + pieces[0]);
      if o.failure.Some? then o else FeedAll(g, o.screen, o.pending, pieces[1..])
  }

  function Concat(pieces: seq<string>): string {
    if pieces == [] then "" else pieces[0] + Concat(pieces[1..])
  }

  // Feeding `p` and then `q` is feeding `p + q`: the same screen, pending text
  // and error, except that after an error the unread `q` is still pending.
  lemma {:induction false} FeedSplit(g: Glyphs, s: Screen, p: string, q: string)
    requires s.Valid()
    ensures var o := Consume(g, s, p);
      Consume(g, s, p + q) == if o.failure.Some? then o.(pending := o.pending + q)
                              else Consume(g, o.screen, o.pending + q)
    decreases |p|
  {
    if p == "" || Lex(p).Incomplete? {
    } else {
      LexExtends(p, q);
      if Lex(p).Lexeme? {
        var Lexeme(token, n) := Lex(p);
        var e := Apply(g, s, token);
        assert (p + q)[n..] == p[n..] + q;
        if e.failure.None? {
          FeedSplit(g, e.screen, p[n..], q);
        }
      }
    }
  }

  lemma {:induction false} ChunkIndependence(g: Glyphs, s: Screen, pending: string, pieces: seq<string>)
    requires s.Valid()
    ensures var whole := Consume(g, s, pending + Concat(pieces));
      var split := FeedAll(g, s, pending, pieces);
      && split.screen == whole.screen
      && split.failure == whole.failure
      && split.pending <= whole.pending
      && (whole.failure.None? ==> split.pending == whole.pending)
    decreases |pieces|
  {
    if pieces == [] {
      assert pending + Concat(pieces) == pending;
    } else {
      var rest := Concat(pieces[1..]);
      assert pending + Concat(pieces) == (pending + pieces[0]) + rest;
      FeedSplit(g, s, pending + pieces[0], rest);
      var o := Consume(g, s, pending + pieces[0]);
      if o.failure.None? {
        ChunkIndependence(g, o.screen, o.pending, pieces[1..]);
      }
    }
  }

  // ----------------------------------------------------------- a fold of meanings

  datatype Scan = Scan(tokens: seq<Token>, rest: string)

  // Cut text into tokens without interpreting them.
  function Tokens(p: string): (t: Scan)
    decreases |p|
  {
    if p == "" || !Lex(p).Lexeme? then Scan([], p)
    else
      var t := Tokens(p[Lex(p).length..]);
      Scan([Lex(p).token] + t.tokens, t.rest)
  }

  function Fold(g: Glyphs, s: Screen, tokens: seq<Token>): (e: Effect)
    requires s.Valid()
    ensures e.screen.Valid()
    decreases |tokens|
  {
    if tokens == [] then Effect(s, None)
    else
      var e := Apply(g, s, tokens[0]);
      if e.failure.Some? then e else Fold(g, e.screen, tokens[1..])
  }

  // Feeding interprets the tokens of the text in order; what cannot be cut
  // into tokens yet stays pending, or is the escape that is refused.
  lemma {:induction false} FeedIsFold(g: Glyphs, s: Screen, p: string)
    requires s.Valid()
    ensures var o := Consume(g, s, p);
      var t := Tokens(p);
      var e := Fold(g, s, t.tokens);
      && o.screen == e.screen
      && (e.failure.Some? ==> o.failure == e.failure)
      && (e.failure.None? ==> o.pending == t.rest)
      && (e.failure.None? ==>
            o.failure == if t.rest != "" && Lex(t.rest).Unsupported? then Some(UnsupportedEscape) else None)
    decreases |p|
  {
    if p != "" && Lex(p).Lexeme? {
      var Lexeme(token, n) := Lex(p);
      var e := Apply(g, s, token);
      var t := Tokens(p[n..]);
      assert Tokens(p).tokens[1..] == t.tokens;
      if e.failure.None? {
        FeedIsFold(g, e.screen, p[n..]);
      }
    }
  }

  // A control sequence is spoiled by a character its grammar does not allow.
  predicate Spoiled(p: string)
    requires |p| >= 2 && p[0] == ESC && p[1] == '['
  {
    var j := RunEnd(p, RunEnd(p, 2, IsParameter), IsIntermediate);
    j < |p| && !IsFinal(p[j])
  }

  // It is neither refused nor skipped: it stays pending for ever, whatever
  // follows, exactly when it is spoiled; any other one some text completes.
  lemma SpoiledSequenceStalls(p: string)
    requires |p| >= 2 && p[0] == ESC && p[1] == '['
    ensures Spoiled(p) <==> forall q :: Lex(p + q) == Incomplete
  {
    if Spoiled(p) {
      forall q ensures Lex(p + q) == Incomplete { SpoiledStays(p, q); }
    } else {
      assert p + "" == p;
      assert Lex(p) == Lex(p + "");
      CanComplete(p);
    }
  }

  lemma SpoiledStays(p: string, q: string)
    requires |p| >= 2 && p[0] == ESC && p[1] == '[' && Spoiled(p)
    ensures Lex(p + q) == Incomplete
  {
    var i := RunEnd(p, 2, IsParameter);
    RunEndExtends(p, q, 2, IsParameter);
    RunEndExtends(p, q, i, IsIntermediate);
  }

  // A final character completes a sequence that is neither spoiled nor complete.
  lemma CanComplete(p: string)
    requires |p| >= 2 && p[0] == ESC && p[1] == '[' && !Spoiled(p)
    ensures Lex(p).Lexeme? || Lex(p + "@").Lexeme?
  {
    var i := RunEnd(p, 2, IsParameter);
    var j := RunEnd(p, i, IsIntermediate);
    if j == |p| {
      var whole := p + "@";
      var source, intermediate := p[2..i], p[i..];
      assert whole[..|whole|] == [ESC, '['] + source + intermediate + ['@'];
      assert IsControlSequence(whole, |whole|, source, intermediate, '@');
      ControlSequenceExact(whole, |whole|, source, intermediate, '@');
    }
  }

  // So the screen never shows what is fed after it.
  lemma StalledScreen(g: Glyphs, s: Screen, p: string, q: string)
    requires s.Valid() && |p| >= 2 && p[0] == ESC && p[1] == '[' && Spoiled(p)
    ensures Consume(g, s, p + q) == Outcome(s, p + q, None)
  {
    SpoiledStays(p, q);
  }

  // ------------------------------------------------------------------ grid safety

  // The cells a token may write: a printed character its cell and, when wide,
  // the next; a combining mark the cell before the cursor; an erase command the
  // cells it names. Everything else writes no cell.
  predicate MayWrite(g: Glyphs, s: Screen, token: Token, r: nat, c: nat) {
    match token
    case Character(code) =>
      && code >= ' ' && code != DEL
      && if g.combining(code) then r == s.y && c + 1 == s.x
         else if s.x >= s.cols then r == Min(s.rows - 1, s.y + 1) && (c == 0 || (c == 1 && g.wide(code)))
         else r == s.y && (c == s.x || (c == s.x + 1 && g.wide(code)))
    case Csi(source, _, final) =>
      && (source == "" || !PrivateMark(source[0]))
      && Parameters(source).Some?
      && var values := Parameters(source).value;
         || (final == 'J' && Names(s, Display(values[0]), r, c))
         || (final == 'K' && Names(s, Line(values[0]), r, c))
         || (final == 'X' && Names(s, Characters(Max(1, values[0])), r, c))
    case Ignored => false
  }

  // Every token keeps the shape of the grid and the cursor bounds, and leaves
  // every cell it does not name alone; the one index past a row is a combining
  // mark after a wide character filled the last column.
  lemma GridSafety(g: Glyphs, s: Screen, token: Token)
    requires s.Valid()
    ensures var e := Apply(g, s, token);
      && e.screen.Valid()
      && e.screen.rows == s.rows && e.screen.cols == s.cols
      && (forall r, c :: 0 <= r < s.rows && 0 <= c < s.cols && !MayWrite(g, s, token, r, c) ==>
            e.screen.cells[r][c] == s.cells[r][c])
      && (e.failure == Some(MarkPastRow) <==>
            && token.Character? && token.code >= ' ' && token.code != DEL
            && g.combining(token.code) && s.x == s.cols + 1)
  {
    if token.Character? && token.code >= ' ' && token.code != DEL && !g.combining(token.code) {
      PrintSafety(g, s, token.code);
    }
  }

  lemma PrintSafety(g: Glyphs, s: Screen, c: char)
    requires s.Valid() && c >= ' ' && c != DEL && !g.combining(c)
    ensures var t := Print(g, s, c);
      forall row, col :: 0 <= row < s.rows && 0 <= col < s.cols && !MayWrite(g, s, Character(c), row, col) ==>
        t.cells[row][col] == s.cells[row][col]
  {
  }

  // Reaching x == cols + 1 takes a wide character printed in the last column.
  lemma PastRowNeedsWide(g: Glyphs, s: Screen, token: Token)
    requires s.Valid() && s.x <= s.cols
    ensures Apply(g, s, token).screen.x == s.cols + 1
       <==> && token.Character? && token.code >= ' ' && token.code != DEL
            && !g.combining(token.code) && g.wide(token.code)
            && (s.x == s.cols - 1 || (s.cols == 1 && s.x == s.cols))
  {
    match token
    case Character(code) =>
      if code >= ' ' && code != DEL && !g.combining(code) {
        assert Apply(g, s, token).screen == Print(g, s, code);
      }
    case Csi(source, _, final) =>
      var e := ApplyCsi(s, source, final);
      assert e.screen.x <= s.x || e.screen.x < s.cols;
    case Ignored =>
  }

  // Over a whole stream the grid keeps its shape and the cursor its bounds.
  lemma {:induction false} FeedKeepsGrid(g: Glyphs, s: Screen, p: string)
    requires s.Valid()
    ensures var o := Consume(g, s, p);
      o.screen.Valid() && o.screen.rows == s.rows && o.screen.cols == s.cols
    decreases |p|
  {
    if p != "" && Lex(p).Lexeme? {
      var e := Apply(g, s, Lex(p).token);
      if e.failure.None? {
        FeedKeepsGrid(g, e.screen, p[Lex(p).length..]);
      }
    }
  }

  // ------------------------------------------------------------------ erase law

  lemma EraseHalves(s: Screen)
    requires s.Valid()
    ensures Erase(Erase(s, Display(0)), Display(1)) == Erase(s, Display(2))
    ensures Erase(Erase(s, Line(0)), Line(1)) == Erase(s, Line(2))
  {
    ErasedCellwise(s, Display(2), Erase(Erase(s, Display(0)), Display(1)).cells);
    ErasedCellwise(s, Line(2), Erase(Erase(s, Line(0)), Line(1)).cells);
  }

  // As commands: erase to the end, then to the start, is erase all.
  lemma EraseToEndThenStart(s: Screen, final: char)
    requires s.Valid() && (final == 'J' || final == 'K')
    ensures ApplyCsi(ApplyCsi(s, "", final).screen, "1", final) == ApplyCsi(s, "2", final)
  {
    DigitParameter("");
    DigitParameter("1");
    DigitParameter("2");
    EraseHalves(s);
  }

  lemma DigitParameter(p: string)
    requires p == "" || p == "1" || p == "2"
    ensures Parameters(p) == Some([Digits(p)])
    ensures Digits(p) == if p == "" then 0 else if p == "1" then 1 else 2
  {
    if p == "" {
      assert Split(p, ';') == [p];
    } else {
      assert p[1..] == "" && p[..0] == "";
      assert Split(p[1..], ';') == [""];
      assert [p[0]] + "" == p;
      assert Split(p, ';') == [p];
      assert Digits(p) == 10 * Digits(p[..0]) + (p[0] as int - '0' as int);
    }
    assert AllDigits(p);
    assert Parameters(p).value == [Digits(p)];
  }

  // ------------------------------------------------------------------ SGR lists

  // No extended colour is cut short by the end of the list.
  predicate WholeColors(values: seq<nat>)
    decreases |values|
  {
    if values == [] then true
    else if values[0] == 38 || values[0] == 48 then
      && |values| >= 2
      && |values| > ExtendedLength(values[1])
      && WholeColors(values[ExtendedLength(values[1]) + 1..])
    else WholeColors(values[1..])
  }

  // One SGR list means the same as its two halves sent as separate commands,
  // wherever the cut falls between whole colours.
  lemma {:induction false} SgrSplits(a: seq<nat>, b: seq<nat>, fg: Color, bg: Color)
    requires WholeColors(a)
    ensures var half := Sgr(a, fg, bg);
      half.complete && Sgr(a + b, fg, bg) == Sgr(b, half.fg, half.bg)
    decreases |a|
  {
    if a == [] {
      assert a + b == b;
    } else if a[0] == 38 || a[0] == 48 {
      var n := ExtendedLength(a[1]) + 1;
      assert (a + b)[1..n] == a[1..n] && (a + b)[n..] == a[n..] + b;
      var color := Extended(a[1..n]);
      SgrSplits(a[n..], b, if a[0] == 38 then color else fg, if a[0] == 38 then bg else color);
    } else {
      assert (a + b)[1..] == a[1..] + b;
      var (fg', bg') := Colored(fg, bg, a[0]);
      SgrSplits(a[1..], b, fg', bg');
    }
  }
}
