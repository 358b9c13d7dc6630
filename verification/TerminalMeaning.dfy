/**
 What the program sees when it feeds the emulator the text of a command: where
 the cursor goes, which cells change, and into what.
 */
module TerminalMeaning {
  import opened Wrappers
  import opened Texts
  import opened TerminalModel
  import opened TerminalLaws

  // ------------------------------------------------------- commands as they are sent

  // A parameter is left out, or a decimal numeral.
  type Parameter = Option<nat>

  function Shown(p: Parameter): string { if p.None? then "" else Decimal(p.value) }

  function AllShown(ps: seq<Parameter>): (parts: seq<string>)
    ensures |parts| == |ps| && forall i :: 0 <= i < |ps| ==> parts[i] == Shown(ps[i])
  {
    seq(|ps|, i requires 0 <= i < |ps| => Shown(ps[i]))
  }

  function Source(ps: seq<Parameter>): string
    requires ps != []
  {
    Join(AllShown(ps), ';')
  }

  function Sequence(ps: seq<Parameter>, final: char): string
    requires ps != []
  {
    [ESC, '['] + Source(ps) + [final]
  }

  function Value(p: Parameter): nat { if p.None? then 0 else p.value }

  function Values(ps: seq<Parameter>): (values: seq<nat>)
    ensures |values| == |ps| && forall i :: 0 <= i < |ps| ==> values[i] == Value(ps[i])
  {
    seq(|ps|, i requires 0 <= i < |ps| => Value(ps[i]))
  }

  lemma ShownIsDigits(p: Parameter)
    ensures AllDigits(Shown(p)) && Digits(Shown(p)) == Value(p)
  {
    if p.Some? { DecimalIsNumeral(p.value); }
  }

  lemma ParametersShown(ps: seq<Parameter>)
    requires ps != []
    ensures Parameters(Source(ps)) == Some(Values(ps))
  {
    var parts := AllShown(ps);
    forall i | 0 <= i < |ps| ensures AllDigits(parts[i]) && Digits(parts[i]) == Value(ps[i]) && ';' !in parts[i] {
      ShownIsDigits(ps[i]);
    }
    JoinSplits(parts, ';');
    assert Parameters(Source(ps)).value == Values(ps);
  }

  // Digits and semicolons.
  predicate Plain(source: string) { forall c <- source :: IsDigit(c) || c == ';' }

  lemma {:induction false} JoinedIsPlain(parts: seq<string>)
    requires parts != [] && forall i :: 0 <= i < |parts| ==> AllDigits(parts[i])
    ensures Plain(Join(parts, ';'))
    decreases |parts|
  {
    if |parts| > 1 { JoinedIsPlain(parts[1..]); }
  }

  // Parameters are read exactly where there are digits and semicolons only.
  lemma ParametersExactly(source: string)
    ensures Parameters(source).Some? <==> Plain(source)
  {
    var parts := Split(source, ';');
    SplitJoins(source, ';');
    if Parameters(source).Some? {
      JoinedIsPlain(parts);
    }
    if Plain(source) {
      forall i, c | 0 <= i < |parts| && c in parts[i] ensures IsDigit(c) {
        PartsWithout(source, ';', ';');
        if !IsDigit(c) { PartsWithout(source, ';', c); }
      }
      assert forall i :: 0 <= i < |parts| ==> AllDigits(parts[i]);
    }
  }

  // Any control sequence without intermediates, fed whole.
  lemma SequenceIsFed(g: Glyphs, s: Screen, source: string, final: char)
    requires s.Valid() && IsFinal(final) && forall c <- source :: IsParameter(c)
    ensures var p := [ESC, '['] + source + [final];
      var e := ApplyCsi(s, source, final);
      Consume(g, s, p) == Outcome(e.screen, if e.failure.None? then "" else p, e.failure)
  {
    var p := [ESC, '['] + source + [final];
    assert p[..|p|] == [ESC, '['] + source + "" + [final];
    ControlSequenceExact(p, |p|, source, "", final);
    assert p[|p|..] == "";
  }

  lemma CommandIsFed(g: Glyphs, s: Screen, ps: seq<Parameter>, final: char)
    requires s.Valid() && IsFinal(final) && !IgnoredFinal(final) && ps != []
    ensures var e := ApplyFinal(s, final, Values(ps));
      Consume(g, s, Sequence(ps, final))
        == Outcome(e.screen, if e.failure.None? then "" else Sequence(ps, final), e.failure)
  {
    ParametersShown(ps);
    ParametersExactly(Source(ps));
    SequenceIsFed(g, s, Source(ps), final);
    assert Source(ps) != "" ==> Source(ps)[0] in Source(ps);
  }

  // ------------------------------------------------------------------- the cursor

  // A count is 1 when it is left out or 0.
  function Times(p: Parameter): (n: nat)
    ensures n >= 1
  {
    if p == None || p == Some(0) then 1 else p.value
  }

  function ParameterAt(ps: seq<Parameter>, i: nat): Parameter { if i < |ps| then ps[i] else None }

  // The n-th of `size` places, or the last.
  function Nth(n: nat, size: nat): (k: nat)
    requires n >= 1 && size >= 1
    ensures k < size
  {
    if n <= size then n - 1 else size - 1
  }

  function Back(k: nat, n: nat): nat { if n <= k then k - n else 0 }

  function Forth(k: nat, n: nat, size: nat): nat
    requires size >= 1
  {
    if k + n < size then k + n else size - 1
  }

  function Placed(s: Screen, row: nat, column: nat): Screen
    requires s.Valid() && row >= 1 && column >= 1
  {
    s.(y := Nth(row, s.rows), x := Nth(column, s.cols))
  }

  function Displaced(s: Screen, final: char, n: nat): Screen
    requires s.Valid() && n >= 1
  {
    match final
    case 'A' => s.(y := Back(s.y, n))
    case 'B' => s.(y := Forth(s.y, n, s.rows))
    case 'C' => s.(x := Forth(s.x, n, s.cols))
    case 'D' => s.(x := Back(s.x, n))
    case 'E' => s.(x := 0, y := Forth(s.y, n, s.rows))
    case 'F' => s.(x := 0, y := Back(s.y, n))
    case 'G' => s.(x := Nth(n, s.cols))
    case _ => s.(y := Nth(n, s.rows))
  }

  lemma MovedPlaces(s: Screen, final: char, row: nat, values: seq<nat>, column: nat)
    requires s.Valid() && (final == 'H' || final == 'f') && row >= 1 && |values| >= 1
    requires column == if |values| > 1 && values[1] != 0 then values[1] else 1
    ensures Moved(s, final, row, values) == Placed(s, row, column)
  {
  }

  lemma MovedDisplaces(s: Screen, final: char, n: nat, values: seq<nat>)
    requires s.Valid() && ('A' <= final <= 'G' || final == 'd') && n >= 1 && |values| >= 1
    ensures Moved(s, final, n, values) == Displaced(s, final, n)
  {
  }

  // ESC [ row ; column H puts the cursor there; what is left out is 1, what is too
  // large is the last.
  lemma PositionCommand(g: Glyphs, s: Screen, ps: seq<Parameter>, final: char)
    requires s.Valid() && ps != [] && (final == 'H' || final == 'f')
    ensures var row, column := Times(ParameterAt(ps, 0)), Times(ParameterAt(ps, 1));
      Consume(g, s, Sequence(ps, final)) == Outcome(Placed(s, row, column), "", None)
  {
    CommandIsFed(g, s, ps, final);
    MovedPlaces(s, final, Times(ps[0]), Values(ps), Times(ParameterAt(ps, 1)));
  }

  // The other cursor commands move by a count, or to the place it names, and stay
  // on the screen.
  lemma MoveCommand(g: Glyphs, s: Screen, ps: seq<Parameter>, final: char)
    requires s.Valid() && ps != [] && ('A' <= final <= 'G' || final == 'd')
    ensures Consume(g, s, Sequence(ps, final)) == Outcome(Displaced(s, final, Times(ps[0])), "", None)
  {
    CommandIsFed(g, s, ps, final);
    MovedDisplaces(s, final, Times(ps[0]), Values(ps));
  }

  // ----------------------------------------------------------------------- erasing

  // In reading order.
  predicate Before(r: nat, c: nat, r': nat, c': nat) { r < r' || (r == r' && c < c') }

  // Of the display: from the cursor on, up to the cursor and with it, or all.
  predicate DisplayErased(s: Screen, mode: nat, r: nat, c: nat) {
    if mode == 0 then !Before(r, c, s.y, s.x)
    else if mode == 1 then !Before(s.y, s.x, r, c)
    else mode == 2 || mode == 3
  }

  // Of the cursor's line: up to the cursor and with it, all, or from it on.
  predicate LineErased(s: Screen, mode: nat, r: nat, c: nat) {
    r == s.y && (if mode == 1 then c <= s.x else if mode == 2 then true else c >= s.x)
  }

  predicate Erased(s: Screen, final: char, p: Parameter, r: nat, c: nat) {
    match final
    case 'J' => DisplayErased(s, Value(p), r, c)
    case 'K' => LineErased(s, Value(p), r, c)
    case _ => r == s.y && s.x <= c && c - s.x < Times(p)
  }

  // What an erase command names becomes blank in the current colours, and all else
  // stays: the cursor and the colours too.
  lemma EraseCommand(g: Glyphs, s: Screen, ps: seq<Parameter>, final: char)
    requires s.Valid() && ps != [] && (final == 'J' || final == 'K' || final == 'X')
    ensures var o := Consume(g, s, Sequence(ps, final));
      && o.pending == "" && o.failure == None && o.screen == s.(cells := o.screen.cells)
      && forall r, c :: 0 <= r < s.rows && 0 <= c < s.cols ==>
           o.screen.cells[r][c] == if Erased(s, final, ps[0], r, c) then Cell(" ", s.fg, s.bg) else s.cells[r][c]
  {
    CommandIsFed(g, s, ps, final);
  }

  // -------------------------------------------------------------------- characters

  predicate Printable(c: char) { c >= ' ' && c != DEL }

  // Where a printed character goes: the cursor's cell, or past the end of a row the
  // first of the next row, or of the last.
  function PrintRow(s: Screen): nat { if s.x < s.cols || s.y + 1 >= s.rows then s.y else s.y + 1 }

  function PrintColumn(s: Screen): nat { if s.x < s.cols then s.x else 0 }

  lemma CharacterIsFed(g: Glyphs, s: Screen, c: char)
    requires s.Valid() && c != ESC
    ensures var e := ApplyCharacter(g, s, c);
      Consume(g, s, [c]) == Outcome(e.screen, "", e.failure)
  {
    assert [c][1..] == "";
  }

  // A printed character is in its cell, in the current colours; a wide one has
  // emptied the cell to its right, if there is one; the cursor has moved past it.
  lemma PrintedCharacter(g: Glyphs, s: Screen, c: char)
    requires s.Valid() && Printable(c) && !g.combining(c)
    ensures var o := Consume(g, s, [c]);
      var row, column := PrintRow(s), PrintColumn(s);
      && o.pending == "" && o.failure == None
      && o.screen == s.(cells := o.screen.cells, y := row, x := column + if g.wide(c) then 2 else 1)
      && forall r, k :: 0 <= r < s.rows && 0 <= k < s.cols ==>
           o.screen.cells[r][k] ==
             if r == row && k == column then Cell([c], s.fg, s.bg)
             else if r == row && k == column + 1 && g.wide(c) then Cell("", s.fg, s.bg)
             else s.cells[r][k]
  {
    CharacterIsFed(g, s, c);
  }

  // A combining mark is added to the cell before the cursor, which keeps its
  // colours; there is none in the first column, and past a row the emulator fails.
  lemma CombiningMark(g: Glyphs, s: Screen, c: char)
    requires s.Valid() && Printable(c) && g.combining(c)
    ensures var o := Consume(g, s, [c]);
      && o.pending == "" && o.screen == s.(cells := o.screen.cells)
      && (o.failure == if s.x <= s.cols then None else Some(MarkPastRow))
      && forall r, k :: 0 <= r < s.rows && 0 <= k < s.cols ==>
           o.screen.cells[r][k] ==
             if r == s.y && k + 1 == s.x then Cell(s.cells[r][k].text + [c], s.cells[r][k].fg, s.cells[r][k].bg)
             else s.cells[r][k]
  {
    CharacterIsFed(g, s, c);
  }

  // Carriage return, line feed and backspace move the cursor; other control
  // characters do nothing.
  lemma ControlCharacter(g: Glyphs, s: Screen, c: char)
    requires s.Valid() && !Printable(c) && c != ESC
    ensures Consume(g, s, [c]) == Outcome(
      match c
      case '\r' => s.(x := 0)
      case '\n' => s.(y := Forth(s.y, 1, s.rows))
      case '\U{08}' => s.(x := Back(s.x, 1))
      case _ => s,
      "", None)
  {
    CharacterIsFed(g, s, c);
  }

  // Text that takes one cell a character.
  predicate Narrow(g: Glyphs, text: string) {
    forall c <- text :: Printable(c) && !g.combining(c) && !g.wide(c)
  }

  // From s to t the text has been written at the cursor, character by character, and
  // nothing else has changed but the cursor's column.
  predicate Written(s: Screen, t: Screen, text: string) {
    && s.Valid() && t.Valid() && t == s.(cells := t.cells, x := s.x + |text|)
    && forall r, k :: 0 <= r < s.rows && 0 <= k < s.cols ==>
         t.cells[r][k] ==
           if r == s.y && s.x <= k < s.x + |text| then Cell([text[k - s.x]], s.fg, s.bg) else s.cells[r][k]
  }

  lemma WrittenBoth(s: Screen, t: Screen, u: Screen, a: string, b: string)
    requires Written(s, t, a) && Written(t, u, b)
    ensures Written(s, u, a + b)
  {
    var n := |a|;
    forall r, k | 0 <= r < s.rows && 0 <= k < s.cols
      ensures u.cells[r][k] ==
        if r == s.y && s.x <= k < s.x + |a + b| then Cell([(a + b)[k - s.x]], s.fg, s.bg) else s.cells[r][k]
    {
      assert t.cells[r][k] ==
        if r == s.y && s.x <= k < s.x + n then Cell([a[k - s.x]], s.fg, s.bg) else s.cells[r][k];
    }
  }

  lemma CharacterIsWritten(g: Glyphs, s: Screen, c: char)
    requires s.Valid() && Narrow(g, [c]) && s.x < s.cols
    ensures var o := Consume(g, s, [c]);
      o.pending == "" && o.failure == None && Written(s, o.screen, [c])
  {
    assert c in [c];
    PrintedCharacter(g, s, c);
  }

  lemma {:induction false} TextIsWritten(g: Glyphs, s: Screen, text: string)
    requires s.Valid() && Narrow(g, text) && s.x + |text| <= s.cols
    ensures var o := Consume(g, s, text);
      o.pending == "" && o.failure == None && Written(s, o.screen, text)
    decreases |text|
  {
    if text != "" {
      var t := Consume(g, s, [text[0]]).screen;
      CharacterIsWritten(g, s, text[0]);
      assert text == [text[0]] + text[1..];
      FeedSplit(g, s, [text[0]], text[1..]);
      assert "" + text[1..] == text[1..];
      TextIsWritten(g, t, text[1..]);
      WrittenBoth(s, t, Consume(g, t, text[1..]).screen, [text[0]], text[1..]);
    }
  }

  lemma FedAfter(g: Glyphs, s: Screen, p: string, t: Screen, q: string)
    requires s.Valid() && Consume(g, s, p) == Outcome(t, "", None)
    ensures Consume(g, s, p + q) == Consume(g, t, q)
  {
    FeedSplit(g, s, p, q);
    assert "" + q == q;
  }

  // A position and text fed after it: the text stands there, and nothing else has
  // changed.
  lemma WritesAt(g: Glyphs, s: Screen, row: nat, column: nat, text: string)
    requires s.Valid() && Narrow(g, text)
    requires 1 <= row <= s.rows && 1 <= column <= s.cols && column - 1 + |text| <= s.cols
    ensures var o := Consume(g, s, Sequence([Some(row), Some(column)], 'H') + text);
      o.pending == "" && o.failure == None && Written(s.(y := row - 1, x := column - 1), o.screen, text)
  {
    PositionCommand(g, s, [Some(row), Some(column)], 'H');
    var t := Placed(s, row, column);
    assert t == s.(y := row - 1, x := column - 1);
    FedAfter(g, s, Sequence([Some(row), Some(column)], 'H'), t, text);
    TextIsWritten(g, t, text);
  }

  // ----------------------------------------------------------------------- colours

  // What SGR numbers say, one after the other. An extended colour has the numbers
  // that follow its 38 or 48.
  datatype Item =
    | Reset
    | DefaultForeground
    | DefaultBackground
    | Foreground(code: nat)
    | Background(code: nat)
    | ExtendedForeground(parts: seq<nat>)
    | ExtendedBackground(parts: seq<nat>)
    | Meaningless(code: nat)

  predicate ForegroundCode(n: nat) { 30 <= n <= 37 || 90 <= n <= 97 }

  predicate BackgroundCode(n: nat) { 40 <= n <= 47 || 100 <= n <= 107 }

  // Two numbers when the first is 5, else four.
  predicate WholeParts(parts: seq<nat>) {
    parts != [] && |parts| == if parts[0] == 5 then 2 else 4
  }

  predicate IsItem(i: Item) {
    match i
    case Foreground(n) => ForegroundCode(n)
    case Background(n) => BackgroundCode(n)
    case ExtendedForeground(parts) => WholeParts(parts)
    case ExtendedBackground(parts) => WholeParts(parts)
    case Meaningless(n) => !ForegroundCode(n) && !BackgroundCode(n) && n !in {0, 38, 39, 48, 49}
    case _ => true
  }

  predicate AreItems(items: seq<Item>) { forall i <- items :: IsItem(i) }

  function Codes(i: Item): seq<nat> {
    match i
    case Reset => [0]
    case DefaultForeground => [39]
    case DefaultBackground => [49]
    case Foreground(n) => [n]
    case Background(n) => [n]
    case ExtendedForeground(parts) => [38] + parts
    case ExtendedBackground(parts) => [48] + parts
    case Meaningless(n) => [n]
  }

  function AllCodes(items: seq<Item>): seq<nat> {
    if items == [] then [] else AllCodes(items[..|items| - 1]) + Codes(items[|items| - 1])
  }

  // The colour the last item that sets the foreground gives it, and the background.
  function LastForeground(items: seq<Item>, fg: Color): Color {
    if items == [] then fg
    else
      match items[|items| - 1]
      case Reset => Default
      case DefaultForeground => Default
      case Foreground(n) => Indexed(n)
      case ExtendedForeground(parts) => Extended(parts)
      case _ => LastForeground(items[..|items| - 1], fg)
  }

  function LastBackground(items: seq<Item>, bg: Color): Color {
    if items == [] then bg
    else
      match items[|items| - 1]
      case Reset => Default
      case DefaultBackground => Default
      case Background(n) => Indexed(n)
      case ExtendedBackground(parts) => Extended(parts)
      case _ => LastBackground(items[..|items| - 1], bg)
  }

  lemma OneItem(i: Item, fg: Color, bg: Color)
    requires IsItem(i)
    ensures WholeColors(Codes(i))
    ensures Sgr(Codes(i), fg, bg) == Colors(LastForeground([i], fg), LastBackground([i], bg), true)
  {
    assert [i][..0] == [];
    var codes := Codes(i);
    if i.ExtendedForeground? || i.ExtendedBackground? {
      OneExtended(codes[0], i.parts, fg, bg);
    } else {
      assert codes[1..] == [];
    }
  }

  lemma OneExtended(n: nat, parts: seq<nat>, fg: Color, bg: Color)
    requires (n == 38 || n == 48) && WholeParts(parts)
    ensures WholeColors([n] + parts)
    ensures Sgr([n] + parts, fg, bg)
      == if n == 38 then Colors(Extended(parts), bg, true) else Colors(fg, Extended(parts), true)
  {
    var codes := [n] + parts;
    assert codes[1] == parts[0] && codes[1..|codes|] == parts && codes[|codes|..] == [];
  }

  lemma {:induction false} WholeBoth(a: seq<nat>, b: seq<nat>)
    requires WholeColors(a) && WholeColors(b)
    ensures WholeColors(a + b)
    decreases |a|
  {
    if a == [] {
      assert a + b == b;
    } else {
      var n := if a[0] == 38 || a[0] == 48 then ExtendedLength(a[1]) + 1 else 1;
      assert (a + b)[n..] == a[n..] + b;
      WholeBoth(a[n..], b);
    }
  }

  lemma {:induction false} ItemsColor(items: seq<Item>, fg: Color, bg: Color)
    requires AreItems(items)
    ensures WholeColors(AllCodes(items))
    ensures Sgr(AllCodes(items), fg, bg) == Colors(LastForeground(items, fg), LastBackground(items, bg), true)
    decreases |items|
  {
    if items != [] {
      var init, last := items[..|items| - 1], items[|items| - 1];
      ItemsColor(init, fg, bg);
      var half := Sgr(AllCodes(init), fg, bg);
      OneItem(last, half.fg, half.bg);
      assert [last][..0] == [];
      WholeBoth(AllCodes(init), Codes(last));
      SgrSplits(AllCodes(init), Codes(last), fg, bg);
    }
  }

  // An extended colour that the list ends before it is whole.
  predicate CutShort(tail: seq<nat>) {
    && tail != [] && (tail[0] == 38 || tail[0] == 48)
    && !WholeParts(tail[1..]) && (|tail| > 1 ==> |tail| - 1 < if tail[1] == 5 then 2 else 4)
  }

  // The first item of a list that begins with one, and how many numbers it takes.
  function FirstLength(values: seq<nat>): (n: nat)
    requires values != [] && !CutShort(values)
    ensures 1 <= n <= |values|
  {
    if values[0] != 38 && values[0] != 48 then 1 else if values[1] == 5 then 3 else 5
  }

  function FirstItem(values: seq<nat>): (i: Item)
    requires values != [] && !CutShort(values)
    ensures IsItem(i)
  {
    var v := values[0];
    if v == 38 then ExtendedForeground(values[1..FirstLength(values)])
    else if v == 48 then ExtendedBackground(values[1..FirstLength(values)])
    else if v == 0 then Reset
    else if v == 39 then DefaultForeground
    else if v == 49 then DefaultBackground
    else if ForegroundCode(v) then Foreground(v)
    else if BackgroundCode(v) then Background(v)
    else Meaningless(v)
  }

  lemma FirstIsItem(values: seq<nat>)
    requires values != [] && !CutShort(values)
    ensures Codes(FirstItem(values)) == values[..FirstLength(values)]
  {
    var n := FirstLength(values);
    assert values[..n] == [values[0]] + values[1..n];
  }

  // Every list is items, and perhaps a colour cut short.
  lemma {:induction false} EveryList(values: seq<nat>) returns (items: seq<Item>, tail: seq<nat>)
    ensures AreItems(items) && values == AllCodes(items) + tail && (tail == [] || CutShort(tail))
    decreases |values|
  {
    if values == [] || CutShort(values) {
      items, tail := [], values;
    } else {
      var more;
      more, tail := EveryList(values[FirstLength(values)..]);
      items := [FirstItem(values)] + more;
      OneMoreItem(values, FirstItem(values), FirstLength(values), more, tail);
      FirstIsItem(values);
    }
  }

  lemma OneMoreItem(values: seq<nat>, i: Item, n: nat, more: seq<Item>, tail: seq<nat>)
    requires n <= |values| && values[n..] == AllCodes(more) + tail
    ensures Codes(i) == values[..n] ==> values == AllCodes([i] + more) + tail
  {
    CodesFirst(i, more);
    Associates(values[..n], AllCodes(more), tail);
    assert values == values[..n] + values[n..];
  }

  lemma Associates(a: seq<nat>, b: seq<nat>, c: seq<nat>)
    ensures a + (b + c) == (a + b) + c
  {
  }

  lemma {:induction false} CodesFirst(i: Item, more: seq<Item>)
    ensures AllCodes([i] + more) == Codes(i) + AllCodes(more)
    decreases |more|
  {
    var items := [i] + more;
    if more == [] {
      assert items[..0] == [] && items[0] == i;
      CodesOfLast(items);
    } else {
      var n := |more| - 1;
      assert items[..n + 1] == [i] + more[..n] && items[n + 1] == more[n];
      CodesFirst(i, more[..n]);
      CodesOfLast(items);
      CodesOfLast(more);
      Associates(Codes(i), AllCodes(more[..n]), Codes(more[n]));
    }
  }

  lemma CodesOfLast(items: seq<Item>)
    requires items != []
    ensures AllCodes(items) == AllCodes(items[..|items| - 1]) + Codes(items[|items| - 1])
  {
  }

  lemma CutColors(items: seq<Item>, tail: seq<nat>, fg: Color, bg: Color)
    requires AreItems(items) && CutShort(tail)
    ensures var f, b := LastForeground(items, fg), LastBackground(items, bg);
      Sgr(AllCodes(items) + tail, fg, bg)
        == if |tail| == 1 then Colors(f, b, false)
           else if tail[0] == 38 then Colors(Extended(tail[1..]), b, true)
           else Colors(f, Extended(tail[1..]), true)
  {
    ItemsColor(items, fg, bg);
    SgrSplits(AllCodes(items), tail, fg, bg);
    assert tail[..|tail|] == tail && tail[|tail|..] == [];
  }

  lemma FinalColors(s: Screen, values: seq<nat>)
    requires s.Valid() && |values| >= 1
    ensures var colors := Sgr(values, s.fg, s.bg);
      ApplyFinal(s, 'm', values)
        == Effect(s.(fg := colors.fg, bg := colors.bg), if colors.complete then None else Some(MissingColor))
  {
  }

  // The colours a command leaves are those its last items set; a colour cut short
  // counts as far as it goes, and fails when nothing follows its 38 or 48.
  lemma ColorCommand(g: Glyphs, s: Screen, ps: seq<Parameter>, items: seq<Item>, tail: seq<nat>)
    requires s.Valid() && ps != [] && AreItems(items) && (tail == [] || CutShort(tail))
    requires Values(ps) == AllCodes(items) + tail
    ensures var o := Consume(g, s, Sequence(ps, 'm'));
      var f, b := LastForeground(items, s.fg), LastBackground(items, s.bg);
      if |tail| == 1 then o == Outcome(s.(fg := f, bg := b), Sequence(ps, 'm'), Some(MissingColor))
      else
        && o.pending == "" && o.failure == None
        && o.screen == s.(fg := if tail != [] && tail[0] == 38 then Extended(tail[1..]) else f,
                          bg := if tail != [] && tail[0] == 48 then Extended(tail[1..]) else b)
  {
    CommandIsFed(g, s, ps, 'm');
    FinalColors(s, Values(ps));
    if tail == [] {
      assert AllCodes(items) + tail == AllCodes(items);
      ItemsColor(items, s.fg, s.bg);
    } else {
      CutColors(items, tail, s.fg, s.bg);
    }
  }

  // ------------------------------------------------------------- what is passed over

  predicate IsPrivate(source: string) { source != "" && source[0] in ['?', '>', '<', '='] }

  predicate ConcernsNothing(final: char) { final in ['h', 'l', 'u', 'n', 'c', 't', 'q'] }

  // Private sequences and those that do not concern the screen are taken without
  // effect.
  lemma UnconcernedSequence(g: Glyphs, s: Screen, source: string, final: char)
    requires s.Valid() && IsFinal(final) && forall c <- source :: IsParameter(c)
    requires IsPrivate(source) || ConcernsNothing(final)
    ensures Consume(g, s, [ESC, '['] + source + [final]) == Outcome(s, "", None)
  {
    SequenceIsFed(g, s, source, final);
  }

  // Of the others, parameters that are not numbers are refused, and then all finals
  // but the known ones; what is refused stays pending.
  lemma RefusedSequence(g: Glyphs, s: Screen, source: string, final: char)
    requires s.Valid() && IsFinal(final) && forall c <- source :: IsParameter(c)
    requires !IsPrivate(source) && !ConcernsNothing(final)
    ensures var p := [ESC, '['] + source + [final];
      var known := 'A' <= final <= 'H' || final in ['d', 'f', 'J', 'K', 'X', 'm'];
      if !Plain(source) then Consume(g, s, p) == Outcome(s, p, Some(MalformedParameter))
      else if !known then Consume(g, s, p) == Outcome(s, p, Some(UnsupportedCsi))
      else Consume(g, s, p).failure in {None, Some(MissingColor)}
  {
    SequenceIsFed(g, s, source, final);
    ParametersExactly(source);
    if Plain(source) { FinalFails(s, final, Parameters(source).value); }
  }

  lemma FinalFails(s: Screen, final: char, values: seq<nat>)
    requires s.Valid() && |values| >= 1
    ensures if 'A' <= final <= 'H' || final in ['d', 'f', 'J', 'K', 'X', 'm']
      then ApplyFinal(s, final, values).failure in {None, Some(MissingColor)}
      else ApplyFinal(s, final, values) == Effect(s, Some(UnsupportedCsi))
  {
  }

  // An operating system command is passed over up to the first BEL or ESC \.
  lemma SystemCommand(g: Glyphs, s: Screen, body: string, end: string)
    requires s.Valid() && BEL !in body && (end == [BEL] || end == [ESC, '\\'])
    requires forall i :: 0 <= i < |body| - 1 ==> !(body[i] == ESC && body[i + 1] == '\\')
    ensures Consume(g, s, [ESC, ']'] + body + end) == Outcome(s, "", None)
  {
    var p := [ESC, ']'] + body + end;
    var n := 2 + |body|;
    assert forall i :: 2 <= i < n ==> p[i] == body[i - 2];
    assert p[n] == end[0];
    forall i | 2 <= i < n ensures !EndsString(p, i) {
      assert p[i] in body;
      if i + 1 < n { assert p[i + 1] == body[i - 1]; }
    }
    TerminatorIs(p, 2, n);
    assert p[|p|..] == "";
  }

  lemma {:induction false} TerminatorIs(p: string, start: nat, at: nat)
    requires start <= at < |p| && EndsString(p, at) && forall i :: start <= i < at ==> !EndsString(p, i)
    ensures Terminator(p, start) == at
    decreases at - start
  {
    if start < at { TerminatorIs(p, start + 1, at); }
  }

  // A character set is chosen without effect; any other escape is refused.
  lemma OtherEscape(g: Glyphs, s: Screen, c: char, rest: string)
    requires s.Valid() && c != '[' && c != ']'
    ensures var p := [ESC, c] + rest;
      Consume(g, s, p)
        == if c != '(' && c != ')' then Outcome(s, p, Some(UnsupportedEscape))
           else if rest == "" then Outcome(s, p, None)
           else Consume(g, s, rest[1..])
  {
    var p := [ESC, c] + rest;
    if rest != "" { assert p[3..] == rest[1..]; }
  }
}
