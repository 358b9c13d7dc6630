/**
 The terminal screen as a value: what one token of terminal output means, how
 tokens are cut from a stream of decoded code points, and what feeding text
 does. The in-place emulator in `TerminalScreen` is proved against this module.
 */
module TerminalModel {
  import opened Wrappers
  import opened Texts

  // A colour is the terminal default, one SGR number, or the parameters that
  // follow 38/48.
  datatype Color = Default | Indexed(code: nat) | Extended(parts: seq<nat>)

  datatype Cell = Cell(text: string, fg: Color, bg: Color)

  // The Unicode tables the emulator consults, left uninterpreted.
  datatype Glyphs = Glyphs(combining: char -> bool, wide: char -> bool)

  datatype Screen = Screen(rows: nat, cols: nat, cells: seq<seq<Cell>>,
                           x: nat, y: nat, fg: Color, bg: Color)
  {
    // A wide character in the last column leaves x at cols + 1.
    predicate Valid() {
      && 1 <= rows && 1 <= cols
      && |cells| == rows
      && (forall r :: 0 <= r < rows ==> |cells[r]| == cols)
      && y < rows
      && x <= cols + 1
    }

    function Blank(): Cell { Cell(" ", fg, bg) }
  }

  datatype Failure =
    | UnsupportedEscape
    | UnsupportedCsi
    | MalformedParameter
    | MissingColor
    | MarkPastRow

  // The screen after a command, and the error it raised, if any. A command that
  // raises part way keeps what it had already changed.
  datatype Effect = Effect(screen: Screen, failure: Option<Failure>)

  datatype Token =
    | Character(code: char)
    | Csi(source: string, intermediate: string, final: char)
    | Ignored

  const ESC: char := '\U{1B}'
  const BEL: char := '\U{07}'
  const DEL: char := '\U{7F}'
  const BACKSPACE: char := '\U{08}'

  function Min(a: int, b: int): int { if a <= b then a else b }

  function Max(a: int, b: int): int { if a <= b then b else a }

  // ---------------------------------------------------------------- parameters

  // The empty parameter is 0.
  function Parameters(source: string): (values: Option<seq<nat>>)
    ensures values.Some? ==> |values.value| >= 1
  {
    var parts := Split(source, ';');
    if forall i :: 0 <= i < |parts| ==> AllDigits(parts[i])
    then Some(seq(|parts|, i requires 0 <= i < |parts| => Digits(parts[i])))
    else None
  }

  // ------------------------------------------------------------------- erasing

  datatype Region = Display(mode: nat) | Line(mode: nat) | Characters(count: nat)

  // The cells an erase command names: from the cursor (0), up to it (1) or
  // all of the display or line (2; 3 too for the display), or `count` cells of
  // the line. An unknown mode erases nothing of the display and the rest of
  // the line.
  predicate Names(s: Screen, region: Region, r: nat, c: nat) {
    match region
    case Display(mode) =>
      || mode == 2 || mode == 3
      || (mode == 0 && (r > s.y || (r == s.y && c >= s.x)))
      || (mode == 1 && (r < s.y || (r == s.y && c <= s.x)))
    case Line(mode) =>
      r == s.y && (if mode == 1 then c <= s.x else mode == 2 || s.x <= c)
    case Characters(count) =>
      r == s.y && s.x <= c < s.x + count
  }

  function EraseCell(s: Screen, region: Region, r: nat, c: nat): Cell
    requires s.Valid() && r < s.rows && c < s.cols
  {
    if Names(s, region, r, c) then s.Blank() else s.cells[r][c]
  }

  // Overwrite exactly the named cells with blanks in the current colours.
  function Erase(s: Screen, region: Region): (t: Screen)
    requires s.Valid()
    ensures t.Valid() && t.rows == s.rows && t.cols == s.cols
  {
    s.(cells := seq(s.rows, r requires 0 <= r < s.rows =>
      seq(s.cols, c requires 0 <= c < s.cols => EraseCell(s, region, r, c))))
  }

  lemma ErasedCellwise(s: Screen, region: Region, cells: seq<seq<Cell>>)
    requires s.Valid()
    requires |cells| == s.rows
    requires forall r :: 0 <= r < s.rows ==> |cells[r]| == s.cols
    requires forall r, c :: 0 <= r < s.rows && 0 <= c < s.cols ==> cells[r][c] == EraseCell(s, region, r, c)
    ensures s.(cells := cells) == Erase(s, region)
  {
    var t := Erase(s, region);
    forall r | 0 <= r < s.rows ensures cells[r] == t.cells[r] {}
    assert cells == t.cells;
  }

  // ----------------------------------------------------------------------- SGR

  function Colored(fg: Color, bg: Color, value: nat): (Color, Color) {
    if value == 0 then (Default, Default)
    else if value == 39 then (Default, bg)
    else if value == 49 then (fg, Default)
    else if 30 <= value <= 37 || 90 <= value <= 97 then (Indexed(value), bg)
    else if 40 <= value <= 47 || 100 <= value <= 107 then (fg, Indexed(value))
    else (fg, bg)
  }

  function ExtendedLength(selector: nat): nat { if selector == 5 then 2 else 4 }

  datatype Colors = Colors(fg: Color, bg: Color, complete: bool)

  // Interpret an SGR list. A 38 or 48 with nothing after it raises, and keeps
  // the colours set before it.
  function Sgr(values: seq<nat>, fg: Color, bg: Color): Colors
    decreases |values|
  {
    if values == [] then Colors(fg, bg, true)
    else if values[0] == 38 || values[0] == 48 then
      if |values| == 1 then Colors(fg, bg, false)
      else
        var size := ExtendedLength(values[1]);
        var end := Min(size + 1, |values|);
        var color := Extended(values[1..end]);
        if values[0] == 38 then Sgr(values[end..], color, bg) else Sgr(values[end..], fg, color)
    else
      var (fg', bg') := Colored(fg, bg, values[0]);
      Sgr(values[1..], fg', bg')
  }

  // ------------------------------------------------------- meaning of one token

  predicate PrivateMark(c: char) { c == '?' || c == '>' || c == '<' || c == '=' }

  predicate IgnoredFinal(c: char) {
    c == 'h' || c == 'l' || c == 'u' || c == 'n' || c == 'c' || c == 't' || c == 'q'
  }

  predicate MovesCursor(c: char) { 'A' <= c <= 'H' || c == 'd' || c == 'f' }

  // Where a cursor command leaves the cursor, inside the grid; `first` is the
  // first parameter, or 1 when that is 0 or missing.
  function Moved(s: Screen, final: char, first: nat, values: seq<nat>): (t: Screen)
    requires s.Valid() && MovesCursor(final) && first >= 1 && |values| >= 1
    ensures t.Valid() && t.cells == s.cells && t.rows == s.rows && t.cols == s.cols
    ensures t.x <= s.x || t.x < s.cols
  {
    match final
    case 'G' => s.(x := Min(s.cols - 1, first - 1))
    case 'd' => s.(y := Min(s.rows - 1, first - 1))
    case 'A' => s.(y := Max(0, s.y - first))
    case 'B' => s.(y := Min(s.rows - 1, s.y + first))
    case 'C' => s.(x := Min(s.cols - 1, s.x + first))
    case 'D' => s.(x := Max(0, s.x - first))
    case 'E' => s.(y := Min(s.rows - 1, s.y + first), x := 0)
    case 'F' => s.(y := Max(0, s.y - first), x := 0)
    case _ =>
      s.(y := Min(s.rows - 1, first - 1),
         x := Min(s.cols - 1, (if |values| > 1 && values[1] != 0 then values[1] else 1) - 1))
  }

  function ApplyCsi(s: Screen, source: string, final: char): (e: Effect)
    requires s.Valid()
    ensures e.screen.Valid() && e.screen.rows == s.rows && e.screen.cols == s.cols
    ensures e.screen.x <= s.x || e.screen.x < s.cols
    ensures e.failure != Some(MarkPastRow)
  {
    if (source != "" && PrivateMark(source[0])) || IgnoredFinal(final) then Effect(s, None)
    else
      match Parameters(source)
      case None => Effect(s, Some(MalformedParameter))
      case Some(values) => ApplyFinal(s, final, values)
  }

  function ApplyFinal(s: Screen, final: char, values: seq<nat>): (e: Effect)
    requires s.Valid() && |values| >= 1
    ensures e.screen.Valid() && e.screen.rows == s.rows && e.screen.cols == s.cols
    ensures e.screen.x <= s.x || e.screen.x < s.cols
    ensures e.failure != Some(MarkPastRow)
  {
    var first := if values[0] == 0 then 1 else values[0];
    if MovesCursor(final) then Effect(Moved(s, final, first, values), None)
    else if final == 'J' then Effect(Erase(s, Display(values[0])), None)
    else if final == 'K' then Effect(Erase(s, Line(values[0])), None)
    else if final == 'X' then Effect(Erase(s, Characters(first)), None)
    else if final == 'm' then
      var colors := Sgr(values, s.fg, s.bg);
      Effect(s.(fg := colors.fg, bg := colors.bg), if colors.complete then None else Some(MissingColor))
    else Effect(s, Some(UnsupportedCsi))
  }

  function Put(s: Screen, r: nat, c: nat, cell: Cell): (t: Screen)
    requires s.Valid() && r < s.rows && c < s.cols
    ensures t.Valid()
  {
    s.(cells := s.cells[r := s.cells[r][c := cell]])
  }

  // A printable character goes to the cursor, after wrapping when the cursor is
  // past the row; a wide one also blanks the cell to its right, if there is one.
  function Print(g: Glyphs, s: Screen, c: char): (t: Screen)
    requires s.Valid()
    ensures t.Valid() && t.rows == s.rows && t.cols == s.cols
  {
    var at := if s.x >= s.cols then s.(x := 0, y := Min(s.rows - 1, s.y + 1)) else s;
    var one := Put(at, at.y, at.x, Cell([c], s.fg, s.bg));
    if g.wide(c) then
      (if at.x + 1 < at.cols then Put(one, at.y, at.x + 1, Cell("", s.fg, s.bg)) else one).(x := at.x + 2)
    else one.(x := at.x + 1)
  }

  function ApplyCharacter(g: Glyphs, s: Screen, c: char): (e: Effect)
    requires s.Valid()
    ensures e.screen.Valid() && e.screen.rows == s.rows && e.screen.cols == s.cols
  {
    if c == '\r' then Effect(s.(x := 0), None)
    else if c == '\n' then Effect(s.(y := Min(s.rows - 1, s.y + 1)), None)
    else if c == BACKSPACE then Effect(s.(x := Max(0, s.x - 1)), None)
    else if c < ' ' || c == DEL then Effect(s, None)
    else if g.combining(c) then
      if s.x == 0 then Effect(s, None)
      else if s.x > s.cols then Effect(s, Some(MarkPastRow))
      else
        var under := s.cells[s.y][s.x - 1];
        Effect(Put(s, s.y, s.x - 1, under.(text := under.text + [c])), None)
    else Effect(Print(g, s, c), None)
  }

  function Apply(g: Glyphs, s: Screen, token: Token): (e: Effect)
    requires s.Valid()
    ensures e.screen.Valid()
    ensures e.screen.rows == s.rows && e.screen.cols == s.cols
  {
    match token
    case Character(c) => ApplyCharacter(g, s, c)
    case Csi(source, _, final) => ApplyCsi(s, source, final)
    case Ignored => Effect(s, None)
  }

  // ----------------------------------------------------------------- tokenizing

  predicate IsParameter(c: char) { '0' <= c <= '?' }

  predicate IsIntermediate(c: char) { ' ' <= c <= '/' }

  predicate IsFinal(c: char) { '@' <= c <= '~' }

  // The end of the longest run of characters satisfying `class_` from `start`.
  function RunEnd(s: string, start: nat, class_: char -> bool): (end: nat)
    requires start <= |s|
    ensures start <= end <= |s|
    ensures forall i :: start <= i < end ==> class_(s[i])
    ensures end < |s| ==> !class_(s[end])
    decreases |s| - start
  {
    if start < |s| && class_(s[start]) then RunEnd(s, start + 1, class_) else start
  }

  predicate EndsString(s: string, i: nat) {
    i < |s| && (s[i] == BEL || (s[i] == ESC && i + 1 < |s| && s[i + 1] == '\\'))
  }

  // The first string terminator at or after `start`, or |s|.
  function Terminator(s: string, start: nat): (at: nat)
    requires start <= |s|
    ensures start <= at <= |s|
    ensures forall i :: start <= i < at ==> !EndsString(s, i)
    ensures at < |s| ==> EndsString(s, at)
    decreases |s| - start
  {
    if start == |s| || EndsString(s, start) then start else Terminator(s, start + 1)
  }

  datatype Lexed = Incomplete | Unsupported | Lexeme(token: Token, length: nat)

  // The first token of nonempty pending text.
  function Lex(p: string): (l: Lexed)
    requires p != ""
    ensures l.Lexeme? ==> 1 <= l.length <= |p|
  {
    if p[0] != ESC then Lexeme(Character(p[0]), 1)
    else if |p| < 2 then Incomplete
    else if p[1] == '[' then
      var i := RunEnd(p, 2, IsParameter);
      var j := RunEnd(p, i, IsIntermediate);
      if j < |p| && IsFinal(p[j]) then Lexeme(Csi(p[2..i], p[i..j], p[j]), j + 1) else Incomplete
    else if p[1] == ']' then
      var at := Terminator(p, 2);
      if at == |p| then Incomplete else Lexeme(Ignored, if p[at] == BEL then at + 1 else at + 2)
    else if p[1] == '(' || p[1] == ')' then
      if |p| < 3 then Incomplete else Lexeme(Ignored, 3)
    else Unsupported
  }

  // ------------------------------------------------------------------- feeding

  // What feeding leaves: the screen, the text still pending, and the error.
  datatype Outcome = Outcome(screen: Screen, pending: string, failure: Option<Failure>)

  // Take tokens from the front of the pending text until it is empty,
  // incomplete, or raises. An escape that raises stays pending; a character is
  // taken before it is interpreted.
  function Consume(g: Glyphs, s: Screen, pending: string): (o: Outcome)
    requires s.Valid()
    ensures o.screen.Valid()
    decreases |pending|
  {
    if pending == "" then Outcome(s, pending, None)
    else
      match Lex(pending)
      case Incomplete => Outcome(s, pending, None)
      case Unsupported => Outcome(s, pending, Some(UnsupportedEscape))
      case Lexeme(token, n) =>
        var e := Apply(g, s, token);
        if e.failure.None? then Consume(g, e.screen, pending[n..])
        else Outcome(e.screen, if token.Character? then pending[n..] else pending, e.failure)
  }
}
