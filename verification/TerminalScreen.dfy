/**
 The emulator itself: a grid, a cursor, the current colours and the pending
 text, updated in place. Every method's new state is the one `TerminalModel`
 gives for the old state.
 */
module TerminalScreen {
  import opened Wrappers
  import opened TerminalModel

  class Terminal {
    const glyphs: Glyphs
    var rows: nat
    var cols: nat
    var cells: seq<seq<Cell>>
    var x: nat
    var y: nat
    var fg: Color
    var bg: Color
    var pending: string

    function State(): Screen
      reads this
    {
      Screen(rows, cols, cells, x, y, fg, bg)
    }

    predicate Valid()
      reads this
    {
      State().Valid()
    }

    constructor (glyphs: Glyphs, rows: nat, cols: nat)
      requires rows >= 1 && cols >= 1
      ensures Valid()
      ensures this.glyphs == glyphs && pending == ""
      ensures State() == Cleared(rows, cols, Default, Default)
    {
      this.glyphs := glyphs;
      pending := "";
      fg, bg := Default, Default;
      this.rows, this.cols := rows, cols;
      cells := BlankCells(rows, cols);
      x, y := 0, 0;
    }

    // A new size starts from an empty grid; colours and pending text stay.
    method Resize(rows: nat, cols: nat)
      requires rows >= 1 && cols >= 1
      modifies this
      ensures Valid()
      ensures State() == Cleared(rows, cols, old(fg), old(bg))
      ensures pending == old(pending)
    {
      this.rows, this.cols := rows, cols;
      cells := BlankCells(rows, cols);
      x, y := 0, 0;
    }

    // Append decoded text and interpret as much of it as is complete.
    method Feed(data: string) returns (failure: Option<Failure>)
      requires Valid()
      modifies this
      ensures Valid()
      ensures Outcome(State(), pending, failure)
           == Consume(glyphs, old(State()), old(pending) + data)
    {
      pending := pending + data;
      ghost var target := Consume(glyphs, State(), pending);
      while pending != ""
        invariant Valid()
        invariant Consume(glyphs, State(), pending) == target
        decreases |pending|
      {
        ghost var lexed := Lex(pending);
        if pending[0] == ESC {
          if |pending| < 2 {
            return None;
          }
          if pending[1] == '[' {
            var i := RunEnd(pending, 2, IsParameter);
            var j := RunEnd(pending, i, IsIntermediate);
            if j == |pending| || !IsFinal(pending[j]) {
              return None;
            }
            assert lexed == Lexeme(Csi(pending[2..i], pending[i..j], pending[j]), j + 1);
            failure := Command(pending[2..i], pending[i..j], pending[j]);
            if failure.Some? {
              return;
            }
            pending := pending[j + 1..];
          } else if pending[1] == ']' {
            var at := Terminator(pending, 2);
            if at == |pending| {
              return None;
            }
            assert lexed == Lexeme(Ignored, if pending[at] == BEL then at + 1 else at + 2);
            pending := pending[if pending[at] == BEL then at + 1 else at + 2..];
          } else if pending[1] == '(' || pending[1] == ')' {
            if |pending| < 3 {
              return None;
            }
            assert lexed == Lexeme(Ignored, 3);
            pending := pending[3..];
          } else {
            return Some(UnsupportedEscape);
          }
        } else {
          var c := pending[0];
          assert lexed == Lexeme(Character(c), 1);
          pending := pending[1..];
          failure := Receive(c);
          if failure.Some? {
            return;
          }
        }
      }
      failure := None;
    }

    method Receive(c: char) returns (failure: Option<Failure>)
      requires Valid()
      modifies `x, `y, `cells
      ensures Valid()
      ensures Effect(State(), failure) == ApplyCharacter(glyphs, old(State()), c)
    {
      failure := None;
      if c == '\r' {
        x := 0;
      } else if c == '\n' {
        y := Min(rows - 1, y + 1);
      } else if c == BACKSPACE {
        x := Max(0, x - 1);
      } else if c >= ' ' && c != DEL {
        if glyphs.combining(c) {
          if x != 0 {
            if x > cols {
              return Some(MarkPastRow);
            }
            var under := cells[y][x - 1];
            cells := cells[y := cells[y][x - 1 := under.(text := under.text + [c])]];
          }
          return;
        }
        var width := if glyphs.wide(c) then 2 else 1;
        if x >= cols {
          x := 0;
          y := Min(rows - 1, y + 1);
        }
        cells := cells[y := cells[y][x := Cell([c], fg, bg)]];
        if width == 2 && x + 1 < cols {
          cells := cells[y := cells[y][x + 1 := Cell("", fg, bg)]];
        }
        x := x + width;
      }
    }

    method Command(source: string, intermediate: string, final: char) returns (failure: Option<Failure>)
      requires Valid()
      modifies `x, `y, `cells, `fg, `bg
      ensures Valid()
      ensures Effect(State(), failure) == ApplyCsi(old(State()), source, final)
    {
      failure := None;
      var private_ := source != "" && PrivateMark(source[0]);
      if private_ || IgnoredFinal(final) {
        return;
      }
      var parsed := Parameters(source);
      if parsed.None? {
        return Some(MalformedParameter);
      }
      var values := parsed.value;
      var first := if values[0] == 0 then 1 else values[0];
      if MovesCursor(final) {
        MoveCursor(final, first, values);
      } else if final == 'J' {
        EraseDisplay(values[0]);
      } else if final == 'K' || final == 'X' {
        EraseInLine(final, values[0], first);
      } else if final == 'm' {
        failure := SetColors(values);
      } else {
        failure := Some(UnsupportedCsi);
      }
    }

    method MoveCursor(final: char, first: nat, values: seq<nat>)
      requires Valid() && MovesCursor(final) && first >= 1 && |values| >= 1
      modifies `x, `y
      ensures Valid()
      ensures State() == Moved(old(State()), final, first, values)
    {
      if final == 'H' || final == 'f' {
        y := Min(rows - 1, first - 1);
        x := Min(cols - 1, (if |values| > 1 && values[1] != 0 then values[1] else 1) - 1);
      } else if final == 'G' {
        x := Min(cols - 1, first - 1);
      } else if final == 'd' {
        y := Min(rows - 1, first - 1);
      } else if final == 'A' {
        y := Max(0, y - first);
      } else if final == 'B' {
        y := Min(rows - 1, y + first);
      } else if final == 'C' {
        x := Min(cols - 1, x + first);
      } else if final == 'D' {
        x := Max(0, x - first);
      } else if final == 'E' {
        y, x := Min(rows - 1, y + first), 0;
      } else if final == 'F' {
        y, x := Max(0, y - first), 0;
      }
    }

    method EraseDisplay(mode: nat)
      requires Valid()
      modifies `cells
      ensures Valid()
      ensures State() == Erase(old(State()), Display(mode))
    {
      ghost var s := State();
      for row := 0 to rows
        invariant |cells| == rows
        invariant forall r :: 0 <= r < rows ==> |cells[r]| == cols
        invariant forall r, c :: 0 <= r < row && 0 <= c < cols ==>
          cells[r][c] == EraseCell(s, Display(mode), r, c)
        invariant forall r :: row <= r < rows ==> cells[r] == s.cells[r]
      {
        ghost var started := cells;
        for column := 0 to cols
          invariant |cells| == rows
          invariant forall r :: 0 <= r < rows && r != row ==> cells[r] == started[r]
          invariant |cells[row]| == cols
          invariant forall c :: 0 <= c < column ==>
            cells[row][c] == EraseCell(s, Display(mode), row, c)
          invariant forall c :: column <= c < cols ==> cells[row][c] == s.cells[row][c]
        {
          if || mode == 2 || mode == 3
             || (mode == 0 && (row > y || (row == y && column >= x)))
             || (mode == 1 && (row < y || (row == y && column <= x)))
          {
            cells := cells[row := cells[row][column := Cell(" ", fg, bg)]];
          }
        }
      }
      ErasedCellwise(s, Display(mode), cells);
    }

    method EraseInLine(final: char, mode: nat, count: nat)
      requires Valid() && (final == 'K' || final == 'X')
      modifies `cells
      ensures Valid()
      ensures State() == Erase(old(State()), if final == 'K' then Line(mode) else Characters(count))
    {
      var start := if final == 'K' && (mode == 1 || mode == 2) then 0 else x;
      var end := if final == 'X' then x + count else if mode == 1 then x + 1 else cols;
      var column := start;
      while column < Min(end, cols)
        invariant start <= column && (column == start || column <= Min(end, cols))
        invariant |cells| == rows && |cells[y]| == cols
        invariant forall r :: 0 <= r < rows && r != y ==> cells[r] == old(cells)[r]
        invariant forall c :: 0 <= c < cols ==>
          cells[y][c] == if start <= c < column then Cell(" ", fg, bg) else old(cells)[y][c]
      {
        cells := cells[y := cells[y][column := Cell(" ", fg, bg)]];
        column := column + 1;
      }
      ErasedCellwise(old(State()), if final == 'K' then Line(mode) else Characters(count), cells);
    }

    method SetColors(values: seq<nat>) returns (failure: Option<Failure>)
      requires Valid()
      modifies `fg, `bg
      ensures var colors := Sgr(values, old(fg), old(bg));
        && fg == colors.fg && bg == colors.bg
        && failure == if colors.complete then None else Some(MissingColor)
    {
      var index := 0;
      while index < |values|
        invariant Sgr(values[Min(index, |values|)..], fg, bg) == Sgr(values, old(fg), old(bg))
      {
        var value := values[index];
        ghost var rest := values[index..];
        assert rest[1..] == values[index + 1..];
        if value == 38 || value == 48 {
          if index + 1 >= |values| {
            return Some(MissingColor);
          }
          var size := if values[index + 1] == 5 then 2 else 4;
          var end := Min(index + size + 1, |values|);
          var color := Extended(values[index + 1..end]);
          assert rest[1..end - index] == values[index + 1..end] && rest[end - index..] == values[end..];
          if value == 38 { fg := color; } else { bg := color; }
          index := index + size;
        } else {
          fg, bg := Colored(fg, bg, value).0, Colored(fg, bg, value).1;
        }
        index := index + 1;
      }
      failure := None;
    }
  }

  function BlankCells(rows: nat, cols: nat): seq<seq<Cell>> {
    seq(rows, _ => seq(cols, _ => Cell(" ", Default, Default)))
  }

  function Cleared(rows: nat, cols: nat, fg: Color, bg: Color): Screen {
    Screen(rows, cols, BlankCells(rows, cols), 0, 0, fg, bg)
  }
}
