/**
  The terminal screen of the snapshot renderer (scripts/render-terminal-snapshot.py:63-190).
  Character widths come from the Unicode tables and are the parameter `width`:
  none for an unsupported category, zero for a combining mark, one, or two.
*/
module Screen {
  import opened Wrappers
  import opened Text

  const MAX_COLUMNS: nat := 160
  const MAX_ROWS: nat := 60

  datatype SnapshotError =
    | BadGeometry
    | OutsideTerminal
    | UnsupportedGraphics(parameter: int)
    | UnsupportedCharacter
    | GlyphTooWide
    | BadEscape
    | SequenceTooLong
    | Truncated
    | BadPosition
    | UnsupportedFinal
    | BadParameter
    | NotUtf8
    | UnsupportedControl
    | TranscriptTooLong

  datatype Style = Style(foreground: Option<int>, background: Option<int>, bold: bool, dim: bool, reverse: bool)

  const PLAIN := Style(None, None, false, false, false)

  datatype Cell = Cell(text: string, style: Style, continuation: bool)

  const EMPTY := Cell(" ", PLAIN, false)

  datatype State = State(
    columns: nat,
    rows: nat,
    lines: seq<seq<Cell>>,
    row: nat,
    column: nat,
    pendingWrap: bool,
    style: Style
  )

  /** Styles the palettes can render. */
  predicate Renderable(style: Style) {
    && style.foreground in {None, Some(30), Some(31), Some(32), Some(33), Some(35), Some(36)}
    && style.background in {None, Some(43)}
    && !(style.bold && style.dim)
  }

  predicate GoodLine(line: seq<Cell>, columns: nat) {
    |line| == columns && forall k :: 0 <= k < columns ==> Renderable(line[k].style)
  }

  /** A grid of exactly rows by columns, the cursor inside it, and a pending wrap only in the last column. */
  predicate Valid(s: State) {
    && 1 <= s.columns <= MAX_COLUMNS && 1 <= s.rows <= MAX_ROWS
    && |s.lines| == s.rows && (forall r :: 0 <= r < s.rows ==> GoodLine(s.lines[r], s.columns))
    && s.row < s.rows && s.column < s.columns
    && (s.pendingWrap ==> s.column == s.columns - 1)
    && Renderable(s.style)
  }

  function Blank(columns: nat): (r: seq<Cell>)
    ensures GoodLine(r, columns)
  {
    seq(columns, _ => EMPTY)
  }

  // ----- what each operation does -----

  function LineFeed(s: State): (r: State)
    requires Valid(s)
    ensures Valid(r) && !r.pendingWrap && r.column == s.column
  {
    if s.row + 1 < s.rows then s.(row := s.row + 1, pendingWrap := false)
    else s.(lines := s.lines[1..] + [Blank(s.columns)], pendingWrap := false)
  }

  function CarriageReturn(s: State): (r: State)
    requires Valid(s)
    ensures Valid(r)
  {
    s.(column := 0, pendingWrap := false)
  }

  function Backspace(s: State): (r: State)
    requires Valid(s)
    ensures Valid(r)
  {
    s.(column := SaturatingSub(s.column, 1), pendingWrap := false)
  }

  function CursorUp(s: State, count: nat): (r: State)
    requires Valid(s)
    ensures Valid(r)
  {
    s.(row := SaturatingSub(s.row, count), pendingWrap := false)
  }

  function EraseLine(s: State): (r: State)
    requires Valid(s)
    ensures Valid(r)
  {
    s.(lines := s.lines[s.row := Blank(s.columns)], pendingWrap := false)
  }

  function MoveCursor(s: State, row: int, column: int): (r: Result<State, SnapshotError>)
    requires Valid(s)
    ensures r.Ok? ==> Valid(r.value)
  {
    if 0 <= row < s.rows && 0 <= column < s.columns
    then Ok(s.(row := row, column := column, pendingWrap := false)) else Err(OutsideTerminal)
  }

  function Graphics(style: Style, parameters: seq<int>): (r: Result<Style, SnapshotError>)
    requires Renderable(style)
    ensures r.Ok? ==> Renderable(r.value)
    decreases |parameters|
  {
    if parameters == [] then Ok(style) else
    var p, rest := parameters[0], parameters[1..];
    if p == 0 then Graphics(PLAIN, rest)
    else if p == 1 then Graphics(style.(bold := true, dim := false), rest)
    else if p == 2 then Graphics(style.(dim := true, bold := false), rest)
    else if p == 7 then Graphics(style.(reverse := true), rest)
    else if p in {30, 31, 32, 33, 35, 36} then Graphics(style.(foreground := Some(p)), rest)
    else if p == 39 then Graphics(style.(foreground := None), rest)
    else if p == 43 then Graphics(style.(background := Some(43)), rest)
    else if p == 49 then Graphics(style.(background := None), rest)
    else Err(UnsupportedGraphics(p))
  }

  function SetGraphics(s: State, parameters: seq<int>): (r: Result<State, SnapshotError>)
    requires Valid(s)
    ensures r.Ok? ==> Valid(r.value)
  {
    var style := Graphics(s.style, if parameters == [] then [0] else parameters);
    if style.Ok? then Ok(s.(style := style.value)) else Err(style.error)
  }

  function SetCell(s: State, column: nat, cell: Cell): (r: State)
    requires Valid(s) && column < s.columns && Renderable(cell.style)
    ensures Valid(r)
  {
    s.(lines := s.lines[s.row := s.lines[s.row][column := cell]])
  }

  /** A combining mark joins the cell before the cursor. */
  function Mark(s: State, c: char): (r: State)
    requires Valid(s)
    ensures Valid(r)
  {
    var previous := SaturatingSub(s.column, 1);
    var cell := s.lines[s.row][previous];
    SetCell(s, previous, cell.(text := cell.text + [c]))
  }

  function NextLine(s: State): (r: State)
    requires Valid(s)
    ensures Valid(r) && r.column == 0 && !r.pendingWrap
  {
    LineFeed(s.(column := 0, pendingWrap := false))
  }

  /** Write a glyph that fits at the cursor and advance. */
  function Write(s: State, c: char, width: nat): (r: State)
    requires Valid(s) && !s.pendingWrap && 1 <= width <= 2 && s.column + width <= s.columns
    ensures Valid(r)
  {
    var one := SetCell(s, s.column, Cell([c], s.style, false));
    var both := if width == 2 then SetCell(one, s.column + 1, Cell("", s.style, true)) else one;
    var end := s.column + width;
    if end == s.columns then both.(column := s.columns - 1, pendingWrap := true) else both.(column := end)
  }

  function Put(s: State, c: char, width: Option<nat>): (r: Result<State, SnapshotError>)
    requires Valid(s) && (width.Some? ==> width.value <= 2)
    ensures r.Ok? ==> Valid(r.value)
  {
    if width.None? then Err(UnsupportedCharacter)
    else if width.value == 0 then Ok(Mark(s, c))
    else
      var wrapped := if s.pendingWrap then NextLine(s) else s;
      if width.value > s.columns then Err(GlyphTooWide)
      else if wrapped.column + width.value > s.columns then Ok(Write(NextLine(wrapped), c, width.value))
      else Ok(Write(wrapped, c, width.value))
  }

  /** Spaces up to the next multiple of eight, or the last column. */
  function TabStop(s: State): nat
    requires Valid(s)
  {
    Min(s.columns - 1, (s.column / 8 + 1) * 8)
  }

  function Spaces(s: State, target: nat): (r: State)
    requires Valid(s) && target < s.columns
    ensures Valid(r) && r.column == (if s.column < target then target else s.column)
    decreases target - s.column
  {
    if s.column < target then Spaces(Write(s, ' ', 1), target) else s
  }

  /** The tab never wraps or scrolls: it ends at its stop, on the same row. */
  lemma {:induction false} SpacesStayOnRow(s: State, target: nat)
    requires Valid(s) && target < s.columns
    ensures Spaces(s, target).row == s.row && Spaces(s, target).style == s.style
    ensures Spaces(s, target).columns == s.columns && Spaces(s, target).rows == s.rows
    ensures forall r :: 0 <= r < s.rows && r != s.row ==> Spaces(s, target).lines[r] == s.lines[r]
    decreases target - s.column
  {
    if s.column < target {
      SpacesStayOnRow(Write(s, ' ', 1), target);
    }
  }

  // ----- the screen, updated in place -----

  class Terminal {
    const columns: nat
    const rows: nat
    const width: char -> Option<nat>
    var lines: seq<seq<Cell>>
    var row: nat
    var column: nat
    var pendingWrap: bool
    var style: Style

    function Value(): State
      reads this
    {
      State(columns, rows, lines, row, column, pendingWrap, style)
    }

    ghost predicate Good()
      reads this
    {
      Valid(Value()) && GoodWidths(width)
    }

    constructor (columns: nat, rows: nat, width: char -> Option<nat>)
      requires 1 <= columns <= MAX_COLUMNS && 1 <= rows <= MAX_ROWS && GoodWidths(width)
      ensures Good() && Value() == Fresh(columns, rows) && this.width == width
    {
      this.columns, this.rows, this.width := columns, rows, width;
      this.lines := seq(rows, _ => Blank(columns));
      this.row, this.column, this.pendingWrap, this.style := 0, 0, false, PLAIN;
      new;
      assert lines == Fresh(columns, rows).lines;
    }

    method ScrollIfNeeded()
      requires row <= rows && 1 <= rows && |lines| == rows
      modifies this
      ensures row == Min(old(row), rows - 1)
      ensures lines == if old(row) == rows then old(lines)[1..] + [Blank(columns)] else old(lines)
      ensures column == old(column) && pendingWrap == old(pendingWrap) && style == old(style)
    {
      while row >= rows
        invariant row <= rows && |lines| == rows
        invariant row < rows ==> row == Min(old(row), rows - 1)
        invariant row == rows ==> old(row) == rows && lines == old(lines)
        invariant row < rows ==> lines == if old(row) == rows then old(lines)[1..] + [Blank(columns)] else old(lines)
        invariant column == old(column) && pendingWrap == old(pendingWrap) && style == old(style)
        decreases row
      {
        lines := lines[1..];
        lines := lines + [Blank(columns)];
        row := row - 1;
      }
    }

    method Feed()
      requires Good()
      modifies this
      ensures Good() && Value() == LineFeed(old(Value()))
    {
      row := row + 1;
      pendingWrap := false;
      ScrollIfNeeded();
    }

    method Return()
      requires Good()
      modifies this
      ensures Good() && Value() == CarriageReturn(old(Value()))
    {
      column := 0;
      pendingWrap := false;
    }

    method Back()
      requires Good()
      modifies this
      ensures Good() && Value() == Backspace(old(Value()))
    {
      column := SaturatingSub(column, 1);
      pendingWrap := false;
    }

    method Up(count: nat)
      requires Good()
      modifies this
      ensures Good() && Value() == CursorUp(old(Value()), count)
    {
      row := SaturatingSub(row, count);
      pendingWrap := false;
    }

    method Erase()
      requires Good()
      modifies this
      ensures Good() && Value() == EraseLine(old(Value()))
    {
      lines := lines[row := Blank(columns)];
      pendingWrap := false;
    }

    method Move(toRow: int, toColumn: int) returns (r: Result<(), SnapshotError>)
      requires Good()
      modifies this
      ensures Good()
      ensures var next := MoveCursor(old(Value()), toRow, toColumn);
        if next.Ok? then r.Ok? && Value() == next.value else r == Err(next.error) && Value() == old(Value())
    {
      if !(0 <= toRow < rows && 0 <= toColumn < columns) {
        return Err(OutsideTerminal);
      }
      row, column, pendingWrap := toRow, toColumn, false;
      r := Ok(());
    }

    method SelectGraphics(parameters: seq<int>) returns (r: Result<(), SnapshotError>)
      requires Good()
      modifies this`style
      ensures Good()
      ensures var next := SetGraphics(old(Value()), parameters);
        if next.Ok? then r.Ok? && Value() == next.value else r == Err(next.error) && Value() == old(Value())
    {
      var all := if parameters == [] then [0] else parameters;
      var chosen := style;
      for i := 0 to |all|
        invariant Renderable(chosen) && Graphics(chosen, all[i..]) == Graphics(style, all)
      {
        var p := all[i];
        assert all[i..][0] == p && all[i..][1..] == all[i + 1..];
        if p == 0 {
          chosen := PLAIN;
        } else if p == 1 {
          chosen := chosen.(bold := true, dim := false);
        } else if p == 2 {
          chosen := chosen.(dim := true, bold := false);
        } else if p == 7 {
          chosen := chosen.(reverse := true);
        } else if p in {30, 31, 32, 33, 35, 36} {
          chosen := chosen.(foreground := Some(p));
        } else if p == 39 {
          chosen := chosen.(foreground := None);
        } else if p == 43 {
          chosen := chosen.(background := Some(43));
        } else if p == 49 {
          chosen := chosen.(background := None);
        } else {
          return Err(UnsupportedGraphics(p));
        }
      }
      style := chosen;
      r := Ok(());
    }

    /** Fill the cells of a glyph that fits and advance, or wait in the last column. */
    method WriteGlyph(c: char, glyph: nat)
      requires Good() && !pendingWrap && 1 <= glyph <= 2 && column + glyph <= columns
      modifies this
      ensures Good() && Value() == Write(old(Value()), c, glyph)
    {
      lines := lines[row := lines[row][column := Cell([c], style, false)]];
      if glyph == 2 {
        lines := lines[row := lines[row][column + 1 := Cell("", style, true)]];
      }
      var end := column + glyph;
      if end == columns {
        column := columns - 1;
        pendingWrap := true;
      } else {
        column := end;
      }
    }

    method PutCharacter(c: char) returns (r: Result<(), SnapshotError>)
      requires Good()
      modifies this
      ensures Good()
      ensures var next := Put(old(Value()), c, width(c));
        if next.Ok? then r.Ok? && Value() == next.value else r == Err(next.error)
    {
      hide Write, LineFeed;
      var glyph := width(c);
      if glyph.None? {
        return Err(UnsupportedCharacter);
      }
      if glyph.value == 0 {
        var previous := SaturatingSub(column, 1);
        var cell := lines[row][previous];
        lines := lines[row := lines[row][previous := cell.(text := cell.text + [c])]];
        return Ok(());
      }
      if pendingWrap {
        column := 0;
        pendingWrap := false;
        Feed();
      }
      if glyph.value > columns {
        return Err(GlyphTooWide);
      }
      if column + glyph.value > columns {
        column := 0;
        Feed();
      }
      WriteGlyph(c, glyph.value);
      r := Ok(());
    }

    method Tab()
      requires Good() && width(' ') == Some(1)
      modifies this
      ensures Good() && Value() == Spaces(old(Value()), TabStop(old(Value())))
    {
      ghost var start := Value();
      var target := Min(columns - 1, (column / 8 + 1) * 8);
      while column < target
        invariant Good() && target < columns
        invariant Spaces(Value(), target) == Spaces(start, target)
        decreases target - column
      {
        var written := PutCharacter(' ');
        assert written.Ok?;
      }
    }
  }

  predicate GoodWidths(width: char -> Option<nat>) {
    forall c :: width(c).Some? ==> width(c).value <= 2
  }

  function Fresh(columns: nat, rows: nat): (r: State)
    requires 1 <= columns <= MAX_COLUMNS && 1 <= rows <= MAX_ROWS
    ensures Valid(r)
  {
    State(columns, rows, seq(rows, _ => Blank(columns)), 0, 0, false, PLAIN)
  }

  // ----- where a combining mark lands -----

  /** The column a glyph is written to, after the wrap a full line or its width forces. */
  function GlyphStart(s: State, width: nat): nat
    requires Valid(s)
  {
    if s.pendingWrap || s.column + width > s.columns then 0 else s.column
  }

  predicate MarkJoins(s: State, width: nat)
    requires Valid(s)
  {
    if width == 1 then GlyphStart(s, 1) + 1 < s.columns || s.columns == 1 else GlyphStart(s, width) + width == s.columns
  }

  lemma MarkAfterWrite(s: State, c: char, width: nat, mark: char)
    requires Valid(s) && !s.pendingWrap && 1 <= width <= 2 && s.column + width <= s.columns
    ensures var written := Write(s, c, width);
      && written.row == s.row && written.columns == s.columns
      && (Mark(written, mark).lines[s.row][s.column].text == [c] + [mark] <==>
          (if width == 1 then s.column + 1 < s.columns || s.columns == 1 else s.column + 2 == s.columns))
  {
  }

  /**
    A mark put right after a glyph, wrapped to a new line or not, joins that glyph's own
    cell exactly when the glyph is narrow and leaves room behind it, is wide and reaches
    the edge, or is the only column.
  */
  lemma MarkJoinsGlyphIff(s: State, c: char, width: nat, mark: char)
    requires Valid(s) && 1 <= width <= 2 && width <= s.columns
    ensures var put := Put(s, c, Some(width));
      && put.Ok? && put.value.columns == s.columns && Put(put.value, mark, Some(0)).Ok?
      && (Put(put.value, mark, Some(0)).value.lines[put.value.row][GlyphStart(s, width)].text == [c] + [mark]
          <==> MarkJoins(s, width))
  {
    var wrapped := if s.pendingWrap then NextLine(s) else s;
    var placed := if wrapped.column + width > s.columns then NextLine(wrapped) else wrapped;
    assert placed.columns == s.columns && placed.column == GlyphStart(s, width) && !placed.pendingWrap by {
      assert NextLine(s).columns == s.columns && NextLine(wrapped).columns == s.columns;
    }
    hide Write, Mark, NextLine;
    MarkAfterWrite(placed, c, width, mark);
  }

  /** A combining mark after a narrow glyph in the last column changes the cell before it instead. */
  lemma MarkAfterFullLine(s: State, c: char, mark: char)
    requires Valid(s) && !s.pendingWrap && s.columns > 1 && s.column == s.columns - 1
    ensures var marked := Mark(Write(s, c, 1), mark);
      && marked.lines[s.row][s.columns - 1].text == [c]
      && marked.lines[s.row][s.columns - 2].text == s.lines[s.row][s.columns - 2].text + [mark]
  {
  }
}
