/**
  What plain text looks like on the screen (scripts/render-terminal-snapshot.py:168-190, 250-298):
  the last rows of the text cut at the width, against an interpreter that moves a
  cursor, delays wrapping and scrolls.
*/
module ScreenText {
  import opened Wrappers
  import opened Text
  import opened ByteText
  import opened Screen
  import opened Transcript

  // ----- the layout, independently of any cursor -----

  /** One logical line cut at the width; a line that exactly fills the width is one row. */
  function Wrapped(line: string, columns: nat): (r: seq<string>)
    requires columns > 0
    ensures r != [] && forall i :: 0 <= i < |r| ==> |r[i]| <= columns
    decreases |line|
  {
    if |line| <= columns then [line] else [line[..columns]] + Wrapped(line[columns..], columns)
  }

  function Layout(lines: seq<string>, columns: nat): (r: seq<string>)
    requires columns > 0
    ensures forall i :: 0 <= i < |r| ==> |r[i]| <= columns
    ensures |r| >= |lines|
  {
    if lines == [] then [] else Layout(lines[..|lines| - 1], columns) + Wrapped(lines[|lines| - 1], columns)
  }

  function Padded(text: string, columns: nat): seq<Cell> {
    seq(columns, j requires 0 <= j < columns => if j < |text| then Cell([text[j]], PLAIN, false) else EMPTY)
  }

  /** The last `rows` rows, from the top, with blank rows below when there are fewer. */
  function Shown(all: seq<string>, columns: nat, rows: nat): seq<seq<Cell>> {
    var skip := SaturatingSub(|all|, rows);
    seq(rows, i requires 0 <= i < rows => if skip + i < |all| then Padded(all[skip + i], columns) else Blank(columns))
  }

  /** The screen shows `all`, with the cursor behind its last row or waiting at the edge. */
  predicate Represents(s: State, all: seq<string>) {
    && Valid(s) && all != [] && (forall i :: 0 <= i < |all| ==> |all[i]| <= s.columns)
    && s.lines == Shown(all, s.columns, s.rows)
    && s.row == Min(|all|, s.rows) - 1 && s.style == PLAIN
    && (var last := all[|all| - 1];
       if |last| == s.columns then s.pendingWrap && s.column == s.columns - 1
       else !s.pendingWrap && s.column == |last|)
  }

  /** One more character at the end of the laid-out text. */
  function Grown(all: seq<string>, c: char, columns: nat): seq<string>
    requires all != []
  {
    var last := all[|all| - 1];
    if |last| == columns then all + [[c]] else all[..|all| - 1] + [last + [c]]
  }

  lemma {:induction false} WrappedGrows(line: string, c: char, columns: nat)
    requires columns > 0
    ensures Wrapped(line + [c], columns) == Grown(Wrapped(line, columns), c, columns)
    decreases |line|
  {
    if |line| < columns {
      assert [line][..0] == [];
    } else if |line| == columns {
      assert (line + [c])[..columns] == line && (line + [c])[columns..] == [c];
    } else {
      assert (line + [c])[..columns] == line[..columns];
      assert (line + [c])[columns..] == line[columns..] + [c];
      WrappedGrows(line[columns..], c, columns);
      var rest := Wrapped(line[columns..], columns);
      assert Wrapped(line, columns) == [line[..columns]] + rest;
      GrownAfter([line[..columns]], rest, c, columns);
    }
  }

  lemma GrownAfter(a: seq<string>, b: seq<string>, c: char, columns: nat)
    requires b != []
    ensures Grown(a + b, c, columns) == a + Grown(b, c, columns)
  {
    assert (a + b)[|a + b| - 1] == b[|b| - 1];
    assert (a + b)[..|a + b| - 1] == a + b[..|b| - 1];
  }

  // ----- one operation -----

  lemma ShownScrolls(all: seq<string>, columns: nat, rows: nat, text: string)
    requires rows > 0 && |all| >= rows
    ensures Shown(all + [text], columns, rows) == Shown(all, columns, rows)[1..] + [Padded(text, columns)]
  {
    var a, b := Shown(all + [text], columns, rows), Shown(all, columns, rows)[1..] + [Padded(text, columns)];
    forall i | 0 <= i < rows ensures a[i] == b[i] {
      assert SaturatingSub(|all + [text]|, rows) == |all| - rows + 1;
    }
  }

  lemma ShownGrowsDown(all: seq<string>, columns: nat, rows: nat, text: string)
    requires |all| < rows
    ensures Shown(all + [text], columns, rows) == Shown(all, columns, rows)[|all| := Padded(text, columns)]
  {
    var a, b := Shown(all + [text], columns, rows), Shown(all, columns, rows)[|all| := Padded(text, columns)];
    forall i | 0 <= i < rows ensures a[i] == b[i] {
    }
  }

  lemma ShownLast(all: seq<string>, columns: nat, rows: nat, text: string)
    requires all != [] && rows > 0
    ensures var at := Min(|all|, rows) - 1;
      Shown(all[..|all| - 1] + [text], columns, rows) == Shown(all, columns, rows)[at := Padded(text, columns)]
  {
    var at := Min(|all|, rows) - 1;
    var changed := all[..|all| - 1] + [text];
    var a, b := Shown(changed, columns, rows), Shown(all, columns, rows)[at := Padded(text, columns)];
    forall i | 0 <= i < rows ensures a[i] == b[i] {
    }
  }

  lemma PaddedEmpty(columns: nat)
    ensures Padded("", columns) == Blank(columns)
  {
  }

  /** Line feed in the first column starts an empty row. */
  lemma FreshRow(s: State, all: seq<string>)
    requires Represents(s, all)
    ensures Represents(NextLine(s), all + [""])
    ensures NextLine(s).columns == s.columns && NextLine(s).rows == s.rows
  {
    PaddedEmpty(s.columns);
    if |all| >= s.rows {
      ShownScrolls(all, s.columns, s.rows, "");
    } else {
      ShownGrowsDown(all, s.columns, s.rows, "");
      assert Shown(all, s.columns, s.rows)[|all|] == Blank(s.columns);
    }
  }

  lemma PaddedGrows(text: string, c: char, columns: nat)
    requires |text| < columns
    ensures Padded(text + [c], columns) == Padded(text, columns)[|text| := Cell([c], PLAIN, false)]
  {
  }

  lemma WriteGrows(s: State, all: seq<string>, c: char)
    requires Represents(s, all) && |all[|all| - 1]| < s.columns
    ensures Represents(Write(s, c, 1), Grown(all, c, s.columns))
    ensures Write(s, c, 1).columns == s.columns && Write(s, c, 1).rows == s.rows
  {
    var last := all[|all| - 1];
    ShownLast(all, s.columns, s.rows, last + [c]);
    PaddedGrows(last, c, s.columns);
    assert s.lines[s.row] == Padded(last, s.columns);
    hide Shown, Padded;
    var grown := Grown(all, c, s.columns);
    assert grown == all[..|all| - 1] + [last + [c]];
  }

  /** Writing a narrow character grows the text by it, wrapping only when there is more to write. */
  lemma PutGrows(s: State, all: seq<string>, c: char)
    requires Represents(s, all)
    ensures var next := Put(s, c, Some(1));
      next.Ok? && Represents(next.value, Grown(all, c, s.columns))
      && next.value.columns == s.columns && next.value.rows == s.rows
  {
    var last := all[|all| - 1];
    if |last| == s.columns {
      FreshRow(s, all);
      assert s.columns > 0;
      hide Represents, Shown;
      LastOfExtended(all, NextLine(s));
      WriteGrows(NextLine(s), all + [""], c);
      assert (all + [""])[..|all|] == all && "" + [c] == [c] && s.columns > 0;
      assert Grown(all + [""], c, s.columns) == all + [[c]];
    } else {
      WriteGrows(s, all, c);
    }
  }

  lemma LastOfExtended(all: seq<string>, s: State)
    requires Represents(s, all + [""])
    ensures |(all + [""])[|all|]| < s.columns && !s.pendingWrap && s.column == 0 && Valid(s)
  {
  }

  // ----- whole texts -----

  predicate Narrow(text: string, t: Tables) {
    forall i :: 0 <= i < |text| ==> t.width(text[i]) == Some(1)
  }

  /** A logical line written from the start of a row adds exactly its wrapped rows. */
  lemma {:induction false} LineAppears(s: State, before: seq<string>, done: string, text: string, t: Tables)
    requires s.columns > 0 && Represents(s, before + Wrapped(done, s.columns))
    requires GoodWidths(t.width) && Narrow(text, t)
    ensures var next := PutAll(s, text, t);
      next.Ok? && Represents(next.value, before + Wrapped(done + text, s.columns))
      && next.value.columns == s.columns && next.value.rows == s.rows
    decreases |text|
  {
    if text == "" {
      assert done + text == done;
    } else {
      var c, rest := text[0], text[1..];
      assert done + text == done + [c] + rest;
      WrappedGrows(done, c, s.columns);
      GrownAfter(before, Wrapped(done, s.columns), c, s.columns);
      PutGrows(s, before + Wrapped(done, s.columns), c);
      hide Represents, Wrapped, Grown, Put;
      LineAppears(Put(s, c, Some(1)).value, before, done + [c], rest, t);
    }
  }

  const CRLF: Bytes := [0x0D, 0x0A]

  /** Lines of bytes, each ended by CR LF except the last. */
  function Lined(raw: seq<Bytes>): Bytes {
    if raw == [] then [] else if |raw| == 1 then raw[0]
    else Lined(raw[..|raw| - 1]) + CRLF + raw[|raw| - 1]
  }

  predicate Plain(raw: Bytes, line: string, t: Tables) {
    && (forall i :: 0 <= i < |raw| ==> IsPrintable(raw[i]))
    && (if raw == [] then line == "" else t.decode(raw) == Some(line))
    && Narrow(line, t)
  }

  predicate AllPlain(raw: seq<Bytes>, lines: seq<string>, t: Tables) {
    |raw| == |lines| && forall i :: 0 <= i < |raw| ==> Plain(raw[i], lines[i], t)
  }

  /** Printable bytes only accumulate until something flushes them. */
  lemma {:induction false} PrintableAccumulates(s: State, raw: Bytes, rest: Bytes, printable: Bytes, t: Tables)
    requires Valid(s) && GoodTables(t) && forall i :: 0 <= i < |raw| ==> IsPrintable(raw[i])
    ensures Parse(s, raw + rest, printable, t) == Parse(s, rest, printable + raw, t)
    decreases |raw|
  {
    if raw == [] {
      assert raw + rest == rest && printable + raw == printable;
    } else {
      assert (raw + rest)[0] == raw[0] && (raw + rest)[1..] == raw[1..] + rest;
      assert printable + [raw[0]] + raw[1..] == printable + raw;
      PrintableAccumulates(s, raw[1..], rest, printable + [raw[0]], t);
    }
  }

  lemma FlushLine(s: State, raw: Bytes, line: string, t: Tables)
    requires Valid(s) && GoodTables(t) && Plain(raw, line, t)
    ensures Flush(s, raw, t) == PutAll(s, line, t)
  {
  }

  /** A line break: flush, return, feed. */
  lemma BreakStartsRow(s: State, rest: Bytes, printable: Bytes, t: Tables)
    requires Valid(s) && GoodTables(t)
    ensures var f := Flush(s, printable, t);
      Parse(s, CRLF + rest, printable, t) == if f.Ok? then Parse(NextLine(f.value), rest, [], t) else Err(f.error)
  {
    var data := CRLF + rest;
    assert data[0] == 0x0D && data[1..] == [0x0A] + rest && ([0x0A] + rest)[1..] == rest;
    var flushed := Flush(s, printable, t);
    if flushed.Ok? {
      var returned := CarriageReturn(flushed.value);
      FlushNothing(returned, t);
      assert Parse(s, data, printable, t) == Parse(returned, [0x0A] + rest, [], t);
    }
  }

  lemma FlushNothing(s: State, t: Tables)
    requires Valid(s) && GoodTables(t)
    ensures Flush(s, [], t) == Ok(s)
  {
  }

  /** All but the last line parsed: the screen shows their layout and stands on a new row. */
  lemma {:induction false} LinesAppear(s: State, raw: seq<Bytes>, lines: seq<string>, rest: Bytes, t: Tables) returns (end: State)
    requires Valid(s) && GoodTables(t) && Represents(s, [""]) && raw != [] && AllPlain(raw, lines, t)
    ensures Valid(end) && end.columns == s.columns && end.rows == s.rows
    ensures Represents(end, Layout(lines, s.columns) + [""])
    ensures Parse(s, Lined(raw) + CRLF + rest, [], t) == Parse(end, rest, [], t)
    decreases |raw|
  {
    var last, line := raw[|raw| - 1], lines[|lines| - 1];
    var before: seq<string>, at := [], s;
    var tail := last + (CRLF + rest);
    assert Plain(last, line, t);
    LinedStep(raw, rest);
    if |raw| == 1 {
      assert Layout(lines[..0], s.columns) == [];
    } else {
      before := Layout(lines[..|lines| - 1], s.columns);
      at := LinesAppear(s, raw[..|raw| - 1], lines[..|lines| - 1], tail, t);
    }
    assert before + Wrapped(line, s.columns) == Layout(lines, s.columns);
    hide *;
    end := OneLineAppears(at, before, last, line, rest, t);
  }

  lemma LinedStep(raw: seq<Bytes>, rest: Bytes)
    requires raw != []
    ensures var tail := raw[|raw| - 1] + (CRLF + rest);
      Lined(raw) + CRLF + rest == if |raw| == 1 then tail else Lined(raw[..|raw| - 1]) + CRLF + tail
  {
    var last := raw[|raw| - 1];
    if |raw| == 1 {
      assert Lined(raw) == last;
      Regrouped([], last, CRLF, rest);
    } else {
      assert Lined(raw) == Lined(raw[..|raw| - 1]) + CRLF + last;
      hide Lined;
      Regrouped(Lined(raw[..|raw| - 1]) + CRLF, last, CRLF, rest);
    }
  }

  lemma Regrouped(a: Bytes, b: Bytes, c: Bytes, d: Bytes)
    ensures a + b + c + d == a + (b + (c + d))
    ensures b + c + d == b + (c + d)
  {
  }

  lemma {:induction false} OneLineAppears(s: State, before: seq<string>, raw: Bytes, line: string, rest: Bytes, t: Tables)
      returns (end: State)
    requires Valid(s) && GoodTables(t) && Represents(s, before + [""]) && Plain(raw, line, t)
    ensures Valid(end) && end.columns == s.columns && end.rows == s.rows
    ensures Represents(end, before + Wrapped(line, s.columns) + [""])
    ensures Parse(s, raw + (CRLF + rest), [], t) == Parse(end, rest, [], t)
  {
    PrintableAccumulates(s, raw, CRLF + rest, [], t);
    assert [] + raw == raw;
    BreakStartsRow(s, rest, raw, t);
    FlushLine(s, raw, line, t);
    assert Wrapped("", s.columns) == [""] && "" + line == line;
    LineAppears(s, before, "", line, t);
    hide Parse, PutAll, Represents, Wrapped, Flush;
    var shown := PutAll(s, line, t).value;
    FreshRow(shown, before + Wrapped(line, s.columns));
    end := NextLine(shown);
  }

  /**
    A transcript of narrow text and CR LF pairs is accepted, and the screen shows exactly
    the last rows of that text cut at the width.
  */
  lemma {:induction false} TranscriptShowsLastRows(raw: seq<Bytes>, lines: seq<string>, columns: nat, rows: nat, t: Tables)
    requires 1 <= columns <= MAX_COLUMNS && 1 <= rows <= MAX_ROWS && GoodTables(t)
    requires raw != [] && AllPlain(raw, lines, t)
    ensures var final := Parse(Fresh(columns, rows), Lined(raw), [], t);
      final.Ok? && final.value.lines == Shown(Layout(lines, columns), columns, rows)
      && Represents(final.value, Layout(lines, columns))
  {
    var s := Fresh(columns, rows);
    FreshIsEmpty(columns, rows);
    var last, line := raw[|raw| - 1], lines[|lines| - 1];
    var before: seq<string>, at := [], s;
    if |raw| == 1 {
      assert Lined(raw) == last;
      assert Layout(lines[..0], columns) == [];
    } else {
      before := Layout(lines[..|lines| - 1], columns);
      at := LinesAppear(s, raw[..|raw| - 1], lines[..|lines| - 1], last, t);
    }
    assert before + Wrapped(line, columns) == Layout(lines, columns);
    assert last + [] == last && [] + last == last;
    PrintableAccumulates(at, last, [], [], t);
    FlushLine(at, last, line, t);
    assert Wrapped("", columns) == [""] && "" + line == line;
    LineAppears(at, before, "", line, t);
    assert Parse(at, [], last, t) == Flush(at, last, t);
  }

  lemma FreshIsEmpty(columns: nat, rows: nat)
    requires 1 <= columns <= MAX_COLUMNS && 1 <= rows <= MAX_ROWS
    ensures Represents(Fresh(columns, rows), [""])
  {
    PaddedEmpty(columns);
    assert Fresh(columns, rows).lines == Shown([""], columns, rows);
  }

  /** A line that exactly fills the width takes one row, and the next line starts right below it. */
  lemma ExactFitTakesOneRow(line: string, next: string, columns: nat)
    requires columns > 0 && |line| == columns && |next| <= columns
    ensures Layout([line, next], columns) == [line, next]
  {
    assert [line, next][..1] == [line] && [line][..0] == [];
    assert Layout([line], columns) == Layout([], columns) + Wrapped(line, columns) == [line];
    assert Layout([line, next], columns) == Layout([line], columns) + [next];
  }
}
