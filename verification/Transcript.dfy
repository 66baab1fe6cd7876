/**
  Interpreting a captured transcript (scripts/render-terminal-snapshot.py:193-298).
  Control sequences are those of section 5.4 of ECMA-48, restricted to a small set.
  UTF-8 decoding, integer parsing and character widths are the parameters of `Tables`.
*/
module Transcript {
  import opened Wrappers
  import opened Text
  import opened ByteText
  import opened Screen

  const MAX_INPUT_BYTES: nat := 1_048_576
  const MAX_CSI_BYTES: nat := 16

  datatype Tables = Tables(
    width: char -> Option<nat>,
    decode: Bytes -> Option<string>,
    parseInt: string -> Option<int>
  )

  predicate GoodTables(t: Tables) {
    GoodWidths(t.width) && t.width(' ') == Some(1)
  }

  const ESCAPE: byte := 0x1B
  const BRACKET: byte := 0x5B

  const SHOW_PASTE: Bytes := [63, 50, 48, 48, 52]
  const SHOW_CURSOR: Bytes := [63, 50, 53]
  const ORIGIN: Bytes := [63, 54]

  predicate IsAscii(s: Bytes) {
    forall i :: 0 <= i < |s| ==> s[i] < 0x80
  }

  function AsciiText(s: Bytes): string
    requires IsAscii(s)
  {
    seq(|s|, i requires 0 <= i < |s| => s[i] as char)
  }

  function Split(text: string): (r: seq<string>)
    ensures r != []
  {
    if text == "" then [""]
    else
      var rest := Split(text[1..]);
      if text[0] == ';' then [""] + rest else [[text[0]] + rest[0]] + rest[1..]
  }

  function ParseInts(parts: seq<string>, parseInt: string -> Option<int>): Option<seq<int>> {
    if parts == [] then Some([]) else
    var first, rest := parseInt(parts[0]), ParseInts(parts[1..], parseInt);
    if first.Some? && rest.Some? then Some([first.value] + rest.value) else None
  }

  /** Modes that touch input or the cursor's looks, never the cells. */
  predicate IsIgnored(final: byte, body: Bytes) {
    || (final == 104 && (body == SHOW_PASTE || body == SHOW_CURSOR))
    || (final == 108 && (body == SHOW_PASTE || body == SHOW_CURSOR || body == ORIGIN))
    || (final == 114 && body == [])
  }

  /** Zero-based row and column of an absolute position. */
  function Position(body: Bytes, parseInt: string -> Option<int>): Option<(int, int)> {
    if !IsAscii(body) then None else
    var parts := Split(AsciiText(body));
    if |parts| != 2 then None else
    var row, column := parseInt(parts[0]), parseInt(parts[1]);
    if row.None? || column.None? || row.value == 0 || column.value == 0 then None
    else Some((row.value - 1, column.value - 1))
  }

  function Parameters(body: Bytes, parseInt: string -> Option<int>): Option<seq<int>> {
    if !IsAscii(body) then None
    else if body == [] then Some([])
    else
      var parts := Split(AsciiText(body));
      if "" in parts then None else ParseInts(parts, parseInt)
  }

  function ParseCsi(s: State, sequence: Bytes, t: Tables): (r: Result<State, SnapshotError>)
    requires Valid(s) && sequence != []
    ensures r.Ok? ==> Valid(r.value)
  {
    var final, body := sequence[|sequence| - 1], sequence[..|sequence| - 1];
    if |sequence| > MAX_CSI_BYTES then Err(SequenceTooLong)
    else if IsIgnored(final, body) then Ok(s)
    else if final == 72 then
      var at := Position(body, t.parseInt);
      if at.None? then Err(BadPosition) else MoveCursor(s, at.value.0, at.value.1)
    else if final == 65 && body == [53] then Ok(CursorUp(s, 5))
    else if final == 75 && body == [50] then Ok(EraseLine(s))
    else if final != 109 then Err(UnsupportedFinal)
    else
      var parameters := Parameters(body, t.parseInt);
      if parameters.None? then Err(BadParameter) else SetGraphics(s, parameters.value)
  }

  function PutAll(s: State, text: string, t: Tables): (r: Result<State, SnapshotError>)
    requires Valid(s) && GoodWidths(t.width)
    ensures r.Ok? ==> Valid(r.value)
    decreases |text|
  {
    if text == "" then Ok(s) else
    var next := Put(s, text[0], t.width(text[0]));
    if next.Err? then next else PutAll(next.value, text[1..], t)
  }

  function Flush(s: State, printable: Bytes, t: Tables): (r: Result<State, SnapshotError>)
    requires Valid(s) && GoodWidths(t.width)
    ensures r.Ok? ==> Valid(r.value)
  {
    if printable == [] then Ok(s) else
    var text := t.decode(printable);
    if text.None? then Err(NotUtf8) else PutAll(s, text.value, t)
  }

  predicate IsPrintable(b: byte) {
    b >= 0x20 && b != 0x7F
  }

  predicate IsFinal(b: byte) {
    0x40 <= b <= 0x7E
  }

  /** Bytes before the final byte of a control sequence. */
  function BodyLength(data: Bytes): (r: nat)
    ensures r <= |data| && (r < |data| ==> IsFinal(data[r]))
    ensures forall i :: 0 <= i < r ==> !IsFinal(data[i])
  {
    if data == [] || IsFinal(data[0]) then 0 else
    assert forall i :: 1 <= i < |data| ==> data[1..][i - 1] == data[i];
    1 + BodyLength(data[1..])
  }

  /** One control byte or sequence at the head of `data`: the new state and how much it consumed. */
  function Control(s: State, data: Bytes, t: Tables): (r: Result<(State, nat), SnapshotError>)
    requires Valid(s) && GoodTables(t) && data != []
    ensures r.Ok? ==> Valid(r.value.0) && 0 < r.value.1 <= |data|
  {
    if data[0] == ESCAPE then
      if |data| < 2 || data[1] != BRACKET then Err(BadEscape) else
      var body := BodyLength(data[2..]);
      if body > MAX_CSI_BYTES then Err(SequenceTooLong)
      else if 2 + body >= |data| then Err(Truncated)
      else
        var next := ParseCsi(s, data[2..3 + body], t);
        if next.Ok? then Ok((next.value, 3 + body)) else Err(next.error)
    else if data[0] == 0x0D then Ok((CarriageReturn(s), 1))
    else if data[0] == 0x0A then Ok((LineFeed(s), 1))
    else if data[0] == 0x09 then Ok((Spaces(s, TabStop(s)), 1))
    else if data[0] == 0x08 then Ok((Backspace(s), 1))
    else Err(UnsupportedControl)
  }

  /** The rest of a transcript, with the printable bytes not yet flushed. Every state on the way is valid. */
  function Parse(s: State, data: Bytes, printable: Bytes, t: Tables): (r: Result<State, SnapshotError>)
    requires Valid(s) && GoodTables(t)
    ensures r.Ok? ==> Valid(r.value)
    decreases |data|
  {
    if data == [] then Flush(s, printable, t)
    else if IsPrintable(data[0]) then Parse(s, data[1..], printable + [data[0]], t)
    else
      var flushed := Flush(s, printable, t);
      if flushed.Err? then flushed else
      var next := Control(flushed.value, data, t);
      if next.Err? then Err(next.error) else Parse(next.value.0, data[next.value.1..], [], t)
  }

  // ----- the parser as it runs -----

  method RunCsi(screen: Terminal, sequence: Bytes, t: Tables) returns (r: Result<(), SnapshotError>)
    requires screen.Good() && sequence != []
    modifies screen
    ensures screen.Good()
    ensures var next := ParseCsi(old(screen.Value()), sequence, t);
      if next.Ok? then r.Ok? && screen.Value() == next.value else r == Err(next.error)
  {
    hide Split, ParseInts, Graphics;
    if |sequence| > MAX_CSI_BYTES {
      return Err(SequenceTooLong);
    }
    var final, body := sequence[|sequence| - 1], sequence[..|sequence| - 1];
    if IsIgnored(final, body) {
      return Ok(());
    }
    if final == 72 {
      var at := Position(body, t.parseInt);
      if at.None? {
        return Err(BadPosition);
      }
      r := screen.Move(at.value.0, at.value.1);
      return;
    }
    if final == 65 && body == [53] {
      screen.Up(5);
      return Ok(());
    }
    if final == 75 && body == [50] {
      screen.Erase();
      return Ok(());
    }
    if final != 109 {
      return Err(UnsupportedFinal);
    }
    var parameters := Parameters(body, t.parseInt);
    if parameters.None? {
      return Err(BadParameter);
    }
    r := screen.SelectGraphics(parameters.value);
  }

  method FlushPrintable(screen: Terminal, printable: Bytes, t: Tables) returns (r: Result<(), SnapshotError>)
    requires screen.Good() && screen.width == t.width
    modifies screen
    ensures screen.Good()
    ensures var next := Flush(old(screen.Value()), printable, t);
      if next.Ok? then r.Ok? && screen.Value() == next.value else r == Err(next.error)
  {
    if printable == [] {
      return Ok(());
    }
    var decoded := t.decode(printable);
    if decoded.None? {
      return Err(NotUtf8);
    }
    hide Put;
    var text := decoded.value;
    for i := 0 to |text|
      invariant screen.Good() && PutAll(screen.Value(), text[i..], t) == PutAll(old(screen.Value()), text, t)
    {
      assert text[i..][0] == text[i] && text[i..][1..] == text[i + 1..];
      r := screen.PutCharacter(text[i]);
      if r.Err? {
        return;
      }
    }
    r := Ok(());
  }

  /** Find the final byte of a control sequence, giving up past the limit. */
  method ScanSequence(data: Bytes, start: nat) returns (end: nat, r: Result<(), SnapshotError>)
    requires start <= |data|
    ensures var body := BodyLength(data[start..]);
      if body > MAX_CSI_BYTES then r == Err(SequenceTooLong)
      else if start + body >= |data| then r == Err(Truncated)
      else r.Ok? && end == start + body
  {
    end := start;
    while end < |data| && !IsFinal(data[end])
      invariant start <= end <= |data| && end - start <= MAX_CSI_BYTES
      invariant BodyLength(data[start..]) == end - start + BodyLength(data[end..])
      decreases |data| - end
    {
      assert data[end..][1..] == data[end + 1..];
      end := end + 1;
      if end - start > MAX_CSI_BYTES {
        return end, Err(SequenceTooLong);
      }
    }
    if end >= |data| {
      return end, Err(Truncated);
    }
    r := Ok(());
  }

  /** Interpret the control byte or sequence at `index`; the answer is where the next token starts. */
  method RunControl(screen: Terminal, data: Bytes, index: nat, t: Tables) returns (r: Result<nat, SnapshotError>)
    requires index < |data| && GoodTables(t) && screen.Good() && screen.width == t.width
    modifies screen
    ensures screen.Good()
    ensures var next := Control(old(screen.Value()), data[index..], t);
      if next.Ok? then r == Ok(index + next.value.1) && screen.Value() == next.value.0 else r == Err(next.error)
  {
    hide ParseCsi, Spaces, LineFeed, BodyLength;
    var b := data[index];
    ghost var rest := data[index..];
    assert rest[0] == b;
    if b == ESCAPE {
      if index + 1 >= |data| || data[index + 1] != BRACKET {
        return Err(BadEscape);
      }
      assert rest[1] == BRACKET && rest[2..] == data[index + 2..];
      var end, scan := ScanSequence(data, index + 2);
      if scan.Err? {
        return Err(scan.error);
      }
      assert rest[2..end + 1 - index] == data[index + 2..end + 1];
      var ran := RunCsi(screen, data[index + 2..end + 1], t);
      if ran.Err? {
        return Err(ran.error);
      }
      return Ok(end + 1);
    }
    if b == 0x0D {
      screen.Return();
    } else if b == 0x0A {
      screen.Feed();
    } else if b == 0x09 {
      screen.Tab();
    } else if b == 0x08 {
      screen.Back();
    } else {
      return Err(UnsupportedControl);
    }
    r := Ok(index + 1);
  }

  /** Interpret a whole transcript on a fresh screen. */
  method ParseTranscript(data: Bytes, columns: nat, rows: nat, t: Tables) returns (r: Result<Terminal, SnapshotError>)
    requires GoodTables(t)
    ensures |data| > MAX_INPUT_BYTES ==> r == Err(TranscriptTooLong)
    ensures |data| <= MAX_INPUT_BYTES && !(1 <= columns <= MAX_COLUMNS && 1 <= rows <= MAX_ROWS) ==> r == Err(BadGeometry)
    ensures |data| <= MAX_INPUT_BYTES && 1 <= columns <= MAX_COLUMNS && 1 <= rows <= MAX_ROWS ==>
      var final := Parse(Fresh(columns, rows), data, [], t);
      if final.Ok? then r.Ok? && r.value.Good() && r.value.Value() == final.value else r == Err(final.error)
  {
    if |data| > MAX_INPUT_BYTES {
      return Err(TranscriptTooLong);
    }
    if !(1 <= columns <= MAX_COLUMNS && 1 <= rows <= MAX_ROWS) {
      return Err(BadGeometry);
    }
    var screen := new Terminal(columns, rows, t.width);
    ghost var final := Parse(Fresh(columns, rows), data, [], t);
    var index := 0;
    var printable: Bytes := [];
    assert data[0..] == data;
    while index < |data|
      invariant index <= |data| && fresh(screen) && screen.Good() && screen.width == t.width
      invariant Parse(screen.Value(), data[index..], printable, t) == final
      decreases |data| - index
    {
      hide Flush, Control, Fresh;
      var b := data[index];
      ghost var rest := data[index..];
      assert rest[0] == b && rest[1..] == data[index + 1..];
      if IsPrintable(b) {
        printable := printable + [b];
        index := index + 1;
        continue;
      }
      var flushed := FlushPrintable(screen, printable, t);
      if flushed.Err? {
        return Err(flushed.error);
      }
      printable := [];
      var ran := RunControl(screen, data, index, t);
      if ran.Err? {
        return Err(ran.error);
      }
      assert rest[ran.value - index..] == data[ran.value..];
      index := ran.value;
    }
    assert data[index..] == [];
    var flushed := FlushPrintable(screen, printable, t);
    if flushed.Err? {
      return Err(flushed.error);
    }
    r := Ok(screen);
  }
}
