/**
  What each control byte and sequence of a transcript does to the grid
  (scripts/render-terminal-snapshot.py:101-298), said of the bytes and of the cells,
  cursor and style they leave.
*/
module TerminalLaws {
  import opened Wrappers
  import opened Text
  import opened ByteText
  import opened Screen
  import opened Transcript

  const SEMICOLON_BYTE: byte := 0x3B
  const FINAL_H: byte := 72
  const FINAL_A: byte := 65
  const FINAL_K: byte := 75
  const FINAL_M: byte := 109

  /** ESC, `[`, the body and the final byte. */
  function Csi(body: Bytes, final: byte): Bytes {
    [0x1B, 0x5B] + body + [final]
  }

  /** Bytes that may come before the final one: at most fifteen, none of them final. */
  predicate IsBody(body: Bytes) {
    |body| <= 15 && forall i :: 0 <= i < |body| ==> !(0x40 <= body[i] <= 0x7E)
  }

  // ----- one sequence at a time -----

  lemma {:induction false} BodyLengthIs(body: Bytes, final: byte, rest: Bytes)
    requires (forall i :: 0 <= i < |body| ==> !IsFinal(body[i])) && IsFinal(final)
    ensures BodyLength(body + [final] + rest) == |body|
  {
    var data := body + [final] + rest;
    if body == [] {
      assert data[0] == final;
    } else {
      assert data[1..] == body[1..] + [final] + rest;
      BodyLengthIs(body[1..], final, rest);
    }
  }

  /** A sequence at the head of a transcript acts on the screen as it is, before anything after it. */
  lemma {:induction false} CsiRuns(s: State, body: Bytes, final: byte, rest: Bytes, t: Tables)
    requires Valid(s) && GoodTables(t) && IsBody(body) && 0x40 <= final <= 0x7E
    ensures Parse(s, Csi(body, final) + rest, [], t) ==
      var next := ParseCsi(s, body + [final], t); if next.Ok? then Parse(next.value, rest, [], t) else next
  {
    var data := Csi(body, final) + rest;
    BodyLengthIs(body, final, rest);
    assert data[2..] == body + [final] + rest;
    assert data[2..3 + |body|] == body + [final] && data[3 + |body|..] == rest;
    assert !IsPrintable(data[0]) && Flush(s, [], t) == Ok(s);
    hide ParseCsi, BodyLength, Flush;
  }

  lemma SequenceIs(body: Bytes, final: byte)
    ensures var sequence := body + [final];
      sequence[|sequence| - 1] == final && sequence[..|sequence| - 1] == body
  {
  }

  // ----- splitting at semicolons -----

  predicate IsPart(part: Bytes) {
    IsAscii(part) && SEMICOLON_BYTE !in part
  }

  function Joined(parts: seq<Bytes>): Bytes
    requires parts != []
  {
    if |parts| == 1 then parts[0] else parts[0] + [SEMICOLON_BYTE] + Joined(parts[1..])
  }

  function Texts(parts: seq<Bytes>): (r: seq<string>)
    requires forall i :: 0 <= i < |parts| ==> IsAscii(parts[i])
    ensures |r| == |parts| && forall i :: 0 <= i < |parts| ==> r[i] == AsciiText(parts[i])
  {
    seq(|parts|, i requires 0 <= i < |parts| => AsciiText(parts[i]))
  }

  lemma {:induction false} SplitPlain(text: string)
    requires ';' !in text
    ensures Split(text) == [text]
  {
    if text != "" {
      SplitPlain(text[1..]);
      assert [text[0]] + text[1..] == text;
    }
  }

  lemma {:induction false} SplitAtFirst(head: string, tail: string)
    requires ';' !in head
    ensures Split(head + [';'] + tail) == [head] + Split(tail)
  {
    var text := head + [';'] + tail;
    if head == "" {
      assert text[0] == ';' && text[1..] == tail;
    } else {
      assert text[0] == head[0] && text[1..] == head[1..] + [';'] + tail;
      SplitAtFirst(head[1..], tail);
      assert [head[0]] + head[1..] == head;
    }
  }

  lemma PartText(part: Bytes)
    requires IsPart(part)
    ensures ';' !in AsciiText(part) && (AsciiText(part) == "" <==> part == [])
  {
    forall i | 0 <= i < |part| ensures AsciiText(part)[i] != ';' {
      assert part[i] in part;
    }
  }

  /** Parts joined by semicolons come apart again, none added and none lost. */
  lemma {:induction false} JoinedSplits(parts: seq<Bytes>)
    requires parts != [] && forall i :: 0 <= i < |parts| ==> IsPart(parts[i])
    ensures (forall i :: 0 <= i < |parts| ==> IsAscii(parts[i])) && IsAscii(Joined(parts))
    ensures Split(AsciiText(Joined(parts))) == Texts(parts)
  {
    PartText(parts[0]);
    if |parts| == 1 {
      SplitPlain(AsciiText(parts[0]));
      assert Texts(parts) == [AsciiText(parts[0])];
    } else {
      var rest := parts[1..];
      JoinedSplits(rest);
      var body := Joined(parts);
      assert body == parts[0] + [SEMICOLON_BYTE] + Joined(rest);
      assert AsciiText(body) == AsciiText(parts[0]) + [';'] + AsciiText(Joined(rest));
      SplitAtFirst(AsciiText(parts[0]), AsciiText(Joined(rest)));
      assert Texts(parts) == [AsciiText(parts[0])] + Texts(rest);
    }
  }

  // ----- the absolute position -----

  /** The same screen with the cursor moved there and no wrap pending. */
  function At(s: State, row: nat, column: nat): State {
    s.(row := row, column := column, pendingWrap := false)
  }

  lemma {:induction false} PositionIs(a: Bytes, b: Bytes, parseInt: string -> Option<int>)
    requires IsPart(a) && IsPart(b)
    ensures Position(a + [SEMICOLON_BYTE] + b, parseInt) ==
      match (parseInt(AsciiText(a)), parseInt(AsciiText(b)))
      case (Some(r), Some(c)) => if r == 0 || c == 0 then None else Some((r - 1, c - 1))
      case _ => None
  {
    var parts := [a, b];
    assert parts[1..] == [b] && Joined(parts) == a + [SEMICOLON_BYTE] + b;
    JoinedSplits(parts);
    assert Texts(parts)[0] == AsciiText(a) && Texts(parts)[1] == AsciiText(b);
    hide Split, Joined;
  }

  /** Where the sequence of a position leads, or why nowhere. */
  function Moved(s: State, r: int, c: int): (m: Result<State, SnapshotError>)
    requires Valid(s)
    ensures m.Ok? ==> Valid(m.value)
  {
    if r == 0 || c == 0 then Err(BadPosition)
    else if 1 <= r <= s.rows && 1 <= c <= s.columns then Ok(At(s, r - 1, c - 1))
    else Err(OutsideTerminal)
  }

  lemma {:induction false} PositionParses(s: State, a: Bytes, b: Bytes, t: Tables)
    requires Valid(s) && IsPart(a) && IsPart(b) && |a| + |b| <= 14
    ensures ParseCsi(s, a + [SEMICOLON_BYTE] + b + [FINAL_H], t) ==
      match (t.parseInt(AsciiText(a)), t.parseInt(AsciiText(b)))
      case (Some(r), Some(c)) => Moved(s, r, c)
      case _ => Err(BadPosition)
  {
    var body := a + [SEMICOLON_BYTE] + b;
    SequenceIs(body, FINAL_H);
    PositionIs(a, b, t.parseInt);
    hide Position, Parameters, AsciiText;
  }

  /**
    `ESC [ a ; b H` puts the cursor on row a and column b, counted from one, and touches
    nothing else; zero is no position, and a position outside the grid is refused.
  */
  lemma {:induction false} PositionMoves(s: State, a: Bytes, b: Bytes, rest: Bytes, t: Tables)
    requires Valid(s) && GoodTables(t) && IsPart(a) && IsPart(b) && IsBody(a + [SEMICOLON_BYTE] + b)
    ensures Parse(s, Csi(a + [SEMICOLON_BYTE] + b, FINAL_H) + rest, [], t) ==
      match (t.parseInt(AsciiText(a)), t.parseInt(AsciiText(b)))
      case (Some(r), Some(c)) =>
        if r == 0 || c == 0 then Err(BadPosition)
        else if 1 <= r <= s.rows && 1 <= c <= s.columns then Parse(At(s, r - 1, c - 1), rest, [], t)
        else Err(OutsideTerminal)
      case _ => Err(BadPosition)
  {
    assert |a| + |b| <= 14;
    CsiRuns(s, a + [SEMICOLON_BYTE] + b, FINAL_H, rest, t);
    PositionParses(s, a, b, t);
    hide Parse, ParseCsi, AsciiText, Csi, Valid, GoodTables;
  }

  function Count(body: Bytes, b: byte): nat {
    if body == [] then 0 else (if body[0] == b then 1 else 0) + Count(body[1..], b)
  }

  lemma {:induction false} SplitCounts(body: Bytes)
    requires IsAscii(body)
    ensures |Split(AsciiText(body))| == Count(body, SEMICOLON_BYTE) + 1
  {
    if body != [] {
      assert AsciiText(body)[1..] == AsciiText(body[1..]);
      SplitCounts(body[1..]);
    } else {
      assert AsciiText(body) == "";
    }
  }

  /** A position has exactly two ASCII parts. */
  lemma {:induction false} PositionNeedsTwoParts(s: State, body: Bytes, rest: Bytes, t: Tables)
    requires Valid(s) && GoodTables(t) && IsBody(body)
    requires !IsAscii(body) || Count(body, SEMICOLON_BYTE) != 1
    ensures Parse(s, Csi(body, FINAL_H) + rest, [], t) == Err(BadPosition)
  {
    CsiRuns(s, body, FINAL_H, rest, t);
    SequenceIs(body, FINAL_H);
    if IsAscii(body) {
      SplitCounts(body);
    }
    hide Split, Parse;
  }

  // ----- moving up and erasing -----

  /** `ESC [ 5 A` moves up five rows, to the top at most. */
  lemma UpFive(s: State, rest: Bytes, t: Tables)
    requires Valid(s) && GoodTables(t)
    ensures Parse(s, Csi([53], FINAL_A) + rest, [], t) == Parse(At(s, if s.row < 5 then 0 else s.row - 5, s.column), rest, [], t)
  {
    CsiRuns(s, [53], FINAL_A, rest, t);
    SequenceIs([53], FINAL_A);
    hide Parse;
  }

  /** Every cell of `line` is a space in the plain style. */
  predicate IsBlank(line: seq<Cell>, columns: nat) {
    |line| == columns && forall k :: 0 <= k < columns ==> line[k] == Cell(" ", Style(None, None, false, false, false), false)
  }

  /** `ESC [ 2 K` blanks the row of the cursor, whose position and style stay. */
  lemma EraseBlanksRow(s: State, rest: Bytes, t: Tables) returns (erased: State)
    requires Valid(s) && GoodTables(t)
    ensures Valid(erased) && Parse(s, Csi([50], FINAL_K) + rest, [], t) == Parse(erased, rest, [], t)
    ensures erased == s.(lines := erased.lines, pendingWrap := false) && |erased.lines| == s.rows
    ensures IsBlank(erased.lines[s.row], s.columns)
    ensures forall r :: 0 <= r < s.rows && r != s.row ==> erased.lines[r] == s.lines[r]
  {
    CsiRuns(s, [50], FINAL_K, rest, t);
    SequenceIs([50], FINAL_K);
    erased := EraseLine(s);
  }

  // ----- graphics -----

  predicate Colours(p: int) {
    30 <= p <= 33 || p == 35 || p == 36
  }

  predicate Supported(p: int) {
    0 <= p <= 2 || p == 7 || Colours(p) || p == 39 || p == 43 || p == 49
  }

  predicate OfForeground(p: int) {
    p == 0 || p == 39 || Colours(p)
  }

  predicate OfBackground(p: int) {
    p == 0 || p == 49 || p == 43
  }

  predicate OfWeight(p: int) {
    p == 0 || p == 1 || p == 2
  }

  predicate OfReverse(p: int) {
    p == 0 || p == 7
  }

  /** The last parameter that `concerns` something, if any. */
  function LastOf(parameters: seq<int>, concerns: int -> bool): (r: Option<int>)
    ensures r.Some? ==> concerns(r.value)
  {
    if parameters == [] then None
    else if concerns(parameters[|parameters| - 1]) then Some(parameters[|parameters| - 1])
    else LastOf(parameters[..|parameters| - 1], concerns)
  }

  /** In each group the last parameter wins; zero belongs to every group and resets it. */
  function Styled(style: Style, parameters: seq<int>): Style {
    var foreground := LastOf(parameters, OfForeground);
    var background := LastOf(parameters, OfBackground);
    var weight := LastOf(parameters, OfWeight);
    var reversed := LastOf(parameters, OfReverse);
    Style(
      if foreground.None? then style.foreground else if Colours(foreground.value) then foreground else None,
      if background.None? then style.background else if background == Some(43) then background else None,
      if weight.None? then style.bold else weight == Some(1),
      if weight.None? then style.dim else weight == Some(2),
      if reversed.None? then style.reverse else reversed == Some(7))
  }

  /** The first parameter that is not supported. */
  function FirstUnsupported(parameters: seq<int>): Option<int> {
    if parameters == [] then None
    else if !Supported(parameters[0]) then Some(parameters[0])
    else FirstUnsupported(parameters[1..])
  }

  /** Taking the parameters one by one is taking the last of each group. */
  lemma {:induction false} GraphicsIsLastOfGroup(style: Style, parameters: seq<int>)
    requires Renderable(style)
    ensures Graphics(style, parameters) ==
      if FirstUnsupported(parameters).Some? then Err(UnsupportedGraphics(FirstUnsupported(parameters).value))
      else Ok(Styled(style, parameters))
    ensures FirstUnsupported(parameters).None? ==> Renderable(Styled(style, parameters))
    decreases |parameters|
  {
    if parameters == [] {
      assert Styled(style, []) == style;
    } else if Supported(parameters[0]) {
      var one := Styled(style, [parameters[0]]);
      StyledOne(style, parameters[0]);
      StyledCons(style, parameters[0], parameters[1..]);
      assert parameters == [parameters[0]] + parameters[1..];
      assert Renderable(one);
      GraphicsIsLastOfGroup(one, parameters[1..]);
      assert Graphics(style, parameters) == Graphics(one, parameters[1..]) by {
        hide Styled;
      }
    }
  }

  lemma LastOfOne(p: int, concerns: int -> bool)
    ensures LastOf([p], concerns) == if concerns(p) then Some(p) else None
  {
    assert [p][..0] == [];
  }

  lemma {:induction false} LastOfCons(p: int, rest: seq<int>, concerns: int -> bool)
    ensures LastOf([p] + rest, concerns) ==
      if LastOf(rest, concerns).Some? then LastOf(rest, concerns) else if concerns(p) then Some(p) else None
    decreases |rest|
  {
    if rest == [] {
      assert [p] + rest == [p];
      LastOfOne(p, concerns);
    } else {
      var all := [p] + rest;
      assert all[|all| - 1] == rest[|rest| - 1] && all[..|all| - 1] == [p] + rest[..|rest| - 1];
      LastOfCons(p, rest[..|rest| - 1], concerns);
    }
  }

  /** What one supported parameter does. */
  lemma StyledOne(style: Style, p: int)
    requires Supported(p)
    ensures Styled(style, [p]) ==
      if p == 0 then Style(None, None, false, false, false)
      else if p == 1 then style.(bold := true, dim := false)
      else if p == 2 then style.(bold := false, dim := true)
      else if p == 7 then style.(reverse := true)
      else if Colours(p) then style.(foreground := Some(p))
      else if p == 39 then style.(foreground := None)
      else if p == 43 then style.(background := Some(43))
      else style.(background := None)
  {
    LastOfOne(p, OfForeground);
    LastOfOne(p, OfBackground);
    LastOfOne(p, OfWeight);
    LastOfOne(p, OfReverse);
  }

  lemma StyledCons(style: Style, p: int, rest: seq<int>)
    ensures Styled(style, [p] + rest) == Styled(Styled(style, [p]), rest)
  {
    LastOfOne(p, OfForeground);
    LastOfOne(p, OfBackground);
    LastOfOne(p, OfWeight);
    LastOfOne(p, OfReverse);
    LastOfCons(p, rest, OfForeground);
    LastOfCons(p, rest, OfBackground);
    LastOfCons(p, rest, OfWeight);
    LastOfCons(p, rest, OfReverse);
  }

  /** `ESC [ p0 ; p1 ; ... m` restyles what is written next and touches nothing else; the first unsupported parameter is refused. */
  lemma {:induction false} GraphicsRestyle(s: State, parts: seq<Bytes>, parameters: seq<int>, rest: Bytes, t: Tables)
    requires Valid(s) && GoodTables(t) && parts != [] && |parameters| == |parts|
    requires forall i :: 0 <= i < |parts| ==> IsPart(parts[i]) && parts[i] != [] && t.parseInt(AsciiText(parts[i])) == Some(parameters[i])
    requires IsBody(Joined(parts))
    ensures Parse(s, Csi(Joined(parts), FINAL_M) + rest, [], t) ==
      if FirstUnsupported(parameters).Some? then Err(UnsupportedGraphics(FirstUnsupported(parameters).value))
      else (GraphicsIsLastOfGroup(s.style, parameters); Parse(s.(style := Styled(s.style, parameters)), rest, [], t))
  {
    var body := Joined(parts);
    CsiRuns(s, body, FINAL_M, rest, t);
    SequenceIs(body, FINAL_M);
    ParametersAre(parts, parameters, t.parseInt);
    GraphicsIsLastOfGroup(s.style, parameters);
    hide Parse, Parameters, Styled, Graphics, FirstUnsupported, Joined;
  }

  lemma {:induction false} ParsedAll(texts: seq<string>, parameters: seq<int>, parseInt: string -> Option<int>)
    requires |texts| == |parameters| && forall i :: 0 <= i < |texts| ==> parseInt(texts[i]) == Some(parameters[i])
    ensures ParseInts(texts, parseInt) == Some(parameters)
  {
    if texts != [] {
      ParsedAll(texts[1..], parameters[1..], parseInt);
      assert parameters == [parameters[0]] + parameters[1..];
    } else {
      assert parameters == [];
    }
  }

  lemma {:induction false} ParametersAre(parts: seq<Bytes>, parameters: seq<int>, parseInt: string -> Option<int>)
    requires parts != [] && |parameters| == |parts|
    requires forall i :: 0 <= i < |parts| ==> IsPart(parts[i]) && parts[i] != [] && parseInt(AsciiText(parts[i])) == Some(parameters[i])
    ensures Joined(parts) != [] && Parameters(Joined(parts), parseInt) == Some(parameters)
  {
    JoinedSplits(parts);
    forall i | 0 <= i < |parts| ensures Texts(parts)[i] != "" {
      PartText(parts[i]);
    }
    assert |parts[0]| > 0;
    ParsedAll(Texts(parts), parameters, parseInt);
  }

  lemma {:induction false} SomeUnparsed(texts: seq<string>, i: nat, parseInt: string -> Option<int>)
    requires i < |texts| && parseInt(texts[i]).None?
    ensures ParseInts(texts, parseInt).None?
  {
    if i > 0 {
      SomeUnparsed(texts[1..], i - 1, parseInt);
    }
  }

  /** Before a final m, an empty part and one that is no integer are refused, wherever they stand. */
  lemma {:induction false} BadPartIsRefused(s: State, parts: seq<Bytes>, i: nat, rest: Bytes, t: Tables)
    requires Valid(s) && GoodTables(t) && i < |parts| && forall k :: 0 <= k < |parts| ==> IsPart(parts[k])
    requires IsBody(Joined(parts)) && Joined(parts) != []
    requires parts[i] == [] || (IsPart(parts[i]) && t.parseInt(AsciiText(parts[i])).None?)
    ensures Parse(s, Csi(Joined(parts), FINAL_M) + rest, [], t) == Err(BadParameter)
  {
    CsiRuns(s, Joined(parts), FINAL_M, rest, t);
    SequenceIs(Joined(parts), FINAL_M);
    JoinedSplits(parts);
    PartText(parts[i]);
    assert Texts(parts)[i] in Texts(parts);
    if parts[i] != [] {
      SomeUnparsed(Texts(parts), i, t.parseInt);
    }
    hide Parse, Joined;
  }

  /** `ESC [ m` goes back to the plain style. */
  lemma EmptyGraphicsResets(s: State, rest: Bytes, t: Tables)
    requires Valid(s) && GoodTables(t)
    ensures Parse(s, Csi([], FINAL_M) + rest, [], t) == Parse(s.(style := Style(None, None, false, false, false)), rest, [], t)
  {
    CsiRuns(s, [], FINAL_M, rest, t);
    SequenceIs([], FINAL_M);
    assert [0][1..] == [];
    assert Graphics(s.style, [0]) == Graphics(PLAIN, []) == Ok(PLAIN);
    hide Parse;
  }

  // ----- everything else a sequence may be -----

  /** The modes of the keyboard, of pasting and of the cursor change nothing that is drawn. */
  lemma ModesAreIgnored(s: State, body: Bytes, final: byte, rest: Bytes, t: Tables)
    requires Valid(s) && GoodTables(t)
    requires || (final == 104 && body in {[63, 50, 48, 48, 52], [63, 50, 53]})
             || (final == 108 && body in {[63, 50, 48, 48, 52], [63, 50, 53], [63, 54]})
             || (final == 114 && body == [])
    ensures Parse(s, Csi(body, final) + rest, [], t) == Parse(s, rest, [], t)
  {
    CsiRuns(s, body, final, rest, t);
    SequenceIs(body, final);
    hide Parse;
  }

  /** No other final byte, and no other movement or erasure, is accepted. */
  lemma OthersAreRefused(s: State, body: Bytes, final: byte, rest: Bytes, t: Tables)
    requires Valid(s) && GoodTables(t) && IsBody(body) && 0x40 <= final <= 0x7E
    requires final != 72 && final != 109
    requires !(final == 65 && body == [53]) && !(final == 75 && body == [50])
    requires !(final == 104 && body in {[63, 50, 48, 48, 52], [63, 50, 53]})
    requires !(final == 108 && body in {[63, 50, 48, 48, 52], [63, 50, 53], [63, 54]})
    requires !(final == 114 && body == [])
    ensures Parse(s, Csi(body, final) + rest, [], t) == Err(UnsupportedFinal)
  {
    CsiRuns(s, body, final, rest, t);
    SequenceIs(body, final);
    hide Parse;
  }

  /** A byte above ASCII before a final H or m is refused, whatever integers it might be read as. */
  lemma NonAsciiIsRefused(s: State, body: Bytes, i: nat, final: byte, rest: Bytes, t: Tables)
    requires Valid(s) && GoodTables(t) && IsBody(body) && i < |body| && body[i] >= 0x80 && final in {72, 109}
    ensures Parse(s, Csi(body, final) + rest, [], t) == Err(if final == 72 then BadPosition else BadParameter)
  {
    CsiRuns(s, body, final, rest, t);
    SequenceIs(body, final);
    assert !IsAscii(body);
    hide Parse;
  }

  /** An escape that is no sequence, one that is too long and one that does not end are told apart. */
  lemma BrokenSequences(s: State, data: Bytes, t: Tables)
    requires Valid(s) && GoodTables(t) && data != [] && data[0] == 0x1B
    ensures |data| < 2 || data[1] != 0x5B ==> Parse(s, data, [], t) == Err(BadEscape)
    ensures |data| >= 2 && data[1] == 0x5B && |data| <= 18 && (forall i :: 2 <= i < |data| ==> !(0x40 <= data[i] <= 0x7E)) ==>
      Parse(s, data, [], t) == Err(Truncated)
    ensures |data| >= 19 && data[1] == 0x5B && (forall i :: 2 <= i < 18 ==> !(0x40 <= data[i] <= 0x7E)) ==>
      Parse(s, data, [], t) == Err(SequenceTooLong)
  {
    assert !IsPrintable(data[0]) && Flush(s, [], t) == Ok(s);
    if |data| >= 2 {
      var tail := data[2..];
      var k := BodyLength(tail);
      assert forall i :: 0 <= i < |tail| ==> tail[i] == data[i + 2];
      if k < |tail| {
        assert IsFinal(tail[k]) && tail[k] == data[k + 2];
      }
      if k == 16 && k < |tail| {
        assert |data[2..3 + k]| == 17;
      }
    }
    hide Flush;
  }

  // ----- control bytes -----

  lemma ControlRuns(s: State, b: byte, rest: Bytes, t: Tables)
    requires Valid(s) && GoodTables(t) && b in {0x0D, 0x0A, 0x09, 0x08}
    ensures Parse(s, [b] + rest, [], t) ==
      Parse(if b == 0x0D then CarriageReturn(s) else if b == 0x0A then LineFeed(s) else if b == 0x09 then Spaces(s, TabStop(s)) else Backspace(s), rest, [], t)
  {
    var data := [b] + rest;
    assert data[0] == b && data[1..] == rest && !IsPrintable(b) && Flush(s, [], t) == Ok(s);
    hide Flush, Spaces, LineFeed;
  }

  /** A carriage return goes to the first column, a backspace one column back, and neither touches a cell. */
  lemma ReturnAndBackspace(s: State, rest: Bytes, t: Tables)
    requires Valid(s) && GoodTables(t)
    ensures Parse(s, [0x0D] + rest, [], t) == Parse(At(s, s.row, 0), rest, [], t)
    ensures Parse(s, [0x08] + rest, [], t) == Parse(At(s, s.row, if s.column == 0 then 0 else s.column - 1), rest, [], t)
  {
    ControlRuns(s, 0x0D, rest, t);
    ControlRuns(s, 0x08, rest, t);
    hide Parse;
  }

  /** A line feed goes one row down in the same column; from the last row the grid scrolls up by one blank row instead. */
  lemma LineFeedScrolls(s: State, rest: Bytes, t: Tables) returns (fed: State)
    requires Valid(s) && GoodTables(t)
    ensures Valid(fed) && Parse(s, [0x0A] + rest, [], t) == Parse(fed, rest, [], t)
    ensures s.row < s.rows - 1 ==> fed == At(s, s.row + 1, s.column)
    ensures s.row == s.rows - 1 ==>
      && fed == At(s, s.row, s.column).(lines := fed.lines) && |fed.lines| == s.rows
      && (forall r :: 0 <= r < s.rows - 1 ==> fed.lines[r] == s.lines[r + 1])
      && IsBlank(fed.lines[s.rows - 1], s.columns)
  {
    ControlRuns(s, 0x0A, rest, t);
    fed := LineFeed(s);
  }

  /** A tab writes spaces in the current style up to the next column that is a multiple of eight, or the last one. */
  lemma {:induction false} TabWritesSpaces(s: State, rest: Bytes, t: Tables) returns (tabbed: State)
    requires Valid(s) && GoodTables(t)
    ensures Valid(tabbed) && Parse(s, [0x09] + rest, [], t) == Parse(tabbed, rest, [], t)
    ensures tabbed.row == s.row && tabbed.style == s.style && tabbed.columns == s.columns && tabbed.rows == s.rows
    ensures s.column <= tabbed.column <= s.column + 8
    ensures if s.column == s.columns - 1 then tabbed == s
            else tabbed.column > s.column && (tabbed.column % 8 == 0 || tabbed.column == s.columns - 1) && !tabbed.pendingWrap
    ensures forall r :: 0 <= r < s.rows && r != s.row ==> tabbed.lines[r] == s.lines[r]
    ensures forall k :: 0 <= k < s.columns ==>
      tabbed.lines[s.row][k] == (if s.column <= k < tabbed.column then Cell(" ", s.style, false) else s.lines[s.row][k])
    ensures forall k :: s.column < k < tabbed.column ==> k % 8 != 0
  {
    ControlRuns(s, 0x09, rest, t);
    tabbed := Spaces(s, TabStop(s));
    hide Parse, Spaces;
    StopIs(s);
    SpacesWrite(s, TabStop(s));
  }

  lemma StopIs(s: State)
    requires Valid(s)
    ensures var stop := TabStop(s);
      && s.column <= stop < s.columns && stop <= s.column + 8 && (stop == s.column <==> s.column == s.columns - 1)
      && (stop % 8 == 0 || stop == s.columns - 1) && forall k :: s.column < k < stop ==> k % 8 != 0
  {
  }

  lemma {:induction false} SpacesWrite(s: State, target: nat)
    requires Valid(s) && target < s.columns && s.column <= target
    ensures var w := Spaces(s, target);
      && w.row == s.row && w.style == s.style && w.columns == s.columns && w.rows == s.rows && w.column == target
      && (s.column == target ==> w == s) && (s.column < target ==> !w.pendingWrap)
      && (forall r :: 0 <= r < s.rows && r != s.row ==> w.lines[r] == s.lines[r])
      && (forall k :: 0 <= k < s.columns ==>
            w.lines[s.row][k] == (if s.column <= k < target then Cell(" ", s.style, false) else s.lines[s.row][k]))
    decreases target - s.column
  {
    if s.column < target {
      var one := Write(s, ' ', 1);
      assert one.column == s.column + 1 && !one.pendingWrap;
      SpacesWrite(one, target);
    }
  }

  /** A printable run is decoded and put character by character; any other byte is refused. */
  lemma OtherControlsAreRefused(s: State, b: byte, rest: Bytes, t: Tables)
    requires Valid(s) && GoodTables(t) && (b < 0x20 || b == 0x7F) && b !in {0x1B, 0x0D, 0x0A, 0x09, 0x08}
    ensures Parse(s, [b] + rest, [], t) == Err(UnsupportedControl)
  {
    var data := [b] + rest;
    assert data[0] == b && Flush(s, [], t) == Ok(s);
    hide Flush;
  }

  // ----- writing -----

  /** The screen on which a glyph of this width is written: wrapped, and scrolled when that wraps below the last row. */
  function Wrapped(s: State, width: nat): State
    requires Valid(s)
  {
    if s.pendingWrap || s.column + width > s.columns then LineFeed(At(s, s.row, 0)) else s
  }

  /** One cell of the cursor's row once a glyph is written there: its text, the other half of a wide one, or what it was. */
  function CellAfter(w: State, c: char, width: nat, style: Style, k: nat): Cell
    requires Valid(w) && k < w.columns
  {
    if k == w.column then Cell([c], style, false)
    else if width == 2 && k == w.column + 1 then Cell("", style, true)
    else w.lines[w.row][k]
  }

  /**
    A glyph lands in the current style on the cell of the cursor, after a wrap if one is
    due or it does not fit; a wide one also takes the next cell. No other cell changes, and
    the cursor goes behind it, staying in the last column with a wrap pending.
  */
  lemma PutWrites(s: State, c: char, width: nat) returns (put: State)
    requires Valid(s) && 1 <= width <= 2
    ensures width > s.columns ==> Put(s, c, Some(width)) == Err(GlyphTooWide)
    ensures width <= s.columns ==>
      && Put(s, c, Some(width)) == Ok(put) && Valid(Wrapped(s, width))
      && var w := Wrapped(s, width);
         && put == w.(lines := put.lines, column := put.column, pendingWrap := put.pendingWrap)
         && (if w.column + width < s.columns then put.column == w.column + width && !put.pendingWrap
             else put.column == s.columns - 1 && put.pendingWrap)
         && |put.lines| == s.rows && (forall r :: 0 <= r < s.rows && r != w.row ==> put.lines[r] == w.lines[r])
         && |put.lines[w.row]| == s.columns
         && (forall k :: 0 <= k < s.columns ==> put.lines[w.row][k] == CellAfter(w, c, width, s.style, k))
  {
    put := s;
    if width <= s.columns {
      put := Put(s, c, Some(width)).value;
      var wrapped := if s.pendingWrap then NextLine(s) else s;
      assert wrapped.columns == s.columns && wrapped.rows == s.rows && wrapped.style == s.style;
      var w := Wrapped(s, width);
      assert w == (if wrapped.column + width > s.columns then NextLine(wrapped) else wrapped);
      WriteIs(w, c, width);
    }
  }

  lemma WriteIs(w: State, c: char, width: nat)
    requires Valid(w) && !w.pendingWrap && 1 <= width <= 2 && w.column + width <= w.columns
    ensures var put := Write(w, c, width);
      && put == w.(lines := put.lines, column := put.column, pendingWrap := put.pendingWrap)
      && (if w.column + width < w.columns then put.column == w.column + width && !put.pendingWrap
          else put.column == w.columns - 1 && put.pendingWrap)
      && |put.lines| == w.rows && (forall r :: 0 <= r < w.rows && r != w.row ==> put.lines[r] == w.lines[r])
      && |put.lines[w.row]| == w.columns
      && (forall k :: 0 <= k < w.columns ==> put.lines[w.row][k] == CellAfter(w, c, width, w.style, k))
  {
  }

  /** A combining mark is appended to the cell before the cursor, or to the first of its row, and nothing else changes. */
  lemma MarkAppends(s: State, c: char) returns (marked: State)
    requires Valid(s)
    ensures Put(s, c, Some(0)) == Ok(marked) && marked == s.(lines := marked.lines) && |marked.lines| == s.rows
    ensures forall r :: 0 <= r < s.rows && r != s.row ==> marked.lines[r] == s.lines[r]
    ensures var before := if s.column == 0 then 0 else s.column - 1;
      && |marked.lines[s.row]| == s.columns
      && marked.lines[s.row][before] == s.lines[s.row][before].(text := s.lines[s.row][before].text + [c])
      && forall k :: 0 <= k < s.columns && k != before ==> marked.lines[s.row][k] == s.lines[s.row][k]
  {
    marked := Mark(s, c);
  }

  /** Printable bytes up to the next control byte or the end are decoded together and put in order. */
  lemma {:induction false} PrintableRuns(s: State, text: Bytes, rest: Bytes, t: Tables)
    requires Valid(s) && GoodTables(t) && text != [] && (forall i :: 0 <= i < |text| ==> text[i] >= 0x20 && text[i] != 0x7F)
    requires rest == [] || rest[0] < 0x20 || rest[0] == 0x7F
    ensures Parse(s, text + rest, [], t) ==
      if t.decode(text).None? then Err(NotUtf8)
      else var put := PutAll(s, t.decode(text).value, t); if put.Ok? then Parse(put.value, rest, [], t) else put
  {
    Accumulates(s, [], text, rest, t);
    assert [] + text == text;
    assert Flush(s, text, t) == if t.decode(text).None? then Err(NotUtf8) else PutAll(s, t.decode(text).value, t);
    var flushed := Flush(s, text, t);
    if flushed.Ok? {
      assert Flush(flushed.value, [], t) == flushed;
    }
    hide Flush, PutAll;
  }

  lemma {:induction false} Accumulates(s: State, before: Bytes, text: Bytes, rest: Bytes, t: Tables)
    requires Valid(s) && GoodTables(t) && forall i :: 0 <= i < |text| ==> IsPrintable(text[i])
    ensures Parse(s, text + rest, before, t) == Parse(s, rest, before + text, t)
    decreases |text|
  {
    if text == [] {
      assert text + rest == rest && before + text == before;
    } else {
      var data := text + rest;
      assert data[0] == text[0] && data[1..] == text[1..] + rest;
      Accumulates(s, before + [text[0]], text[1..], rest, t);
      assert before + [text[0]] + text[1..] == before + text;
    }
  }
}
