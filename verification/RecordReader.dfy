/**
  Reading newline-framed records from chunks of bytes (examples/plugin_support/mod.rs:172-227).
  The strict JSON parser is the parameter `parse`.
*/
module RecordReader {
  import opened Wrappers
  import opened Text
  import opened ByteText

  /** 128 KiB. */
  const MAX_RECORD_BYTES: nat := 131_072
  /** 8 KiB. */
  const READ_BUFFER_BYTES: nat := 8_192

  const NEWLINE: byte := 10
  const RETURN: byte := 13
  const OPEN_BRACE: byte := 123
  const CLOSE_BRACE: byte := 125

  datatype ReadError = TooLarge | BadFraming | PartialRecord | BadJson

  datatype Step =
    | Record(body: Bytes)
    | Finished
    | Failed(error: ReadError)

  /** The reader between calls: unread chunks and the bytes read but not yet returned. */
  datatype State = State(pending: Bytes, input: seq<Bytes>)

  predicate Chunked(input: seq<Bytes>) {
    forall i :: 0 <= i < |input| ==> 0 < |input[i]| <= READ_BUFFER_BYTES
  }

  function FirstNewline(s: Bytes): (r: Option<nat>)
    ensures r.Some? ==> r.value < |s| && s[r.value] == NEWLINE && NEWLINE !in s[..r.value]
    ensures r.None? ==> NEWLINE !in s
  {
    if s == [] then None
    else if s[0] == NEWLINE then Some(0)
    else
      var rest := FirstNewline(s[1..]);
      assert s == [s[0]] + s[1..];
      if rest.None? then None else
      assert s[..rest.value + 1] == [s[0]] + s[1..][..rest.value];
      Some(rest.value + 1)
  }

  predicate Framed(body: Bytes) {
    && body != [] && body[0] == OPEN_BRACE && body[|body| - 1] == CLOSE_BRACE
    && RETURN !in body && NEWLINE !in body
  }

  predicate Good(body: Bytes, parse: Bytes -> bool) {
    Framed(body) && parse(body)
  }

  function Judged(body: Bytes, parse: Bytes -> bool): Step {
    if !Framed(body) then Failed(BadFraming)
    else if !parse(body) then Failed(BadJson)
    else Record(body)
  }

  function Flatten(input: seq<Bytes>): Bytes {
    if input == [] then [] else input[0] + Flatten(input[1..])
  }

  /** Every byte not yet returned, read or not. */
  function Content(s: State): Bytes {
    s.pending + Flatten(s.input)
  }

  /** One call: the answer and the state it leaves. */
  function Next(s: State, parse: Bytes -> bool): (r: (Step, State))
    ensures r.0.Record? ==> Content(s) == r.0.body + [NEWLINE] + Content(r.1)
    ensures r.0.Record? ==> NEWLINE !in r.0.body && Good(r.0.body, parse) && |r.0.body| + 1 <= MAX_RECORD_BYTES
    ensures r.0.Finished? ==> Content(s) == []
    ensures |s.pending| <= MAX_RECORD_BYTES ==> |r.1.pending| <= MAX_RECORD_BYTES
    decreases |s.input|
  {
    var at := FirstNewline(s.pending);
    if at.Some? then
      if at.value + 1 > MAX_RECORD_BYTES then (Failed(TooLarge), s)
      else
        var body, rest := s.pending[..at.value], s.pending[at.value + 1..];
        assert s.pending == body + [NEWLINE] + rest;
        assert Content(s) == body + [NEWLINE] + (rest + Flatten(s.input));
        (Judged(body, parse), s.(pending := rest))
    else if |s.pending| == MAX_RECORD_BYTES then (Failed(TooLarge), s)
    else if s.input == [] then (if s.pending == [] then Finished else Failed(PartialRecord), s)
    else if |s.pending| + |s.input[0]| > MAX_RECORD_BYTES then (Failed(TooLarge), s.(input := s.input[1..]))
    else
      assert s.pending + (s.input[0] + Flatten(s.input[1..])) == (s.pending + s.input[0]) + Flatten(s.input[1..]);
      Next(State(s.pending + s.input[0], s.input[1..]), parse)
  }

  class Reader {
    var input: seq<Bytes>
    var pending: Bytes

    function Value(): State
      reads this
    {
      State(pending, input)
    }

    ghost predicate Valid()
      reads this
    {
      Chunked(input) && |pending| <= MAX_RECORD_BYTES
    }

    constructor (input: seq<Bytes>)
      requires Chunked(input)
      ensures Valid() && Value() == State([], input)
    {
      this.input, this.pending := input, [];
    }

    /** Zero bytes once the stream has ended. */
    method Read() returns (chunk: Bytes)
      modifies this`input
      ensures if old(input) == [] then chunk == [] && input == [] else [chunk] + input == old(input)
    {
      if input == [] {
        return [];
      }
      chunk, input := input[0], input[1..];
    }

    method NextRecord(parse: Bytes -> bool) returns (r: Step)
      requires Valid()
      modifies this
      ensures Valid() && (r, Value()) == Next(old(Value()), parse)
    {
      ghost var start := Value();
      while true
        invariant Valid() && Next(Value(), parse) == Next(start, parse)
        decreases |input|
      {
        var at := FirstNewline(pending);
        if at.Some? {
          if at.value + 1 > MAX_RECORD_BYTES {
            return Failed(TooLarge);
          }
          var body := pending[..at.value];
          pending := pending[at.value + 1..];
          return Judged(body, parse);
        }
        if |pending| == MAX_RECORD_BYTES {
          return Failed(TooLarge);
        }
        ghost var before := input;
        var chunk := Read();
        if chunk == [] {
          assert before == [];
          return if pending == [] then Finished else Failed(PartialRecord);
        }
        assert chunk == before[0] && input == before[1..];
        if |pending| + |chunk| > MAX_RECORD_BYTES {
          return Failed(TooLarge);
        }
        pending := pending + chunk;
      }
    }
  }

  // ----- one call, by what is in the buffer -----

  /**
    A whole line in the buffer is consumed whatever it holds, and is a record exactly when
    it is an object in one line, `{` to `}` without a carriage return, that parses.
  */
  lemma {:induction false} LineIsJudged(line: Bytes, rest: Bytes, input: seq<Bytes>, parse: Bytes -> bool)
    requires NEWLINE !in line && |line| < MAX_RECORD_BYTES
    ensures var (step, next) := Next(State(line + [0x0A] + rest, input), parse);
      var framed := |line| >= 2 && line[0] == 0x7B && line[|line| - 1] == 0x7D && 0x0D !in line;
      && next == State(rest, input)
      && (step == Record(line) <==> framed && parse(line))
      && (step == Failed(BadFraming) <==> !framed)
      && (step == Failed(BadJson) <==> framed && !parse(line))
  {
    FirstNewlineIs(line, rest);
    var s := line + [NEWLINE] + rest;
    assert s[..|line|] == line && s[|line| + 1..] == rest;
    hide FirstNewline, Flatten, Content;
    assert Next(State(s, input), parse) == (Judged(line, parse), State(rest, input));
    hide Next;
    assert line != [] && line[0] == 0x7B && line[|line| - 1] == 0x7D ==> |line| >= 2;
  }

  /** Without a whole line in the buffer a call reads on, unless the buffer is full, the stream ended, or the next chunk does not fit. */
  lemma NoLineYet(s: State, parse: Bytes -> bool)
    requires NEWLINE !in s.pending && |s.pending| <= MAX_RECORD_BYTES
    ensures var (step, next) := Next(s, parse);
      && (|s.pending| == MAX_RECORD_BYTES ==> step == Failed(TooLarge) && next == s)
      && (|s.pending| < MAX_RECORD_BYTES && s.input == [] ==>
            next == s && step == if s.pending == [] then Finished else Failed(PartialRecord))
      && (|s.pending| < MAX_RECORD_BYTES && s.input != [] ==>
            if |s.pending| + |s.input[0]| <= MAX_RECORD_BYTES
            then (step, next) == Next(State(s.pending + s.input[0], s.input[1..]), parse)
            else step == Failed(TooLarge) && next == State(s.pending, s.input[1..]))
  {
  }

  // ----- whole streams -----

  lemma FlattenUnfolds(input: seq<Bytes>)
    requires input != []
    ensures Flatten(input) == input[0] + Flatten(input[1..])
  {
  }

  /** Calling until the stream finishes or fails. */
  function ReadAll(s: State, parse: Bytes -> bool): Result<seq<Bytes>, ReadError>
    decreases |Content(s)|
  {
    var (step, next) := Next(s, parse);
    match step
    case Failed(error) => Err(error)
    case Finished => Ok([])
    case Record(body) =>
      var rest := ReadAll(next, parse);
      if rest.Ok? then Ok([body] + rest.value) else rest
  }

  function Lines(s: Bytes): seq<Bytes>
    decreases |s|
  {
    var at := FirstNewline(s);
    if at.None? then [] else [s[..at.value]] + Lines(s[at.value + 1..])
  }

  /** What follows the last newline. */
  function Tail(s: Bytes): Bytes
    decreases |s|
  {
    var at := FirstNewline(s);
    if at.None? then s else Tail(s[at.value + 1..])
  }

  predicate AllGood(bodies: seq<Bytes>, parse: Bytes -> bool) {
    forall i :: 0 <= i < |bodies| ==> Good(bodies[i], parse)
  }

  /** At every read, the unfinished record and the whole chunk fit together. */
  predicate ChunksFit(s: State)
    decreases |s.input|
  {
    s.input == [] ||
    (|Tail(s.pending)| + |s.input[0]| <= MAX_RECORD_BYTES
     && ChunksFit(State(Tail(s.pending) + s.input[0], s.input[1..])))
  }

  lemma {:induction false} FirstNewlineAppend(a: Bytes, b: Bytes)
    requires FirstNewline(a).Some?
    ensures FirstNewline(a + b) == FirstNewline(a)
  {
    if a[0] != NEWLINE {
      assert (a + b)[1..] == a[1..] + b;
      FirstNewlineAppend(a[1..], b);
    }
  }

  lemma {:induction false} FirstNewlineIs(a: Bytes, b: Bytes)
    requires NEWLINE !in a
    ensures FirstNewline(a + [NEWLINE] + b) == Some(|a|)
  {
    if a != [] {
      assert (a + [NEWLINE] + b)[1..] == a[1..] + [NEWLINE] + b;
      FirstNewlineIs(a[1..], b);
    }
  }

  lemma LinesStep(body: Bytes, rest: Bytes)
    requires NEWLINE !in body
    ensures Lines(body + [NEWLINE] + rest) == [body] + Lines(rest)
    ensures Tail(body + [NEWLINE] + rest) == Tail(rest)
  {
    FirstNewlineIs(body, rest);
    var s := body + [NEWLINE] + rest;
    assert s[..|body|] == body && s[|body| + 1..] == rest;
  }

  /** Without an error the records are the lines of the stream, whatever the chunks. */
  lemma {:induction false} RecordsAreLines(s: State, parse: Bytes -> bool)
    ensures var r := ReadAll(s, parse);
      r.Ok? ==> r.value == Lines(Content(s)) && Tail(Content(s)) == [] && AllGood(r.value, parse)
    decreases |Content(s)|
  {
    var (step, next) := Next(s, parse);
    NoNewlineIn([]);
    assert step.Record? ==> ReadAll(s, parse).Ok? == ReadAll(next, parse).Ok?;
    assert step.Record? && ReadAll(s, parse).Ok? ==> ReadAll(s, parse).value == [step.body] + ReadAll(next, parse).value;
    assert !step.Record? && ReadAll(s, parse).Ok? ==> Content(s) == [] && ReadAll(s, parse).value == [];
    hide *;
    if step.Record? {
      RecordsAreLines(next, parse);
      LinesStep(step.body, Content(next));
      if ReadAll(next, parse).Ok? {
        GoodSplit(step.body, ReadAll(next, parse).value, parse);
      }
    }
  }

  /** Two chunkings of one stream that both run without error return the same records. */
  lemma ChunkingNeverChangesRecords(a: seq<Bytes>, b: seq<Bytes>, parse: Bytes -> bool)
    requires Flatten(a) == Flatten(b)
    ensures var x, y := ReadAll(State([], a), parse), ReadAll(State([], b), parse);
      x.Ok? && y.Ok? ==> x == y
  {
    RecordsAreLines(State([], a), parse);
    RecordsAreLines(State([], b), parse);
    assert Content(State([], a)) == Flatten(a) && Content(State([], b)) == Flatten(b);
  }

  // ----- exactly when a chunking runs without error -----

  lemma ReadOneChunk(s: State, parse: Bytes -> bool)
    requires FirstNewline(s.pending).None? && s.input != []
    requires |s.pending| + |s.input[0]| <= MAX_RECORD_BYTES && |s.pending| < MAX_RECORD_BYTES
    ensures var next := State(s.pending + s.input[0], s.input[1..]);
      ReadAll(s, parse) == ReadAll(next, parse) && Content(next) == Content(s)
  {
    var next := State(s.pending + s.input[0], s.input[1..]);
    assert Content(next) == Content(s);
    assert Next(s, parse) == Next(next, parse);
  }

  /**
    A stream is read to the end exactly when it ends with a newline (or is empty), every
    line is a good record, and at every read the unfinished record and the chunk fit.
  */
  lemma {:induction false} ReadsAllIff(s: State, parse: Bytes -> bool)
    requires |s.pending| <= MAX_RECORD_BYTES && Chunked(s.input)
    ensures ReadAll(s, parse).Ok? <==>
      Tail(Content(s)) == [] && AllGood(Lines(Content(s)), parse) && ChunksFit(s)
    decreases |s.pending| + 2 * |Flatten(s.input)|, |s.input|
  {
    var at := FirstNewline(s.pending);
    if at.Some? {
      var rest := s.(pending := s.pending[at.value + 1..]);
      ReadsAllIff(rest, parse);
      ReadOneLine(s, parse);
      GoodSplit(s.pending[..at.value], Lines(Content(rest)), parse);
    } else if s.input == [] {
      assert Content(s) == s.pending;
    } else if |s.pending| + |s.input[0]| <= MAX_RECORD_BYTES {
      ReadOneChunk(s, parse);
      FlattenUnfolds(s.input);
      ReadsAllIff(State(s.pending + s.input[0], s.input[1..]), parse);
    }
  }

  lemma ReadOneLine(s: State, parse: Bytes -> bool)
    requires FirstNewline(s.pending).Some? && |s.pending| <= MAX_RECORD_BYTES
    ensures var at := FirstNewline(s.pending).value;
      var body, rest := s.pending[..at], s.(pending := s.pending[at + 1..]);
      && Lines(Content(s)) == [body] + Lines(Content(rest)) && Tail(Content(s)) == Tail(Content(rest))
      && (ChunksFit(s) <==> ChunksFit(rest))
      && (ReadAll(s, parse).Ok? <==> Good(body, parse) && ReadAll(rest, parse).Ok?)
  {
    var at := FirstNewline(s.pending).value;
    var body, rest := s.pending[..at], s.(pending := s.pending[at + 1..]);
    assert s.pending == body + [NEWLINE] + rest.pending;
    assert Content(s) == body + [NEWLINE] + Content(rest);
    LinesStep(body, Content(rest));
    LinesStep(body, rest.pending);
  }

  lemma GoodSplit(body: Bytes, rest: seq<Bytes>, parse: Bytes -> bool)
    ensures AllGood([body] + rest, parse) <==> Good(body, parse) && AllGood(rest, parse)
  {
    assert forall i :: 0 <= i < |rest| ==> ([body] + rest)[i + 1] == rest[i];
    assert ([body] + rest)[0] == body;
  }

  // ----- accounting over successful calls -----

  function Unlines(bodies: seq<Bytes>): Bytes {
    if bodies == [] then [] else Unlines(bodies[..|bodies| - 1]) + (bodies[|bodies| - 1] + [NEWLINE])
  }

  /** `bodies` is what successive successful calls returned on the way from `start` to `end`. */
  predicate Returned(start: State, bodies: seq<Bytes>, end: State, parse: Bytes -> bool)
    decreases |bodies|
  {
    if bodies == [] then start == end
    else
      var (step, next) := Next(start, parse);
      step == Record(bodies[0]) && Returned(next, bodies[1..], end, parse)
  }

  lemma {:induction false} UnlinesFront(body: Bytes, rest: seq<Bytes>)
    ensures Unlines([body] + rest) == body + [NEWLINE] + Unlines(rest)
  {
    var all := [body] + rest;
    assert Unlines(all) == Unlines(all[..|all| - 1]) + (all[|all| - 1] + [NEWLINE]);
    if rest == [] {
      assert all[..0] == [];
    } else {
      var front, last := rest[..|rest| - 1], rest[|rest| - 1];
      UnlinesFront(body, front);
      assert all[..|all| - 1] == [body] + front;
      assert Unlines(rest) == Unlines(front) + (last + [NEWLINE]);
      hide Unlines;
      Reassociated(body + [NEWLINE], Unlines(front), last + [NEWLINE]);
    }
  }

  lemma Reassociated(a: Bytes, b: Bytes, c: Bytes)
    ensures a + b + c == a + (b + c)
  {
  }

  /** What was read is the returned lines and what is pending; no line nor the pending bytes outgrow the limit. */
  lemma {:induction false} BytesAreAccounted(start: State, bodies: seq<Bytes>, end: State, parse: Bytes -> bool)
    requires |start.pending| <= MAX_RECORD_BYTES && Returned(start, bodies, end, parse)
    ensures Content(start) == Unlines(bodies) + Content(end)
    ensures |end.pending| <= MAX_RECORD_BYTES
    ensures forall i :: 0 <= i < |bodies| ==> |bodies[i]| + 1 <= MAX_RECORD_BYTES
    decreases |bodies|
  {
    if bodies != [] {
      var (step, next) := Next(start, parse);
      hide Next, Unlines, Content, Good, Framed;
      BytesAreAccounted(next, bodies[1..], end, parse);
      UnlinesFront(bodies[0], bodies[1..]);
      Associates(bodies[0] + [NEWLINE], Unlines(bodies[1..]), Content(end));
      assert bodies == [bodies[0]] + bodies[1..];
    }
  }

  lemma Associates(a: Bytes, b: Bytes, c: Bytes)
    ensures a + (b + c) == a + b + c
  {
  }

  // ----- one stream, two chunkings -----

  lemma {:induction false} NoNewlineIn(s: Bytes)
    requires NEWLINE !in s
    ensures FirstNewline(s) == None && Tail(s) == s && Lines(s) == []
  {
  }

  /** `s` as full reads, the last one possibly shorter. */
  function Pieces(s: Bytes): (r: seq<Bytes>)
    ensures Chunked(r) && Flatten(r) == s
    decreases |s|
  {
    if s == [] then []
    else if |s| <= READ_BUFFER_BYTES then
      FlattenUnfolds([s]);
      [s]
    else
      var first, rest := s[..READ_BUFFER_BYTES], Pieces(s[READ_BUFFER_BYTES..]);
      assert ([first] + rest)[1..] == rest;
      [first] + rest
  }

  lemma {:induction false} FlattenAppend(a: seq<Bytes>, b: seq<Bytes>)
    ensures Flatten(a + b) == Flatten(a) + Flatten(b)
    decreases |a|
  {
    if a == [] {
      assert a + b == b;
    } else {
      assert (a + b)[1..] == a[1..] + b;
      FlattenAppend(a[1..], b);
      Associates(a[0], Flatten(a[1..]), Flatten(b));
    }
  }

  lemma {:induction false} TailAgain(s: Bytes)
    ensures Tail(Tail(s)) == Tail(s)
    decreases |s|
  {
    var at := FirstNewline(s);
    if at.Some? {
      TailAgain(s[at.value + 1..]);
    }
  }

  /** Pieces of one unfinished line fit as long as the line does. */
  lemma {:induction false} PiecesFit(line: Bytes, more: Bytes, rest: seq<Bytes>)
    requires NEWLINE !in line + more && |line| + |more| <= MAX_RECORD_BYTES
    ensures ChunksFit(State(line, Pieces(more) + rest)) <==> ChunksFit(State(line + more, rest))
    decreases |more|
  {
    NoNewlineIn(line);
    if more == [] {
      assert Pieces(more) + rest == rest && line + more == line;
    } else {
      var first := if |more| <= READ_BUFFER_BYTES then more else more[..READ_BUFFER_BYTES];
      var later := more[|first|..];
      assert more == first + later && Pieces(more) == [first] + Pieces(later);
      var input := Pieces(more) + rest;
      assert input[0] == first && input[1..] == Pieces(later) + rest;
      assert ChunksFit(State(line, input)) == ChunksFit(State(line + first, Pieces(later) + rest));
      assert line + first + later == line + more;
      PiecesFit(line + first, later, rest);
    }
  }

  /** The read that ends a line fits when the line and the bytes read with its end do. */
  lemma {:induction false} LineEndFits(line: Bytes, more: Bytes, rest: seq<Bytes>)
    requires NEWLINE !in line + more
    ensures ChunksFit(State(line, [[NEWLINE] + more] + rest)) <==>
      |line| + 1 + |more| <= MAX_RECORD_BYTES && ChunksFit(State(more, rest))
  {
    NoNewlineIn(line);
    NoNewlineIn(more);
    var chunk := [NEWLINE] + more;
    var input := [chunk] + rest;
    assert input[0] == chunk && input[1..] == rest;
    assert line + chunk == line + [NEWLINE] + more;
    LinesStep(line, more);
    TailAgain(line + chunk);
    assert Tail(line + chunk) == more;
    if rest != [] {
      assert ChunksFit(State(line + chunk, rest)) == ChunksFit(State(more, rest));
    }
  }

  /** The end of the last line in a read of its own. */
  lemma {:induction false} LastLineFits(start: Bytes, more: Bytes)
    requires NEWLINE !in start + more && |start| + |more| + 1 <= MAX_RECORD_BYTES
    ensures ChunksFit(State(start, Pieces(more) + [[NEWLINE]]))
  {
    PiecesFit(start, more, [[NEWLINE]]);
    assert [NEWLINE] + [] == [NEWLINE] && [[NEWLINE]] + [] == [[NEWLINE]];
    LineEndFits(start + more, [], []);
  }

  lemma TwoLines(long: Bytes, short: Bytes, parse: Bytes -> bool)
    requires Good(long, parse) && Good(short, parse)
    ensures var content := long + [NEWLINE] + (short + [NEWLINE] + []);
      Tail(content) == [] && Lines(content) == [long, short] && AllGood([long, short], parse)
  {
    NoNewlineIn([]);
    LinesStep(long, short + [NEWLINE] + []);
    LinesStep(short, []);
  }

  /** Each line end in a read of its own. */
  function Aligned(long: Bytes, short: Bytes): seq<Bytes> {
    Pieces(long) + ([[NEWLINE] + []] + (Pieces(short) + [[NEWLINE]]))
  }

  /** The same, but the read that ends the first line also brings the next byte. */
  function Shifted(long: Bytes, short: Bytes): seq<Bytes>
    requires short != []
  {
    Pieces(long) + ([[NEWLINE] + short[..1]] + (Pieces(short[1..]) + [[NEWLINE]]))
  }

  lemma SameBytes(long: Bytes, short: Bytes)
    requires short != []
    ensures var content := long + [NEWLINE] + (short + [NEWLINE] + []);
      Flatten(Aligned(long, short)) == content && Flatten(Shifted(long, short)) == content
    ensures Chunked(Aligned(long, short)) && Chunked(Shifted(long, short))
  {
    BytesOf(long, [], short);
    BytesOf(long, short[..1], short[1..]);
    hide *;
    Regroup(long, short, 0);
    Regroup(long, short, 1);
    assert short[..0] == [] && short[0..] == short;
  }

  lemma Regroup(long: Bytes, short: Bytes, early: nat)
    requires early <= |short|
    ensures long + ([NEWLINE] + short[..early] + (short[early..] + [NEWLINE])) == long + [NEWLINE] + (short + [NEWLINE] + [])
  {
    assert short[..early] + short[early..] == short;
  }

  lemma BytesOf(long: Bytes, early: Bytes, late: Bytes)
    requires |early| < READ_BUFFER_BYTES
    ensures var input := Pieces(long) + ([[NEWLINE] + early] + (Pieces(late) + [[NEWLINE]]));
      Chunked(input) && Flatten(input) == long + ([NEWLINE] + early + (late + [NEWLINE]))
  {
    hide Pieces;
    FlattenUnfolds([[NEWLINE]]);
    FlattenUnfolds([[NEWLINE] + early]);
    FlattenAppend(Pieces(late), [[NEWLINE]]);
    FlattenAppend([[NEWLINE] + early], Pieces(late) + [[NEWLINE]]);
    FlattenAppend(Pieces(long), [[NEWLINE] + early] + (Pieces(late) + [[NEWLINE]]));
    assert Flatten([[NEWLINE]]) == [NEWLINE];
  }

  /**
    For every parser, every longest record it accepts and every record after it: the bytes
    read in one way give both records, and with a single byte arriving one read earlier
    they give an error, although the bytes are the same.
  */
  lemma {:induction false} ChunkingDecidesErrors(long: Bytes, short: Bytes, parse: Bytes -> bool)
    requires Good(long, parse) && |long| + 1 == MAX_RECORD_BYTES
    requires Good(short, parse) && |short| + 1 <= MAX_RECORD_BYTES
    ensures var aligned, shifted := State([], Aligned(long, short)), State([], Shifted(long, short));
      && Chunked(aligned.input) && Chunked(shifted.input) && Content(aligned) == Content(shifted)
      && ReadAll(aligned, parse) == Ok([long, short]) && ReadAll(shifted, parse).Err?
  {
    var aligned, shifted := State([], Aligned(long, short)), State([], Shifted(long, short));
    SameBytes(long, short);
    TwoLines(long, short, parse);
    var rest := Pieces(short) + [[NEWLINE]];
    var later := Pieces(short[1..]) + [[NEWLINE]];
    assert [] + long == long && long + [] == long;
    assert NEWLINE !in long + short[..1];
    LastLineFits([], short);
    LineEndFits(long, [], rest);
    PiecesFit([], long, [[NEWLINE] + []] + rest);
    LineEndFits(long, short[..1], later);
    PiecesFit([], long, [[NEWLINE] + short[..1]] + later);
    assert ChunksFit(aligned) && !ChunksFit(shifted);
    assert Content(aligned) == Content(shifted) == long + [NEWLINE] + (short + [NEWLINE] + []);
    hide *;
    RecordsAreLines(aligned, parse);
    ReadsAllIff(aligned, parse);
    ReadsAllIff(shifted, parse);
  }

  /** The bytes of `{"a":"`, of padding and of `"}`. */
  function PaddedRecord(padding: nat): Bytes {
    [OPEN_BRACE, 34, 97, 34, 58, 34] + seq(padding, _ => 120) + [34, CLOSE_BRACE]
  }

  /** Records of the greatest length exist: an object with one padded string. */
  lemma LongestRecordIsFramed()
    ensures Framed(PaddedRecord(MAX_RECORD_BYTES - 9)) && |PaddedRecord(MAX_RECORD_BYTES - 9)| + 1 == MAX_RECORD_BYTES
  {
    var padding: Bytes := seq(MAX_RECORD_BYTES - 9, _ => 120);
    assert RETURN !in padding && NEWLINE !in padding;
  }
}
