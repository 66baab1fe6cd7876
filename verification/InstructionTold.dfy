/**
  What a rendering of workspace instructions says, byte by byte
  (src/workspace_instructions.rs:789-992): which paths and how much of which contents stand
  between the tags, in which order, and when something is cut.
*/
module InstructionTold {
  import opened Wrappers
  import opened ByteText
  import opened InstructionRender

  /** One entry told with the first `n` bytes of its content: its path always, a removal nothing else. */
  function Told(w: Wording, entry: RenderEntry, n: nat): Bytes
    requires n <= |entry.instruction.content|
  {
    var path, content := entry.instruction.displayPath, entry.instruction.content[..n];
    match entry.kind
    case Baseline => w.baselineHead + path + [10, 10] + content
    case ChangeOf(action) =>
      match action
      case Set => w.setHead + path + w.setScope + entry.instruction.scope.directory + w.setTail + content
      case Update => w.updateHead + path + w.updateTail + content
      case Remove => w.removeHead + path + w.removeTail
  }

  function ToldInFull(w: Wording, entry: RenderEntry): Bytes {
    Told(w, entry, |entry.instruction.content|)
  }

  /** Every entry in full and in order, escaped, a blank line between them. */
  function Tale(w: Wording, entries: seq<RenderEntry>): Bytes
    requires entries != []
  {
    Escape(ToldInFull(w, entries[0])) + if |entries| == 1 then [] else [10, 10] + Tale(w, entries[1..])
  }

  /** `p0, p1, ...` */
  function Listed(entries: seq<RenderEntry>): Bytes
    requires entries != []
  {
    entries[0].instruction.displayPath + if |entries| == 1 then [] else [44, 32] + Listed(entries[1..])
  }

  function Budget(w: Wording, maxBytes: nat): Bytes {
    w.budgetHead + Decimal(maxBytes) + w.budgetTail
  }

  function Introduced(intro: Option<Bytes>): Bytes {
    if intro.None? || intro.value == [] then [] else Escape(intro.value) + [10, 10]
  }

  /** The entries from `start` on, after the names of those left out. */
  function Uncut(w: Wording, entries: seq<RenderEntry>, intro: Option<Bytes>, maxBytes: nat, start: nat): Bytes
    requires start < |entries|
  {
    OPEN
    + (if start == 0 then [] else Escape(Budget(w, maxBytes) + w.omitted + Listed(entries[..start])) + [10, 10])
    + Introduced(intro)
    + Tale(w, entries[start..])
    + [10] + CLOSING_TAG
  }

  /** What a cut rendering reports: the names left out, and how much of the last content is there. */
  function CutNote(w: Wording, entries: seq<RenderEntry>, maxBytes: nat, n: nat): Bytes
    requires entries != []
  {
    var others, last := entries[..|entries| - 1], entries[|entries| - 1].instruction;
    Budget(w, maxBytes)
    + (if others == [] then [] else w.omitted + Listed(others) + [59, 32])
    + w.truncated + last.displayPath + w.from + Decimal(|last.content|) + w.to + [32] + Decimal(n) + [32] + w.bytes
  }

  /** Only the last entry, with the first `n` bytes of its content. */
  function Cut(w: Wording, entries: seq<RenderEntry>, intro: Option<Bytes>, maxBytes: nat, n: nat): Bytes
    requires entries != [] && n <= |entries[|entries| - 1].instruction.content|
  {
    OPEN
    + Escape(CutNote(w, entries, maxBytes, n)) + [10, 10]
    + Introduced(intro)
    + Escape(Told(w, entries[|entries| - 1], n))
    + [10] + CLOSING_TAG
  }

  // ----- escaping the blocks one by one -----

  function EscapedBlocks(blocks: seq<Bytes>): Bytes
    requires blocks != []
  {
    Escape(blocks[0]) + if |blocks| == 1 then [] else [10, 10] + EscapedBlocks(blocks[1..])
  }

  lemma ReplaceApart(a: Bytes, b: Bytes, tag: Bytes, escaped: Bytes)
    requires tag != [] && NEWLINE !in tag
    ensures Replace(a + BLANK_LINE + b, tag, escaped) == Replace(a, tag, escaped) + BLANK_LINE + Replace(b, tag, escaped)
  {
    assert Replace([], tag, escaped) == [];
    hide Replace;
    ReplaceSplits(a, NEWLINE, [NEWLINE] + b, tag, escaped);
    ReplaceSplits([], NEWLINE, b, tag, escaped);
    assert a + [NEWLINE] + ([NEWLINE] + b) == a + BLANK_LINE + b;
    assert [] + [NEWLINE] + b == [NEWLINE] + b;
  }

  lemma EscapeApart(a: Bytes, b: Bytes)
    ensures Escape(a + BLANK_LINE + b) == Escape(a) + [10, 10] + Escape(b)
  {
    TagFacts();
    ReplaceApart(a, b, CLOSING_TAG, ESCAPED_TAG);
  }

  lemma {:induction false} EscapeJoined(blocks: seq<Bytes>)
    requires blocks != []
    ensures Escape(Join(blocks, BLANK_LINE)) == EscapedBlocks(blocks)
  {
    hide Escape;
    if |blocks| > 1 {
      EscapeApart(blocks[0], Join(blocks[1..], BLANK_LINE));
      EscapeJoined(blocks[1..]);
      Associates(Escape(blocks[0]), [10, 10], EscapedBlocks(blocks[1..]));
    }
  }

  lemma Associates(a: Bytes, b: Bytes, c: Bytes)
    ensures a + b + c == a + (b + c)
  {
  }

  lemma BlocksCons(first: Bytes, rest: seq<Bytes>)
    requires rest != []
    ensures EscapedBlocks([first] + rest) == Escape(first) + ([10, 10] + EscapedBlocks(rest))
  {
    hide Escape;
    assert ([first] + rest)[1..] == rest;
  }

  lemma {:induction false} SectionsTell(w: Wording, entries: seq<RenderEntry>)
    requires entries != []
    ensures Sections(w, entries) != [] && EscapedBlocks(Sections(w, entries)) == Tale(w, entries)
  {
    SectionTells(w, entries[0]);
    hide Escape, SectionText, Told, ToldInFull;
    if |entries| > 1 {
      SectionsTell(w, entries[1..]);
      BlocksCons(SectionText(w, entries[0]), Sections(w, entries[1..]));
    } else {
      assert Sections(w, entries) == [SectionText(w, entries[0])];
    }
  }

  lemma SectionTells(w: Wording, entry: RenderEntry)
    ensures SectionText(w, entry) == ToldInFull(w, entry)
  {
    assert entry.instruction.content[..|entry.instruction.content|] == entry.instruction.content;
  }

  /** The frame, the report of what is missing, the introduction and the sections, each escaped by itself. */
  lemma BuiltTells(w: Wording, entries: seq<RenderEntry>, intro: Option<Bytes>, maxBytes: nat, omitted: seq<Bytes>, truncated: seq<Truncation>)
    requires entries != []
    ensures var marker := BudgetMarker(w, maxBytes, omitted, truncated);
      BuildText(w, entries, intro, maxBytes, omitted, truncated) ==
        OPEN + (if marker == [] then [] else Escape(marker) + [10, 10]) + Introduced(intro) + Tale(w, entries) + [10] + CLOSING_TAG
  {
    var marker := BudgetMarker(w, maxBytes, omitted, truncated);
    var sections := Sections(w, entries);
    SectionsTell(w, entries);
    var introduced := (if intro.None? || intro.value == [] then [] else [intro.value]) + sections;
    var blocks := (if marker == [] then [] else [marker]) + introduced;
    assert blocks == (if marker == [] then [] else [marker]) + (if intro.None? || intro.value == [] then [] else [intro.value]) + sections;
    assert BuildText(w, entries, intro, maxBytes, omitted, truncated) == Frame(Join(blocks, BLANK_LINE));
    EscapeJoined(blocks);
    assert NEWLINE == 10;
    FrameIs(Join(blocks, BLANK_LINE));
    hide *;
    IntroducedBlocks(intro, sections);
    MarkedBlocks(marker, introduced);
    FrameApart(if marker == [] then [] else Escape(marker) + [10, 10], Introduced(intro), Tale(w, entries));
  }

  lemma FrameIs(body: Bytes)
    ensures Frame(body) == OPEN + (Escape(body) + ([10] + CLOSING_TAG))
  {
  }

  lemma IntroducedBlocks(intro: Option<Bytes>, sections: seq<Bytes>)
    requires sections != []
    ensures var introduced := (if intro.None? || intro.value == [] then [] else [intro.value]) + sections;
      introduced != [] && EscapedBlocks(introduced) == Introduced(intro) + EscapedBlocks(sections)
  {
    hide Escape, EscapedBlocks;
    if intro.None? || intro.value == [] {
      assert [] + sections == sections;
    } else {
      BlocksCons(intro.value, sections);
      Associates(Escape(intro.value), [10, 10], EscapedBlocks(sections));
    }
  }

  lemma MarkedBlocks(marker: Bytes, rest: seq<Bytes>)
    requires rest != []
    ensures var blocks := (if marker == [] then [] else [marker]) + rest;
      blocks != [] && EscapedBlocks(blocks) == (if marker == [] then [] else Escape(marker) + [10, 10]) + EscapedBlocks(rest)
  {
    hide Escape, EscapedBlocks;
    if marker == [] {
      assert [] + rest == rest;
    } else {
      BlocksCons(marker, rest);
      Associates(Escape(marker), [10, 10], EscapedBlocks(rest));
    }
  }

  lemma FrameApart(a: Bytes, b: Bytes, c: Bytes)
    ensures OPEN + ((a + (b + c)) + ([10] + CLOSING_TAG)) == OPEN + a + b + c + [10] + CLOSING_TAG
  {
    var open, close := OPEN, CLOSING_TAG;
    FiveApart(open, a, b, c, close);
  }

  lemma FiveApart(open: Bytes, a: Bytes, b: Bytes, c: Bytes, close: Bytes)
    ensures open + ((a + (b + c)) + ([10] + close)) == open + a + b + c + [10] + close
  {
  }

  // ----- the report of what is missing -----

  lemma {:induction false} PathsListed(entries: seq<RenderEntry>)
    requires entries != []
    ensures Paths(entries) != [] && Join(Paths(entries), COMMA) == Listed(entries)
  {
    if |entries| > 1 {
      PathsListed(entries[1..]);
      assert Paths(entries)[1..] == Paths(entries[1..]);
    } else {
      assert Paths(entries[1..]) == [] && Paths(entries) == [entries[0].instruction.displayPath];
    }
  }

  lemma OmittedMarker(w: Wording, entries: seq<RenderEntry>, maxBytes: nat)
    ensures BudgetMarker(w, maxBytes, Paths(entries), []) ==
      if entries == [] then [] else Budget(w, maxBytes) + w.omitted + Listed(entries)
    ensures entries != [] ==> BudgetMarker(w, maxBytes, Paths(entries), []) != []
  {
    if entries != [] {
      PathsListed(entries);
      var fact := w.omitted + Join(Paths(entries), COMMA);
      assert [fact] + [] == [fact] && Join([fact], SEMICOLON) == fact;
      assert Decimal(maxBytes) != [];
      assert Budget(w, maxBytes) + fact == Budget(w, maxBytes) + w.omitted + Listed(entries);
    }
  }

  lemma CutMarker(w: Wording, entries: seq<RenderEntry>, maxBytes: nat, n: nat)
    requires entries != []
    ensures var others, last := entries[..|entries| - 1], entries[|entries| - 1];
      var marker := BudgetMarker(w, maxBytes, Paths(others), [Truncation(last.instruction.displayPath, |last.instruction.content|, n)]);
      marker == CutNote(w, entries, maxBytes, n) && marker != []
  {
    var others, last := entries[..|entries| - 1], entries[|entries| - 1];
    CutMarkerShape(w, last, maxBytes, Paths(others), n);
    CutLeadIs(w, last, maxBytes, others);
    hide BudgetMarker, Paths, Listed, Decimal, CutLead;
    assert CutNote(w, entries, maxBytes, n) == CutLead(w, last, maxBytes, Paths(others)) + [SPACE] + Decimal(n) + [SPACE] + w.bytes;
  }

  lemma CutLeadIs(w: Wording, last: RenderEntry, maxBytes: nat, others: seq<RenderEntry>)
    ensures CutLead(w, last, maxBytes, Paths(others)) ==
      Budget(w, maxBytes) + (if others == [] then [] else w.omitted + Listed(others) + [59, 32])
      + w.truncated + last.instruction.displayPath + w.from + Decimal(|last.instruction.content|) + w.to
  {
    if others != [] {
      PathsListed(others);
    }
    assert Paths(others) == [] <==> others == [];
    hide Paths, Listed, Decimal;
  }

  // ----- the two texts -----

  lemma UncutIs(w: Wording, entries: seq<RenderEntry>, intro: Option<Bytes>, maxBytes: nat, start: nat)
    requires start < |entries|
    ensures SuffixText(w, entries, intro, maxBytes, start) == Uncut(w, entries, intro, maxBytes, start)
  {
    OmittedMarker(w, entries[..start], maxBytes);
    BuiltTells(w, entries[start..], intro, maxBytes, Paths(entries[..start]), []);
    hide BudgetMarker, BuildText, Escape, Tale, Listed, Paths, Introduced, Budget;
  }

  lemma CutIs(w: Wording, entries: seq<RenderEntry>, intro: Option<Bytes>, maxBytes: nat, n: nat)
    requires entries != [] && n <= |entries[|entries| - 1].instruction.content|
    ensures CutText(w, entries[|entries| - 1], intro, maxBytes, Paths(entries[..|entries| - 1]), n) == Cut(w, entries, intro, maxBytes, n)
  {
    var last := entries[|entries| - 1];
    var content := last.instruction.content;
    var shorter := last.(instruction := last.instruction.(content := content[..n]));
    var others, cut := Paths(entries[..|entries| - 1]), [Truncation(last.instruction.displayPath, |content|, n)];
    assert CutText(w, last, intro, maxBytes, others, n) == BuildText(w, [shorter], intro, maxBytes, others, cut);
    OneTold(w, last, n);
    CutIsFormula(w, entries, intro, maxBytes, n);
    hide *;
    CutMarker(w, entries, maxBytes, n);
    BuiltTells(w, [shorter], intro, maxBytes, others, cut);
  }

  lemma OneTold(w: Wording, last: RenderEntry, n: nat)
    requires n <= |last.instruction.content|
    ensures var shorter := last.(instruction := last.instruction.(content := last.instruction.content[..n]));
      Tale(w, [shorter]) == Escape(Told(w, last, n))
  {
    var content := last.instruction.content;
    assert content[..n][..n] == content[..n];
    hide Escape;
  }

  lemma CutIsFormula(w: Wording, entries: seq<RenderEntry>, intro: Option<Bytes>, maxBytes: nat, n: nat)
    requires entries != [] && n <= |entries[|entries| - 1].instruction.content|
    ensures Cut(w, entries, intro, maxBytes, n) ==
      OPEN + (Escape(CutNote(w, entries, maxBytes, n)) + [10, 10]) + Introduced(intro)
      + Escape(Told(w, entries[|entries| - 1], n)) + [10] + CLOSING_TAG
  {
    hide Escape, CutNote, Introduced, Told;
    Associates(OPEN, Escape(CutNote(w, entries, maxBytes, n)), [10, 10]);
  }

  // ----- what is rendered -----

  predicate UncutFits(w: Wording, entries: seq<RenderEntry>, intro: Option<Bytes>, maxBytes: nat, start: nat)
    requires start < |entries|
  {
    |Uncut(w, entries, intro, maxBytes, start)| <= maxBytes
  }

  predicate CutToFits(w: Wording, entries: seq<RenderEntry>, intro: Option<Bytes>, maxBytes: nat, n: nat)
    requires entries != [] && n <= |entries[|entries| - 1].instruction.content|
  {
    |Cut(w, entries, intro, maxBytes, n)| <= maxBytes
  }

  /** `n` is the longest cut at a character boundary that fits. */
  predicate IsLongestCut(w: Wording, entries: seq<RenderEntry>, intro: Option<Bytes>, maxBytes: nat, n: nat)
    requires entries != []
  {
    var content := entries[|entries| - 1].instruction.content;
    && n <= |content| && IsBoundary(content, n) && CutToFits(w, entries, intro, maxBytes, n)
    && forall k :: n < k <= |content| && IsBoundary(content, k) ==> !CutToFits(w, entries, intro, maxBytes, k)
  }

  /** No cut fits, not even one without content. */
  predicate NoCutFits(w: Wording, entries: seq<RenderEntry>, intro: Option<Bytes>, maxBytes: nat)
    requires entries != []
  {
    forall k :: 0 <= k <= |entries[|entries| - 1].instruction.content| ==> !CutToFits(w, entries, intro, maxBytes, k)
  }

  lemma UncutFitsIff(w: Wording, entries: seq<RenderEntry>, intro: Option<Bytes>, maxBytes: nat, start: nat)
    requires start < |entries|
    ensures UncutFits(w, entries, intro, maxBytes, start) <==> |SuffixText(w, entries, intro, maxBytes, start)| <= maxBytes
  {
    hide SuffixText, Uncut;
    UncutIs(w, entries, intro, maxBytes, start);
  }

  /** The longest suffix that fits, told in full: exactly that, with its indices. */
  lemma {:induction false} UncutRendering(w: Wording, entries: seq<RenderEntry>, maxBytes: nat, intro: Option<Bytes>, start: nat)
    requires maxBytes > 0 && start < |entries| && UncutFits(w, entries, intro, maxBytes, start)
    requires forall s :: 0 <= s < start ==> !UncutFits(w, entries, intro, maxBytes, s)
    ensures var r := Render(w, entries, maxBytes, intro);
      && r.text == Uncut(w, entries, intro, maxBytes, start)
      && |r.represented| == |entries| - start && forall i :: 0 <= i < |r.represented| ==> r.represented[i] == start + i
  {
    hide SuffixText, Uncut, CutLast, BudgetMarker, UncutFits;
    forall s | 0 <= s <= start ensures |SuffixText(w, entries, intro, maxBytes, s)| <= maxBytes <==> s == start {
      UncutFitsIff(w, entries, intro, maxBytes, s);
    }
    UncutIs(w, entries, intro, maxBytes, start);
    FirstFittingIsFirst(w, entries, intro, maxBytes, 1);
  }

  lemma CutFitsIff(w: Wording, entries: seq<RenderEntry>, intro: Option<Bytes>, maxBytes: nat, k: nat)
    requires entries != [] && k <= |entries[|entries| - 1].instruction.content|
    ensures CutFits(w, entries[|entries| - 1], intro, maxBytes, Paths(entries[..|entries| - 1]), k) <==> CutToFits(w, entries, intro, maxBytes, k)
  {
    CutIs(w, entries, intro, maxBytes, k);
    hide CutText, Cut;
  }

  /** When nothing fits without content, nothing fits with some. */
  lemma NothingFits(w: Wording, entries: seq<RenderEntry>, intro: Option<Bytes>, maxBytes: nat)
    requires entries != [] && !CutToFits(w, entries, intro, maxBytes, 0)
    ensures NoCutFits(w, entries, intro, maxBytes)
  {
    hide CutFits, CutToFits;
    var last, omitted := entries[|entries| - 1], Paths(entries[..|entries| - 1]);
    forall k | 0 <= k <= |last.instruction.content| ensures !CutToFits(w, entries, intro, maxBytes, k) {
      CutFitsIff(w, entries, intro, maxBytes, 0);
      CutFitsIff(w, entries, intro, maxBytes, k);
      CutFitsGrows(w, last, intro, maxBytes, omitted, k);
    }
  }

  lemma CutFitsGrows(w: Wording, last: RenderEntry, intro: Option<Bytes>, maxBytes: nat, omitted: seq<Bytes>, k: nat)
    requires k <= |last.instruction.content|
    ensures CutFits(w, last, intro, maxBytes, omitted, k) ==> CutFits(w, last, intro, maxBytes, omitted, 0)
  {
    hide CutText;
    CutTextGrows(w, last, intro, maxBytes, omitted, 0, k);
  }

  lemma CutLastIs(w: Wording, entries: seq<RenderEntry>, intro: Option<Bytes>, maxBytes: nat) returns (best: nat)
    requires entries != []
    ensures var last, omitted := entries[|entries| - 1], Paths(entries[..|entries| - 1]);
      && best == LongestCut(w, last, intro, maxBytes, omitted, |last.instruction.content|)
      && CutLast(w, entries, intro, maxBytes) ==
           if CutToFits(w, entries, intro, maxBytes, best) then Some(CutRendered(w, entries, intro, maxBytes, best)) else None
  {
    var last, omitted := entries[|entries| - 1], Paths(entries[..|entries| - 1]);
    best := LongestCut(w, last, intro, maxBytes, omitted, |last.instruction.content|);
    CutFitsIff(w, entries, intro, maxBytes, best);
    CutIs(w, entries, intro, maxBytes, best);
    hide CutText, Cut, CutFits, CutToFits, LongestCut;
  }

  lemma {:induction false} CutUnderIs(w: Wording, entries: seq<RenderEntry>, intro: Option<Bytes>, maxBytes: nat)
    requires entries != []
    ensures var cut := CutLast(w, entries, intro, maxBytes);
      var last := entries[|entries| - 1];
      && (cut.None? ==> NoCutFits(w, entries, intro, maxBytes))
      && (cut.Some? ==> exists n :: IsLongestCut(w, entries, intro, maxBytes, n) && cut.value == CutRendered(w, entries, intro, maxBytes, n))
  {
    hide CutFits, CutToFits, CutLast, LongestCut, CutRendered, NoCutFits;
    var last, omitted := entries[|entries| - 1], Paths(entries[..|entries| - 1]);
    var content := last.instruction.content;
    var best := CutLastIs(w, entries, intro, maxBytes);
    LongestCutIsLongest(w, last, intro, maxBytes, omitted, |content|);
    if CutToFits(w, entries, intro, maxBytes, best) {
      forall k | best < k <= |content| && IsBoundary(content, k) ensures !CutToFits(w, entries, intro, maxBytes, k) {
        CutFitsIff(w, entries, intro, maxBytes, k);
      }
      assert IsLongestCut(w, entries, intro, maxBytes, best);
    } else {
      CutFitsIff(w, entries, intro, maxBytes, best);
      assert best == 0;
      NothingFits(w, entries, intro, maxBytes);
    }
  }

  /** A cut rendering: the last entry counts as represented when some of its content is there, or it has none. */
  function CutRendered(w: Wording, entries: seq<RenderEntry>, intro: Option<Bytes>, maxBytes: nat, n: nat): Rendered
    requires entries != [] && n <= |entries[|entries| - 1].instruction.content|
  {
    var last := entries[|entries| - 1];
    Rendered(Cut(w, entries, intro, maxBytes, n),
             if n > 0 || last.instruction.content == [] || last.kind == ChangeOf(Remove) then [|entries| - 1] else [])
  }

  /**
    When not even the last entry fits in full, it is cut to the longest prefix that fits
    under the introduction, or under the short one; failing that only a prefix of the
    report is left, and nothing is represented.
  */
  lemma {:induction false} CutRendering(w: Wording, entries: seq<RenderEntry>, maxBytes: nat, intro: Option<Bytes>)
    requires maxBytes > 0 && entries != []
    requires forall s :: 0 <= s < |entries| ==> !UncutFits(w, entries, intro, maxBytes, s)
    ensures var r := Render(w, entries, maxBytes, intro);
      var compact := Some(w.compactIntro);
      if !NoCutFits(w, entries, intro, maxBytes) then
        exists n :: IsLongestCut(w, entries, intro, maxBytes, n) && r == CutRendered(w, entries, intro, maxBytes, n)
      else if !NoCutFits(w, entries, compact, maxBytes) then
        exists n :: IsLongestCut(w, entries, compact, maxBytes, n) && r == CutRendered(w, entries, compact, maxBytes, n)
      else
        var note := Escape(CutNote(w, entries, maxBytes, 0));
        r == Rendered(note[..Floor(note, maxBytes)], [])
  {
    hide SuffixText, Uncut, CutLast, UncutFits;
    forall s | 0 <= s < |entries| ensures |SuffixText(w, entries, intro, maxBytes, s)| > maxBytes {
      UncutFitsIff(w, entries, intro, maxBytes, s);
    }
    FirstFittingIsFirst(w, entries, intro, maxBytes, 1);
    CutUnderIs(w, entries, intro, maxBytes);
    CutUnderIs(w, entries, Some(w.compactIntro), maxBytes);
    CutMarker(w, entries, maxBytes, 0);
    LongestIsSome(w, entries, intro, maxBytes);
    LongestIsSome(w, entries, Some(w.compactIntro), maxBytes);
    hide BudgetMarker, CutNote, Escape, CutRendered, IsLongestCut, NoCutFits, UncutFits;
  }

  lemma LongestIsSome(w: Wording, entries: seq<RenderEntry>, intro: Option<Bytes>, maxBytes: nat)
    requires entries != []
    ensures (exists n :: IsLongestCut(w, entries, intro, maxBytes, n)) ==> !NoCutFits(w, entries, intro, maxBytes)
  {
    hide CutToFits;
  }

  /** Nothing to tell: the introduction alone, cut at a character boundary when it is too long. */
  lemma EmptyRendering(w: Wording, maxBytes: nat, intro: Option<Bytes>)
    requires maxBytes > 0
    ensures var framed := OPEN + (if intro.None? then [] else Escape(intro.value)) + [10] + CLOSING_TAG;
      Render(w, [], maxBytes, intro) == Rendered(if |framed| <= maxBytes then framed else framed[..Floor(framed, maxBytes)], [])
  {
    var body := if intro.None? then [] else intro.value;
    EmptyBody(w, maxBytes, intro);
    FrameIs(body);
    assert Escape([]) == [];
    var text := SuffixText(w, [], intro, maxBytes, 0);
    assert Render(w, [], maxBytes, intro) == Rendered(if |text| <= maxBytes then text else text[..Floor(text, maxBytes)], []) by {
      assert Range(0, 0) == [];
      hide SuffixText, Floor;
    }
    hide *;
    FrameOf(if intro.None? then [] else Escape(intro.value));
  }

  lemma FrameOf(escaped: Bytes)
    ensures OPEN + (escaped + ([10] + CLOSING_TAG)) == OPEN + escaped + [10] + CLOSING_TAG
  {
    var open, close := OPEN, CLOSING_TAG;
    ThreeApart(open, escaped, close);
  }

  lemma ThreeApart(open: Bytes, escaped: Bytes, close: Bytes)
    ensures open + (escaped + ([10] + close)) == open + escaped + [10] + close
  {
  }

  lemma EmptyBody(w: Wording, maxBytes: nat, intro: Option<Bytes>)
    ensures SuffixText(w, [], intro, maxBytes, 0) == Frame(if intro.None? then [] else intro.value)
  {
    hide Frame;
    var none: seq<RenderEntry> := [];
    var blocks: seq<Bytes> := [];
    assert none[0..] == [] && none[..0] == [];
    assert Sections(w, []) == [] && Paths([]) == [];
    assert BudgetMarker(w, maxBytes, [], []) == [];
    if intro.Some? && intro.value != [] {
      assert blocks + [intro.value] + [] == [intro.value];
      assert Join([intro.value], BLANK_LINE) == intro.value;
    } else {
      assert blocks + [] + [] == [];
      assert Join([], BLANK_LINE) == [];
    }
  }

  // ----- where a content stands -----

  /** What is told of the entries before the `i`th, with the blank line after each. */
  function TaleBefore(w: Wording, entries: seq<RenderEntry>, i: nat): Bytes
    requires i < |entries|
  {
    if i == 0 then [] else Escape(ToldInFull(w, entries[0])) + [10, 10] + TaleBefore(w, entries[1..], i - 1)
  }

  lemma {:induction false} TaleSplits(w: Wording, entries: seq<RenderEntry>, i: nat) returns (after: Bytes)
    requires i < |entries|
    ensures Tale(w, entries) == TaleBefore(w, entries, i) + Escape(ToldInFull(w, entries[i])) + after
    ensures after == if i + 1 < |entries| then [10, 10] + Tale(w, entries[i + 1..]) else []
  {
    hide Escape, ToldInFull;
    if i == 0 {
      after := if |entries| == 1 then [] else [10, 10] + Tale(w, entries[1..]);
    } else {
      after := TaleSplits(w, entries[1..], i - 1);
      assert entries[1..][i..] == entries[i + 1..];
      var first, before, here := Escape(ToldInFull(w, entries[0])), TaleBefore(w, entries[1..], i - 1), Escape(ToldInFull(w, entries[i]));
      Regroup(first, before, here, after);
    }
  }

  lemma Regroup(first: Bytes, before: Bytes, here: Bytes, after: Bytes)
    ensures first + ([10, 10] + (before + here + after)) == (first + [10, 10] + before) + here + after
  {
  }

  /**
    In an uncut rendering every represented entry stands in full: its escaped path and
    content occur at a place of their own, later for later entries, and behind the last of
    them only the closing tag follows.
  */
  lemma {:induction false} ContentStands(w: Wording, entries: seq<RenderEntry>, maxBytes: nat, intro: Option<Bytes>, start: nat, i: nat)
      returns (before: Bytes, after: Bytes)
    requires maxBytes > 0 && start <= i < |entries| && UncutFits(w, entries, intro, maxBytes, start)
    requires forall s :: 0 <= s < start ==> !UncutFits(w, entries, intro, maxBytes, s)
    ensures Render(w, entries, maxBytes, intro).text == before + Escape(ToldInFull(w, entries[i])) + after
    ensures |before| == |Render(w, entries, maxBytes, intro).text| - |Tale(w, entries[i..])| - |CLOSING_TAG| - 1
    ensures i == |entries| - 1 ==> after == [10] + CLOSING_TAG
  {
    hide *;
    UncutRendering(w, entries, maxBytes, intro, start);
    UncutLead(w, entries, intro, maxBytes, start);
    TaleTail(w, entries, i);
    var rest := TaleSplits(w, entries[start..], i - start);
    assert entries[start..][i - start] == entries[i] && entries[start..][i - start + 1..] == entries[i + 1..];
    before, after := Assembled(Lead(w, entries, intro, maxBytes, start), TaleBefore(w, entries[start..], i - start),
                               Escape(ToldInFull(w, entries[i])), rest, CLOSING_TAG);
  }

  lemma Assembled(lead: Bytes, told: Bytes, here: Bytes, rest: Bytes, close: Bytes) returns (before: Bytes, after: Bytes)
    ensures lead + (told + here + rest) + [10] + close == before + here + after
    ensures before == lead + told && after == rest + [10] + close && (rest == [] ==> after == [10] + close)
    ensures |before| == |lead + (told + here + rest) + [10] + close| - |here + rest| - |close| - 1
  {
    before, after := lead + told, rest + [10] + close;
  }

  function Lead(w: Wording, entries: seq<RenderEntry>, intro: Option<Bytes>, maxBytes: nat, start: nat): Bytes
    requires start < |entries|
  {
    OPEN + (if start == 0 then [] else Escape(Budget(w, maxBytes) + w.omitted + Listed(entries[..start])) + [10, 10]) + Introduced(intro)
  }

  lemma UncutLead(w: Wording, entries: seq<RenderEntry>, intro: Option<Bytes>, maxBytes: nat, start: nat)
    requires start < |entries|
    ensures Uncut(w, entries, intro, maxBytes, start) ==
      Lead(w, entries, intro, maxBytes, start) + Tale(w, entries[start..]) + [10] + CLOSING_TAG
  {
    hide Escape, Tale, Listed, Introduced, Budget;
  }

  lemma TaleTail(w: Wording, entries: seq<RenderEntry>, i: nat)
    requires i < |entries|
    ensures Tale(w, entries[i..]) ==
      Escape(ToldInFull(w, entries[i])) + if i + 1 < |entries| then [10, 10] + Tale(w, entries[i + 1..]) else []
  {
    hide Escape, ToldInFull;
    assert entries[i..][0] == entries[i] && entries[i..][1..] == entries[i + 1..];
  }
}
