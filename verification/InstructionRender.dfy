/**
  Fitting workspace instructions into a byte budget
  (src/workspace_instructions.rs:789-992).  The prompt wording is a parameter,
  so every result holds for every wording.
*/
module InstructionRender {
  import opened Wrappers
  import opened ByteText

  datatype ChangeAction = Set | Update | Remove

  datatype Scope = Scope(directory: Bytes, candidate: Bytes)

  datatype Instruction = Instruction(scope: Scope, displayPath: Bytes, content: Bytes, digest: Bytes)

  datatype RenderKind = Baseline | ChangeOf(action: ChangeAction)

  datatype RenderEntry = RenderEntry(instruction: Instruction, kind: RenderKind)

  datatype Rendered = Rendered(text: Bytes, represented: seq<nat>)

  datatype Truncation = Truncation(path: Bytes, original: nat, included: nat)

  /** The fixed phrases around paths, directories and contents. */
  datatype Wording = Wording(
    compactIntro: Bytes, baselineHead: Bytes, setHead: Bytes, setScope: Bytes, setTail: Bytes,
    updateHead: Bytes, updateTail: Bytes, removeHead: Bytes, removeTail: Bytes,
    budgetHead: Bytes, budgetTail: Bytes, omitted: Bytes, truncated: Bytes, from: Bytes, to: Bytes, bytes: Bytes)

  const BLANK_LINE: Bytes := [10, 10]
  const COMMA: Bytes := [44, 32]
  const SEMICOLON: Bytes := [59, 32]
  const SPACE: byte := 32

  // ----- one rendered text -----

  function SectionHead(w: Wording, entry: RenderEntry): Bytes {
    var path := entry.instruction.displayPath;
    match entry.kind
    case Baseline => w.baselineHead + path + BLANK_LINE
    case ChangeOf(Set) => w.setHead + path + w.setScope + entry.instruction.scope.directory + w.setTail
    case ChangeOf(Update) => w.updateHead + path + w.updateTail
    case ChangeOf(Remove) => w.removeHead + path + w.removeTail
  }

  function SectionText(w: Wording, entry: RenderEntry): Bytes {
    SectionHead(w, entry) + if entry.kind == ChangeOf(Remove) then [] else entry.instruction.content
  }

  function Sections(w: Wording, entries: seq<RenderEntry>): seq<Bytes> {
    if entries == [] then [] else [SectionText(w, entries[0])] + Sections(w, entries[1..])
  }

  function TruncatedFact(w: Wording, t: Truncation): Bytes {
    t.path + w.from + Decimal(t.original) + w.to + [SPACE] + Decimal(t.included) + [SPACE] + w.bytes
  }

  function TruncatedFacts(w: Wording, truncated: seq<Truncation>): seq<Bytes> {
    if truncated == [] then [] else [TruncatedFact(w, truncated[0])] + TruncatedFacts(w, truncated[1..])
  }

  function BudgetMarker(w: Wording, maxBytes: nat, omitted: seq<Bytes>, truncated: seq<Truncation>): Bytes {
    var facts :=
      (if omitted == [] then [] else [w.omitted + Join(omitted, COMMA)]) +
      (if truncated == [] then [] else [w.truncated + Join(TruncatedFacts(w, truncated), COMMA)]);
    if facts == [] then []
    else w.budgetHead + Decimal(maxBytes) + w.budgetTail + Join(facts, SEMICOLON)
  }

  function Body(w: Wording, entries: seq<RenderEntry>, intro: Option<Bytes>, maxBytes: nat,
                omitted: seq<Bytes>, truncated: seq<Truncation>): Bytes
  {
    var marker := BudgetMarker(w, maxBytes, omitted, truncated);
    Join((if marker == [] then [] else [marker]) +
         (if intro.None? || intro.value == [] then [] else [intro.value]) +
         Sections(w, entries), BLANK_LINE)
  }

  function BuildText(w: Wording, entries: seq<RenderEntry>, intro: Option<Bytes>, maxBytes: nat,
                     omitted: seq<Bytes>, truncated: seq<Truncation>): Bytes
  {
    Frame(Body(w, entries, intro, maxBytes, omitted, truncated))
  }

  function Paths(entries: seq<RenderEntry>): seq<Bytes> {
    if entries == [] then [] else [entries[0].instruction.displayPath] + Paths(entries[1..])
  }

  // ----- the simple form: linear searches -----

  /** The suffix of `entries` starting at `start`, the rest named as omitted. */
  function SuffixText(w: Wording, entries: seq<RenderEntry>, intro: Option<Bytes>, maxBytes: nat, start: nat): Bytes
    requires start <= |entries|
  {
    BuildText(w, entries[start..], intro, maxBytes, Paths(entries[..start]), [])
  }

  /** The longest suffix that fits, from `start` upwards. */
  function FirstFitting(w: Wording, entries: seq<RenderEntry>, intro: Option<Bytes>, maxBytes: nat, start: nat)
    : (r: Option<nat>)
    requires start <= |entries|
    ensures r.Some? ==> start <= r.value < |entries|
    decreases |entries| - start
  {
    if start == |entries| then None
    else if |SuffixText(w, entries, intro, maxBytes, start)| <= maxBytes then Some(start)
    else FirstFitting(w, entries, intro, maxBytes, start + 1)
  }

  lemma {:induction false} FirstFittingIsFirst(w: Wording, entries: seq<RenderEntry>, intro: Option<Bytes>, maxBytes: nat, start: nat)
    requires start <= |entries|
    ensures var r := FirstFitting(w, entries, intro, maxBytes, start);
      && (r.Some? ==> start <= r.value < |entries| && |SuffixText(w, entries, intro, maxBytes, r.value)| <= maxBytes)
      && (forall s :: start <= s < (if r.Some? then r.value else |entries|) ==>
            maxBytes < |SuffixText(w, entries, intro, maxBytes, s)|)
    decreases |entries| - start
  {
    hide SuffixText;
    if start < |entries| {
      FirstFittingIsFirst(w, entries, intro, maxBytes, start + 1);
    }
  }

  /** Only the last entry, its content cut after `included` bytes. */
  function CutText(w: Wording, last: RenderEntry, intro: Option<Bytes>, maxBytes: nat, omitted: seq<Bytes>, included: nat): Bytes
    requires included <= |last.instruction.content|
  {
    var content := last.instruction.content;
    var cut := last.(instruction := last.instruction.(content := content[..included]));
    BuildText(w, [cut], intro, maxBytes, omitted, [Truncation(last.instruction.displayPath, |content|, included)])
  }

  predicate CutFits(w: Wording, last: RenderEntry, intro: Option<Bytes>, maxBytes: nat, omitted: seq<Bytes>, included: nat)
    requires included <= |last.instruction.content|
  {
    |CutText(w, last, intro, maxBytes, omitted, included)| <= maxBytes
  }

  /** The longest cut at a character boundary, not beyond `limit`, that fits; 0 when none does. */
  function LongestCut(w: Wording, last: RenderEntry, intro: Option<Bytes>, maxBytes: nat, omitted: seq<Bytes>, limit: nat): (r: nat)
    requires limit <= |last.instruction.content|
    ensures r <= limit
  {
    if limit == 0 then 0
    else if IsBoundary(last.instruction.content, limit) && CutFits(w, last, intro, maxBytes, omitted, limit) then limit
    else LongestCut(w, last, intro, maxBytes, omitted, limit - 1)
  }

  lemma {:induction false} LongestCutIsLongest(
    w: Wording, last: RenderEntry, intro: Option<Bytes>, maxBytes: nat, omitted: seq<Bytes>, limit: nat)
    requires limit <= |last.instruction.content|
    ensures var r := LongestCut(w, last, intro, maxBytes, omitted, limit);
      && r <= limit && IsBoundary(last.instruction.content, r)
      && (r > 0 ==> CutFits(w, last, intro, maxBytes, omitted, r))
      && (forall k :: r < k <= limit && IsBoundary(last.instruction.content, k) ==>
            !CutFits(w, last, intro, maxBytes, omitted, k))
  {
    hide CutFits;
    if limit > 0 {
      LongestCutIsLongest(w, last, intro, maxBytes, omitted, limit - 1);
    }
  }

  /** Cutting the last entry under one intro, when even that can fit. */
  function CutLast(w: Wording, entries: seq<RenderEntry>, intro: Option<Bytes>, maxBytes: nat): Option<Rendered>
    requires entries != []
  {
    var last := entries[|entries| - 1];
    var content := last.instruction.content;
    var omitted := Paths(entries[..|entries| - 1]);
    var best := LongestCut(w, last, intro, maxBytes, omitted, |content|);
    if !CutFits(w, last, intro, maxBytes, omitted, best) then None else
    var kept := best > 0 || content == [] || last.kind == ChangeOf(Remove);
    Some(Rendered(CutText(w, last, intro, maxBytes, omitted, best), if kept then [|entries| - 1] else []))
  }

  function MarkerOnly(w: Wording, entries: seq<RenderEntry>, maxBytes: nat): Rendered
    requires entries != []
  {
    var last := entries[|entries| - 1].instruction;
    var marker := Escape(BudgetMarker(w, maxBytes, Paths(entries[..|entries| - 1]),
                                      [Truncation(last.displayPath, |last.content|, 0)]));
    Rendered(marker[..Floor(marker, maxBytes)], [])
  }

  function Range(start: nat, end: nat): (r: seq<nat>)
    requires start <= end
    ensures |r| == end - start && forall i :: 0 <= i < |r| ==> r[i] == start + i
  {
    seq(end - start, i requires 0 <= i < end - start => start + i)
  }

  function Render(w: Wording, entries: seq<RenderEntry>, maxBytes: nat, intro: Option<Bytes>): Rendered {
    if maxBytes == 0 then Rendered([], []) else
    var full := SuffixText(w, entries, intro, maxBytes, 0);
    if |full| <= maxBytes then Rendered(full, Range(0, |entries|))
    else if entries == [] then Rendered(full[..Floor(full, maxBytes)], [])
    else match FirstFitting(w, entries, intro, maxBytes, 1)
    case Some(start) => Rendered(SuffixText(w, entries, intro, maxBytes, start), Range(start, |entries|))
    case None =>
      var plain := CutLast(w, entries, intro, maxBytes);
      if plain.Some? then plain.value else
      var compact := CutLast(w, entries, Some(w.compactIntro), maxBytes);
      if compact.Some? then compact.value else MarkerOnly(w, entries, maxBytes)
  }

  // ----- what every rendering promises -----

  predicate IsSuffix(represented: seq<nat>, count: nat) {
    |represented| <= count && forall i :: 0 <= i < |represented| ==> represented[i] == count - |represented| + i
  }

  lemma CutLastFits(w: Wording, entries: seq<RenderEntry>, intro: Option<Bytes>, maxBytes: nat)
    requires entries != []
    ensures var r := CutLast(w, entries, intro, maxBytes);
      r.Some? ==> |r.value.text| <= maxBytes && IsSuffix(r.value.represented, |entries|)
    ensures var last := entries[|entries| - 1];
      CutLast(w, entries, intro, maxBytes).Some?
      <==> CutFits(w, last, intro, maxBytes, Paths(entries[..|entries| - 1]),
                   LongestCut(w, last, intro, maxBytes, Paths(entries[..|entries| - 1]), |last.instruction.content|))
  {
    hide CutText;
    var last := entries[|entries| - 1];
    LongestCutIsLongest(w, last, intro, maxBytes, Paths(entries[..|entries| - 1]), |last.instruction.content|);
  }

  /** Within budget, and exactly a suffix of the entries is represented. */
  lemma RenderFitsBudget(w: Wording, entries: seq<RenderEntry>, maxBytes: nat, intro: Option<Bytes>)
    ensures var r := Render(w, entries, maxBytes, intro);
      |r.text| <= maxBytes && IsSuffix(r.represented, |entries|)
  {
    hide SuffixText, CutLast, BudgetMarker;
    if entries != [] {
      CutLastFits(w, entries, intro, maxBytes);
      CutLastFits(w, entries, Some(w.compactIntro), maxBytes);
      FirstFittingIsFirst(w, entries, intro, maxBytes, 1);
    }
  }

  /** A represented entry that was not cut is there in full; no longer suffix would have fitted. */
  lemma RenderKeepsLongestSuffix(w: Wording, entries: seq<RenderEntry>, maxBytes: nat, intro: Option<Bytes>, start: nat)
    requires 0 < maxBytes && start < |entries|
    requires |SuffixText(w, entries, intro, maxBytes, start)| <= maxBytes
    ensures var r := Render(w, entries, maxBytes, intro);
      && |entries| - start <= |r.represented| <= |entries|
      && r.text == SuffixText(w, entries, intro, maxBytes, |entries| - |r.represented|)
  {
    hide SuffixText, CutLast, BudgetMarker;
    FirstFittingIsFirst(w, entries, intro, maxBytes, 1);
  }

  // ----- the cut text grows with the cut -----

  /** Everything after the number of included bytes. */
  function CutRest(w: Wording, last: RenderEntry, intro: Option<Bytes>, included: nat): Bytes
    requires included <= |last.instruction.content|
  {
    var cut := last.(instruction := last.instruction.(content := last.instruction.content[..included]));
    w.bytes + BLANK_LINE +
    (if intro.None? || intro.value == [] then [] else intro.value + BLANK_LINE) + SectionText(w, cut)
  }

  /** Everything before it. */
  function CutLead(w: Wording, last: RenderEntry, maxBytes: nat, omitted: seq<Bytes>): Bytes {
    w.budgetHead + Decimal(maxBytes) + w.budgetTail +
    (if omitted == [] then [] else w.omitted + Join(omitted, COMMA) + SEMICOLON) +
    w.truncated + (last.instruction.displayPath + w.from + Decimal(|last.instruction.content|) + w.to)
  }

  lemma CutMarkerShape(w: Wording, last: RenderEntry, maxBytes: nat, omitted: seq<Bytes>, included: nat)
    ensures BudgetMarker(w, maxBytes, omitted, [Truncation(last.instruction.displayPath, |last.instruction.content|, included)])
         == CutLead(w, last, maxBytes, omitted) + [SPACE] + Decimal(included) + [SPACE] + w.bytes
  {
    hide Decimal;
    var t := Truncation(last.instruction.displayPath, |last.instruction.content|, included);
    assert TruncatedFacts(w, [t]) == [TruncatedFact(w, t)];
    var fact := w.truncated + TruncatedFact(w, t);
    if omitted == [] {
      assert [] + [fact] == [fact];
    } else {
      assert [w.omitted + Join(omitted, COMMA)] + [fact] == [w.omitted + Join(omitted, COMMA), fact];
      JoinTwo(w.omitted + Join(omitted, COMMA), fact, SEMICOLON);
    }
  }

  lemma CutBodyShape(w: Wording, last: RenderEntry, intro: Option<Bytes>, maxBytes: nat, omitted: seq<Bytes>, included: nat)
    requires included <= |last.instruction.content|
    ensures
      var cut := last.(instruction := last.instruction.(content := last.instruction.content[..included]));
      var t := Truncation(last.instruction.displayPath, |last.instruction.content|, included);
      Body(w, [cut], intro, maxBytes, omitted, [t])
      == CutLead(w, last, maxBytes, omitted) + [SPACE] + (Decimal(included) + [SPACE] + CutRest(w, last, intro, included))
  {
    hide Join, TruncatedFacts, SectionHead;
    var cut := last.(instruction := last.instruction.(content := last.instruction.content[..included]));
    var marker := BudgetMarker(w, maxBytes, omitted, [Truncation(last.instruction.displayPath, |last.instruction.content|, included)]);
    CutMarkerShape(w, last, maxBytes, omitted, included);
    var section := SectionText(w, cut);
    assert Sections(w, [cut]) == [section];
    if intro.None? || intro.value == [] {
      assert [marker] + [] + [section] == [marker, section];
      JoinTwo(marker, section, BLANK_LINE);
    } else {
      assert [marker] + [intro.value] + [section] == [marker, intro.value, section];
      JoinThree(marker, intro.value, section, BLANK_LINE);
    }
  }

  lemma SpaceIsForeign()
    ensures SPACE !in CLOSING_TAG && CLOSING_TAG[0] == 60 && |CLOSING_TAG| <= |ESCAPED_TAG|
  {
  }

  /** The escaped length splits around the number, which escaping cannot touch. */
  lemma CutTextLength(w: Wording, last: RenderEntry, intro: Option<Bytes>, maxBytes: nat, omitted: seq<Bytes>, included: nat)
    requires included <= |last.instruction.content|
    ensures |CutText(w, last, intro, maxBytes, omitted, included)|
         == |Frame([])| + |Escape(CutLead(w, last, maxBytes, omitted))| + 2 + |Decimal(included)| + |Escape(CutRest(w, last, intro, included))|
  {
    var lead, number, rest := CutLead(w, last, maxBytes, omitted), Decimal(included), CutRest(w, last, intro, included);
    CutBodyShape(w, last, intro, maxBytes, omitted, included);
    SpaceIsForeign();
    ReplaceSplits(lead, SPACE, number + [SPACE] + rest, CLOSING_TAG, ESCAPED_TAG);
    ReplaceSplits(number, SPACE, rest, CLOSING_TAG, ESCAPED_TAG);
    ReplaceUnchanged(number, CLOSING_TAG, ESCAPED_TAG);
  }

  /** Monotonicity: a longer cut never renders shorter, so fitting is downward closed. */
  lemma CutTextGrows(w: Wording, last: RenderEntry, intro: Option<Bytes>, maxBytes: nat, omitted: seq<Bytes>, k: nat, m: nat)
    requires k <= m <= |last.instruction.content|
    ensures |CutText(w, last, intro, maxBytes, omitted, k)| <= |CutText(w, last, intro, maxBytes, omitted, m)|
  {
    hide CutText;
    CutTextLength(w, last, intro, maxBytes, omitted, k);
    CutTextLength(w, last, intro, maxBytes, omitted, m);
    DecimalLengthMonotone(k, m);
    SpaceIsForeign();
    var shorter, longer := CutRest(w, last, intro, k), CutRest(w, last, intro, m);
    assert shorter <= longer by {
      assert last.instruction.content[..k] <= last.instruction.content[..m];
    }
    ReplaceMonotone(shorter, longer, CLOSING_TAG, ESCAPED_TAG);
  }

  // ----- the fast form -----

  /** The binary search over cut lengths finds the same cut as the linear one. */
  method SearchCut(w: Wording, last: RenderEntry, intro: Option<Bytes>, maxBytes: nat, omitted: seq<Bytes>)
    returns (best: nat)
    ensures best == LongestCut(w, last, intro, maxBytes, omitted, |last.instruction.content|)
  {
    hide CutText;
    var content := last.instruction.content;
    LongestCutIsLongest(w, last, intro, maxBytes, omitted, |content|);
    var low, high := 0, |content|;
    best := 0;
    while low <= high
      invariant 0 <= low <= high + 1 <= |content| + 1
      invariant best == if low == 0 then 0 else Floor(content, low - 1)
      invariant low > 0 ==> CutFits(w, last, intro, maxBytes, omitted, best)
      invariant forall k :: high < k <= |content| && IsBoundary(content, k) ==>
        !CutFits(w, last, intro, maxBytes, omitted, k)
      decreases high - low
    {
      var middle := low + (high - low) / 2;
      var cut := TruncateUtf8(content, middle);
      if |CutText(w, last, intro, maxBytes, omitted, |cut|)| <= maxBytes {
        best := |cut|;
        low := middle + 1;
      } else {
        forall k | middle <= k <= |content| && IsBoundary(content, k)
          ensures !CutFits(w, last, intro, maxBytes, omitted, k)
        {
          CutTextGrows(w, last, intro, maxBytes, omitted, Floor(content, middle), k);
        }
        if middle == 0 {
          break;
        }
        high := middle - 1;
      }
    }
  }

  method CutUnder(w: Wording, entries: seq<RenderEntry>, intro: Option<Bytes>, maxBytes: nat)
    returns (r: Option<Rendered>)
    requires entries != []
    ensures r == CutLast(w, entries, intro, maxBytes)
  {
    hide CutText;
    var last, omitted := entries[|entries| - 1], Paths(entries[..|entries| - 1]);
    var best := SearchCut(w, last, intro, maxBytes, omitted);
    var text := CutText(w, last, intro, maxBytes, omitted, best);
    if |text| > maxBytes {
      return None;
    }
    var kept := best > 0 || last.instruction.content == [] || last.kind == ChangeOf(Remove);
    r := Some(Rendered(text, if kept then [|entries| - 1] else []));
  }

  method RenderEntries(w: Wording, entries: seq<RenderEntry>, maxBytes: nat, intro: Option<Bytes>)
    returns (r: Rendered)
    ensures r == Render(w, entries, maxBytes, intro)
  {
    hide BuildText, BudgetMarker, CutLast;
    if maxBytes == 0 {
      return Rendered([], []);
    }
    assert entries[0..] == entries;
    assert Paths(entries[..0]) == [];
    var full := BuildText(w, entries, intro, maxBytes, [], []);
    if |full| <= maxBytes {
      return Rendered(full, Range(0, |entries|));
    }
    if entries == [] {
      var text := TruncateUtf8(full, maxBytes);
      return Rendered(text, []);
    }
    for start := 1 to |entries|
      invariant FirstFitting(w, entries, intro, maxBytes, 1) == FirstFitting(w, entries, intro, maxBytes, start)
    {
      var candidate := BuildText(w, entries[start..], intro, maxBytes, Paths(entries[..start]), []);
      if |candidate| <= maxBytes {
        return Rendered(candidate, Range(start, |entries|));
      }
    }
    var intros := [intro, Some(w.compactIntro)];
    for attempt := 0 to 2
      invariant attempt > 0 ==> CutLast(w, entries, intro, maxBytes).None?
      invariant attempt > 1 ==> CutLast(w, entries, Some(w.compactIntro), maxBytes).None?
    {
      var cut := CutUnder(w, entries, intros[attempt], maxBytes);
      if cut.Some? {
        return cut.value;
      }
    }
    var last := entries[|entries| - 1].instruction;
    var marker := Escape(BudgetMarker(w, maxBytes, Paths(entries[..|entries| - 1]),
                                      [Truncation(last.displayPath, |last.content|, 0)]));
    var text := TruncateUtf8(marker, maxBytes);
    r := Rendered(text, []);
  }
}
