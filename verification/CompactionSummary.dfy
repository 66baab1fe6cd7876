/**
  Collecting a summary from the provider's stream (src/agent/compaction.rs:795-967).
  Whether the stream validator accepts a chunk, and the whole stream, is part of the input.
*/
module CompactionSummary {
  import opened Wrappers
  import opened Text

  const MAX_COMPACTION_STREAM_BYTES: nat := 10 * 1024 * 1024

  datatype Block = TextBlock(text: string) | ReasoningBlock(text: string) | OtherBlock

  datatype Reason = Stop | ProviderError(code: string) | OtherReason

  datatype Kind =
    | BlockStart(index: nat)
    | BlockEnd(index: nat, block: Block)
    | Usage(tokens: nat)
    | Finish(reason: Reason)
    | Delta
    | OtherKind

  /** What the collector sees next: a chunk, or one of the ways a stream is cut short. */
  datatype Item =
    | Chunk(kind: Kind, bytes: nat, valid: bool)
    | Fault
    | CancelledNow
    | DeadlineNow

  datatype Collected =
    | Success(summary: seq<Block>, rawOutput: seq<Block>)
    | Failed(code: string)
    | Cancelled
    | TimedOut
    | Invalid

  // ----- what a stream contains, independently of any bookkeeping -----

  function Last(items: seq<Item>): Item
    requires items != []
  {
    items[|items| - 1]
  }

  function Front(items: seq<Item>): seq<Item>
    requires items != []
  {
    items[..|items| - 1]
  }

  function StartCount(items: seq<Item>): nat {
    if items == [] then 0
    else StartCount(Front(items)) + if Last(items).Chunk? && Last(items).kind.BlockStart? then 1 else 0
  }

  /** Which started block an index means now: the newest one that carried it. */
  function SlotOf(items: seq<Item>, index: nat): (r: Option<nat>)
    ensures r.Some? ==> r.value < StartCount(items)
  {
    if items == [] then None
    else if Last(items).Chunk? && Last(items).kind == BlockStart(index) then Some(StartCount(Front(items)))
    else SlotOf(Front(items), index)
  }

  /** The final content of the `slot`-th started block, if it ended. */
  function Content(items: seq<Item>, slot: nat): Option<Block> {
    if items == [] then None
    else if Last(items).Chunk? && Last(items).kind.BlockEnd? && SlotOf(Front(items), Last(items).kind.index) == Some(slot)
    then Some(Last(items).kind.block)
    else Content(Front(items), slot)
  }

  function TotalBytes(items: seq<Item>): nat {
    if items == [] then 0 else TotalBytes(Front(items)) + if Last(items).Chunk? then Last(items).bytes else 0
  }

  function LastUsage(items: seq<Item>): Option<nat> {
    if items == [] then None
    else if Last(items).Chunk? && Last(items).kind.Usage? then Some(Last(items).kind.tokens)
    else LastUsage(Front(items))
  }

  function LastReason(items: seq<Item>): Option<Reason> {
    if items == [] then None
    else if Last(items).Chunk? && Last(items).kind.Finish? then Some(Last(items).kind.reason)
    else LastReason(Front(items))
  }

  predicate ItemFits(before: seq<Item>, item: Item) {
    && item.Chunk? && item.valid && !item.kind.OtherKind?
    && TotalBytes(before) + item.bytes <= MAX_COMPACTION_STREAM_BYTES
    && (item.kind.BlockEnd? ==> SlotOf(before, item.kind.index).Some?)
  }

  /** Every chunk is admissible where it stands. */
  predicate Admissible(items: seq<Item>) {
    items == [] || (Admissible(Front(items)) && ItemFits(Front(items), Last(items)))
  }

  predicate Textual(block: Block) {
    block.TextBlock? || block.ReasoningBlock?
  }

  function TextBlocks(blocks: seq<Block>): seq<Block> {
    if blocks == [] then []
    else TextBlocks(blocks[..|blocks| - 1]) + if blocks[|blocks| - 1].TextBlock? then [blocks[|blocks| - 1]] else []
  }

  predicate SaysSomething(blocks: seq<Block>) {
    exists i :: 0 <= i < |blocks| && blocks[i].TextBlock? && Trim(blocks[i].text) != ""
  }

  /** A summary: the contents of all started blocks in starting order, all textual, some text not blank. */
  predicate IsOutput(items: seq<Item>, raw: seq<Block>) {
    && |raw| == StartCount(items)
    && (forall k :: 0 <= k < |raw| ==> Content(items, k) == Some(raw[k]))
    && (forall k :: 0 <= k < |raw| ==> Textual(raw[k]))
    && SaysSomething(raw)
  }

  // ----- what those definitions come to -----

  /** The bytes of a stream are those of its chunks. */
  lemma {:induction false} BytesAdd(items: seq<Item>, more: seq<Item>)
    ensures TotalBytes(items + more) == TotalBytes(items) + TotalBytes(more)
    ensures forall kind, bytes, valid :: TotalBytes([Chunk(kind, bytes, valid)]) == bytes
    decreases |more|
  {
    forall kind, bytes, valid ensures TotalBytes([Chunk(kind, bytes, valid)]) == bytes {
      assert Front([Chunk(kind, bytes, valid)]) == [];
    }
    if more == [] {
      assert items + more == items;
    } else {
      BytesAdd(items, Front(more));
      assert Front(items + more) == items + Front(more) && Last(items + more) == Last(more);
    }
  }

  predicate IsUsage(item: Item) {
    item.Chunk? && item.kind.Usage?
  }

  predicate IsFinish(item: Item) {
    item.Chunk? && item.kind.Finish?
  }

  /** The last usage report counts, and the last finish. */
  lemma {:induction false} NewestCounts(items: seq<Item>, i: nat)
    requires i < |items|
    ensures IsUsage(items[i]) && (forall j :: i < j < |items| ==> !IsUsage(items[j])) ==> LastUsage(items) == Some(items[i].kind.tokens)
    ensures IsFinish(items[i]) && (forall j :: i < j < |items| ==> !IsFinish(items[j])) ==> LastReason(items) == Some(items[i].kind.reason)
  {
    if i < |items| - 1 {
      NewestCounts(Front(items), i);
    }
  }

  lemma {:induction false} NoneReported(items: seq<Item>)
    ensures (forall j :: 0 <= j < |items| ==> !IsUsage(items[j])) ==> LastUsage(items).None?
    ensures (forall j :: 0 <= j < |items| ==> !IsFinish(items[j])) ==> LastReason(items).None?
  {
    if items != [] {
      NoneReported(Front(items));
    }
  }

  lemma {:induction false} SlotIff(items: seq<Item>, index: nat)
    ensures SlotOf(items, index).Some? <==> exists i :: 0 <= i < |items| && items[i].Chunk? && items[i].kind == BlockStart(index)
  {
    if items != [] {
      SlotIff(Front(items), index);
      assert Last(items) == items[|items| - 1];
    }
  }

  /** A chunk is admissible exactly when the validator takes it, its kind is known, the stream stays within 10 MiB, and a block ends only after it started. */
  lemma FitsIff(before: seq<Item>, item: Item)
    ensures ItemFits(before, item) <==>
      && item.Chunk? && item.valid && TotalBytes(before + [item]) <= 10_485_760
      && match item.kind
         case OtherKind => false
         case BlockEnd(index, _) => exists i :: 0 <= i < |before| && before[i].Chunk? && before[i].kind == BlockStart(index)
         case _ => true
  {
    BytesAdd(before, [item]);
    if item.Chunk? {
      assert item == Chunk(item.kind, item.bytes, item.valid);
      if item.kind.BlockEnd? {
        SlotIff(before, item.kind.index);
      }
    }
    hide TotalBytes, SlotOf;
  }

  /** The summary keeps exactly the text blocks, in order. */
  lemma {:induction false} TextBlocksExactly(before: seq<Block>, block: Block, after: seq<Block>)
    ensures TextBlocks(before + [block] + after) ==
      TextBlocks(before) + (if block.TextBlock? then [block] else []) + TextBlocks(after)
    ensures TextBlocks([]) == []
    decreases |after|
  {
    var all := before + [block] + after;
    if after == [] {
      assert all[..|all| - 1] == before && all[|all| - 1] == block;
    } else {
      TextBlocksExactly(before, block, after[..|after| - 1]);
      assert all[..|all| - 1] == before + [block] + after[..|after| - 1] && all[|all| - 1] == after[|after| - 1];
    }
  }

  /** An output has one text or reasoning block for each started one, and some text in it has a character that is not white space. */
  lemma OutputSpeaks(items: seq<Item>, raw: seq<Block>)
    requires IsOutput(items, raw)
    ensures |raw| == StartCount(items)
    ensures forall k :: 0 <= k < |raw| ==> Content(items, k) == Some(raw[k]) && raw[k] in [TextBlock(raw[k].text), ReasoningBlock(raw[k].text)]
    ensures exists k, i :: 0 <= k < |raw| && raw[k].TextBlock? && 0 <= i < |raw[k].text| && !IsWhitespace(raw[k].text[i])
  {
    var k :| 0 <= k < |raw| && raw[k].TextBlock? && Trim(raw[k].text) != "";
    BlankIff(raw[k].text);
  }

  /** Where the first inadmissible item stands, if any. */
  function FirstBad(items: seq<Item>): (n: nat)
    ensures n <= |items|
  {
    if items == [] then 0
    else
      var n := FirstBad(Front(items));
      if n < |items| - 1 then n else if ItemFits(Front(items), Last(items)) then |items| else n
  }

  lemma {:induction false} FirstBadIs(items: seq<Item>, n: nat)
    requires n <= |items| && Admissible(items[..n])
    requires n < |items| ==> !ItemFits(items[..n], items[n])
    ensures FirstBad(items) == n
    decreases |items|
  {
    if n == |items| {
      assert items[..n] == items;
      AllFit(items);
    } else if n == |items| - 1 {
      assert items[..n] == Front(items);
      AllFit(Front(items));
    } else {
      assert Front(items)[..n] == items[..n];
      FirstBadIs(Front(items), n);
    }
  }

  lemma {:induction false} AllFit(items: seq<Item>)
    requires Admissible(items)
    ensures FirstBad(items) == |items|
  {
    if items != [] {
      AllFit(Front(items));
    }
  }

  lemma TakeStep(items: seq<Item>, n: nat)
    requires n < |items|
    ensures items[..n + 1] != [] && Front(items[..n + 1]) == items[..n] && Last(items[..n + 1]) == items[n]
  {
  }

  lemma {:induction false} AdmissiblePrefix(items: seq<Item>, n: nat)
    requires n <= |items| && Admissible(items)
    ensures Admissible(items[..n])
    decreases |items|
  {
    if n == |items| {
      assert items[..n] == items;
    } else {
      AdmissiblePrefix(Front(items), n);
      assert Front(items)[..n] == items[..n];
    }
  }

  lemma {:induction false} UnknownSlotIsEmpty(items: seq<Item>, slot: nat)
    requires slot >= StartCount(items)
    ensures Content(items, slot).None?
  {
    if items != [] {
      UnknownSlotIsEmpty(Front(items), slot);
    }
  }

  /** One inadmissible item rules the whole stream out. */
  lemma StopsHere(items: seq<Item>, n: nat)
    requires n < |items| && !ItemFits(items[..n], items[n])
    ensures !Admissible(items)
  {
    if Admissible(items) {
      AdmissiblePrefix(items, n + 1);
      TakeStep(items, n);
    }
  }

  // ----- the collector -----

  /** Slot contents so far, each under the index that started it. */
  ghost predicate Tracks(blocks: seq<(nat, Option<Block>)>, positions: map<nat, nat>, items: seq<Item>) {
    && |blocks| == StartCount(items)
    && (forall k :: 0 <= k < |blocks| ==> blocks[k].1 == Content(items, k))
    && (forall index :: index in positions <==> SlotOf(items, index).Some?)
    && (forall index :: index in positions ==> SlotOf(items, index) == Some(positions[index]))
  }

  lemma TracksStart(blocks: seq<(nat, Option<Block>)>, positions: map<nat, nat>, items: seq<Item>, n: nat)
    requires n < |items| && Tracks(blocks, positions, items[..n])
    requires items[n].Chunk? && items[n].kind.BlockStart?
    ensures Tracks(blocks + [(items[n].kind.index, None)], positions[items[n].kind.index := |blocks|], items[..n + 1])
  {
    TakeStep(items, n);
    UnknownSlotIsEmpty(items[..n], |blocks|);
  }

  lemma TracksEnd(blocks: seq<(nat, Option<Block>)>, positions: map<nat, nat>, items: seq<Item>, n: nat)
    requires n < |items| && Tracks(blocks, positions, items[..n])
    requires items[n].Chunk? && items[n].kind.BlockEnd? && items[n].kind.index in positions
    ensures var slot := positions[items[n].kind.index];
      slot < |blocks| && Tracks(blocks[slot := (blocks[slot].0, Some(items[n].kind.block))], positions, items[..n + 1])
  {
    TakeStep(items, n);
  }

  lemma TracksOther(blocks: seq<(nat, Option<Block>)>, positions: map<nat, nat>, items: seq<Item>, n: nat)
    requires n < |items| && Tracks(blocks, positions, items[..n])
    requires items[n].Chunk? ==> !items[n].kind.BlockStart? && !items[n].kind.BlockEnd?
    ensures Tracks(blocks, positions, items[..n + 1])
  {
    TakeStep(items, n);
  }

  method CollectSummary(items: seq<Item>, complete: bool) returns (r: Collected, usage: Option<nat>)
    ensures r.Success? ==> IsOutput(items, r.rawOutput) && r.summary == TextBlocks(r.rawOutput)
    ensures r.Success? <==>
      Admissible(items) && complete && LastReason(items) == Some(Stop) && exists raw :: IsOutput(items, raw)
    ensures r.Failed? <==> Admissible(items) && complete && LastReason(items).Some? && LastReason(items).value.ProviderError?
    ensures r.Failed? ==> LastReason(items) == Some(ProviderError(r.code))
    ensures var n := FirstBad(items);
      && usage == LastUsage(items[..n])
      && (n == |items| <==> Admissible(items))
      && (r.Cancelled? <==> n < |items| && items[n].CancelledNow?)
      && (r.TimedOut? <==> n < |items| && items[n].DeadlineNow?)
  {
    var blocks: seq<(nat, Option<Block>)> := [];
    var positions: map<nat, nat> := map[];
    var finish: Option<Reason> := None;
    var emitted := 0;
    usage := None;
    assert items[..0] == [];
    hide Content, SlotOf, StartCount, IsOutput;
    for n := 0 to |items|
      invariant Admissible(items[..n]) && emitted == TotalBytes(items[..n])
      invariant usage == LastUsage(items[..n]) && finish == LastReason(items[..n])
      invariant Tracks(blocks, positions, items[..n])
    {
      TakeStep(items, n);
      var item := items[n];
      if !ItemFits(items[..n], item) {
        StopsHere(items, n);
        FirstBadIs(items, n);
      }
      match item {
        case CancelledNow => return Cancelled, usage;
        case DeadlineNow => return TimedOut, usage;
        case Fault => return Invalid, usage;
        case Chunk(kind, bytes, valid) =>
          if emitted + bytes > MAX_COMPACTION_STREAM_BYTES {
            return Invalid, usage;
          }
          emitted := emitted + bytes;
          if !valid {
            return Invalid, usage;
          }
          match kind {
            case BlockStart(index) =>
              TracksStart(blocks, positions, items, n);
              positions := positions[index := |blocks|];
              blocks := blocks + [(index, None)];
            case BlockEnd(index, block) =>
              if index !in positions {
                return Invalid, usage;
              }
              TracksEnd(blocks, positions, items, n);
              var slot := positions[index];
              blocks := blocks[slot := (blocks[slot].0, Some(block))];
            case Usage(tokens) =>
              TracksOther(blocks, positions, items, n);
              usage := Some(tokens);
            case Finish(reason) =>
              TracksOther(blocks, positions, items, n);
              finish := Some(reason);
            case Delta => TracksOther(blocks, positions, items, n);
            case OtherKind => return Invalid, usage;
          }
      }
    }
    assert items[..|items|] == items;
    AllFit(items);
    if !complete || finish.None? {
      return Invalid, usage;
    }
    match finish.value {
      case Stop =>
      case ProviderError(code) => return Failed(code), usage;
      case OtherReason => return Invalid, usage;
    }
    r := Assemble(items, blocks, positions);
  }

  /** Every block must have ended with text or reasoning, and some text must not be blank. */
  method Assemble(items: seq<Item>, blocks: seq<(nat, Option<Block>)>, ghost positions: map<nat, nat>) returns (r: Collected)
    requires Tracks(blocks, positions, items)
    ensures r.Success? || r.Invalid?
    ensures r.Success? ==> IsOutput(items, r.rawOutput) && r.summary == TextBlocks(r.rawOutput)
    ensures r.Success? <==> exists raw :: IsOutput(items, raw)
  {
    var raw: seq<Block> := [];
    var summary: seq<Block> := [];
    var says := false;
    hide Content, SlotOf, StartCount, Trim;
    for k := 0 to |blocks|
      invariant |raw| == k && forall j :: 0 <= j < k ==> Content(items, j) == Some(raw[j]) && Textual(raw[j])
      invariant summary == TextBlocks(raw) && says == SaysSomething(raw)
    {
      if blocks[k].1.None? || !Textual(blocks[k].1.value) {
        NoOutput(items, k);
        return Invalid;
      }
      var block := blocks[k].1.value;
      SaysMore(raw, block);
      assert (raw + [block])[..k] == raw;
      raw := raw + [block];
      if block.TextBlock? {
        summary := summary + [block];
        says := says || Trim(block.text) != "";
      }
    }
    if !says {
      OutputIsUnique(items, raw);
      return Invalid;
    }
    assert IsOutput(items, raw);
    r := Success(summary, raw);
  }

  lemma NoOutput(items: seq<Item>, k: nat)
    requires k < StartCount(items) && (Content(items, k).None? || !Textual(Content(items, k).value))
    ensures !exists raw :: IsOutput(items, raw)
  {
  }

  lemma SaysMore(raw: seq<Block>, block: Block)
    ensures SaysSomething(raw + [block]) <==> SaysSomething(raw) || (block.TextBlock? && Trim(block.text) != "")
  {
    hide Trim;
    assert (raw + [block])[|raw|] == block;
    assert forall i :: 0 <= i < |raw| ==> (raw + [block])[i] == raw[i];
  }

  lemma {:induction false} OutputIsUnique(items: seq<Item>, raw: seq<Block>)
    requires |raw| == StartCount(items) && forall k :: 0 <= k < |raw| ==> Content(items, k) == Some(raw[k])
    ensures forall other :: IsOutput(items, other) ==> other == raw
  {
    forall other | IsOutput(items, other) ensures other == raw {
      assert forall k :: 0 <= k < |raw| ==> Some(other[k]) == Content(items, k) == Some(raw[k]);
    }
  }
}
