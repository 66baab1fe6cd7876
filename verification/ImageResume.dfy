/**
  After a resume the cache starts in order of first use instead of last use. Exactly
  when the two orders agree, every later window stays covered.
*/
module ImageResume {
  import opened Wrappers
  import opened Text
  import opened ByteText
  import opened ImageCache
  import opened ImageWindow
  import opened ImagePreload

  function IdList(entries: seq<Entry>): (r: seq<string>)
    ensures |r| == |entries|
  {
    seq(|entries|, i requires 0 <= i < |entries| => entries[i].reference.id)
  }

  /** Every image of the window after `later` is resident. */
  predicate Covers(start: seq<Entry>, window: seq<Entry>, later: seq<Entry>) {
    forall e :: e in Suffix(window + later) ==> HasId(CachedFrom(start, later), e.reference.id)
  }

  /** A window is all of the past that a later window can reach. */
  lemma WindowOfWindow(history: seq<Entry>, later: seq<Entry>)
    ensures Suffix(history + later) == Suffix(Suffix(history) + later)
  {
    var k := FirstKept(Lengths(history));
    var a, b := history[..k], Suffix(history);
    assert history + later == a + (b + later);
    if k > 0 {
      LengthsDrop(history, k - 1);
      assert history[k - 1..] == [a[k - 1]] + b;
      assert [a[k - 1]] + (b + later) == ([a[k - 1]] + b) + later;
      FittingPartsFit([a[k - 1]] + b, later);
    }
    SuffixIgnores(a, b + later);
  }

  // ----- agreeing orders keep the window covered -----

  lemma {:induction false} CachedFromAppend(start: seq<Entry>, a: seq<Entry>, b: seq<Entry>)
    ensures CachedFrom(start, a + b) == CachedFrom(CachedFrom(start, a), b)
  {
    hide Inserted;
    if b == [] {
      assert a + b == a;
    } else {
      var all, front := a + b, b[..|b| - 1];
      CachedFromAppend(start, a, front);
      assert all[..|all| - 1] == a + front && all[|all| - 1] == b[|b| - 1];
      assert CachedFrom(start, all) == Inserted(CachedFrom(start, a + front), b[|b| - 1]);
      assert CachedFrom(CachedFrom(start, a), b) == Inserted(CachedFrom(CachedFrom(start, a), front), b[|b| - 1]);
    }
  }

  predicate Alike(a: seq<Entry>, b: seq<Entry>) {
    IdList(a) == IdList(b) && Lengths(a) == Lengths(b)
  }

  lemma {:induction false} AlikePosition(a: seq<Entry>, b: seq<Entry>, id: string)
    requires Alike(a, b)
    ensures Position(a, id) == Position(b, id)
  {
    if a != [] {
      assert a[0].reference.id == IdList(a)[0] == IdList(b)[0] == b[0].reference.id;
      assert IdList(a[1..]) == IdList(a)[1..] && IdList(b[1..]) == IdList(b)[1..];
      LengthsDrop(a, 1);
      LengthsDrop(b, 1);
      AlikePosition(a[1..], b[1..], id);
    }
  }

  lemma AlikeAt(a: seq<Entry>, b: seq<Entry>, k: nat)
    requires Alike(a, b) && k < |a|
    ensures |a| == |b| && a[k].reference.id == b[k].reference.id && |a[k].payload| == |b[k].payload|
  {
    assert IdList(a)[k] == IdList(b)[k] && Lengths(a)[k] == Lengths(b)[k];
  }

  lemma {:induction false} AlikeWhen(a: seq<Entry>, b: seq<Entry>)
    requires |a| == |b|
    requires forall k :: 0 <= k < |a| ==> a[k].reference.id == b[k].reference.id && |a[k].payload| == |b[k].payload|
    ensures Alike(a, b)
  {
  }

  lemma AlikeInserted(a: seq<Entry>, b: seq<Entry>, entry: Entry)
    requires Alike(a, b)
    ensures Alike(Inserted(a, entry), Inserted(b, entry))
  {
    var id := entry.reference.id;
    AlikePosition(a, b, id);
    forall k | 0 <= k < |a| ensures |a| == |b| && a[k].reference.id == b[k].reference.id && |a[k].payload| == |b[k].payload| {
      AlikeAt(a, b, k);
    }
    assert |a| == |b| by { assert |IdList(a)| == |IdList(b)|; }
    var x, y := Without(a, id) + [entry], Without(b, id) + [entry];
    hide Alike, Lengths, FirstKept, Position;
    AlikeWhen(x, y);
    AlikeSuffix(x, y);
  }

  lemma AlikeSuffix(a: seq<Entry>, b: seq<Entry>)
    requires Alike(a, b)
    ensures Alike(Suffix(a), Suffix(b))
  {
    var k := FirstKept(Lengths(a));
    LengthsDrop(a, k);
    LengthsDrop(b, k);
    assert IdList(a[k..]) == IdList(a)[k..] && IdList(b[k..]) == IdList(b)[k..];
  }

  lemma {:induction false} AlikeCached(a: seq<Entry>, b: seq<Entry>, later: seq<Entry>)
    requires Alike(a, b)
    ensures Alike(CachedFrom(a, later), CachedFrom(b, later))
  {
    if later != [] {
      AlikeCached(a, b, later[..|later| - 1]);
      AlikeInserted(CachedFrom(a, later[..|later| - 1]), CachedFrom(b, later[..|later| - 1]), later[|later| - 1]);
    }
  }

  lemma AlikeIds(a: seq<Entry>, b: seq<Entry>, id: string)
    requires Alike(a, b)
    ensures HasId(a, id) <==> HasId(b, id)
  {
    assert forall k :: 0 <= k < |a| ==> IdList(a)[k] == a[k].reference.id;
    assert forall k :: 0 <= k < |b| ==> IdList(b)[k] == b[k].reference.id;
  }

  /** First use and last use in the same order: the resumed cache never loses an image of a window. */
  lemma {:induction false} AgreeingOrdersCover(window: seq<Entry>, later: seq<Entry>)
    requires Fits(Lengths(window)) && Consistent(window + later)
    requires IdList(Firsts(window)) == IdList(Latest(window))
    ensures Covers(Firsts(window), window, later)
  {
    var all := window + later;
    var older := WindowIsCached(all);
    CachedFromAppend([], window, later);
    ConsistentParts(window, later);
    CacheIsLatestSuffix(window);
    LatestIsLighter(window);
    SuffixOfFitting(Latest(window));
    FirstsAlikeLatest(window);
    AlikeCached(Firsts(window), Latest(window), later);
    hide CachedFrom, Suffix, Latest, Firsts, HasId, Alike, Fits, Lengths;
    forall e | e in Suffix(all) ensures HasId(CachedFrom(Firsts(window), later), e.reference.id) {
      AlikeIds(CachedFrom(Firsts(window), later), CachedFrom(Latest(window), later), e.reference.id);
    }
  }

  lemma {:induction false} ConsistentParts(a: seq<Entry>, b: seq<Entry>)
    requires Consistent(a + b)
    ensures Consistent(a)
  {
    assert forall i :: 0 <= i < |a| ==> (a + b)[i] == a[i];
  }

  lemma {:induction false} FirstsAlikeLatest(window: seq<Entry>)
    requires Consistent(window) && IdList(Firsts(window)) == IdList(Latest(window))
    ensures Alike(Firsts(window), Latest(window))
  {
    var a, b := Firsts(window), Latest(window);
    FirstsFacts(window);
    LatestFacts(window);
    forall k | 0 <= k < |a| ensures Lengths(a)[k] == Lengths(b)[k] {
      assert IdList(a)[k] == IdList(b)[k];
      assert a[k] in window && b[k] in window;
      SamePayload(window, a[k], b[k]);
    }
  }

  // ----- disagreeing orders lose an image -----

  predicate Absent(entries: seq<Entry>, id: string) {
    !HasId(entries, id)
  }

  /** Earlier in first-use order: seen before the other was seen at all. */
  lemma {:induction false} FirstsOrder(window: seq<Entry>, p: nat, q: nat) returns (i: nat)
    requires p < q < |Firsts(window)|
    ensures i < |window| && window[i].reference.id == Firsts(window)[p].reference.id
    ensures Absent(window[..i + 1], Firsts(window)[q].reference.id)
  {
    var front, last := window[..|window| - 1], window[|window| - 1];
    if q < |Firsts(front)| {
      i := FirstsOrder(front, p, q);
      assert front[..i + 1] == window[..i + 1];
    } else {
      FirstsFacts(front);
      assert Firsts(front)[p] in front;
      i :| 0 <= i < |front| && front[i] == Firsts(front)[p];
      AbsentPart(Firsts(front), front, i + 1, last.reference.id);
      assert front[..i + 1] == window[..i + 1];
    }
  }

  lemma {:induction false} AbsentPart(firsts: seq<Entry>, front: seq<Entry>, k: nat, id: string)
    requires k <= |front| && Absent(firsts, id)
    requires forall e :: e in front ==> HasId(firsts, e.reference.id)
    ensures Absent(front[..k], id)
  {
    forall j | 0 <= j < k ensures front[..k][j].reference.id != id {
      assert front[j] in front;
    }
  }

  lemma WithoutIndex(entries: seq<Entry>, id: string, p: nat) returns (k: nat)
    requires DistinctIds(entries) && p < |Without(entries, id)|
    ensures k < |entries| && entries[k] == Without(entries, id)[p] && entries[k].reference.id != id
    ensures k == if Position(entries, id).Some? && p >= Position(entries, id).value then p + 1 else p
  {
    WithoutFacts(entries, id);
    hide Position;
    k := if Position(entries, id).Some? && p >= Position(entries, id).value then p + 1 else p;
  }

  lemma LatestUnfolds(front: seq<Entry>, last: Entry)
    ensures Latest(front + [last]) == Without(Latest(front), last.reference.id) + [last]
    ensures DistinctIds(Latest(front))
  {
    LatestStep(front, last);
    LatestHasNoRepeats(front);
  }

  /** Later in last-use order: its final use has no use of the other after it. */
  lemma {:induction false} LatestOrder(window: seq<Entry>, p: nat, r: nat) returns (k: nat)
    requires p < r < |Latest(window)|
    ensures k < |window| && window[k].reference.id == Latest(window)[r].reference.id
    ensures Absent(window[k..], Latest(window)[p].reference.id)
    ensures Absent(window[k + 1..], Latest(window)[r].reference.id)
    decreases |window|, 0
  {
    var front, last := window[..|window| - 1], window[|window| - 1];
    var rest := Without(Latest(front), last.reference.id);
    hide *;
    assert window == front + [last];
    LatestUnfolds(front, last);
    assert rest[p] == (rest + [last])[p];
    var p' := WithoutIndex(Latest(front), last.reference.id, p);
    if r < |rest| {
      k := LatestOrderBefore(front, last, p, r);
      assert rest[r] == (rest + [last])[r];
    } else {
      k := |front|;
      LastAlone(front, last, rest[p].reference.id);
    }
  }

  lemma {:induction false} LatestOrderBefore(front: seq<Entry>, last: Entry, p: nat, r: nat) returns (k: nat)
    requires p < r < |Without(Latest(front), last.reference.id)|
    ensures var rest := Without(Latest(front), last.reference.id);
      && k < |front| && front[k].reference.id == rest[r].reference.id
      && Absent((front + [last])[k..], rest[p].reference.id)
      && Absent((front + [last])[k + 1..], rest[r].reference.id)
    decreases |front|, 1
  {
    hide *;
    LatestHasNoRepeats(front);
    var p' := WithoutIndex(Latest(front), last.reference.id, p);
    var r' := WithoutIndex(Latest(front), last.reference.id, r);
    k := LatestOrder(front, p', r');
    AbsentLater(front, last, k + 1, front[k].reference.id);
    AbsentLater(front, last, k, Latest(front)[p'].reference.id);
  }

  lemma LastAlone(front: seq<Entry>, last: Entry, id: string)
    requires last.reference.id != id
    ensures Absent((front + [last])[|front|..], id)
    ensures Absent((front + [last])[|front| + 1..], last.reference.id)
  {
  }

  lemma {:induction false} AbsentLater(front: seq<Entry>, last: Entry, k: nat, id: string)
    requires k <= |front| && Absent(front[k..], id) && last.reference.id != id
    ensures Absent((front + [last])[k..], id)
  {
    HasIdAppend(front[k..], [last], id);
    assert (front + [last])[k..] == front[k..] + [last];
  }

  predicate Repeatless(ids: seq<string>) {
    forall i, j :: 0 <= i < j < |ids| ==> ids[i] != ids[j]
  }

  lemma ProperPrefixMisses(a: seq<string>, b: seq<string>)
    requires Repeatless(b) && a < b
    ensures exists id :: id in b && id !in a
  {
    assert b[|a|] in b && b[|a|] !in a;
  }

  /** Two repeat-free lists of the same identities that differ cross somewhere. */
  lemma {:induction false} OrdersCross(a: seq<string>, b: seq<string>) returns (p: nat, q: nat, r: nat)
    requires Repeatless(a) && Repeatless(b) && a != b
    requires forall id :: id in a <==> id in b
    ensures p < q < |a| && p < r < |b| && a[p] == b[r] && a[q] == b[p]
  {
    p := 0;
    while p < |a| && p < |b| && a[p] == b[p]
      invariant p <= |a| && p <= |b| && a[..p] == b[..p]
    {
      p := p + 1;
    }
    if p < |b| {
      ProperPrefixMisses(b[..p], b);
    }
    if p < |a| {
      ProperPrefixMisses(a[..p], a);
    }
    assert a[..|a|] == a && b[..|b|] == b;
    assert p < |a| && p < |b|;
    assert a[p] in b && b[p] in a;
    r :| 0 <= r < |b| && b[r] == a[p];
    q :| 0 <= q < |a| && a[q] == b[p];
  }

  predicate AtLeast(entries: seq<Entry>, least: nat) {
    forall i :: 0 <= i < |entries| ==> |entries[i].payload| >= least
  }

  /** Three new images of any lengths, all distinct from `window` and each other. */
  predicate Novel(window: seq<Entry>, novel: seq<Entry>) {
    && |novel| == 3 && DistinctIds(novel)
    && (forall i :: 0 <= i < 3 ==> !HasId(window, novel[i].reference.id))
  }

  /** From every repeated image on, the window leaves room for the new images that would follow it. */
  predicate Roomy(window: seq<Entry>, novel: seq<Entry>)
    requires |window| <= MAX_REQUEST_IMAGES && |novel| == 3
  {
    forall i, k :: 0 <= i < k < |window| && 2 <= k && window[i].reference.id == window[k].reference.id ==>
      Total(window[k..]) + Total(novel[..4 - (|window| - k)]) <= MAX_REQUEST_IMAGE_BYTES
  }

  lemma {:induction false} TotalOfEqual(entries: seq<Entry>, size: nat)
    requires forall i :: 0 <= i < |entries| ==> |entries[i].payload| == size
    ensures Total(entries) == |entries| * size
  {
    if entries == [] {
      TotalIsSum(entries);
    } else {
      TotalOfEqual(entries[1..], size);
      assert entries == [entries[0]] + entries[1..];
      LengthsAppend([entries[0]], entries[1..]);
      TotalOne(entries[0]);
    }
  }

  lemma TotalAtLeast(entries: seq<Entry>, k: nat)
    requires k < |entries|
    ensures Total(entries) >= |entries[k].payload|
  {
    assert entries == entries[..k] + ([entries[k]] + entries[k + 1..]);
    LengthsAppend(entries[..k], [entries[k]] + entries[k + 1..]);
    LengthsAppend([entries[k]], entries[k + 1..]);
    TotalOne(entries[k]);
  }

  lemma TotalAtLeastTwo(entries: seq<Entry>, i: nat, least: nat)
    requires AtLeast(entries, least) && i < |entries| && 2 <= |entries|
    ensures Total(entries) >= |entries[i].payload| + least
  {
    if i == 0 {
      TotalOfPair(entries, 0, 1);
    } else {
      TotalOfPair(entries, 0, i);
    }
  }

  lemma TotalOfPair(entries: seq<Entry>, low: nat, high: nat)
    requires low < high < |entries|
    ensures Total(entries) >= |entries[low].payload| + |entries[high].payload|
  {
    assert entries == entries[..low] + ([entries[low]] + entries[low + 1..]);
    hide Total, Lengths;
    LengthsAppend(entries[..low], [entries[low]] + entries[low + 1..]);
    LengthsAppend([entries[low]], entries[low + 1..]);
    TotalOne(entries[low]);
    TotalAtLeast(entries[low + 1..], high - low - 1);
  }

  lemma TotalOfPart(entries: seq<Entry>, from: nat, to: nat)
    requires from <= to <= |entries|
    ensures Total(entries[from..to]) <= Total(entries)
  {
    assert entries == entries[..from] + (entries[from..to] + entries[to..]);
    LengthsAppend(entries[..from], entries[from..to] + entries[to..]);
    LengthsAppend(entries[from..to], entries[to..]);
  }

  lemma RoomAfter(window: seq<Entry>, novel: seq<Entry>, k: nat, m: nat)
    requires 2 <= k <= |window| && m <= |novel|
    ensures Total(window[k..]) + Total(novel[..m]) <= Total(window[2..]) + Total(novel)
  {
    TotalOfPart(window[2..], k - 2, |window| - 2);
    TotalOfPart(novel, 0, m);
    hide Total;
    assert window[2..][k - 2..|window| - 2] == window[k..] && novel[0..m] == novel[..m];
  }

  /** Without its first two images the window leaves room for all three: enough, whatever their lengths. */
  lemma {:induction false} RoomAfterTwo(window: seq<Entry>, novel: seq<Entry>)
    requires 2 <= |window| <= MAX_REQUEST_IMAGES && |novel| == 3
    requires Total(window[2..]) + Total(novel) <= MAX_REQUEST_IMAGE_BYTES
    ensures Roomy(window, novel)
  {
    hide Total;
    forall i: nat, k: nat | 0 <= i < k < |window| && 2 <= k && window[i].reference.id == window[k].reference.id
      ensures Total(window[k..]) + Total(novel[..4 - (|window| - k)]) <= MAX_REQUEST_IMAGE_BYTES
    {
      RoomAfter(window, novel, k, 4 - (|window| - k));
    }
  }

  /** Three images of the smallest size have room after every window. */
  lemma {:induction false} SmallestHaveRoom(window: seq<Entry>, novel: seq<Entry>, least: nat)
    requires Fits(Lengths(window)) && Consistent(window) && AtLeast(window, least) && 5 * least <= MAX_REQUEST_IMAGE_BYTES
    requires |novel| == 3 && forall i :: 0 <= i < 3 ==> |novel[i].payload| == least
    ensures Roomy(window, novel)
  {
    assert Total(window) <= MAX_REQUEST_IMAGE_BYTES && |window| <= 4;
    hide Total, Fits, Lengths;
    forall i: nat, k: nat | 0 <= i < k < |window| && 2 <= k && window[i].reference.id == window[k].reference.id
      ensures Total(window[k..]) + Total(novel[..4 - (|window| - k)]) <= MAX_REQUEST_IMAGE_BYTES
    {
      assert |window[i].payload| == |window[k].payload|;
      RoomBehind(window, novel, least, i, k);
    }
  }

  lemma {:induction false} RoomBehind(window: seq<Entry>, novel: seq<Entry>, least: nat, i: nat, k: nat)
    requires Total(window) <= MAX_REQUEST_IMAGE_BYTES && |window| <= 4 && AtLeast(window, least) && 5 * least <= MAX_REQUEST_IMAGE_BYTES
    requires |novel| == 3 && forall j :: 0 <= j < 3 ==> |novel[j].payload| == least
    requires i < k < |window| && 2 <= k && |window[i].payload| == |window[k].payload|
    ensures Total(window[k..]) + Total(novel[..4 - (|window| - k)]) <= MAX_REQUEST_IMAGE_BYTES
  {
    hide Total, Lengths;
    var head, tail := window[..k], window[k..];
    assert window == head + tail && head[i] == window[i];
    LengthsAppend(head, tail);
    TotalOfEqual(novel[..4 - |tail|], least);
    TotalAtLeastTwo(head, i, least);
    if |tail| == 1 {
      assert tail == [tail[0]];
      TotalOne(tail[0]);
    }
  }

  /** Images never seen before only push the front out. */
  lemma {:induction false} FreshOnlyEvict(start: seq<Entry>, novel: seq<Entry>)
    requires DistinctIds(start + novel) && Fits(Lengths(start))
    ensures CachedFrom(start, novel) == Suffix(start + novel)
  {
    if novel == [] {
      assert start + novel == start;
      SuffixOfFitting(start);
    } else {
      var front, last := novel[..|novel| - 1], novel[|novel| - 1];
      var all := start + front;
      assert start + novel == all + [last];
      DistinctParts(all, [last]);
      FreshOnlyEvict(start, front);
      InsertCommutesWithSuffix(all, last);
      WithoutAbsent(all, all, last.reference.id);
    }
  }

  lemma {:induction false} DistinctParts(a: seq<Entry>, b: seq<Entry>)
    requires DistinctIds(a + b)
    ensures DistinctIds(a) && DistinctIds(b)
    ensures b != [] ==> !HasId(a, b[0].reference.id) && SameLength(a, b[0])
  {
    assert forall i :: 0 <= i < |a| ==> (a + b)[i] == a[i];
    assert forall i :: 0 <= i < |b| ==> (a + b)[|a| + i] == b[i];
  }

  /** An entry with four others after it is out of a list without repeats. */
  lemma {:induction false} FourAfterEvict(entries: seq<Entry>, p: nat)
    requires DistinctIds(entries) && p + MAX_REQUEST_IMAGES < |entries|
    ensures !HasId(Suffix(entries), entries[p].reference.id)
  {
    var k := FirstKept(Lengths(entries));
    LengthsDrop(entries, k);
    assert k > p;
  }

  lemma {:induction false} PresentAt(entries: seq<Entry>, e: Entry) returns (k: nat)
    requires e in entries
    ensures k < |entries| && entries[k] == e
  {
    k :| 0 <= k < |entries| && entries[k] == e;
  }

  lemma {:induction false} IdsInList(entries: seq<Entry>)
    requires DistinctIds(entries)
    ensures Repeatless(IdList(entries))
    ensures forall id :: id in IdList(entries) <==> HasId(entries, id)
  {
    assert forall i :: 0 <= i < |entries| ==> IdList(entries)[i] == entries[i].reference.id;
  }

  /** First-use and last-use order disagree: how they cross. */
  lemma {:induction false} OrdersCrossAt(window: seq<Entry>) returns (p: nat, q: nat, r: nat)
    requires IdList(Firsts(window)) != IdList(Latest(window))
    ensures var a, b := Firsts(window), Latest(window);
      && p < q < |a| && p < r < |b|
      && a[p].reference.id == b[r].reference.id && a[q].reference.id == b[p].reference.id
  {
    var a, b := Firsts(window), Latest(window);
    FirstsFacts(window);
    LatestFacts(window);
    IdsInList(a);
    IdsInList(b);
    forall id ensures HasId(a, id) <==> HasId(b, id) {
      if HasId(a, id) {
        var i :| 0 <= i < |a| && a[i].reference.id == id;
        assert a[i] in window;
      }
      if HasId(b, id) {
        var i :| 0 <= i < |b| && b[i].reference.id == id;
        assert b[i] in window;
      }
    }
    hide Firsts, Latest, HasId, DistinctIds;
    p, q, r := OrdersCross(IdList(a), IdList(b));
    assert IdList(a)[p] == a[p].reference.id && IdList(a)[q] == a[q].reference.id;
    assert IdList(b)[p] == b[p].reference.id && IdList(b)[r] == b[r].reference.id;
  }

  /**
    The identity that first-use order puts too early: its last use `k` is near the end
    of the window, yet more of the cache lies behind its slot `p` than uses lie behind `k`.
  */
  lemma {:induction false} TooEarly(window: seq<Entry>) returns (p: nat, i: nat, k: nat)
    requires |window| <= MAX_REQUEST_IMAGES
    requires IdList(Firsts(window)) != IdList(Latest(window))
    ensures i < k < |window| && 2 <= k && p < |Firsts(window)|
    ensures window[i].reference.id == window[k].reference.id == Firsts(window)[p].reference.id
    ensures |Firsts(window)| - 1 - p >= |window| - k
  {
    var q, r;
    p, q, r := OrdersCrossAt(window);
    var a := Firsts(window);
    i := FirstsOrder(window, p, q);
    k := LatestOrder(window, p, r);
    var j := PresentFirst(window, q);
    hide *;
    AbsentBefore(window, i + 1, a[q].reference.id, j);
    AbsentFrom(window, k, a[q].reference.id, j);
    if k + 1 < |window| {
      LastIsOther(window, k);
      AbsentFrom(window, k, a[q].reference.id, |window| - 1);
      BehindBoth(window, p, q, i, j);
    }
  }

  lemma PresentFirst(window: seq<Entry>, q: nat) returns (j: nat)
    requires q < |Firsts(window)|
    ensures j < |window| && window[j] == Firsts(window)[q]
  {
    FirstsFacts(window);
    j := PresentAt(window, Firsts(window)[q]);
  }

  lemma {:induction false} AbsentBefore(window: seq<Entry>, k: nat, id: string, j: nat)
    requires k <= |window| && Absent(window[..k], id) && j < |window| && window[j].reference.id == id
    ensures k <= j
  {
    assert forall x :: 0 <= x < k ==> window[..k][x] == window[x];
  }

  lemma {:induction false} AbsentFrom(window: seq<Entry>, k: nat, id: string, j: nat)
    requires k <= |window| && Absent(window[k..], id) && j < |window|
    ensures window[j].reference.id == id ==> j < k
  {
    assert forall x :: k <= x < |window| ==> window[k..][x - k] == window[x];
  }

  lemma {:induction false} LastIsOther(window: seq<Entry>, k: nat)
    requires k + 1 < |window| && Absent(window[k + 1..], window[k].reference.id)
    ensures window[|window| - 1].reference.id != window[k].reference.id
  {
    assert window[k + 1..][|window| - k - 2] == window[|window| - 1];
  }

  lemma {:induction false} FirstsHead(window: seq<Entry>)
    requires window != []
    ensures Firsts(window) != [] && Firsts(window)[0] == window[0]
  {
    if |window| > 1 {
      FirstsHead(window[..|window| - 1]);
    } else {
      assert Firsts(window[..0]) == [];
    }
  }

  /** A third identity used last of all takes a third slot behind `p`. */
  lemma {:induction false} BehindBoth(window: seq<Entry>, p: nat, q: nat, i: nat, j: nat)
    requires |window| == 4 && i == 0 && j == 1
    requires p < q < |Firsts(window)|
    requires window[0].reference.id == window[2].reference.id == Firsts(window)[p].reference.id
    requires window[1] == Firsts(window)[q]
    requires window[3].reference.id != window[0].reference.id && window[3].reference.id != window[1].reference.id
    ensures |Firsts(window)| >= p + 3
  {
    var a := Firsts(window);
    FirstsFacts(window);
    assert window[3] in window;
    FirstsHead(window);
    assert p == 0;
    var s: nat :| s < |a| && a[s].reference.id == window[3].reference.id;
  }

  lemma NotCovered(start: seq<Entry>, window: seq<Entry>, later: seq<Entry>, e: Entry)
    requires e in Suffix(window + later) && !HasId(CachedFrom(start, later), e.reference.id)
    ensures !Covers(start, window, later)
  {
    hide Suffix, CachedFrom, HasId;
  }

  lemma RoomFor(window: seq<Entry>, novel: seq<Entry>, i: nat, k: nat)
    requires |window| <= MAX_REQUEST_IMAGES && |novel| == 3 && Roomy(window, novel)
    requires i < k < |window| && 2 <= k && window[i].reference.id == window[k].reference.id
    ensures Total(window[k..]) + Total(novel[..4 - (|window| - k)]) <= MAX_REQUEST_IMAGE_BYTES
  {
    hide Total;
  }

  /** When the orders disagree, at most three new images lose an image the window still needs. */
  lemma {:induction false} DisagreeingOrdersLose(window: seq<Entry>, novel: seq<Entry>) returns (m: nat)
    requires Fits(Lengths(window)) && Consistent(window) && Novel(window, novel) && Roomy(window, novel)
    requires IdList(Firsts(window)) != IdList(Latest(window))
    ensures m <= 3 && !Covers(Firsts(window), window, novel[..m])
  {
    assert |window| <= MAX_REQUEST_IMAGES && |novel| == 3;
    hide *;
    var p, i, k := TooEarly(window);
    m := 4 - (|window| - k);
    var later := novel[..m];
    RoomFor(window, novel, i, k);
    StillInWindow(window, later, k);
    FirstsFacts(window);
    SuffixFits(window, Firsts(window));
    DistinctWithNovel(Firsts(window), window, novel, m);
    FreshOnlyEvict(Firsts(window), later);
    FourAfterEvict(Firsts(window) + later, p);
    assert (Firsts(window) + later)[p] == Firsts(window)[p];
    NotCovered(Firsts(window), window, later, window[k]);
  }

  lemma {:induction false} SuffixFits(window: seq<Entry>, firsts: seq<Entry>)
    requires Fits(Lengths(window)) && |firsts| <= |window| && Total(firsts) <= Total(window)
    ensures Fits(Lengths(firsts))
  {
  }

  lemma {:induction false} DistinctWithNovel(firsts: seq<Entry>, window: seq<Entry>, novel: seq<Entry>, m: nat)
    requires DistinctIds(firsts) && Novel(window, novel) && m <= 3
    requires forall e :: e in firsts ==> e in window
    ensures DistinctIds(firsts + novel[..m])
  {
    var all := firsts + novel[..m];
    forall x, y | 0 <= x < y < |all| ensures all[x].reference.id != all[y].reference.id {
      if x < |firsts| && y >= |firsts| {
        var at := PresentAt(window, firsts[x]);
        assert !HasId(window, novel[y - |firsts|].reference.id);
      }
    }
  }

  /** The last use of a repeated image still fits beside the new images. */
  lemma {:induction false} StillInWindow(window: seq<Entry>, later: seq<Entry>, k: nat)
    requires k < |window| && |window| - k + |later| == 4
    requires Total(window[k..]) + Total(later) <= MAX_REQUEST_IMAGE_BYTES
    ensures window[k] in Suffix(window + later)
  {
    var head, tail := window[..k], window[k..];
    assert window == head + tail;
    LengthsAppend(tail, later);
    assert Fits(Lengths(tail + later));
    hide FirstKept, Lengths, Sum, Suffix;
    StillInTail(head, tail + later);
    assert window + later == head + (tail + later);
  }

  lemma StillInTail(head: seq<Entry>, rest: seq<Entry>)
    requires rest != [] && Fits(Lengths(rest))
    ensures rest[0] in Suffix(head + rest)
  {
    hide *;
    SuffixKeeps(head, rest);
    HeadStays(head[FirstKept(Lengths(head + rest))..], rest);
  }

  lemma HeadStays(a: seq<Entry>, b: seq<Entry>)
    requires b != []
    ensures b[0] in a + b
  {
    assert (a + b)[|a|] == b[0];
  }

  /** Whether the orders agree shows on any three new images there is room for. */
  lemma {:induction false} ProbesDecide(window: seq<Entry>, novel: seq<Entry>)
    requires Fits(Lengths(window)) && Consistent(window) && Novel(window, novel) && Roomy(window, novel)
    ensures (forall m :: 0 <= m <= 3 ==> Covers(Firsts(window), window, novel[..m])) <==>
      IdList(Firsts(window)) == IdList(Latest(window))
  {
    if IdList(Firsts(window)) == IdList(Latest(window)) {
      forall m | 0 <= m <= 3 ensures Covers(Firsts(window), window, novel[..m]) {
        ConsistentWithNovel(window, novel, m);
        AgreeingOrdersCover(window, novel[..m]);
      }
    } else {
      var m := DisagreeingOrdersLose(window, novel);
    }
  }

  lemma {:induction false} ConsistentWithNovel(window: seq<Entry>, novel: seq<Entry>, m: nat)
    requires Consistent(window) && Novel(window, novel) && m <= 3
    ensures Consistent(window + novel[..m])
  {
    var all := window + novel[..m];
    forall x, y | 0 <= x < |all| && 0 <= y < |all| && all[x].reference.id == all[y].reference.id
      ensures all[x].payload == all[y].payload
    {
      if x >= |window| {
        assert !HasId(window, novel[x - |window|].reference.id);
      }
      if y >= |window| {
        assert !HasId(window, novel[y - |window|].reference.id);
      }
    }
  }

  function LongestId(entries: seq<Entry>): (r: nat)
    ensures forall i :: 0 <= i < |entries| ==> |entries[i].reference.id| <= r
  {
    if entries == [] then 0 else
    var rest := LongestId(entries[1..]);
    assert forall i :: 1 <= i < |entries| ==> entries[i] == entries[1..][i - 1];
    if |entries[0].reference.id| > rest then |entries[0].reference.id| else rest
  }

  /** An image whose identity is longer than any in `window`. */
  function NewImage(window: seq<Entry>, which: nat, size: nat): (e: Entry)
    ensures |e.reference.id| == LongestId(window) + 1 + which && |e.payload| == size
  {
    Entry(Reference(seq(LongestId(window) + 1 + which, _ => '0'), Png, Min(size, MAX_U64), 1, 1, None), seq(size, _ => 0))
  }

  lemma NewImagesAreNovel(window: seq<Entry>, size: nat) returns (novel: seq<Entry>)
    ensures Novel(window, novel) && forall i :: 0 <= i < 3 ==> |novel[i].payload| == size
  {
    novel := [NewImage(window, 0, size), NewImage(window, 1, size), NewImage(window, 2, size)];
    hide NewImage;
    assert forall i :: 0 <= i < 3 ==> |novel[i].reference.id| == LongestId(window) + 1 + i;
  }

  /** Every later sequence of images of at least `least` bytes is covered. */
  ghost predicate CoversEveryLater(window: seq<Entry>, least: nat) {
    forall later :: AtLeast(later, least) && Consistent(window + later) ==> Covers(Firsts(window), window, later)
  }

  /**
    A resumed session covers every window of every later sequence of images if and only if
    first use and last use order the identities of the loaded window alike. This holds
    for images of any least size of which five meet the request limit.
  */
  lemma {:induction false} ResumeCoversIff(window: seq<Entry>, least: nat)
    requires Fits(Lengths(window)) && Consistent(window)
    requires AtLeast(window, least) && 5 * least <= MAX_REQUEST_IMAGE_BYTES
    ensures CoversEveryLater(window, least) <==> IdList(Firsts(window)) == IdList(Latest(window))
  {
    if IdList(Firsts(window)) == IdList(Latest(window)) {
      forall later | AtLeast(later, least) && Consistent(window + later)
        ensures Covers(Firsts(window), window, later)
      {
        AgreeingOrdersCover(window, later);
      }
    } else {
      var novel := NewImagesAreNovel(window, least);
      SmallestHaveRoom(window, novel, least);
      var m := DisagreeingOrdersLose(window, novel);
      ConsistentWithNovel(window, novel, m);
      NotEveryLater(window, least, novel[..m]);
    }
  }

  lemma NotEveryLater(window: seq<Entry>, least: nat, later: seq<Entry>)
    requires AtLeast(later, least) && Consistent(window + later) && !Covers(Firsts(window), window, later)
    ensures !CoversEveryLater(window, least)
  {
    hide AtLeast, Consistent, Covers, Firsts;
  }

  lemma FirstsOfRepeat(a: Entry, b: Entry)
    requires a.reference.id != b.reference.id
    ensures Firsts([a, b, a]) == [a, b]
  {
    assert [a, b, a][..2] == [a, b] && [a, b][..1] == [a] && [a][..0] == [];
    assert [a][0] == a && [a, b][0] == a;
    assert HasId([a, b], a.reference.id) && !HasId([a], b.reference.id) && !HasId([], a.reference.id);
    hide HasId;
    assert Firsts([]) == [];
    assert Firsts([a]) == [a];
    assert Firsts([a, b]) == [a, b];
  }

  lemma WithoutSmall(a: Entry, b: Entry)
    requires a.reference.id != b.reference.id
    ensures Without([], a.reference.id) == [] && Without([a], b.reference.id) == [a] && Without([a, b], a.reference.id) == [b]
  {
    assert Position([], a.reference.id) == None;
    assert Position([a, b], a.reference.id) == Some(0);
    assert [a][1..] == [] && Position([a], b.reference.id) == None;
    assert [a, b][..0] + [a, b][1..] == [b];
  }

  lemma LatestOfRepeat(a: Entry, b: Entry)
    requires a.reference.id != b.reference.id
    ensures Latest([a, b, a]) == [b, a]
  {
    hide *;
    WithoutSmall(a, b);
    LatestOfNone();
    LatestStep([], a);
    assert [] + [a] == [a];
    LatestStep([a], b);
    assert [a] + [b] == [a, b];
    LatestStep([a, b], a);
    assert [a, b] + [a] == [a, b, a] && [b] + [a] == [b, a];
  }

  lemma LatestOfNone()
    ensures Latest([]) == []
  {
  }

  /** The smallest disagreement: one image, another, and the first again. */
  lemma RepeatDisagrees(a: Entry, b: Entry)
    requires a.reference.id != b.reference.id
    ensures IdList(Firsts([a, b, a])) != IdList(Latest([a, b, a]))
  {
    FirstsOfRepeat(a, b);
    LatestOfRepeat(a, b);
    hide Firsts, Latest;
    assert IdList([a, b])[0] != IdList([b, a])[0];
  }
}
