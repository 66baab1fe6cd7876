/**
  What the cache promises a request: every image of the window is resident, when a
  reference resolves, and what survives a resume (src/attachment.rs:208-239, 341-361;
  src/provider/deepseek/request.rs:421-461).
*/
module ImageWindow {
  import opened Wrappers
  import opened Text
  import opened ByteText
  import opened ImageCache

  // ----- the window and the cache -----

  predicate Honest(history: seq<Entry>) {
    forall i :: 0 <= i < |history| ==> history[i].reference.bytes == |history[i].payload|
  }

  function References(entries: seq<Entry>): seq<Reference> {
    seq(|entries|, i requires 0 <= i < |entries| => entries[i].reference)
  }

  /** With honest lengths the retained references are those of the longest fitting suffix. */
  lemma {:induction false} WindowIsRetained(history: seq<Entry>)
    requires Honest(history)
    ensures var images := References(history);
      images[FirstKept(DeclaredLengths(images))..] == References(Suffix(history))
  {
    assert DeclaredLengths(References(history)) == Lengths(history);
  }

  lemma LatestStep(history: seq<Entry>, last: Entry)
    ensures Latest(history + [last]) == Without(Latest(history), last.reference.id) + [last]
  {
    assert (history + [last])[..|history|] == history;
  }

  lemma LatestHasNoRepeats(history: seq<Entry>)
    ensures DistinctIds(Latest(history))
  {
    LatestFacts(history);
  }

  lemma LatestSplitStep(a: seq<Entry>, front: seq<Entry>, last: Entry, before: seq<Entry>) returns (older: seq<Entry>)
    requires Latest(a + front) == before + Latest(front)
    ensures Latest(a + (front + [last])) == older + Latest(front + [last])
  {
    LatestHasNoRepeats(a + front);
    LatestStep(a + front, last);
    LatestStep(front, last);
    hide *;
    older := SplitStep(before, Latest(front), last.reference.id);
    var rest := Without(Latest(front), last.reference.id);
    assert a + (front + [last]) == (a + front) + [last];
    assert older + (rest + [last]) == (older + rest) + [last];
  }

  /** The images by last use end with those of any final stretch of the history. */
  lemma {:induction false} LatestSplit(a: seq<Entry>, b: seq<Entry>) returns (older: seq<Entry>)
    ensures Latest(a + b) == older + Latest(b)
    decreases |b|
  {
    if b == [] {
      assert a + b == a;
      older := Latest(a);
    } else {
      hide *;
      var front, last := b[..|b| - 1], b[|b| - 1];
      assert b == front + [last];
      var before := LatestSplit(a, front);
      older := LatestSplitStep(a, front, last, before);
    }
  }

  lemma {:induction false} SplitStep(a: seq<Entry>, b: seq<Entry>, id: string) returns (older: seq<Entry>)
    requires DistinctIds(a + b)
    ensures Without(a + b, id) == older + Without(b, id)
  {
    WithoutAppend(a, b, id);
    WithoutAbsent(a, b, id);
    if HasId(b, id) {
      OnOneSide(a, b, id);
      older := a;
    } else {
      older := Without(a, id);
    }
  }

  lemma {:induction false} LatestIsLighter(history: seq<Entry>)
    ensures |Latest(history)| <= |history| && Total(Latest(history)) <= Total(history)
  {
    if history != [] {
      var front, last := history[..|history| - 1], history[|history| - 1];
      LatestIsLighter(front);
      assert history == front + [last];
      LengthsAppend(front, [last]);
      LengthsAppend(Without(Latest(front), last.reference.id), [last]);
      WithoutTotal(Latest(front), last.reference.id);
    }
  }

  /** The cache ends with the window's distinct images: none of them has been evicted. */
  lemma {:induction false} WindowIsCached(history: seq<Entry>) returns (older: seq<Entry>)
    requires Consistent(history)
    ensures CachedFrom([], history) == older + Latest(Suffix(history))
    ensures forall e :: e in Suffix(history) ==> HasId(CachedFrom([], history), e.reference.id)
  {
    var window := Suffix(history);
    var first := FirstKept(Lengths(history));
    assert history == history[..first] + window;
    LengthsDrop(history, first);
    var before := LatestSplit(history[..first], window);
    LatestIsLighter(window);
    SuffixKeeps(before, Latest(window));
    CacheIsLatestSuffix(history);
    older := before[FirstKept(Lengths(before + Latest(window)))..];
    LatestFacts(window);
    forall e | e in window ensures HasId(CachedFrom([], history), e.reference.id) {
      HasIdAppend(older, Latest(window), e.reference.id);
    }
  }

  lemma HasIdAppend(a: seq<Entry>, b: seq<Entry>, id: string)
    ensures HasId(a + b, id) <==> HasId(a, id) || HasId(b, id)
  {
    assert forall i :: 0 <= i < |b| ==> (a + b)[|a| + i] == b[i];
    assert forall i :: 0 <= i < |a| ==> (a + b)[i] == a[i];
  }

  // ----- resolving a reference -----

  /** The newest entry of an identity. */
  function LastUse(history: seq<Entry>, id: string): Option<Entry> {
    if history == [] then None
    else if history[|history| - 1].reference.id == id then Some(history[|history| - 1])
    else LastUse(history[..|history| - 1], id)
  }

  lemma {:induction false} LatestIsLastUse(history: seq<Entry>)
    ensures forall e :: e in Latest(history) ==> LastUse(history, e.reference.id) == Some(e)
  {
    if history != [] {
      LatestIsLastUse(history[..|history| - 1]);
      LatestFacts(history[..|history| - 1]);
      WithoutFacts(Latest(history[..|history| - 1]), history[|history| - 1].reference.id);
    }
  }

  lemma {:induction false} LookupFinds(entries: seq<Entry>, k: nat, reference: Reference)
    requires DistinctIds(entries) && k < |entries| && entries[k].reference.id == reference.id
    ensures Lookup(entries, reference) ==
      if entries[k].reference == reference then Some(entries[k].payload) else None
  {
    if k > 0 {
      LookupFinds(entries[1..], k - 1, reference);
    }
  }

  lemma {:induction false} SuffixKeepsDistinct(entries: seq<Entry>)
    requires DistinctIds(entries)
    ensures DistinctIds(Suffix(entries)) && forall e :: e in Suffix(entries) ==> e in entries
  {
  }

  /** The entry the cache holds for an image of the window is its newest use. */
  lemma {:induction false} CachedAsLastUsed(history: seq<Entry>, e: Entry) returns (k: nat)
    requires Consistent(history) && e in Suffix(history)
    ensures var cached := CachedFrom([], history);
      && DistinctIds(cached) && k < |cached| && cached[k].reference.id == e.reference.id
      && cached[k].payload == e.payload && LastUse(history, e.reference.id) == Some(cached[k])
  {
    var older := WindowIsCached(history);
    assert e in history;
    hide FirstKept, Lengths, Suffix, CachedFrom, Latest, LastUse;
    CacheIsLatestSuffix(history);
    LatestFacts(history);
    LatestIsLastUse(history);
    SuffixKeepsDistinct(Latest(history));
    var cached := CachedFrom([], history);
    k :| 0 <= k < |cached| && cached[k].reference.id == e.reference.id;
    assert cached[k] in cached;
    SamePayload(history, cached[k], e);
  }

  lemma {:induction false} SamePayload(history: seq<Entry>, a: Entry, b: Entry)
    requires Consistent(history) && a in history && b in history && a.reference.id == b.reference.id
    ensures a.payload == b.payload
  {
  }

  /**
    An image of the window resolves, to its own bytes, exactly when its newest use
    in the history carries the whole reference: the name counts, not the content alone.
  */
  lemma {:induction false} ResolvesIff(history: seq<Entry>, e: Entry)
    requires Consistent(history) && e in Suffix(history)
    ensures LastUse(history, e.reference.id).Some?
    ensures Lookup(CachedFrom([], history), e.reference) ==
      if LastUse(history, e.reference.id).value.reference == e.reference then Some(e.payload) else None
  {
    var k := CachedAsLastUsed(history, e);
    LookupFinds(CachedFrom([], history), k, e.reference);
  }

  /** Content and metadata agree, the names do not: the older use no longer resolves. */
  lemma RenamedImageDoesNotResolve(e: Entry, name: Option<string>)
    requires Fits([|e.payload|, |e.payload|]) && name != e.reference.name
    ensures var renamed := Entry(e.reference.(name := name), e.payload);
      var history := [e, renamed];
      Suffix(history) == history && Lookup(CachedFrom([], history), e.reference) == None
  {
    var renamed := Entry(e.reference.(name := name), e.payload);
    var history := [e, renamed];
    assert Lengths(history) == [|e.payload|, |e.payload|];
    assert FirstKept(Lengths(history)) == 0;
    assert Suffix(history) == history;
    assert e in history;
    ResolvesIff(history, e);
  }
}
