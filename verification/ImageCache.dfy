/**
  The resident image cache against the request window (src/attachment.rs:208-272, 341-361).
  The cache refreshes on re-insertion and evicts from the front; the window is the
  longest suffix of the image history that meets the request limits.
*/
module ImageCache {
  import opened Wrappers
  import opened Text
  import opened ByteText

  const MAX_REQUEST_IMAGES: nat := 4
  const MAX_REQUEST_IMAGE_BYTES: nat := 4 * 1024 * 1024

  datatype MediaType = Png | Jpeg | Webp | Gif

  datatype Reference = Reference(
    id: string,
    mediaType: MediaType,
    bytes: u64,
    width: u64,
    height: u64,
    name: Option<string>
  )

  datatype Entry = Entry(reference: Reference, payload: Bytes)

  datatype AttachmentError = TooLarge | NotFound | Corrupt

  // ----- weights -----

  function Sum(weights: seq<nat>): nat {
    if weights == [] then 0 else weights[0] + Sum(weights[1..])
  }

  predicate Fits(weights: seq<nat>) {
    |weights| <= MAX_REQUEST_IMAGES && Sum(weights) <= MAX_REQUEST_IMAGE_BYTES
  }

  /** Where the longest fitting suffix starts. */
  function FirstKept(weights: seq<nat>): (first: nat)
    ensures first <= |weights| && Fits(weights[first..])
    ensures forall k :: 0 <= k < first ==> !Fits(weights[k..])
  {
    if Fits(weights) then (assert weights[0..] == weights; 0) else
    var rest := FirstKept(weights[1..]);
    assert forall k :: 0 <= k <= |weights| - 1 ==> weights[1..][k..] == weights[k + 1..];
    assert weights[0..] == weights;
    assert forall k :: 0 < k < 1 + rest ==> weights[k..] == weights[1..][k - 1..];
    1 + rest
  }

  lemma SumAppend(a: seq<nat>, b: seq<nat>)
    ensures Sum(a + b) == Sum(a) + Sum(b)
  {
    if a == [] {
      assert a + b == b;
    } else {
      SumAppend(a[1..], b);
      assert (a + b)[1..] == a[1..] + b;
    }
  }

  function Lengths(entries: seq<Entry>): (r: seq<nat>)
    ensures |r| == |entries|
  {
    seq(|entries|, i requires 0 <= i < |entries| => |entries[i].payload|)
  }

  function DeclaredLengths(images: seq<Reference>): (r: seq<nat>)
    ensures |r| == |images|
  {
    seq(|images|, i requires 0 <= i < |images| => images[i].bytes as nat)
  }

  function Total(entries: seq<Entry>): nat {
    Sum(Lengths(entries))
  }

  /** The longest suffix within both request limits. */
  function Suffix(entries: seq<Entry>): seq<Entry> {
    entries[FirstKept(Lengths(entries))..]
  }

  lemma LengthsAppend(a: seq<Entry>, b: seq<Entry>)
    ensures Lengths(a + b) == Lengths(a) + Lengths(b)
    ensures Total(a + b) == Total(a) + Total(b)
  {
    assert Lengths(a + b) == Lengths(a) + Lengths(b);
    SumAppend(Lengths(a), Lengths(b));
  }

  lemma LengthsDrop(entries: seq<Entry>, k: nat)
    requires k <= |entries|
    ensures Lengths(entries[k..]) == Lengths(entries)[k..]
  {
  }

  lemma FittingPartsFit(a: seq<Entry>, b: seq<Entry>)
    ensures Fits(Lengths(a + b)) ==> Fits(Lengths(a)) && Fits(Lengths(b))
  {
    LengthsAppend(a, b);
  }

  lemma {:induction false} FirstKeptIs(weights: seq<nat>, k: nat)
    requires k <= |weights| && Fits(weights[k..])
    requires forall j :: 0 <= j < k ==> !Fits(weights[j..])
    ensures FirstKept(weights) == k
  {
  }

  /** What fits at the end stays in the suffix. */
  lemma SuffixKeeps(a: seq<Entry>, b: seq<Entry>)
    requires Fits(Lengths(b))
    ensures var first := FirstKept(Lengths(a + b));
      first <= |a| && Suffix(a + b) == a[first..] + b
  {
    LengthsDrop(a + b, |a|);
    assert (a + b)[|a|..] == b;
  }

  /** A prefix whose last entry no longer fits beside the rest plays no part. */
  lemma {:induction false} SuffixIgnores(a: seq<Entry>, b: seq<Entry>)
    requires a != [] ==> !Fits(Lengths([a[|a| - 1]] + b))
    ensures Suffix(a + b) == Suffix(b)
  {
    var k := |a| + FirstKept(Lengths(b));
    forall j | 0 <= j < k ensures !Fits(Lengths(a + b)[j..]) {
      LengthsDrop(a + b, j);
      if j < |a| {
        TooMuch(a, b, j);
      } else {
        assert (a + b)[j..] == b[j - |a|..];
        LengthsDrop(b, j - |a|);
      }
    }
    LengthsDrop(a + b, k);
    assert (a + b)[k..] == Suffix(b);
    LengthsDrop(b, FirstKept(Lengths(b)));
    hide Fits, Lengths;
    FirstKeptIs(Lengths(a + b), k);
  }

  lemma TooMuch(a: seq<Entry>, b: seq<Entry>, j: nat)
    requires j < |a| && !Fits(Lengths([a[|a| - 1]] + b))
    ensures !Fits(Lengths((a + b)[j..]))
  {
    var front, last := a[j..|a| - 1], [a[|a| - 1]] + b;
    assert (a + b)[j..] == front + last;
    hide Fits, Lengths;
    FittingPartsFit(front, last);
  }

  // ----- the cache -----

  predicate DistinctIds(entries: seq<Entry>) {
    forall i, j :: 0 <= i < j < |entries| ==> entries[i].reference.id != entries[j].reference.id
  }

  predicate HasId(entries: seq<Entry>, id: string) {
    exists i :: 0 <= i < |entries| && entries[i].reference.id == id
  }

  function Position(entries: seq<Entry>, id: string): (r: Option<nat>)
    ensures r.Some? ==> r.value < |entries| && entries[r.value].reference.id == id
    ensures r.Some? ==> forall i :: 0 <= i < r.value ==> entries[i].reference.id != id
    ensures r.None? ==> !HasId(entries, id)
  {
    if entries == [] then None
    else if entries[0].reference.id == id then Some(0)
    else
      var rest := Position(entries[1..], id);
      assert rest.None? ==> forall i :: 0 < i < |entries| ==> entries[1..][i - 1] == entries[i];
      if rest.Some? then Some(rest.value + 1) else None
  }

  function RemoveAt(entries: seq<Entry>, k: nat): seq<Entry>
    requires k < |entries|
  {
    entries[..k] + entries[k + 1..]
  }

  function Without(entries: seq<Entry>, id: string): seq<Entry> {
    var at := Position(entries, id);
    if at.Some? then RemoveAt(entries, at.value) else entries
  }

  /** One insertion: refresh, then evict from the front. */
  function Inserted(entries: seq<Entry>, entry: Entry): seq<Entry> {
    Suffix(Without(entries, entry.reference.id) + [entry])
  }

  function Lookup(entries: seq<Entry>, reference: Reference): (r: Option<Bytes>)
    ensures r.Some? <==> exists i :: 0 <= i < |entries| && entries[i].reference == reference
  {
    if entries == [] then None
    else if entries[0].reference == reference then Some(entries[0].payload)
    else
      assert forall i :: 0 < i < |entries| ==> entries[1..][i - 1] == entries[i];
      Lookup(entries[1..], reference)
  }

  lemma {:induction false} WithoutFacts(entries: seq<Entry>, id: string)
    requires DistinctIds(entries)
    ensures DistinctIds(Without(entries, id)) && !HasId(Without(entries, id), id)
    ensures forall e :: e in Without(entries, id) <==> e in entries && e.reference.id != id
  {
  }

  lemma TotalOne(entry: Entry)
    ensures Total([entry]) == |entry.payload|
  {
    assert Lengths([entry]) == [|entry.payload|];
    assert [|entry.payload|][1..] == [];
    assert Sum([|entry.payload|]) == |entry.payload|;
  }

  lemma TotalIsSum(entries: seq<Entry>)
    ensures Total(entries) == Sum(Lengths(entries)) && (entries == [] ==> Total(entries) == 0)
  {
  }

  lemma WithoutTotal(entries: seq<Entry>, id: string)
    ensures var at := Position(entries, id);
      Total(entries) == Total(Without(entries, id)) + if at.Some? then |entries[at.value].payload| else 0
  {
    var at := Position(entries, id);
    if at.Some? {
      var a, e, b := entries[..at.value], entries[at.value], entries[at.value + 1..];
      LengthsAppend(a, b);
      LengthsAppend(a, [e] + b);
      LengthsAppend([e], b);
      TotalOne(e);
      assert entries == a + ([e] + b);
    }
  }

  class Cache {
    var entries: seq<Entry>
    var bytes: nat

    ghost predicate Valid()
      reads this
    {
      bytes == Total(entries) && DistinctIds(entries) && Fits(Lengths(entries))
    }

    constructor ()
      ensures Valid() && entries == []
    {
      entries, bytes := [], 0;
    }

    /** Pop entries from the front until both limits hold. */
    method EvictToFit()
      requires bytes == Total(entries) && DistinctIds(entries)
      modifies this
      ensures Valid() && entries == Suffix(old(entries))
    {
      ghost var all := entries;
      ghost var evicted := 0;
      hide Total;
      while bytes > MAX_REQUEST_IMAGE_BYTES || |entries| > MAX_REQUEST_IMAGES
        invariant evicted <= |all| && entries == all[evicted..] && bytes == Total(entries)
        invariant DistinctIds(entries)
        invariant forall k :: 0 <= k < evicted ==> !Fits(Lengths(all)[k..])
        decreases |entries|
      {
        LengthsDrop(all, evicted);
        TotalIsSum(entries);
        if entries == [] {
          break;
        }
        LengthsAppend([entries[0]], entries[1..]);
        assert entries == [entries[0]] + entries[1..];
        TotalOne(entries[0]);
        bytes := SaturatingSub(bytes, |entries[0].payload|);
        entries := entries[1..];
        evicted := evicted + 1;
      }
      TotalIsSum(entries);
      LengthsDrop(all, evicted);
      FirstKeptIs(Lengths(all), evicted);
    }

    /** Insert or refresh one image. The sum overflows only after the prior copy is already gone. */
    method Insert(entry: Entry) returns (r: Result<(), AttachmentError>)
      requires Valid()
      modifies this
      ensures Valid()
      ensures r.Ok? <==> Total(Without(old(entries), entry.reference.id)) + |entry.payload| <= MAX_USIZE
      ensures r.Err? ==> r.error == TooLarge
      ensures entries ==
        if r.Ok? then Inserted(old(entries), entry) else Without(old(entries), entry.reference.id)
    {
      WithoutFacts(entries, entry.reference.id);
      WithoutTotal(entries, entry.reference.id);
      hide Total, Lengths, FirstKept;
      var at := Position(entries, entry.reference.id);
      if at.Some? {
        bytes := SaturatingSub(bytes, |entries[at.value].payload|);
        entries := RemoveAt(entries, at.value);
      }
      if bytes + |entry.payload| > MAX_USIZE {
        return Err(TooLarge);
      }
      LengthsAppend(entries, [entry]);
      TotalOne(entry);
      bytes := bytes + |entry.payload|;
      entries := entries + [entry];
      EvictToFit();
      r := Ok(());
    }

    method Resolve(reference: Reference) returns (r: Result<Bytes, AttachmentError>)
      requires Valid()
      ensures r == match Lookup(entries, reference) { case Some(payload) => Ok(payload) case None => Err(NotFound) }
    {
      var found := Lookup(entries, reference);
      r := if found.Some? then Ok(found.value) else Err(NotFound);
    }
  }

  // ----- the request window -----

  /** What the running total says is left after dropping `k` images: it saturates, in both directions. */
  function CountedAfter(weights: seq<nat>, k: nat): nat
    requires k <= |weights|
  {
    SaturatingSub(Min(Sum(weights), MAX_USIZE), Sum(weights[..k]))
  }

  predicate Retains(weights: seq<nat>, k: nat)
    requires k <= |weights|
  {
    |weights| - k <= MAX_REQUEST_IMAGES && CountedAfter(weights, k) <= MAX_REQUEST_IMAGE_BYTES
  }

  predicate FirstRetained(weights: seq<nat>, first: nat) {
    first <= |weights| && Retains(weights, first) && forall k :: 0 <= k < first ==> !Retains(weights, k)
  }

  /** The newest images that meet both request limits by the running total, and no fewer. */
  method RetainedRequestImages(images: seq<Reference>) returns (r: seq<Reference>)
    ensures |r| <= |images| && r == images[|images| - |r|..]
    ensures FirstRetained(DeclaredLengths(images), |images| - |r|)
    ensures Sum(DeclaredLengths(images)) <= MAX_USIZE ==> r == images[FirstKept(DeclaredLengths(images))..]
  {
    ghost var weights := DeclaredLengths(images);
    assert weights[..|weights|] == weights;
    var retainedBytes: nat := 0;
    for i := 0 to |images|
      invariant retainedBytes == Min(Sum(weights[..i]), MAX_USIZE)
    {
      SumNext(weights, i);
      retainedBytes := SaturatingAdd(retainedBytes, images[i].bytes, MAX_USIZE);
    }
    var first := 0;
    assert weights[..0] == [];
    while SaturatingSub(|images|, first) > MAX_REQUEST_IMAGES || retainedBytes > MAX_REQUEST_IMAGE_BYTES
      invariant first <= |images|
      invariant retainedBytes == CountedAfter(weights, first)
      invariant forall k :: 0 <= k < first ==> !Retains(weights, k)
      decreases |images| - first
    {
      if first == |images| {
        break;
      }
      SumNext(weights, first);
      retainedBytes := SaturatingSub(retainedBytes, images[first].bytes);
      first := first + 1;
    }
    RetainsLongestFittingIff(weights, first);
    r := images[first..];
  }

  lemma SumNext(weights: seq<nat>, k: nat)
    requires k < |weights|
    ensures Sum(weights[..k + 1]) == Sum(weights[..k]) + weights[k]
  {
    assert weights[..k + 1] == weights[..k] + [weights[k]];
    SumAppend(weights[..k], [weights[k]]);
  }

  /**
    The retained images are the longest suffix that fits if and only if they fit; they
    always do when the declared sizes sum to a machine word, and otherwise the saturated
    total can only keep too many.
  */
  lemma {:induction false} RetainsLongestFittingIff(weights: seq<nat>, first: nat)
    requires FirstRetained(weights, first)
    ensures first <= FirstKept(weights)
    ensures first == FirstKept(weights) <==> Fits(weights[first..])
    ensures Sum(weights) <= MAX_USIZE ==> Fits(weights[first..])
  {
    var kept := FirstKept(weights);
    forall k | 0 <= k <= |weights| ensures Sum(weights) == Sum(weights[..k]) + Sum(weights[k..]) {
      SumAppend(weights[..k], weights[k..]);
      assert weights == weights[..k] + weights[k..];
    }
    assert Retains(weights, kept);
  }

  // ----- the cache is the suffix of the images by last use -----

  /** Content addressing: one identity, one payload. */
  predicate Consistent(history: seq<Entry>) {
    forall i, j :: 0 <= i < |history| && 0 <= j < |history| && history[i].reference.id == history[j].reference.id ==>
      history[i].payload == history[j].payload
  }

  /** What the cache holds after inserting `history` in order into `start`. */
  function CachedFrom(start: seq<Entry>, history: seq<Entry>): seq<Entry> {
    if history == [] then start
    else Inserted(CachedFrom(start, history[..|history| - 1]), history[|history| - 1])
  }

  /** One entry an identity, in order of last insertion. */
  function Latest(history: seq<Entry>): seq<Entry> {
    if history == [] then []
    else
      var last := history[|history| - 1];
      Without(Latest(history[..|history| - 1]), last.reference.id) + [last]
  }

  lemma {:induction false} LatestFacts(history: seq<Entry>)
    ensures DistinctIds(Latest(history))
    ensures forall e :: e in Latest(history) ==> e in history
    ensures forall e :: e in history ==> HasId(Latest(history), e.reference.id)
  {
    if history != [] {
      var front, last := history[..|history| - 1], history[|history| - 1];
      LatestFacts(front);
      var kept := Without(Latest(front), last.reference.id);
      WithoutFacts(Latest(front), last.reference.id);
      forall e | e in history ensures HasId(kept + [last], e.reference.id) {
        assert e == last || e in front;
        KeptOrLast(Latest(front), last, e.reference.id);
      }
    }
  }

  lemma {:induction false} KeptOrLast(entries: seq<Entry>, last: Entry, id: string)
    requires DistinctIds(entries) && (id == last.reference.id || HasId(entries, id))
    ensures HasId(Without(entries, last.reference.id) + [last], id)
  {
    var kept := Without(entries, last.reference.id);
    WithoutFacts(entries, last.reference.id);
    hide Without;
    if id == last.reference.id {
      assert (kept + [last])[|kept|] == last;
    } else {
      var i :| 0 <= i < |entries| && entries[i].reference.id == id;
      assert entries[i] in kept;
      var j :| 0 <= j < |kept| && kept[j] == entries[i];
      assert (kept + [last])[j] == kept[j];
    }
  }

  lemma {:induction false} PositionAppend(a: seq<Entry>, b: seq<Entry>, id: string)
    ensures Position(a + b, id) ==
      if Position(a, id).Some? then Position(a, id)
      else if Position(b, id).Some? then Some(|a| + Position(b, id).value)
      else None
  {
    if a == [] {
      assert a + b == b;
    } else {
      assert (a + b)[1..] == a[1..] + b;
      PositionAppend(a[1..], b, id);
    }
  }

  lemma RemoveAtAppend(a: seq<Entry>, b: seq<Entry>, k: nat)
    requires k < |a| + |b|
    ensures RemoveAt(a + b, k) == if k < |a| then RemoveAt(a, k) + b else a + RemoveAt(b, k - |a|)
  {
  }

  lemma WithoutAppend(a: seq<Entry>, b: seq<Entry>, id: string)
    ensures Without(a + b, id) ==
      if Position(a, id).Some? then Without(a, id) + b else a + Without(b, id)
  {
    hide Position, RemoveAt;
    PositionAppend(a, b, id);
    if Position(a + b, id).Some? {
      RemoveAtAppend(a, b, Position(a + b, id).value);
    }
  }

  /** An identity is on one side of a list without repeats. */
  lemma {:induction false} OnOneSide(a: seq<Entry>, b: seq<Entry>, id: string)
    requires DistinctIds(a + b) && HasId(b, id)
    ensures Position(a, id).None?
  {
    var j :| 0 <= j < |b| && b[j].reference.id == id;
    assert (a + b)[|a| + j] == b[j];
    assert forall i :: 0 <= i < |a| ==> (a + b)[i] == a[i];
  }

  predicate SameLength(entries: seq<Entry>, entry: Entry) {
    forall i :: 0 <= i < |entries| && entries[i].reference.id == entry.reference.id ==>
      |entries[i].payload| == |entry.payload|
  }

  lemma {:induction false} InsertIgnores(a: seq<Entry>, b: seq<Entry>, entry: Entry)
    requires DistinctIds(a) && DistinctIds(a + b) && SameLength(a, entry) && SameLength(b, entry)
    requires a != [] && !Fits(Lengths([a[|a| - 1]] + b))
    ensures Inserted(b, entry) == Inserted(a + b, entry)
  {
    var id := entry.reference.id;
    WithoutAppend(a, b, id);
    WithoutAbsent(a, b, id);
    if HasId(b, id) {
      OnOneSide(a, b, id);
      hide Suffix, Without, Position, Lengths, FirstKept, DistinctIds, SameLength, Fits;
      SuffixAfterRefresh(a, b, entry);
    } else {
      hide Suffix, Without, Position, Lengths, FirstKept, DistinctIds, SameLength, Fits;
      SuffixAfterNew(a, b, entry);
    }
  }

  /** Where the suffix starts, one more entry would not fit. */
  lemma SuffixIsLongest(all: seq<Entry>)
    ensures var k := FirstKept(Lengths(all));
      && Suffix(all) == all[k..] && all == all[..k] + all[k..]
      && (k > 0 ==> !Fits(Lengths([all[..k][k - 1]] + all[k..])))
  {
    var k := FirstKept(Lengths(all));
    if k > 0 {
      LengthsDrop(all, k - 1);
      assert all[k - 1..] == [all[..k][k - 1]] + all[k..];
    }
  }

  lemma PartsHave(all: seq<Entry>, k: nat, entry: Entry)
    requires k <= |all| && DistinctIds(all) && SameLength(all, entry)
    ensures DistinctIds(all[..k]) && SameLength(all[..k], entry) && SameLength(all[k..], entry)
  {
  }

  /** Evicting before an insertion never changes what survives it. */
  lemma {:induction false} InsertCommutesWithSuffix(all: seq<Entry>, entry: Entry)
    requires DistinctIds(all) && SameLength(all, entry)
    ensures Inserted(Suffix(all), entry) == Inserted(all, entry)
  {
    hide *;
    var k := FirstKept(Lengths(all));
    SuffixIsLongest(all);
    if k == 0 {
      assert all[0..] == all;
    } else {
      PartsHave(all, k, entry);
      InsertIgnores(all[..k], all[k..], entry);
    }
  }

  lemma WithoutAbsent(a: seq<Entry>, b: seq<Entry>, id: string)
    ensures Position(b, id).None? ==> Without(b, id) == b
    ensures Position(a, id).None? ==> Without(a, id) == a
    ensures !HasId(b, id) ==> Position(b, id).None?
  {
  }

  lemma SuffixAfterRefresh(a: seq<Entry>, b: seq<Entry>, entry: Entry)
    requires a != [] && !Fits(Lengths([a[|a| - 1]] + b))
    requires HasId(b, entry.reference.id) && SameLength(b, entry)
    ensures Suffix(a + Without(b, entry.reference.id) + [entry]) == Suffix(Without(b, entry.reference.id) + [entry])
  {
    var rest := Without(b, entry.reference.id);
    var last := [a[|a| - 1]];
    WithoutTotal(b, entry.reference.id);
    LengthsAppend(rest, [entry]);
    TotalOne(entry);
    LengthsAppend(last, b);
    LengthsAppend(last, rest + [entry]);
    hide Without, Lengths, FirstKept;
    SuffixIgnores(a, rest + [entry]);
    assert a + rest + [entry] == a + (rest + [entry]);
  }

  lemma SuffixAfterNew(a: seq<Entry>, b: seq<Entry>, entry: Entry)
    requires a != [] && !Fits(Lengths([a[|a| - 1]] + b)) && DistinctIds(a) && SameLength(a, entry)
    ensures Suffix(Without(a, entry.reference.id) + b + [entry]) == Suffix(b + [entry])
  {
    var id := entry.reference.id;
    var rest := Without(a, id);
    var at := Position(a, id);
    var tail := b + [entry];
    if rest != [] {
      var last, left := [a[|a| - 1]], [rest[|rest| - 1]];
      LengthsAppend(last, b);
      LengthsAppend(b, [entry]);
      LengthsAppend(left, tail);
      TotalOne(entry);
      TotalOne(last[0]);
      if at.Some? && at.value == |a| - 1 {
        assert |entry.payload| == |last[0].payload|;
      } else {
        assert left == last;
      }
      assert !Fits(Lengths(left + tail));
    }
    SuffixIgnores(rest, tail);
    assert rest + b + [entry] == rest + tail;
  }

  /** Exactly what the cache holds: the longest fitting suffix of the distinct images by last insertion. */
  lemma {:induction false} CacheIsLatestSuffix(history: seq<Entry>)
    requires Consistent(history)
    ensures CachedFrom([], history) == Suffix(Latest(history))
  {
    if history == [] {
      assert Fits([]);
    } else {
      var front, last := history[..|history| - 1], history[|history| - 1];
      CacheIsLatestSuffix(front);
      LatestFacts(front);
      forall i | 0 <= i < |Latest(front)| && Latest(front)[i].reference.id == last.reference.id
        ensures |Latest(front)[i].payload| == |last.payload|
      {
        assert Latest(front)[i] in front;
        var j :| 0 <= j < |front| && front[j] == Latest(front)[i];
        assert history[j] == front[j];
      }
      InsertCommutesWithSuffix(Latest(front), last);
    }
  }
}
