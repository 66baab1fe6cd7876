/**
  Rebuilding the image cache when a session resumes (src/attachment.rs:221-241), and
  exactly when the rebuilt cache keeps the request window covered afterwards.
*/
module ImagePreload {
  import opened Wrappers
  import opened Text
  import opened ByteText
  import opened ImageCache
  import opened ImageWindow

  /** One entry an identity, in order of first occurrence. */
  function Firsts(window: seq<Entry>): seq<Entry> {
    if window == [] then []
    else
      var front, last := Firsts(window[..|window| - 1]), window[|window| - 1];
      if HasId(front, last.reference.id) then front else front + [last]
  }

  lemma {:induction false} FirstsFacts(window: seq<Entry>)
    ensures DistinctIds(Firsts(window))
    ensures forall e :: e in Firsts(window) ==> e in window
    ensures forall e :: e in window ==> HasId(Firsts(window), e.reference.id)
    ensures |Firsts(window)| <= |window| && Total(Firsts(window)) <= Total(window)
  {
    if window != [] {
      var front, last := window[..|window| - 1], window[|window| - 1];
      FirstsFacts(front);
      assert window == front + [last];
      LengthsAppend(front, [last]);
      LengthsAppend(Firsts(front), [last]);
      assert (Firsts(front) + [last])[|Firsts(front)|] == last;
      forall e | e in window ensures HasId(Firsts(window), e.reference.id) {
        if e in front {
          HasIdAppend(Firsts(front), [last], e.reference.id);
        }
      }
    }
  }

  /** Stored bytes for each reference; nothing when the object is missing. */
  function Stored(images: seq<Reference>, storage: map<string, Bytes>): (r: seq<Entry>)
    ensures |r| == |images|
  {
    seq(|images|, i requires 0 <= i < |images| =>
      Entry(images[i], if images[i].id in storage then storage[images[i].id] else []))
  }

  predicate Readable(image: Reference, storage: map<string, Bytes>) {
    image.id in storage && |storage[image.id]| == image.bytes
  }

  predicate AllReadable(entries: seq<Entry>, storage: map<string, Bytes>) {
    forall i :: 0 <= i < |entries| ==> Readable(entries[i].reference, storage)
  }

  /** A new image that fits beside the rest is simply appended. */
  lemma {:induction false} InsertNew(entries: seq<Entry>, entry: Entry)
    requires !HasId(entries, entry.reference.id) && Fits(Lengths(entries + [entry]))
    ensures Inserted(entries, entry) == entries + [entry]
  {
    WithoutAbsent(entries, entries, entry.reference.id);
    SuffixOfFitting(entries + [entry]);
  }

  lemma SuffixOfFitting(entries: seq<Entry>)
    ensures Fits(Lengths(entries)) ==> Suffix(entries) == entries
  {
    assert Lengths(entries)[0..] == Lengths(entries);
  }

  ghost function Ids(entries: seq<Entry>): set<string> {
    set i | 0 <= i < |entries| :: entries[i].reference.id
  }

  lemma IdsAppend(entries: seq<Entry>, entry: Entry)
    ensures Ids(entries + [entry]) == Ids(entries) + {entry.reference.id}
    ensures forall id :: id in Ids(entries) <==> HasId(entries, id)
  {
    assert (entries + [entry])[|entries|] == entry;
    assert forall i :: 0 <= i < |entries| ==> (entries + [entry])[i] == entries[i];
  }

  lemma FirstsStep(window: seq<Entry>, i: nat)
    requires i < |window|
    ensures var before, after := Firsts(window[..i]), Firsts(window[..i + 1]);
      after == if window[i].reference.id in Ids(before) then before else before + [window[i]]
  {
    assert window[..i + 1][..i] == window[..i];
  }

  /** Inside the limits a new image is appended, and the sum cannot overflow. */
  lemma InsertStored(entries: seq<Entry>, entry: Entry)
    requires !HasId(entries, entry.reference.id)
    requires |entries| < MAX_REQUEST_IMAGES && Total(entries) + |entry.payload| <= MAX_REQUEST_IMAGE_BYTES
    ensures Inserted(entries, entry) == entries + [entry]
    ensures Without(entries, entry.reference.id) == entries
    ensures Total(entries + [entry]) == Total(entries) + |entry.payload|
  {
    LengthsAppend(entries, [entry]);
    TotalOne(entry);
    InsertNew(entries, entry);
    WithoutAbsent(entries, entries, entry.reference.id);
  }

  lemma LoadStep(declared: seq<nat>, i: nat)
    requires i < |declared|
    ensures Sum(declared[..i + 1]) == Sum(declared[..i]) + declared[i]
    ensures Sum(declared[..i + 1]) <= Sum(declared)
  {
    assert declared[..i + 1] == declared[..i] + [declared[i]];
    SumAppend(declared[..i], [declared[i]]);
    assert declared == declared[..i + 1] + declared[i + 1..];
    SumAppend(declared[..i + 1], declared[i + 1..]);
  }

  lemma {:induction false} FirstsGrow(window: seq<Entry>, k: nat)
    requires k <= |window|
    ensures |Firsts(window[..k])| <= |Firsts(window)| && Firsts(window[..k]) == Firsts(window)[..|Firsts(window[..k])|]
  {
    if k == |window| {
      assert window[..k] == window;
    } else {
      var front := window[..|window| - 1];
      FirstsGrow(front, k);
      assert front[..k] == window[..k];
    }
  }

  lemma UnreadableStays(window: seq<Entry>, i: nat, storage: map<string, Bytes>)
    requires i < |window| && window[i].reference.id !in Ids(Firsts(window[..i]))
    requires !Readable(window[i].reference, storage)
    ensures !AllReadable(Firsts(window), storage)
  {
    FirstsGrow(window, i + 1);
    FirstsStep(window, i);
    hide Firsts, Readable;
    var grown, all := Firsts(window[..i + 1]), Firsts(window);
    assert grown[|grown| - 1] == window[i];
    assert all[..|grown|][|grown| - 1] == all[|grown| - 1];
  }

  /** How far loading has come after the first `count` references. */
  predicate Loaded(entries: seq<Entry>, retained: seq<Reference>, storage: map<string, Bytes>, count: nat)
    requires count <= |retained|
  {
    && entries == Firsts(Stored(retained, storage)[..count]) && AllReadable(entries, storage)
    && Total(entries) <= Sum(DeclaredLengths(retained)[..count]) && |entries| <= count
  }

  lemma LoadedNone(retained: seq<Reference>, storage: map<string, Bytes>)
    ensures Loaded([], retained, storage, 0) && Ids([]) == {}
  {
    TotalIsSum([]);
  }

  lemma LoadedSkip(entries: seq<Entry>, retained: seq<Reference>, storage: map<string, Bytes>, i: nat)
    requires i < |retained| && Loaded(entries, retained, storage, i) && retained[i].id in Ids(entries)
    ensures Loaded(entries, retained, storage, i + 1)
  {
    LoadStep(DeclaredLengths(retained), i);
    FirstsStep(Stored(retained, storage), i);
  }

  lemma LoadedMore(entries: seq<Entry>, retained: seq<Reference>, storage: map<string, Bytes>, i: nat)
    requires i < |retained| && Loaded(entries, retained, storage, i) && retained[i].id !in Ids(entries)
    requires Fits(DeclaredLengths(retained))
    requires retained[i].id in storage && |storage[retained[i].id]| == retained[i].bytes
    ensures var entry := Entry(retained[i], storage[retained[i].id]);
      && Inserted(entries, entry) == entries + [entry] && Without(entries, entry.reference.id) == entries
      && Total(entries) + |entry.payload| <= MAX_USIZE
      && Loaded(entries + [entry], retained, storage, i + 1)
  {
    var entry := Entry(retained[i], storage[retained[i].id]);
    var declared := DeclaredLengths(retained);
    assert entry == Stored(retained, storage)[i] && declared[i] == |entry.payload|;
    assert Sum(declared) <= MAX_REQUEST_IMAGE_BYTES && |retained| <= MAX_REQUEST_IMAGES;
    assert AllReadable(entries + [entry], storage);
    hide Firsts, Total, Position, Without, Lengths, FirstKept, Stored, DeclaredLengths, Sum, HasId, AllReadable, Inserted, Fits;
    LoadStep(declared, i);
    FirstsStep(Stored(retained, storage), i);
    IdsAppend(entries, entry);
    InsertStored(entries, entry);
  }

  lemma LoadedStuck(entries: seq<Entry>, retained: seq<Reference>, storage: map<string, Bytes>, i: nat)
    requires i < |retained| && Loaded(entries, retained, storage, i) && retained[i].id !in Ids(entries)
    requires retained[i].id !in storage || |storage[retained[i].id]| != retained[i].bytes
    ensures !AllReadable(Firsts(Stored(retained, storage)), storage)
  {
    UnreadableStays(Stored(retained, storage), i, storage);
  }

  lemma LoadedAll(entries: seq<Entry>, retained: seq<Reference>, storage: map<string, Bytes>)
    requires Loaded(entries, retained, storage, |retained|)
    ensures entries == Firsts(Stored(retained, storage)) && AllReadable(entries, storage)
  {
    var window := Stored(retained, storage);
    assert window[..|window|] == window;
  }

  /** Load the window into an empty cache: it ends up holding the first use of every identity. */
  method Preload(cache: Cache, images: seq<Reference>, storage: map<string, Bytes>) returns (r: Result<(), AttachmentError>)
    requires cache.Valid() && cache.entries == []
    requires Sum(DeclaredLengths(images)) <= MAX_USIZE
    modifies cache
    ensures cache.Valid()
    ensures var window := Stored(images[FirstKept(DeclaredLengths(images))..], storage);
      && (r.Ok? <==> AllReadable(Firsts(window), storage))
      && (r.Ok? ==> cache.entries == Firsts(window))
  {
    var retained := RetainedRequestImages(images);
    assert DeclaredLengths(retained) == DeclaredLengths(images)[FirstKept(DeclaredLengths(images))..] by {
      hide FirstRetained, Firsts, AllReadable, Stored;
    }
    hide *;
    var seen: set<string> := {};
    LoadedNone(retained, storage);
    for i := 0 to |retained|
      invariant cache.Valid() && seen == Ids(cache.entries)
      invariant Loaded(cache.entries, retained, storage, i)
    {
      var reference := retained[i];
      if reference.id in seen {
        LoadedSkip(cache.entries, retained, storage, i);
        continue;
      }
      seen := seen + {reference.id};
      if reference.id !in storage || |storage[reference.id]| != reference.bytes {
        LoadedStuck(cache.entries, retained, storage, i);
        return Err(if reference.id !in storage then NotFound else Corrupt);
      }
      var entry := Entry(reference, storage[reference.id]);
      LoadedMore(cache.entries, retained, storage, i);
      IdsAppend(cache.entries, entry);
      var inserted := cache.Insert(entry);
      assert inserted.Ok?;
    }
    LoadedAll(cache.entries, retained, storage);
    r := Ok(());
  }
}
