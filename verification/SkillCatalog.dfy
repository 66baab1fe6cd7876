/**
  The skill catalogue a session sees (src/skills.rs:99-121, 616-677). A message is its
  JSON source; the rendered text matters only for whether it fits its byte limit.
*/
module SkillCatalog {
  import opened Wrappers
  import opened Text
  import opened Json
  import opened JsonEquality
  import opened SkillNames
  import opened SkillDiscovery
  import Sorting

  function TextValue(s: string): Value {
    Str(s, 0)
  }

  function Field(fields: Value, name: string): Option<Value> {
    if !fields.Object? || |fields.keys| != |fields.values| then None else
    var at := JsonEquality.Find(fields.keys, name);
    if at.Some? then Some(fields.values[at.value]) else None
  }

  function TextField(fields: Value, name: string): Option<string> {
    var value := Field(fields, name);
    if value.Some? && value.value.Str? then Some(value.value.text) else None
  }

  // ----- reading a catalogue -----

  function ParseEntry(value: Value): Option<Entry> {
    var name, description := TextField(value, "name"), TextField(value, "description");
    if name.None? || description.None? then None
    else if !IsSkillName(name.value) || |description.value| > MAX_SKILL_DESCRIPTION_CHARS then None
    else Some(Entry(name.value, description.value))
  }

  function ParseEntries(values: seq<Value>): Option<seq<Entry>> {
    if values == [] then Some([]) else
    var first, rest := ParseEntry(values[0]), ParseEntries(values[1..]);
    if first.Some? && rest.Some? then Some([first.value] + rest.value) else None
  }

  function ParseSource(source: Value): Option<seq<Entry>> {
    if TextField(source, "kind") != Some("skill-catalog") then None else
    var entries := Field(source, "entries");
    if entries.None? || !entries.value.Array? || |entries.value.items| > MAX_SKILLS then None
    else ParseEntries(entries.value.items)
  }

  /** The newest message that is a catalogue. */
  function VisibleCatalog(sources: seq<Value>): Option<seq<Entry>> {
    if sources == [] then None
    else
      var newest := ParseSource(sources[|sources| - 1]);
      if newest.Some? then newest else VisibleCatalog(sources[..|sources| - 1])
  }

  // ----- writing one -----

  function BuildEntry(entry: Entry): Value {
    Object([Key("description", 0), Key("name", 0)], [TextValue(entry.description), TextValue(entry.name)])
  }

  function BuildEntries(entries: seq<Entry>): (r: seq<Value>)
    ensures |r| == |entries|
  {
    if entries == [] then [] else [BuildEntry(entries[0])] + BuildEntries(entries[1..])
  }

  function BuildSource(entries: seq<Entry>, replacement: bool): Value {
    var keys := [Key("entries", 0), Key("form", 0), Key("kind", 0)];
    var values := [Array(BuildEntries(entries), 0), TextValue("catalog"), TextValue("skill-catalog")];
    if replacement then Object(keys + [Key("update", 0)], values + [Bool(true)]) else Object(keys, values)
  }

  predicate GoodEntry(entry: Entry) {
    IsSkillName(entry.name) && |entry.description| <= MAX_SKILL_DESCRIPTION_CHARS
  }

  predicate GoodEntries(entries: seq<Entry>) {
    |entries| <= MAX_SKILLS && forall i :: 0 <= i < |entries| ==> GoodEntry(entries[i])
  }

  // ----- preparing -----

  datatype Prepared = Silent | Publish(source: Value) | CannotRepresent

  /** The model-invocable winners by name. */
  function Catalogued(candidates: seq<Candidate>): seq<Entry> {
    if candidates == [] then []
    else (if candidates[0].modelInvocable then [candidates[0].entry] else []) + Catalogued(candidates[1..])
  }

  predicate NameAtMost(a: Candidate, b: Candidate) {
    TextAtMost(a.entry.name, b.entry.name)
  }

  /** Iterating the winners is iterating their names in order. */
  function ByName(candidates: seq<Candidate>): seq<Candidate> {
    Sorting.Sort(NameAtMost, candidates)
  }

  /** `fits` says whether the rendered text of a catalogue is within its limit. */
  function PrepareCatalog(visible: seq<Value>, discovered: Option<seq<Candidate>>, fits: (seq<Entry>, bool) -> bool): Prepared {
    if discovered.None? then Silent else
    var entries := Catalogued(ByName(discovered.value));
    var previous := VisibleCatalog(visible);
    if previous == Some(entries) || (previous.None? && entries == []) then Silent
    else if !fits(entries, previous.Some?) then CannotRepresent
    else Publish(BuildSource(entries, previous.Some?))
  }

  lemma FieldFound(fields: Value, name: string, k: nat)
    requires fields.Object? && |fields.keys| == |fields.values| && k < |fields.keys|
    requires fields.keys[k].text == name && DistinctKeys(fields.keys)
    ensures Field(fields, name) == Some(fields.values[k])
  {
    var at := JsonEquality.Find(fields.keys, name);
    assert at.Some? && at.value == k;
  }

  lemma EntryRoundTrip(entry: Entry)
    ensures ParseEntry(BuildEntry(entry)) == if GoodEntry(entry) then Some(entry) else None
  {
    var v := BuildEntry(entry);
    assert "description"[0] != "name"[0];
    assert DistinctKeys(v.keys);
    hide IsSkillName;
    FieldFound(v, "description", 0);
    FieldFound(v, "name", 1);
  }

  lemma {:induction false} EntriesRoundTrip(entries: seq<Entry>)
    requires forall i :: 0 <= i < |entries| ==> GoodEntry(entries[i])
    ensures ParseEntries(BuildEntries(entries)) == Some(entries)
  {
    if entries != [] {
      hide GoodEntry, ParseEntry, BuildEntry;
      EntryRoundTrip(entries[0]);
      EntriesRoundTrip(entries[1..]);
      assert BuildEntries(entries)[1..] == BuildEntries(entries[1..]);
      assert entries == [entries[0]] + entries[1..];
    }
  }

  lemma SourceFields(entries: seq<Entry>, replacement: bool)
    ensures var source := BuildSource(entries, replacement);
      && Field(source, "entries") == Some(Array(BuildEntries(entries), 0))
      && TextField(source, "kind") == Some("skill-catalog")
  {
    var source := BuildSource(entries, replacement);
    assert "entries"[0] == 'e' && "form"[0] == 'f' && "kind"[0] == 'k' && "update"[0] == 'u';
    assert DistinctKeys(source.keys);
    FieldFound(source, "entries", 0);
    FieldFound(source, "kind", 2);
  }

  /** A catalogue message reads back as the entries it was built from. */
  lemma SourceRoundTrip(entries: seq<Entry>, replacement: bool)
    ensures GoodEntries(entries) ==> ParseSource(BuildSource(entries, replacement)) == Some(entries)
  {
    SourceFields(entries, replacement);
    if GoodEntries(entries) {
      EntriesRoundTrip(entries);
    }
  }

  // ----- what discovery guarantees the catalogue -----

  /** What parsing a skill file ensures of every candidate (src/skills.rs:513-535, 598-612). */
  ghost predicate GoodReader(readSkill: Reader) {
    forall root, file, kind :: readSkill(root, file, kind).Found? ==> GoodEntry(readSkill(root, file, kind).candidate.entry)
  }

  predicate GoodAnswers(answers: seq<ReadSkill>) {
    forall i :: 0 <= i < |answers| && answers[i].Found? ==> GoodEntry(answers[i].candidate.entry)
  }

  lemma {:induction false} ReadsAreGood(root: nat, items: seq<Item>, readSkill: Reader)
    requires GoodReader(readSkill)
    ensures GoodAnswers(Reads(root, items, readSkill))
  {
    hide GoodEntry;
    if items != [] {
      ReadsAreGood(root, items[1..], readSkill);
      if IsCandidate(items[0]) {
        var answer := readSkill(root, items[0].file, items[0].kind);
        assert answer.Found? ==> GoodEntry(answer.candidate.entry);
      }
    }
  }

  lemma {:induction false} AllReadsAreGood(roots: seq<Root>, from: nat, readSkill: Reader)
    requires GoodReader(readSkill) && AllReads(roots, from, readSkill).Some?
    ensures GoodAnswers(AllReads(roots, from, readSkill).value)
    decreases |roots|
  {
    hide GoodEntry, GoodReader;
    if roots != [] {
      AllReadsAreGood(roots[1..], from + 1, readSkill);
      match roots[0]
      case Listing(items) => ReadsAreGood(from, Sorting.Sort(FileAtMost, Collected(items, []).value), readSkill);
      case _ =>
    }
  }

  predicate GoodCandidates(candidates: seq<Candidate>) {
    |candidates| <= MAX_SKILLS && forall c :: c in candidates ==> GoodEntry(c.entry)
  }

  lemma DiscoveredAreGood(roots: seq<Root>, readSkill: Reader)
    requires GoodReader(readSkill) && Discover(roots, 0, [], readSkill).Some?
    ensures GoodCandidates(Discover(roots, 0, [], readSkill).value)
  {
    hide GoodEntry;
    DiscoveryKeepsFirsts(roots, readSkill);
    AllReadsAreGood(roots, 0, readSkill);
    var all, r := AllReads(roots, 0, readSkill).value, Discover(roots, 0, [], readSkill).value;
    forall c | c in r ensures GoodEntry(c.entry) {
      var i :| FirstOf(all, i) && all[i].candidate == c;
    }
  }

  lemma {:induction false} CataloguedIsGood(candidates: seq<Candidate>)
    requires forall c :: c in candidates ==> GoodEntry(c.entry)
    ensures |Catalogued(candidates)| <= |candidates|
    ensures forall i :: 0 <= i < |Catalogued(candidates)| ==> GoodEntry(Catalogued(candidates)[i])
  {
    hide GoodEntry;
    if candidates != [] {
      CataloguedIsGood(candidates[1..]);
      assert candidates[0] in candidates;
    }
  }

  lemma {:induction false} InsertKeepsElements(le: (Candidate, Candidate) -> bool, x: Candidate, xs: seq<Candidate>)
    ensures multiset(Sorting.Insert(le, x, xs)) == multiset(xs) + multiset{x}
  {
    if xs != [] && !le(x, xs[0]) {
      InsertKeepsElements(le, x, xs[1..]);
      assert xs == [xs[0]] + xs[1..];
    }
  }

  lemma {:induction false} ByNameKeepsElements(candidates: seq<Candidate>)
    ensures multiset(ByName(candidates)) == multiset(candidates)
  {
    if candidates != [] {
      ByNameKeepsElements(candidates[1..]);
      InsertKeepsElements(NameAtMost, candidates[0], ByName(candidates[1..]));
      assert candidates == [candidates[0]] + candidates[1..];
    }
  }

  lemma EntriesAreGood(candidates: seq<Candidate>)
    requires GoodCandidates(candidates)
    ensures GoodEntries(Catalogued(ByName(candidates)))
  {
    hide GoodEntry;
    ByNameKeepsElements(candidates);
    Sorting.SameElements(ByName(candidates), candidates);
    CataloguedIsGood(ByName(candidates));
  }

  lemma {:induction false} OthersDoNotHide(visible: seq<Value>, source: Value, after: seq<Value>)
    requires ParseSource(source).Some? && forall i :: 0 <= i < |after| ==> ParseSource(after[i]).None?
    ensures VisibleCatalog(visible + [source] + after) == ParseSource(source)
    decreases |after|
  {
    var all := visible + [source] + after;
    if after == [] {
      assert all[|all| - 1] == source;
    } else {
      assert all[|all| - 1] == after[|after| - 1];
      assert all[..|all| - 1] == visible + [source] + after[..|after| - 1];
      OthersDoNotHide(visible, source, after[..|after| - 1]);
    }
  }

  /**
    Over an unchanged workspace one catalogue is enough: once it is visible, whatever
    else is said afterwards, preparing again is silent.
  */
  lemma {:induction false} SilentOncePublished(visible: seq<Value>, after: seq<Value>, roots: seq<Root>, readSkill: Reader,
                                               fits: (seq<Entry>, bool) -> bool)
    requires GoodReader(readSkill)
    requires forall i :: 0 <= i < |after| ==> ParseSource(after[i]).None?
    ensures var discovered := Discover(roots, 0, [], readSkill);
      var prepared := PrepareCatalog(visible, discovered, fits);
      prepared.Publish? ==>
        && VisibleCatalog(visible + [prepared.source] + after) == Some(Catalogued(ByName(discovered.value)))
        && PrepareCatalog(visible + [prepared.source] + after, discovered, fits) == Silent
  {
    var discovered := Discover(roots, 0, [], readSkill);
    var prepared := PrepareCatalog(visible, discovered, fits);
    if prepared.Publish? {
      DiscoveredAreGood(roots, readSkill);
      EntriesAreGood(discovered.value);
      var entries := Catalogued(ByName(discovered.value));
      hide Catalogued, ByName, Discover, ParseSource, GoodEntries, BuildSource;
      SourceRoundTrip(entries, VisibleCatalog(visible).Some?);
      OthersDoNotHide(visible, prepared.source, after);
    }
  }

  lemma {:induction false} ParsedEntriesAreGood(values: seq<Value>)
    requires ParseEntries(values).Some?
    ensures |ParseEntries(values).value| == |values| && forall i :: 0 <= i < |values| ==> GoodEntry(ParseEntries(values).value[i])
  {
    if values != [] {
      ParsedEntriesAreGood(values[1..]);
    }
  }

  /** Only a message of the catalogue's own kind reads as one, and then with at most 64 valid names and bounded descriptions. */
  lemma ReadsOnlyCatalogues(source: Value)
    requires ParseSource(source).Some?
    ensures source.Object? && |source.keys| == |source.values|
    ensures exists k :: 0 <= k < |source.keys| && source.keys[k].text == "kind" && source.values[k].Str? && source.values[k].text == "skill-catalog"
    ensures |ParseSource(source).value| <= 64 && GoodEntries(ParseSource(source).value)
  {
    var k := JsonEquality.Find(source.keys, "kind").value;
    assert source.keys[k].text == "kind" && source.values[k].Str? && source.values[k].text == "skill-catalog";
    ParsedEntriesAreGood(Field(source, "entries").value.items);
  }

  // ----- what a catalogue lists, and when it is told -----

  /** One candidate a name. */
  predicate OneAName(candidates: seq<Candidate>) {
    forall x, y :: x in candidates && y in candidates && x.entry.name == y.entry.name ==> x == y
  }

  lemma {:induction false} NamesOrder(candidates: seq<Candidate>)
    requires OneAName(candidates)
    ensures Sorting.Orders(NameAtMost, candidates)
  {
    forall x, y | x in candidates && y in candidates
      ensures NameAtMost(x, y) || NameAtMost(y, x)
      ensures NameAtMost(x, y) && NameAtMost(y, x) ==> x == y
    {
      TextTotal(x.entry.name, y.entry.name);
    }
    forall x, y, z | x in candidates && y in candidates && z in candidates && NameAtMost(x, y) && NameAtMost(y, z)
      ensures NameAtMost(x, z)
    {
      TextTransitive(x.entry.name, y.entry.name, z.entry.name);
    }
  }

  lemma {:induction false} CataloguedInOrder(candidates: seq<Candidate>)
    requires Sorting.IsSorted(NameAtMost, candidates)
    ensures forall e :: e in Catalogued(candidates) <==> exists c :: c in candidates && c.modelInvocable && c.entry == e
    ensures forall i, j :: 0 <= i < j < |Catalogued(candidates)| ==> TextAtMost(Catalogued(candidates)[i].name, Catalogued(candidates)[j].name)
  {
    if candidates != [] {
      var first, rest := candidates[0], candidates[1..];
      assert candidates == [first] + rest;
      CataloguedInOrder(rest);
      forall e | e in Catalogued(rest) ensures TextAtMost(first.entry.name, e.name) {
        var c :| c in rest && c.modelInvocable && c.entry == e;
        var k :| 0 <= k < |rest| && rest[k] == c;
        assert NameAtMost(candidates[0], candidates[k + 1]);
      }
    }
  }

  /** The catalogue lists exactly the winners a model may call, by name. */
  lemma {:induction false} ListsInvocable(candidates: seq<Candidate>)
    requires OneAName(candidates)
    ensures var entries := Catalogued(ByName(candidates));
      && (forall e :: e in entries <==> exists c :: c in candidates && c.modelInvocable && c.entry == e)
      && (forall i, j :: 0 <= i < j < |entries| ==> TextAtMost(entries[i].name, entries[j].name))
  {
    NamesOrder(candidates);
    Sorting.SortSorts(NameAtMost, candidates);
    Sorting.SameElements(ByName(candidates), candidates);
    CataloguedInOrder(ByName(candidates));
    hide Catalogued;
  }

  lemma UpdateField(entries: seq<Entry>, replacement: bool)
    ensures Field(BuildSource(entries, replacement), "update") == if replacement then Some(Bool(true)) else None
    ensures TextField(BuildSource(entries, replacement), "form") == Some("catalog")
  {
    var source := BuildSource(entries, replacement);
    assert "entries"[0] == 'e' && "form"[0] == 'f' && "kind"[0] == 'k' && "update"[0] == 'u';
    assert DistinctKeys(source.keys);
    FieldFound(source, "form", 1);
    if replacement {
      FieldFound(source, "update", 3);
    } else {
      assert forall k :: 0 <= k < |source.keys| ==> source.keys[k].text != "update";
    }
  }

  /**
    A catalogue is told exactly when discovery completed, its entries are not those the
    session already sees (an empty one counts as seen while there is none), and they fit;
    it is marked as an update exactly when one is already visible.
  */
  lemma ToldIff(sources: seq<Value>, discovered: Option<seq<Candidate>>, fits: (seq<Entry>, bool) -> bool)
    ensures var prepared, previous := PrepareCatalog(sources, discovered, fits), VisibleCatalog(sources);
      && (discovered.None? ==> prepared == Silent)
      && (discovered.Some? ==>
            var entries := Catalogued(ByName(discovered.value));
            var seen := if previous.Some? then previous.value == entries else |entries| == 0;
            && (prepared == Silent <==> seen)
            && (prepared == CannotRepresent <==> !seen && !fits(entries, previous.Some?))
            && (prepared.Publish? ==>
                  && Field(prepared.source, "entries") == Some(Array(BuildEntries(entries), 0))
                  && (Field(prepared.source, "update") == Some(Bool(true)) <==> previous.Some?)
                  && (Field(prepared.source, "update").None? <==> previous.None?)))
  {
    if discovered.Some? {
      var entries := Catalogued(ByName(discovered.value));
      SourceFields(entries, VisibleCatalog(sources).Some?);
      UpdateField(entries, VisibleCatalog(sources).Some?);
    }
    hide Catalogued, ByName, VisibleCatalog, BuildSource, Field, BuildEntries;
  }
}
