/**
  Which skills a workspace offers (src/skills.rs:179-246). The file system is a
  parameter: what each root listing yields and what each candidate file reads as.
*/
module SkillDiscovery {
  import opened Wrappers
  import opened Text
  import opened SkillNames
  import Sorting

  const MAX_SKILLS: nat := 64
  const MAX_SKILL_ROOT_ENTRIES: nat := 256

  datatype Entry = Entry(name: string, description: string)

  datatype Candidate = Candidate(entry: Entry, modelInvocable: bool, resourceBase: string, body: string)

  datatype Kind = File | Directory

  /** One directory item: unreadable, of no interest, or a file or directory with a usable name. */
  datatype Item = Broken | Ignored | Named(file: string, kind: Kind)

  datatype ReadSkill = Found(candidate: Candidate) | Skip | Unavailable

  /** A root that is absent or not followed, that cannot be opened, or its items in listing order. */
  datatype Root = Absent | Unopenable | Listing(items: seq<Item>)

  /** What a candidate file of a root reads as. */
  type Reader = (nat, string, Kind) -> ReadSkill

  // ----- one root -----

  /** The named items, unless one is broken or something follows a full list. */
  function Collected(items: seq<Item>, have: seq<Item>): Option<seq<Item>>
    decreases |items|
  {
    if items == [] then Some(have)
    else if |have| >= MAX_SKILL_ROOT_ENTRIES then None
    else match items[0]
      case Broken => None
      case Ignored => Collected(items[1..], have)
      case Named(_, _) => Collected(items[1..], have + [items[0]])
  }

  /** Code points in order, which is the byte order of UTF-8. */
  predicate TextAtMost(a: string, b: string) {
    a == "" || (b != "" && (a[0] < b[0] || (a[0] == b[0] && TextAtMost(a[1..], b[1..]))))
  }

  predicate FileAtMost(a: Item, b: Item) {
    (a.Named? && b.Named?) ==> TextAtMost(a.file, b.file)
  }

  predicate EndsWith(s: string, suffix: string) {
    |s| >= |suffix| && s[|s| - |suffix|..] == suffix
  }

  predicate IsCandidate(item: Item) {
    item.Named? && (item.kind.Directory? || EndsWith(item.file, ".md"))
  }

  function Reads(root: nat, items: seq<Item>, readSkill: Reader): seq<ReadSkill> {
    if items == [] then []
    else
      (if IsCandidate(items[0]) then [readSkill(root, items[0].file, items[0].kind)] else []) + Reads(root, items[1..], readSkill)
  }

  // ----- the winners -----

  function NamesOf(candidates: seq<Candidate>): set<string> {
    set i | 0 <= i < |candidates| :: candidates[i].entry.name
  }

  /** Keep the first candidate of each name; a 65th name or an unavailable file gives up. */
  function Winners(answers: seq<ReadSkill>, won: seq<Candidate>): Option<seq<Candidate>>
    decreases |answers|
  {
    if answers == [] then Some(won)
    else match answers[0]
      case Unavailable => None
      case Skip => Winners(answers[1..], won)
      case Found(c) =>
        if |won| >= MAX_SKILLS && c.entry.name !in NamesOf(won) then None
        else if c.entry.name in NamesOf(won) then Winners(answers[1..], won)
        else Winners(answers[1..], won + [c])
  }

  function RootReads(root: nat, view: Root, read: Reader): Option<seq<ReadSkill>> {
    match view
    case Absent => Some([])
    case Unopenable => None
    case Listing(items) =>
      var named := Collected(items, []);
      if named.None? then None else Some(Reads(root, Sorting.Sort(FileAtMost, named.value), read))
  }

  function Discover(roots: seq<Root>, from: nat, won: seq<Candidate>, read: Reader): Option<seq<Candidate>>
    decreases |roots|
  {
    if roots == [] then Some(won)
    else
      var answers := RootReads(from, roots[0], read);
      if answers.None? then None
      else
        var next := Winners(answers.value, won);
        if next.None? then None else Discover(roots[1..], from + 1, next.value, read)
  }

  // ----- discovery as it runs -----

  method CollectRoot(items: seq<Item>) returns (r: Option<seq<Item>>)
    ensures r == Collected(items, [])
  {
    var entries: seq<Item> := [];
    for i := 0 to |items|
      invariant Collected(items[i..], entries) == Collected(items, [])
    {
      assert items[i..][0] == items[i] && items[i..][1..] == items[i + 1..];
      if |entries| >= MAX_SKILL_ROOT_ENTRIES {
        return None;
      }
      match items[i] {
        case Broken => return None;
        case Ignored =>
        case Named(_, _) => entries := entries + [items[i]];
      }
    }
    r := Some(entries);
  }

  method DiscoverBlocking(roots: seq<Root>, read: Reader) returns (r: Option<seq<Candidate>>)
    ensures r == Discover(roots, 0, [], read)
  {
    var winners: seq<Candidate> := [];
    for root := 0 to |roots|
      invariant Discover(roots[root..], root, winners, read) == Discover(roots, 0, [], read)
    {
      assert roots[root..][0] == roots[root] && roots[root..][1..] == roots[root + 1..];
      match roots[root] {
        case Absent => continue;
        case Unopenable => return None;
        case Listing(items) =>
          var collected := CollectRoot(items);
          if collected.None? {
            return None;
          }
          var entries := Sorting.Sort(FileAtMost, collected.value);
          ghost var start := winners;
          for k := 0 to |entries|
            invariant Winners(Reads(root, entries[k..], read), winners) == Winners(Reads(root, entries, read), start)
          {
            assert entries[k..][0] == entries[k] && entries[k..][1..] == entries[k + 1..];
            ghost var rest := Reads(root, entries[k + 1..], read);
            if IsCandidate(entries[k]) {
              var answer := read(root, entries[k].file, entries[k].kind);
              assert ([answer] + rest)[1..] == rest;
              match answer {
                case Unavailable => return None;
                case Skip =>
                case Found(c) =>
                  var known := exists i :: 0 <= i < |winners| && winners[i].entry.name == c.entry.name;
                  assert known == (c.entry.name in NamesOf(winners));
                  if |winners| >= MAX_SKILLS && !known {
                    return None;
                  }
                  if !known {
                    winners := winners + [c];
                  }
              }
            } else {
              assert [] + rest == rest;
            }
          }
          assert Reads(root, entries[|entries|..], read) == [];
      }
    }
    r := Some(winners);
  }

  // ----- who wins -----

  predicate FirstOf(answers: seq<ReadSkill>, i: int) {
    && 0 <= i < |answers| && answers[i].Found?
    && forall j :: 0 <= j < i && answers[j].Found? ==> answers[j].candidate.entry.name != answers[i].candidate.entry.name
  }

  /** At most 64 distinct names, each with the first candidate that has it. */
  ghost predicate WonBy(won: seq<Candidate>, done: seq<ReadSkill>) {
    && |won| <= MAX_SKILLS
    && (forall i, j :: 0 <= i < j < |won| ==> won[i].entry.name != won[j].entry.name)
    && (forall i :: FirstOf(done, i) ==> done[i].candidate in won)
    && (forall c :: c in won ==> exists i :: FirstOf(done, i) && done[i].candidate == c)
    && (forall i :: 0 <= i < |done| && done[i].Found? ==> done[i].candidate.entry.name in NamesOf(won))
  }

  lemma {:induction false} WinnersFrom(done: seq<ReadSkill>, answers: seq<ReadSkill>, won: seq<Candidate>)
    requires WonBy(won, done) && Winners(answers, won).Some?
    ensures WonBy(Winners(answers, won).value, done + answers)
    decreases |answers|
  {
    if answers == [] {
      assert done + answers == done;
    } else {
      var first, rest := answers[0], answers[1..];
      assert done + answers == done + [first] + rest;
      if first.Found? && first.candidate.entry.name !in NamesOf(won) {
        NewWinner(done, first, won);
        WinnersFrom(done + [first], rest, won + [first.candidate]);
      } else {
        NoNewWinner(done, first, won);
        WinnersFrom(done + [first], rest, won);
      }
    }
  }

  lemma {:induction false} FirstOfExtended(done: seq<ReadSkill>, last: ReadSkill, i: int)
    ensures i < |done| ==> (FirstOf(done + [last], i) <==> FirstOf(done, i))
  {
    assert forall j :: 0 <= j < |done| ==> (done + [last])[j] == done[j];
  }

  lemma {:induction false} NewWinner(done: seq<ReadSkill>, first: ReadSkill, won: seq<Candidate>)
    requires WonBy(won, done) && first.Found? && first.candidate.entry.name !in NamesOf(won) && |won| < MAX_SKILLS
    ensures WonBy(won + [first.candidate], done + [first])
  {
    var all, c := done + [first], first.candidate;
    var next := won + [c];
    forall i, j | 0 <= i < j < |next| ensures next[i].entry.name != next[j].entry.name {
      assert next[i] == won[i] && won[i].entry.name in NamesOf(won);
    }
    forall i | FirstOf(all, i) ensures all[i].candidate in next {
      FirstOfExtended(done, first, i);
    }
    assert FirstOf(all, |done|);
    forall x | x in next ensures exists i :: FirstOf(all, i) && all[i].candidate == x {
      if x in won {
        var i :| FirstOf(done, i) && done[i].candidate == x;
        FirstOfExtended(done, first, i);
        assert all[i] == done[i];
      } else {
        assert all[|done|].candidate == x;
      }
    }
    forall i | 0 <= i < |all| && all[i].Found? ensures all[i].candidate.entry.name in NamesOf(next) {
      if i < |done| {
        var k :| 0 <= k < |won| && won[k].entry.name == done[i].candidate.entry.name;
        assert next[k] == won[k];
      } else {
        assert next[|won|] == c;
      }
    }
  }

  lemma {:induction false} NoNewWinner(done: seq<ReadSkill>, first: ReadSkill, won: seq<Candidate>)
    requires WonBy(won, done) && (first.Found? ==> first.candidate.entry.name in NamesOf(won))
    ensures WonBy(won, done + [first])
  {
    var all := done + [first];
    if first.Found? {
      var k :| 0 <= k < |won| && won[k].entry.name == first.candidate.entry.name;
      assert won[k] in won;
      var j :| FirstOf(done, j) && done[j].candidate == won[k];
      assert all[j] == done[j] && all[|done|] == first;
    }
    assert !FirstOf(all, |done|);
    forall i | FirstOf(all, i) ensures all[i].candidate in won {
      FirstOfExtended(done, first, i);
    }
    forall x | x in won ensures exists i :: FirstOf(all, i) && all[i].candidate == x {
      var i :| FirstOf(done, i) && done[i].candidate == x;
      FirstOfExtended(done, first, i);
      assert all[i] == done[i];
    }
  }

  // ----- when discovery completes -----

  function FoundNames(answers: seq<ReadSkill>): set<string> {
    set i | 0 <= i < |answers| && answers[i].Found? :: answers[i].candidate.entry.name
  }

  lemma {:induction false} DistinctCount(won: seq<Candidate>)
    requires forall i, j :: 0 <= i < j < |won| ==> won[i].entry.name != won[j].entry.name
    ensures |NamesOf(won)| == |won|
  {
    if won != [] {
      var front, last := won[..|won| - 1], won[|won| - 1];
      DistinctCount(front);
      assert NamesOf(won) == NamesOf(front) + {last.entry.name};
      assert last.entry.name !in NamesOf(front);
    } else {
      assert NamesOf(won) == {};
    }
  }

  lemma FewerNames(a: set<string>, b: set<string>)
    requires a <= b
    ensures |a| <= |b|
  {
    assert b == a + (b - a);
  }

  /** Discovery of a list of reads completes exactly when nothing was unavailable and at most 64 names appear. */
  lemma {:induction false} CompletesFrom(done: seq<ReadSkill>, answers: seq<ReadSkill>, won: seq<Candidate>)
    requires WonBy(won, done) && NamesOf(won) == FoundNames(done)
    ensures Winners(answers, won).Some? <==>
      Unavailable !in answers && |FoundNames(done + answers)| <= MAX_SKILLS
    decreases |answers|
  {
    DistinctCount(won);
    if answers == [] {
      assert done + answers == done;
    } else {
      var first, rest := answers[0], answers[1..];
      assert answers == [first] + rest && done + answers == done + [first] + rest;
      FoundNamesStep(done, first);
      FoundNamesGrow(done + [first], rest);
      FewerNames(FoundNames(done + [first]), FoundNames(done + answers));
      match first
      case Unavailable =>
      case Skip =>
        NoNewWinner(done, first, won);
        CompletesFrom(done + [first], rest, won);
      case Found(c) =>
        if c.entry.name in NamesOf(won) {
          NoNewWinner(done, first, won);
          CompletesFrom(done + [first], rest, won);
        } else if |won| < MAX_SKILLS {
          NewWinner(done, first, won);
          NamesAfter(won, c);
          CompletesFrom(done + [first], rest, won + [c]);
        }
    }
  }

  lemma NamesAfter(won: seq<Candidate>, c: Candidate)
    ensures NamesOf(won + [c]) == NamesOf(won) + {c.entry.name}
  {
    assert (won + [c])[|won|] == c;
    assert forall i :: 0 <= i < |won| ==> (won + [c])[i] == won[i];
  }

  lemma FoundNamesStep(done: seq<ReadSkill>, first: ReadSkill)
    ensures FoundNames(done + [first]) == FoundNames(done) + if first.Found? then {first.candidate.entry.name} else {}
  {
    assert (done + [first])[|done|] == first;
    assert forall i :: 0 <= i < |done| ==> (done + [first])[i] == done[i];
  }

  lemma FoundNamesGrow(done: seq<ReadSkill>, rest: seq<ReadSkill>)
    ensures FoundNames(done) <= FoundNames(done + rest)
  {
    assert forall i :: 0 <= i < |done| ==> (done + rest)[i] == done[i];
  }

  lemma CompletesIff(answers: seq<ReadSkill>)
    ensures Winners(answers, []).Some? <==> Unavailable !in answers && |FoundNames(answers)| <= MAX_SKILLS
  {
    assert NamesOf([]) == FoundNames([]) && [] + answers == answers;
    CompletesFrom([], answers, []);
  }

  // ----- all roots -----

  /** The reads of every root, in root order. */
  function AllReads(roots: seq<Root>, from: nat, readSkill: Reader): Option<seq<ReadSkill>>
    decreases |roots|
  {
    if roots == [] then Some([])
    else
      var first, rest := RootReads(from, roots[0], readSkill), AllReads(roots[1..], from + 1, readSkill);
      if first.None? || rest.None? then None else Some(first.value + rest.value)
  }

  lemma {:induction false} WinnersAppend(a: seq<ReadSkill>, b: seq<ReadSkill>, won: seq<Candidate>)
    ensures Winners(a + b, won) ==
      if Winners(a, won).None? then None else Winners(b, Winners(a, won).value)
    decreases |a|
  {
    if a == [] {
      assert a + b == b;
    } else {
      assert (a + b)[1..] == a[1..] + b;
      match a[0]
      case Unavailable =>
      case Skip => WinnersAppend(a[1..], b, won);
      case Found(c) =>
        WinnersAppend(a[1..], b, won);
        WinnersAppend(a[1..], b, won + [c]);
    }
  }

  /** Root after root is one pass over the reads of all roots. */
  lemma {:induction false} DiscoverIsOnePass(roots: seq<Root>, from: nat, won: seq<Candidate>, readSkill: Reader)
    ensures var all := AllReads(roots, from, readSkill);
      all.Some? ==> Discover(roots, from, won, readSkill) == Winners(all.value, won)
    ensures AllReads(roots, from, readSkill).None? ==> Discover(roots, from, won, readSkill).None?
    decreases |roots|
  {
    if roots != [] {
      var first, rest := RootReads(from, roots[0], readSkill), AllReads(roots[1..], from + 1, readSkill);
      if first.Some? {
        var next := Winners(first.value, won);
        if next.Some? {
          DiscoverIsOnePass(roots[1..], from + 1, next.value, readSkill);
        }
        if rest.Some? {
          WinnersAppend(first.value, rest.value, won);
        }
      }
    }
  }

  /**
    Discovery that completes keeps, for each name, the first candidate in root order and
    then file-name order, and at most 64 names.
  */
  lemma {:induction false} DiscoveryKeepsFirsts(roots: seq<Root>, readSkill: Reader)
    ensures var r := Discover(roots, 0, [], readSkill);
      r.Some? ==>
        && AllReads(roots, 0, readSkill).Some?
        && (var all := AllReads(roots, 0, readSkill).value;
           && |r.value| <= MAX_SKILLS && NamesOf(r.value) == FoundNames(all)
           && (forall c :: c in r.value <==> exists i :: FirstOf(all, i) && all[i].candidate == c))
  {
    DiscoverIsOnePass(roots, 0, [], readSkill);
    var r := Discover(roots, 0, [], readSkill);
    if r.Some? {
      var all := AllReads(roots, 0, readSkill).value;
      WinnersFrom([], all, []);
      assert [] + all == all;
      forall name ensures name in NamesOf(r.value) <==> name in FoundNames(all) {
        if name in NamesOf(r.value) {
          var k :| 0 <= k < |r.value| && r.value[k].entry.name == name;
          assert r.value[k] in r.value;
        }
      }
    }
  }

  // ----- which listings are accepted -----

  function NamedOnly(items: seq<Item>): seq<Item> {
    if items == [] then [] else (if items[0].Named? then [items[0]] else []) + NamedOnly(items[1..])
  }

  /**
    A listing is refused exactly when an item is broken, more than 256 are named, or
    anything at all, named or not, follows the 256th named one.
  */
  lemma {:induction false} CollectedIff(items: seq<Item>, have: seq<Item>)
    requires |have| <= MAX_SKILL_ROOT_ENTRIES
    ensures Collected(items, have).Some? ==> Collected(items, have).value == have + NamedOnly(items)
    ensures Collected(items, have).Some? <==>
      && Broken !in items
      && (items == [] || |have| + |NamedOnly(items[..|items| - 1])| < MAX_SKILL_ROOT_ENTRIES)
    decreases |items|
  {
    if items != [] {
      var rest := items[1..];
      assert items == [items[0]] + rest;
      if |have| < MAX_SKILL_ROOT_ENTRIES {
        match items[0]
        case Broken =>
        case Ignored => CollectedIff(rest, have);
        case Named(_, _) =>
          CollectedIff(rest, have + [items[0]]);
          assert have + [items[0]] + NamedOnly(rest) == have + NamedOnly(items);
      }
      if |items| > 1 {
        assert items[..|items| - 1] == [items[0]] + rest[..|rest| - 1];
        assert items[..|items| - 1][1..] == rest[..|rest| - 1];
      } else {
        assert NamedOnly(items[..0]) == [];
      }
    }
  }

  // ----- when a whole discovery completes -----

  predicate RootReadable(view: Root) {
    match view
    case Absent => true
    case Unopenable => false
    case Listing(items) =>
      && Broken !in items
      && (items == [] || |NamedOnly(items[..|items| - 1])| < MAX_SKILL_ROOT_ENTRIES)
  }

  /** What the candidate files of every root read as, root after root, in file-name order. */
  function Answers(roots: seq<Root>, from: nat, readSkill: Reader): seq<ReadSkill>
    decreases |roots|
  {
    if roots == [] then []
    else
      (if roots[0].Listing? then Reads(from, Sorting.Sort(FileAtMost, NamedOnly(roots[0].items)), readSkill) else [])
      + Answers(roots[1..], from + 1, readSkill)
  }

  lemma {:induction false} AllReadsIff(roots: seq<Root>, from: nat, readSkill: Reader)
    ensures AllReads(roots, from, readSkill) ==
      if forall i :: 0 <= i < |roots| ==> RootReadable(roots[i]) then Some(Answers(roots, from, readSkill)) else None
    decreases |roots|
  {
    if roots != [] {
      var rest := roots[1..];
      assert roots == [roots[0]] + rest;
      AllReadsIff(rest, from + 1, readSkill);
      if roots[0].Listing? {
        CollectedIff(roots[0].items, []);
        assert [] + NamedOnly(roots[0].items) == NamedOnly(roots[0].items);
      }
      assert RootReads(from, roots[0], readSkill).Some? <==> RootReadable(roots[0]);
      assert (forall i :: 0 <= i < |roots| ==> RootReadable(roots[i])) <==>
        RootReadable(roots[0]) && forall i :: 0 <= i < |rest| ==> RootReadable(rest[i]) by {
        assert forall i :: 0 <= i < |rest| ==> roots[i + 1] == rest[i];
        assert forall i :: 1 <= i < |roots| ==> roots[i] == rest[i - 1];
      }
    }
  }

  /**
    Discovery completes if and only if every root can be read to the end, no candidate
    file is unavailable, and the skills found have at most 64 names; one bad root, item or
    file loses every skill of every root.
  */
  lemma {:induction false} DiscoveryCompletesIff(roots: seq<Root>, readSkill: Reader)
    ensures Discover(roots, 0, [], readSkill).Some? <==>
      && (forall i :: 0 <= i < |roots| ==> RootReadable(roots[i]))
      && Unavailable !in Answers(roots, 0, readSkill)
      && |FoundNames(Answers(roots, 0, readSkill))| <= MAX_SKILLS
  {
    hide RootReadable, Answers;
    AllReadsIff(roots, 0, readSkill);
    DiscoverIsOnePass(roots, 0, [], readSkill);
    CompletesIff(Answers(roots, 0, readSkill));
  }

  // ----- the listing order -----

  /** 256 usable names and one ignored item: accepted or refused by where the listing puts the item. */
  lemma {:induction false} ListingOrderDecides(names: seq<Item>)
    requires |names| == MAX_SKILL_ROOT_ENTRIES && forall i :: 0 <= i < |names| ==> names[i].Named?
    ensures Collected([Ignored] + names, []).Some?
    ensures Collected(names + [Ignored], []).None?
  {
    CollectedIff([Ignored] + names, []);
    CollectedIff(names + [Ignored], []);
    assert ([Ignored] + names)[..|names|] == [Ignored] + names[..|names| - 1];
    assert ([Ignored] + names[..|names| - 1])[1..] == names[..|names| - 1];
    assert (names + [Ignored])[..|names|] == names;
    AllNamed(names);
    AllNamed(names[..|names| - 1]);
  }

  lemma {:induction false} AllNamed(items: seq<Item>)
    requires forall i :: 0 <= i < |items| ==> items[i].Named?
    ensures NamedOnly(items) == items
  {
    if items != [] {
      AllNamed(items[1..]);
      assert items == [items[0]] + items[1..];
    }
  }

  lemma {:induction false} TextTotal(a: string, b: string)
    ensures TextAtMost(a, b) || TextAtMost(b, a)
    ensures TextAtMost(a, b) && TextAtMost(b, a) ==> a == b
  {
    if a != "" && b != "" {
      TextTotal(a[1..], b[1..]);
      assert a == [a[0]] + a[1..] && b == [b[0]] + b[1..];
    }
  }

  lemma {:induction false} TextTransitive(a: string, b: string, c: string)
    requires TextAtMost(a, b) && TextAtMost(b, c)
    ensures TextAtMost(a, c)
  {
    if a != "" && a[0] == b[0] == c[0] {
      TextTransitive(a[1..], b[1..], c[1..]);
    }
  }

  /** Items of one directory: named, and no file name twice. */
  predicate OneDirectory(items: seq<Item>) {
    && (forall x :: x in items ==> x.Named?)
    && (forall x, y :: x in items && y in items && x.file == y.file ==> x == y)
  }

  lemma {:induction false} FilesAreOrdered(items: seq<Item>)
    requires OneDirectory(items)
    ensures Sorting.Orders(FileAtMost, items)
  {
    forall x, y | x in items && y in items
      ensures FileAtMost(x, y) || FileAtMost(y, x)
      ensures FileAtMost(x, y) && FileAtMost(y, x) ==> x == y
    {
      TextTotal(x.file, y.file);
    }
    forall x, y, z | x in items && y in items && z in items && FileAtMost(x, y) && FileAtMost(y, z) ensures FileAtMost(x, z) {
      TextTransitive(x.file, y.file, z.file);
    }
  }

  /** Once a listing is accepted, the order the directory was listed in does not matter. */
  lemma ListingOrderIsIrrelevant(a: seq<Item>, b: seq<Item>, root: nat, readSkill: Reader)
    requires OneDirectory(a) && multiset(a) == multiset(b)
    ensures Reads(root, Sorting.Sort(FileAtMost, a), readSkill) == Reads(root, Sorting.Sort(FileAtMost, b), readSkill)
  {
    Sorting.SameElements(a, b);
    FilesAreOrdered(a);
    FilesAreOrdered(b);
    Sorting.SortIsCanonical(FileAtMost, a, b);
  }

  lemma {:induction false} ReadsAppend(root: nat, a: seq<Item>, b: seq<Item>, readSkill: Reader)
    ensures Reads(root, a + b, readSkill) == Reads(root, a, readSkill) + Reads(root, b, readSkill)
  {
    if a == [] {
      assert a + b == b;
    } else {
      assert (a + b)[1..] == a[1..] + b;
      ReadsAppend(root, a[1..], b, readSkill);
    }
  }

  predicate IsMarkdown(file: string) {
    |file| >= 3 && file[|file| - 3] == '.' && file[|file| - 2] == 'm' && file[|file| - 1] == 'd'
  }

  /** Wherever it stands in a listing, a directory is read, a file exactly when its name ends in `.md`, and nothing else is. */
  lemma ReadsExactly(root: nat, before: seq<Item>, item: Item, after: seq<Item>, readSkill: Reader)
    ensures Reads(root, before + [item] + after, readSkill) ==
      Reads(root, before, readSkill)
      + (if item.Named? && (item.kind.Directory? || IsMarkdown(item.file)) then [readSkill(root, item.file, item.kind)] else [])
      + Reads(root, after, readSkill)
  {
    ReadsAppend(root, before + [item], after, readSkill);
    ReadsAppend(root, before, [item], readSkill);
    assert [item][1..] == [] && Reads(root, [], readSkill) == [];
    if item.Named? && |item.file| >= 3 {
      EndsInMarkdown(item.file);
    }
    hide EndsWith;
  }

  lemma EndsInMarkdown(file: string)
    requires |file| >= 3
    ensures EndsWith(file, ".md") <==> IsMarkdown(file)
  {
    var end := file[|file| - 3..];
    assert end == [file[|file| - 3], file[|file| - 2], file[|file| - 1]];
    assert ".md" == ['.', 'm', 'd'];
  }
}
