/**
  Reconciling the instruction files on disk with what the conversation already
  shows (src/workspace_instructions.rs:371-651, 715-787).  A message carries a
  list of changes; the visible state is the fold of all messages.  File states
  and digests are observations; building a message cannot fail here.
*/
module InstructionSync {
  import opened Wrappers
  import opened ByteText
  import opened InstructionRender

  const MAX_INSTRUCTION_BYTES := 65_536

  datatype CandidateState = Present(instruction: Instruction) | Absent | Unavailable

  datatype Observation = Observation(scope: Scope, state: CandidateState)

  datatype Loaded = Loaded(observations: seq<Observation>, entries: seq<RenderEntry>, identity: string)

  datatype Change = Change(action: ChangeAction, scope: Scope, path: Bytes, digest: Option<Bytes>)

  datatype Message = Message(baseline: bool, identity: Option<string>, changes: seq<Change>)

  datatype Visible = Visible(identity: Option<string>, sawBaseline: bool, changes: map<Scope, Change>)

  datatype Phrases = Phrases(wording: Wording, baselineIntro: Bytes, replacementIntro: Bytes, emptyIntro: Bytes)

  const NOTHING_VISIBLE := Visible(None, false, map[])

  // ----- loading: one project file per directory and content -----

  /** What one candidate file yielded: its state, and the digest of its trimmed content. */
  datatype Found = Found(observation: Observation, trimmedDigest: Bytes)

  function KeyOf(found: Found): Option<(Bytes, Bytes)> {
    if found.observation.state.Present?
    then Some((found.observation.state.instruction.scope.directory, found.trimmedDigest)) else None
  }

  lemma KeyOfPresent(found: Found)
    ensures KeyOf(found).Some? <==> found.observation.state.Present?
  {
  }

  predicate SeenBefore(found: seq<Found>, index: nat, key: Option<(Bytes, Bytes)>)
    requires index <= |found|
  {
    exists i :: 0 < i < index && KeyOf(found[i]) == key
  }

  /** A project file (the first candidate is global) whose directory already gave the same trimmed content. */
  predicate IsRepeated(found: seq<Found>, i: nat)
    requires i < |found|
  {
    KeyOf(found[i]).Some? && 0 < i && SeenBefore(found, i, KeyOf(found[i]))
  }

  function Rewritten(found: seq<Found>, i: nat): Observation
    requires i < |found|
  {
    if IsRepeated(found, i) then found[i].observation.(state := Absent) else found[i].observation
  }

  function RewrittenUpTo(found: seq<Found>, count: nat): (r: seq<Observation>)
    requires count <= |found|
    ensures |r| == count && forall i :: 0 <= i < count ==> r[i] == Rewritten(found, i)
  {
    if count == 0 then [] else RewrittenUpTo(found, count - 1) + [Rewritten(found, count - 1)]
  }

  function PresentEntry(observation: Observation): seq<RenderEntry> {
    if observation.state.Present? then [RenderEntry(observation.state.instruction, Baseline)] else []
  }

  function PresentEntries(observations: seq<Observation>): seq<RenderEntry> {
    if observations == [] then []
    else PresentEntries(observations[..|observations| - 1]) + PresentEntry(observations[|observations| - 1])
  }

  lemma PresentEntriesAppend(observations: seq<Observation>, last: Observation)
    ensures PresentEntries(observations + [last]) == PresentEntries(observations) + PresentEntry(last)
  {
    assert (observations + [last])[..|observations|] == observations;
  }

  lemma SeenStep(found: seq<Found>, index: nat)
    requires index < |found|
    ensures forall key :: SeenBefore(found, index + 1, key) <==>
      SeenBefore(found, index, key) || (0 < index && KeyOf(found[index]) == key)
  {
    forall key
      ensures SeenBefore(found, index + 1, key) <==> SeenBefore(found, index, key) || (0 < index && KeyOf(found[index]) == key)
    {
      if SeenBefore(found, index, key) {
        var i :| 0 < i < index && KeyOf(found[i]) == key;
        assert 0 < i < index + 1;
      }
    }
  }

  lemma RewrittenStep(found: seq<Found>, index: nat)
    requires index < |found|
    ensures RewrittenUpTo(found, index + 1) == RewrittenUpTo(found, index) +
      [if KeyOf(found[index]).Some? && index != 0 && SeenBefore(found, index, KeyOf(found[index]))
       then found[index].observation.(state := Absent) else found[index].observation]
  {
    hide SeenBefore, KeyOf;
  }

  lemma PresentEntryIs(observation: Observation)
    ensures PresentEntry(observation) ==
      if observation.state.Present? then [RenderEntry(observation.state.instruction, Baseline)] else []
  {
  }

  /** Repeated files become absent; what is left is rendered in candidate order. */
  method Deduplicate(found: seq<Found>, identity: string) returns (loaded: Loaded)
    ensures loaded.identity == identity
    ensures loaded.observations == RewrittenUpTo(found, |found|)
    ensures loaded.entries == PresentEntries(loaded.observations)
  {
    var seen: set<Option<(Bytes, Bytes)>> := {};
    var observations: seq<Observation> := [];
    var entries: seq<RenderEntry> := [];
    for index := 0 to |found|
      invariant observations == RewrittenUpTo(found, index)
      invariant entries == PresentEntries(observations)
      invariant forall key :: key in seen <==> key.Some? && SeenBefore(found, index, key)
    {
      hide SeenBefore, KeyOf, PresentEntries, PresentEntry, RewrittenUpTo, Rewritten;
      var observation := found[index].observation;
      var key := KeyOf(found[index]);
      SeenStep(found, index);
      KeyOfPresent(found[index]);
      RewrittenStep(found, index);
      if key.Some? && index != 0 {
        if key in seen {
          observation := observation.(state := Absent);
        }
        seen := seen + {key};
      }
      if observation.state.Present? {
        entries := entries + [RenderEntry(observation.state.instruction, Baseline)];
      }
      PresentEntriesAppend(observations, observation);
      PresentEntryIs(observation);
      observations := observations + [observation];
    }
    loaded := Loaded(observations, entries, identity);
  }

  // ----- the visible state -----

  function Record(changes: map<Scope, Change>, added: seq<Change>): map<Scope, Change> {
    if added == [] then changes
    else Record(changes, added[..|added| - 1])[added[|added| - 1].scope := added[|added| - 1]]
  }

  function Fold(visible: Visible, message: Message): Visible {
    Visible(if message.baseline then message.identity else visible.identity,
            visible.sawBaseline || message.baseline,
            Record(visible.changes, message.changes))
  }

  function FoldAll(messages: seq<Message>): Visible {
    if messages == [] then NOTHING_VISIBLE
    else Fold(FoldAll(messages[..|messages| - 1]), messages[|messages| - 1])
  }

  method VisibleInstructionState(messages: seq<Message>) returns (visible: Visible)
    ensures visible == FoldAll(messages)
  {
    visible := NOTHING_VISIBLE;
    for m := 0 to |messages|
      invariant visible == FoldAll(messages[..m])
    {
      var message := messages[m];
      assert messages[..m + 1][..m] == messages[..m];
      if message.baseline {
        visible := visible.(sawBaseline := true, identity := message.identity);
      }
      var before := visible.changes;
      for c := 0 to |message.changes|
        invariant visible == visible.(changes := visible.changes)
        invariant visible.identity == Fold(FoldAll(messages[..m]), message).identity
        invariant visible.sawBaseline == Fold(FoldAll(messages[..m]), message).sawBaseline
        invariant visible.changes == Record(before, message.changes[..c])
      {
        var change := message.changes[c];
        visible := visible.(changes := visible.changes[change.scope := change]);
        assert message.changes[..c + 1][..c] == message.changes[..c];
      }
      assert message.changes[..|message.changes|] == message.changes;
    }
    assert messages[..|messages|] == messages;
  }

  // ----- reconciliation -----

  function RecordOf(entry: RenderEntry, action: ChangeAction): Change {
    Change(action, entry.instruction.scope, entry.instruction.displayPath,
           if action == Remove then None else Some(entry.instruction.digest))
  }

  /** `Set` records for the represented suffix. */
  function SetChanges(entries: seq<RenderEntry>): seq<Change> {
    if entries == [] then [] else [RecordOf(entries[0], Set)] + SetChanges(entries[1..])
  }

  /** Records of represented change entries. */
  function ChangeRecords(entries: seq<RenderEntry>): seq<Change> {
    if entries == [] then []
    else (if entries[0].kind.ChangeOf? then [RecordOf(entries[0], entries[0].kind.action)] else []) + ChangeRecords(entries[1..])
  }

  /** The represented entries; rendering always represents a suffix. */
  function Shown(entries: seq<RenderEntry>, rendered: Rendered): seq<RenderEntry> {
    if |rendered.represented| <= |entries| then entries[|entries| - |rendered.represented|..] else []
  }

  /** Later entries win, as in a map filled in order. */
  function DesiredFor(shown: seq<RenderEntry>, scope: Scope): Option<Instruction> {
    if shown == [] then None
    else if shown[|shown| - 1].instruction.scope == scope then Some(shown[|shown| - 1].instruction)
    else DesiredFor(shown[..|shown| - 1], scope)
  }

  predicate Agrees(record: Change, instruction: Instruction) {
    record.action != Remove && record.path == instruction.displayPath && record.digest == Some(instruction.digest)
  }

  function Recorded(visible: Visible, scope: Scope): Option<Change> {
    if scope in visible.changes then Some(visible.changes[scope]) else None
  }

  /** The change one observation asks for, if any. */
  function Difference(visible: Visible, shown: seq<RenderEntry>, observation: Observation): Option<RenderEntry> {
    var record := Recorded(visible, observation.scope);
    match DesiredFor(shown, observation.scope)
    case Some(current) =>
      if record.Some? && Agrees(record.value, current) then None
      else if record.Some? && record.value.action != Remove then Some(RenderEntry(current, ChangeOf(Update)))
      else Some(RenderEntry(current, ChangeOf(Set)))
    case None =>
      if observation.state.Unavailable? || record.None? || record.value.action == Remove then None
      else Some(RenderEntry(Instruction(observation.scope, record.value.path, [], []), ChangeOf(Remove)))
  }

  function Differences(visible: Visible, shown: seq<RenderEntry>, observations: seq<Observation>): seq<RenderEntry> {
    if observations == [] then []
    else
      var d := Difference(visible, shown, observations[|observations| - 1]);
      Differences(visible, shown, observations[..|observations| - 1]) + (if d.Some? then [d.value] else [])
  }

  predicate Compatible(visible: Visible, loaded: Loaded) {
    visible.sawBaseline && visible.identity == Some(loaded.identity)
  }

  function Current(p: Phrases, loaded: Loaded): seq<RenderEntry> {
    Shown(loaded.entries, Render(p.wording, loaded.entries, MAX_INSTRUCTION_BYTES, Some(p.baselineIntro)))
  }

  function FirstBaseline(p: Phrases, loaded: Loaded): Option<Message> {
    var rendered := Render(p.wording, loaded.entries, MAX_INSTRUCTION_BYTES, Some(p.baselineIntro));
    if loaded.entries == [] || rendered.text == [] then None
    else Some(Message(true, Some(loaded.identity), SetChanges(Shown(loaded.entries, rendered))))
  }

  predicate Shows(shown: seq<RenderEntry>, scope: Scope) {
    exists e :: e in shown && e.instruction.scope == scope
  }

  const NUL: byte := 0

  /** The text a scope is kept under. */
  function ScopeKey(scope: Scope): Bytes {
    scope.directory + [NUL] + scope.candidate
  }

  predicate ScopeAtMost(a: Scope, b: Scope) {
    BytesAtMost(ScopeKey(a), ScopeKey(b))
  }

  /** In the order of the scope keys, each scope once. */
  predicate InScopeOrder(removals: seq<Change>) {
    forall i, j :: 0 <= i < j < |removals| ==>
      ScopeAtMost(removals[i].scope, removals[j].scope) && removals[i].scope != removals[j].scope
  }

  /** The removals, one per record that is live but no longer shown, in the order of their scopes. */
  ghost predicate AreRemovals(removals: seq<Change>, visible: Visible, shown: seq<RenderEntry>) {
    && InScopeOrder(removals)
    && (forall c :: c in removals ==>
          && c.scope in visible.changes && visible.changes[c.scope].action != Remove && !Shows(shown, c.scope)
          && c == Change(Remove, c.scope, visible.changes[c.scope].path, None))
    && (forall scope :: scope in visible.changes && visible.changes[scope].action != Remove && !Shows(shown, scope) ==>
          Change(Remove, scope, visible.changes[scope].path, None) in removals)
  }

  function ReplacementText(p: Phrases, loaded: Loaded): Rendered {
    Render(p.wording, loaded.entries, MAX_INSTRUCTION_BYTES,
           Some(if loaded.entries == [] then p.emptyIntro else p.replacementIntro))
  }

  predicate AnyUnavailable(loaded: Loaded) {
    exists o :: o in loaded.observations && o.state.Unavailable?
  }

  function ChangesMessage(p: Phrases, visible: Visible, loaded: Loaded): Option<Message> {
    var differences := Differences(visible, Current(p, loaded), loaded.observations);
    var rendered := Render(p.wording, differences, MAX_INSTRUCTION_BYTES, None);
    var changes := ChangeRecords(Shown(differences, rendered));
    if differences == [] || changes == [] then None else Some(Message(false, None, changes))
  }

  /** What one call answers. */
  ghost predicate Reconciles(p: Phrases, visible: Visible, loaded: Loaded, r: Option<Message>) {
    if !visible.sawBaseline then r == FirstBaseline(p, loaded)
    else if Compatible(visible, loaded) then r == ChangesMessage(p, visible, loaded)
    else if AnyUnavailable(loaded) then r == None
    else
      var shown := Shown(loaded.entries, ReplacementText(p, loaded));
      && r.Some? && r.value.baseline && r.value.identity == Some(loaded.identity)
      && |SetChanges(shown)| <= |r.value.changes|
      && r.value.changes[|r.value.changes| - |SetChanges(shown)|..] == SetChanges(shown)
      && AreRemovals(r.value.changes[..|r.value.changes| - |SetChanges(shown)|], visible, shown)
  }

  /** One call: the message to show next, if any. */
  method Reconcile(p: Phrases, visible: Visible, loaded: Loaded) returns (r: Option<Message>)
    ensures Reconciles(p, visible, loaded, r)
  {
    hide Render;
    if !visible.sawBaseline {
      if loaded.entries == [] {
        return None;
      }
      var rendered := RenderEntries(p.wording, loaded.entries, MAX_INSTRUCTION_BYTES, Some(p.baselineIntro));
      if rendered.text == [] {
        return None;
      }
      return Some(Message(true, Some(loaded.identity), SetChanges(Shown(loaded.entries, rendered))));
    }
    if visible.identity != Some(loaded.identity) {
      if exists o :: o in loaded.observations && o.state.Unavailable? {
        return None;
      }
      var rendered := RenderEntries(p.wording, loaded.entries, MAX_INSTRUCTION_BYTES,
                                    Some(if loaded.entries == [] then p.emptyIntro else p.replacementIntro));
      var shown := Shown(loaded.entries, rendered);
      var removals := RemovalsNotRepresented(visible, shown);
      r := Some(Message(true, Some(loaded.identity), removals + SetChanges(shown)));
      assert (removals + SetChanges(shown))[|removals|..] == SetChanges(shown);
      assert (removals + SetChanges(shown))[..|removals|] == removals;
      return r;
    }
    var current := RenderEntries(p.wording, loaded.entries, MAX_INSTRUCTION_BYTES, Some(p.baselineIntro));
    var shown := Shown(loaded.entries, current);
    var differences: seq<RenderEntry> := [];
    for i := 0 to |loaded.observations|
      invariant differences == Differences(visible, shown, loaded.observations[..i])
    {
      var d := Difference(visible, shown, loaded.observations[i]);
      if d.Some? {
        differences := differences + [d.value];
      }
      assert loaded.observations[..i + 1][..i] == loaded.observations[..i];
    }
    assert loaded.observations[..|loaded.observations|] == loaded.observations;
    if differences == [] {
      return None;
    }
    var rendered := RenderEntries(p.wording, differences, MAX_INSTRUCTION_BYTES, None);
    var changes := ChangeRecords(Shown(differences, rendered));
    if changes == [] {
      return None;
    }
    r := Some(Message(false, None, changes));
  }

  lemma ScopesOrdered(a: Scope, b: Scope, c: Scope)
    ensures ScopeAtMost(a, b) || ScopeAtMost(b, a)
    ensures ScopeAtMost(a, b) && ScopeAtMost(b, c) ==> ScopeAtMost(a, c)
  {
    AtMostTotal(ScopeKey(a), ScopeKey(b));
    if ScopeAtMost(a, b) && ScopeAtMost(b, c) {
      AtMostTransitive(ScopeKey(a), ScopeKey(b), ScopeKey(c));
    }
  }

  predicate IsLeast(least: Scope, scopes: set<Scope>) {
    least in scopes && forall other :: other in scopes ==> ScopeAtMost(least, other)
  }

  lemma LeastWithOneMore(one: Scope, rest: set<Scope>, least: Scope)
    requires IsLeast(least, rest)
    ensures IsLeast(if ScopeAtMost(one, least) then one else least, rest + {one})
  {
    hide ScopeAtMost;
    ScopesOrdered(one, one, one);
    ScopesOrdered(one, least, least);
    forall other | other in rest ensures ScopeAtMost(one, least) ==> ScopeAtMost(one, other) {
      ScopesOrdered(one, least, other);
    }
  }

  lemma {:induction false} LeastScopeExists(scopes: set<Scope>)
    requires scopes != {}
    ensures exists least :: IsLeast(least, scopes)
    decreases scopes
  {
    hide IsLeast, ScopeAtMost;
    var one :| one in scopes;
    var rest := scopes - {one};
    if rest == {} {
      assert scopes == {one};
      LeastOfOne(one);
    } else {
      LeastScopeExists(rest);
      var least :| IsLeast(least, rest);
      LeastWithOneMore(one, rest, least);
      assert rest + {one} == scopes;
    }
  }

  lemma LeastOfOne(one: Scope)
    ensures IsLeast(one, {one})
  {
    ScopesOrdered(one, one, one);
  }

  method RemovalsNotRepresented(visible: Visible, shown: seq<RenderEntry>) returns (removals: seq<Change>)
    ensures AreRemovals(removals, visible, shown)
  {
    hide ScopeAtMost;
    removals := [];
    var scopes := visible.changes.Keys;
    while scopes != {}
      invariant scopes <= visible.changes.Keys
      invariant InScopeOrder(removals)
      invariant forall c, later :: c in removals && later in scopes ==> ScopeAtMost(c.scope, later) && c.scope != later
      invariant forall c :: c in removals ==>
        && c.scope in visible.changes && visible.changes[c.scope].action != Remove && !Shows(shown, c.scope)
        && c == Change(Remove, c.scope, visible.changes[c.scope].path, None)
      invariant forall scope ::
        (scope in visible.changes && scope !in scopes && visible.changes[scope].action != Remove && !Shows(shown, scope)) ==>
        Change(Remove, scope, visible.changes[scope].path, None) in removals
      decreases |scopes|
    {
      LeastScopeExists(scopes);
      var scope :| scope in scopes && IsLeast(scope, scopes);
      scopes := scopes - {scope};
      if visible.changes[scope].action != Remove && !Shows(shown, scope) {
        removals := removals + [Change(Remove, scope, visible.changes[scope].path, None)];
      }
    }
  }

  /** Directories are paths, and paths hold no NUL. */
  predicate PathScopes(changes: map<Scope, Change>) {
    forall scope :: scope in changes ==> NUL !in scope.directory
  }

  lemma {:induction false} ScopeKeyInjective(a: Scope, b: Scope)
    requires NUL !in a.directory && NUL !in b.directory && ScopeKey(a) == ScopeKey(b)
    ensures a == b
  {
    var n, m := |a.directory|, |b.directory|;
    var key := ScopeKey(a);
    assert key[n] == NUL && key[m] == NUL;
    assert forall i :: 0 <= i < n ==> key[i] == a.directory[i];
    assert forall i :: 0 <= i < m ==> key[i] == b.directory[i];
    assert n == m;
    assert key[..n] == a.directory == b.directory && key[n + 1..] == a.candidate == b.candidate;
  }

  lemma {:induction false} SameRemovals(a: seq<Change>, b: seq<Change>)
    requires InScopeOrder(a) && InScopeOrder(b)
    requires forall c :: c in a <==> c in b
    requires forall c :: c in a ==> NUL !in c.scope.directory
    ensures a == b
    decreases |a|
  {
    if a == [] || b == [] {
      HasMember(a);
      HasMember(b);
    } else {
      SameFirstRemoval(a, b);
      hide ScopeAtMost;
      assert InScopeOrder(a[1..]) && InScopeOrder(b[1..]);
      forall c ensures c in a[1..] <==> c in b[1..] {
        TailWithoutHead(a, c);
        TailWithoutHead(b, c);
      }
      forall c | c in a[1..] ensures c in a {
      }
      SameRemovals(a[1..], b[1..]);
      assert a == [a[0]] + a[1..] && b == [b[0]] + b[1..];
    }
  }

  lemma HasMember(a: seq<Change>)
    ensures a != [] ==> exists c :: c in a
  {
    if a != [] {
      assert a[0] in a;
    }
  }

  lemma TailWithoutHead(a: seq<Change>, c: Change)
    requires InScopeOrder(a) && a != []
    ensures c in a[1..] <==> c in a && c != a[0]
  {
    if c in a[1..] {
      var i :| 0 <= i < |a| - 1 && a[1..][i] == c;
      assert a[i + 1] == c;
    }
  }

  lemma {:induction false} SameFirstRemoval(a: seq<Change>, b: seq<Change>)
    requires InScopeOrder(a) && InScopeOrder(b) && a != [] && b != []
    requires forall c :: c in a <==> c in b
    requires forall c :: c in a ==> NUL !in c.scope.directory
    ensures a[0] == b[0]
  {
    hide ScopeKey;
    assert a[0] in a && b[0] in b;
    var i :| 0 <= i < |b| && b[i] == a[0];
    var j :| 0 <= j < |a| && a[j] == b[0];
    if i != 0 && j != 0 {
      AtMostAntisymmetric(ScopeKey(a[0].scope), ScopeKey(b[0].scope));
      ScopeKeyInjective(a[0].scope, b[0].scope);
      assert false;
    }
  }

  /** There is exactly one answer: records under path scopes leave no choice of order. */
  lemma OneAnswer(p: Phrases, visible: Visible, loaded: Loaded, r: Option<Message>, other: Option<Message>)
    requires PathScopes(visible.changes)
    requires Reconciles(p, visible, loaded, r) && Reconciles(p, visible, loaded, other)
    ensures r == other
  {
    hide Render, FirstBaseline, ChangesMessage, InScopeOrder;
    if visible.sawBaseline && !Compatible(visible, loaded) && !AnyUnavailable(loaded) {
      var shown := Shown(loaded.entries, ReplacementText(p, loaded));
      var a := r.value.changes[..|r.value.changes| - |SetChanges(shown)|];
      var b := other.value.changes[..|other.value.changes| - |SetChanges(shown)|];
      SameRemovals(a, b);
      assert r.value.changes == a + SetChanges(shown) && other.value.changes == b + SetChanges(shown);
    }
  }

  // ----- what folding a list of changes does -----

  lemma {:induction false} RecordEffect(changes: map<Scope, Change>, added: seq<Change>, scope: Scope)
    ensures var after := Record(changes, added);
      && ((exists c :: c in added && c.scope == scope) ==> scope in after && after[scope] in added && after[scope].scope == scope)
      && ((forall c :: c in added ==> c.scope != scope) ==>
            (scope in after <==> scope in changes) && (scope in changes ==> after[scope] == changes[scope]))
  {
    if added != [] {
      RecordEffect(changes, added[..|added| - 1], scope);
    }
  }

  lemma DesiredIsShown(shown: seq<RenderEntry>, scope: Scope)
    ensures var d := DesiredFor(shown, scope);
      && (d.Some? <==> Shows(shown, scope))
      && (d.Some? ==> d.value.scope == scope && exists e :: e in shown && e.instruction == d.value)
  {
    if shown != [] {
      DesiredIsShown(shown[..|shown| - 1], scope);
    }
  }

  lemma SetChangesAppend(front: seq<RenderEntry>, last: RenderEntry)
    ensures SetChanges(front + [last]) == SetChanges(front) + [RecordOf(last, Set)]
  {
    if front != [] {
      assert (front + [last])[1..] == front[1..] + [last];
    }
  }

  /** Folding the `Set` records of the shown entries makes every shown scope agree with the desired one. */
  lemma {:induction false} SetChangesAgree(changes: map<Scope, Change>, shown: seq<RenderEntry>, scope: Scope)
    ensures var after := Record(changes, SetChanges(shown));
      match DesiredFor(shown, scope)
      case Some(current) => scope in after && Agrees(after[scope], current)
      case None => (scope in after <==> scope in changes) && (scope in changes ==> after[scope] == changes[scope])
  {
    if shown != [] {
      var front, last := shown[..|shown| - 1], shown[|shown| - 1];
      assert shown == front + [last];
      SetChangesAppend(front, last);
      SetChangesAgree(changes, front, scope);
      var added := SetChanges(shown);
      assert added[..|added| - 1] == SetChanges(front);
    }
  }

  /** A first baseline over nothing leaves the next call with nothing to say. */
  lemma FreshBaselineThenSilence(p: Phrases, visible: Visible, loaded: Loaded, m: Message, next: Option<Message>)
    requires !visible.sawBaseline && visible.changes == map[]
    requires Reconciles(p, visible, loaded, Some(m))
    requires Reconciles(p, Fold(visible, m), loaded, next)
    ensures next == None
  {
    hide Render;
    var shown := Current(p, loaded);
    var after := Fold(visible, m);
    NoDifferences(after, shown, loaded.observations);
  }

  lemma {:induction false} NoDifferences(visible: Visible, shown: seq<RenderEntry>, observations: seq<Observation>)
    requires visible.changes == Record(map[], SetChanges(shown))
    ensures Differences(visible, shown, observations) == []
  {
    if observations != [] {
      SetChangesAgree(map[], shown, observations[|observations| - 1].scope);
      NoDifferences(visible, shown, observations[..|observations| - 1]);
    }
  }

  // ----- convergence -----

  ghost predicate Round(p: Phrases, loaded: Loaded, before: Visible, after: Visible) {
    exists m :: Reconciles(p, before, loaded, Some(m)) && after == Fold(before, m)
  }

  /** First the baseline, then the observations that still ask for a change. */
  function Distance(p: Phrases, loaded: Loaded, visible: Visible): nat {
    if Compatible(visible, loaded) then |Differences(visible, Current(p, loaded), loaded.observations)|
    else |loaded.observations| + 1
  }

  lemma DifferencesBound(visible: Visible, shown: seq<RenderEntry>, observations: seq<Observation>)
    ensures |Differences(visible, shown, observations)| <= |observations|
  {
  }

  /** Every difference comes from an observation, keeps its scope, and is a change. */
  lemma {:induction false} DifferenceSource(visible: Visible, shown: seq<RenderEntry>, observations: seq<Observation>, k: nat)
    requires k < |Differences(visible, shown, observations)|
    ensures var e := Differences(visible, shown, observations)[k];
      && e.kind.ChangeOf?
      && exists o :: o in observations && Difference(visible, shown, o) == Some(e) && o.scope == e.instruction.scope
  {
    var front, last := observations[..|observations| - 1], observations[|observations| - 1];
    DesiredIsShown(shown, last.scope);
    if k < |Differences(visible, shown, front)| {
      DifferenceSource(visible, shown, front, k);
    }
  }

  lemma {:induction false} RecordsOf(entries: seq<RenderEntry>)
    requires forall e :: e in entries ==> e.kind.ChangeOf?
    ensures var records := ChangeRecords(entries);
      |records| == |entries| && forall i :: 0 <= i < |entries| ==> records[i] == RecordOf(entries[i], entries[i].kind.action)
  {
    if entries != [] {
      RecordsOf(entries[1..]);
    }
  }

  /** Recording the very change an observation asked for settles it. */
  lemma RecordedDifferenceSettles(visible: Visible, after: Visible, shown: seq<RenderEntry>, o: Observation, e: RenderEntry)
    requires Difference(visible, shown, o) == Some(e) && e.kind.ChangeOf?
    requires Recorded(after, o.scope) == Some(RecordOf(e, e.kind.action))
    ensures forall b: Observation :: b.scope == o.scope ==> Difference(after, shown, b) == None
  {
  }

  /** After a message every observation is either settled or exactly as far as before. */
  lemma ObservationProgress(visible: Visible, shown: seq<RenderEntry>, observations: seq<Observation>, start: nat, o: Observation)
    requires start <= |Differences(visible, shown, observations)|
    ensures var all := Differences(visible, shown, observations);
      var after := visible.(changes := Record(visible.changes, ChangeRecords(all[start..])));
      && (Difference(after, shown, o) == None || Difference(after, shown, o) == Difference(visible, shown, o))
      && (forall k :: start <= k < |all| && all[k].instruction.scope == o.scope ==> Difference(after, shown, o) == None)
  {
    hide Differences, ChangeRecords, DesiredFor, Agrees;
    var all := Differences(visible, shown, observations);
    var told := all[start..];
    var records := ChangeRecords(told);
    var after := visible.(changes := Record(visible.changes, records));
    forall k | 0 <= k < |all| ensures all[k].kind.ChangeOf? {
      DifferenceSource(visible, shown, observations, k);
    }
    RecordsOf(told);
    RecordEffect(visible.changes, records, o.scope);
    if exists c :: c in records && c.scope == o.scope {
      var i :| 0 <= i < |records| && after.changes[o.scope] == records[i];
      DifferenceSource(visible, shown, observations, start + i);
      var b :| b in observations && Difference(visible, shown, b) == Some(told[i]) && b.scope == told[i].instruction.scope;
      RecordedDifferenceSettles(visible, after, shown, b, told[i]);
    } else {
      SameRecordSameDifference(visible, after, shown, o);
      forall k | start <= k < |all| ensures all[k].instruction.scope != o.scope {
        assert records[k - start].scope == told[k - start].instruction.scope && records[k - start] in records;
      }
    }
  }

  lemma SameRecordSameDifference(visible: Visible, after: Visible, shown: seq<RenderEntry>, o: Observation)
    requires Recorded(after, o.scope) == Recorded(visible, o.scope)
    ensures Difference(after, shown, o) == Difference(visible, shown, o)
  {
  }

  lemma {:induction false} FewerDifferences(visible: Visible, after: Visible, shown: seq<RenderEntry>, observations: seq<Observation>)
    requires forall o :: o in observations ==>
      Difference(after, shown, o) == None || Difference(after, shown, o) == Difference(visible, shown, o)
    ensures var was, now := Differences(visible, shown, observations), Differences(after, shown, observations);
      && |now| <= |was|
      && ((exists o :: o in observations && Difference(visible, shown, o).Some? && Difference(after, shown, o).None?) ==> |now| < |was|)
  {
    if observations != [] {
      FewerDifferences(visible, after, shown, observations[..|observations| - 1]);
      var last := observations[|observations| - 1];
      assert last in observations;
      assert forall o :: o in observations <==> o in observations[..|observations| - 1] || o == last;
    }
  }

  lemma RoundApproaches(p: Phrases, loaded: Loaded, before: Visible, after: Visible)
    requires Round(p, loaded, before, after)
    ensures Distance(p, loaded, after) < Distance(p, loaded, before)
    ensures Compatible(after, loaded)
  {
    hide Render;
    var m :| Reconciles(p, before, loaded, Some(m)) && after == Fold(before, m);
    var shown := Current(p, loaded);
    if !Compatible(before, loaded) {
      DifferencesBound(after, shown, loaded.observations);
    } else {
      var all := Differences(before, shown, loaded.observations);
      var rendered := Render(p.wording, all, MAX_INSTRUCTION_BYTES, None);
      RenderFitsBudget(p.wording, all, MAX_INSTRUCTION_BYTES, None);
      var start := |all| - |rendered.represented|;
      assert Shown(all, rendered) == all[start..];
      forall o | o in loaded.observations
        ensures Difference(after, shown, o) == None || Difference(after, shown, o) == Difference(before, shown, o)
        ensures forall k :: start <= k < |all| && all[k].instruction.scope == o.scope ==> Difference(after, shown, o) == None
      {
        ObservationProgress(before, shown, loaded.observations, start, o);
      }
      assert start < |all|;
      DifferenceSource(before, shown, loaded.observations, start);
      FewerDifferences(before, after, shown, loaded.observations);
    }
  }

  /** Each visible state is the previous one with the next message folded in. */
  ghost predicate IsRun(p: Phrases, loaded: Loaded, run: seq<Visible>) {
    run != [] && (|run| > 1 ==> Round(p, loaded, run[|run| - 2], run[|run| - 1]) && IsRun(p, loaded, run[..|run| - 1]))
  }

  /**
    Convergence: with the workspace unchanged, at most one message more than
    there are candidate files is ever produced, whatever was visible before.
  */
  lemma {:induction false} Converges(p: Phrases, loaded: Loaded, run: seq<Visible>)
    requires IsRun(p, loaded, run)
    ensures |run| - 1 + Distance(p, loaded, run[|run| - 1]) <= Distance(p, loaded, run[0]) <= |loaded.observations| + 1
    decreases |run|
  {
    hide Distance, Round;
    DistanceBound(p, loaded, run[0]);
    if |run| > 1 {
      Converges(p, loaded, run[..|run| - 1]);
      RoundApproaches(p, loaded, run[|run| - 2], run[|run| - 1]);
    }
  }

  lemma DistanceBound(p: Phrases, loaded: Loaded, visible: Visible)
    ensures Distance(p, loaded, visible) <= |loaded.observations| + 1
  {
    hide Current;
    DifferencesBound(visible, Current(p, loaded), loaded.observations);
  }

  /** What is recorded for an observation is what the workspace shows now. */
  predicate ShowsTruth(visible: Visible, shown: seq<RenderEntry>, o: Observation) {
    var record := Recorded(visible, o.scope);
    match DesiredFor(shown, o.scope)
    case Some(current) => record.Some? && Agrees(record.value, current)
    case None => o.state.Unavailable? || record.None? || record.value.action == Remove
  }

  lemma {:induction false} NoDifferenceIff(visible: Visible, shown: seq<RenderEntry>, observations: seq<Observation>)
    ensures Differences(visible, shown, observations) == [] <==> forall o :: o in observations ==> ShowsTruth(visible, shown, o)
  {
    if observations != [] {
      var front, last := observations[..|observations| - 1], observations[|observations| - 1];
      NoDifferenceIff(visible, shown, front);
      DifferenceIff(visible, shown, last);
      assert Differences(visible, shown, observations) == [] <==>
        Differences(visible, shown, front) == [] && Difference(visible, shown, last).None?;
      hide Differences, Difference, ShowsTruth;
      assert observations == front + [last];
    }
  }

  lemma DifferenceIff(visible: Visible, shown: seq<RenderEntry>, o: Observation)
    ensures Difference(visible, shown, o).None? <==> ShowsTruth(visible, shown, o)
  {
  }

  /**
    Where the protocol comes to rest: with a compatible baseline it is silent exactly when
    every record says what the workspace shows, or not even the last change fits its budget.
  */
  lemma SilentIffSettled(p: Phrases, visible: Visible, loaded: Loaded, r: Option<Message>)
    requires Compatible(visible, loaded) && Reconciles(p, visible, loaded, r)
    ensures var shown := Current(p, loaded);
      var all := Differences(visible, shown, loaded.observations);
      r == None <==>
        || (forall o :: o in loaded.observations ==> ShowsTruth(visible, shown, o))
        || Render(p.wording, all, MAX_INSTRUCTION_BYTES, None).represented == []
  {
    hide Render;
    var shown := Current(p, loaded);
    var all := Differences(visible, shown, loaded.observations);
    NoDifferenceIff(visible, shown, loaded.observations);
    RenderFitsBudget(p.wording, all, MAX_INSTRUCTION_BYTES, None);
    var told := Shown(all, Render(p.wording, all, MAX_INSTRUCTION_BYTES, None));
    forall e | e in told ensures e.kind.ChangeOf? {
      var k :| 0 <= k < |all| && all[k] == e;
      DifferenceSource(visible, shown, loaded.observations, k);
    }
    RecordsOf(told);
  }

  // ----- when the baseline settles -----

  lemma {:induction false} FirstStep(p: Phrases, loaded: Loaded, run: seq<Visible>)
    requires IsRun(p, loaded, run) && |run| > 1
    ensures Round(p, loaded, run[0], run[1])
    decreases |run|
  {
    hide Round;
    if |run| > 2 {
      FirstStep(p, loaded, run[..|run| - 1]);
    }
  }

  /** What the starting state must offer for the baseline of this workspace to be shown in the end. */
  predicate CanSettle(p: Phrases, visible: Visible, loaded: Loaded) {
    if !visible.sawBaseline then FirstBaseline(p, loaded).Some?
    else Compatible(visible, loaded) || !AnyUnavailable(loaded)
  }

  /**
    Alternating with an unchanged workspace from any state until it is silent ends with a
    compatible baseline if and only if the state had one, or had another and every file can
    be read, or had none and the first one renders.  Otherwise nothing is ever said: an
    unreadable file freezes an outdated baseline.
  */
  lemma {:induction false} BaselineSettlesIff(p: Phrases, loaded: Loaded, run: seq<Visible>)
    requires IsRun(p, loaded, run) && Reconciles(p, run[|run| - 1], loaded, None)
    ensures Compatible(run[|run| - 1], loaded) <==> CanSettle(p, run[0], loaded)
    ensures !CanSettle(p, run[0], loaded) ==> |run| == 1
  {
    hide Render, FirstBaseline, ChangesMessage;
    if |run| > 1 {
      RoundApproaches(p, loaded, run[|run| - 2], run[|run| - 1]);
      FirstStep(p, loaded, run);
      var m :| Reconciles(p, run[0], loaded, Some(m)) && run[1] == Fold(run[0], m);
    }
  }

  // ----- files that cannot be read -----

  predicate UniqueScopes(observations: seq<Observation>) {
    forall i, j :: 0 <= i < j < |observations| ==> observations[i].scope != observations[j].scope
  }

  /** Every entry comes from a file that could be read, under its own scope. */
  predicate EntriesObserved(loaded: Loaded) {
    forall e :: e in loaded.entries ==>
      exists o :: o in loaded.observations && o.state.Present? && o.scope == e.instruction.scope
  }

  predicate WellFormed(loaded: Loaded) {
    UniqueScopes(loaded.observations) && EntriesObserved(loaded)
  }

  lemma {:induction false} PresentEntriesSource(observations: seq<Observation>, e: RenderEntry)
    requires e in PresentEntries(observations)
    ensures exists o :: o in observations && o.state == Present(e.instruction)
  {
    if observations[|observations| - 1].state != Present(e.instruction) {
      PresentEntriesSource(observations[..|observations| - 1], e);
    }
  }

  lemma {:induction false} EntriesArePresent(observations: seq<Observation>, e: RenderEntry)
    requires e in PresentEntries(observations)
    requires forall o :: o in observations && o.state.Present? ==> o.state.instruction.scope == o.scope
    ensures exists o :: o in observations && o.state.Present? && o.scope == e.instruction.scope
  {
    PresentEntriesSource(observations, e);
  }

  lemma {:induction false} RewrittenKeepsScopes(found: seq<Found>)
    ensures var observations := RewrittenUpTo(found, |found|);
      && |observations| == |found| && (forall i :: 0 <= i < |found| ==> observations[i].scope == found[i].observation.scope)
      && forall i :: 0 <= i < |found| && observations[i].state.Present? ==> observations[i] == found[i].observation
  {
    hide SeenBefore, KeyOf;
  }

  /** Loading produces well-formed input from candidates with distinct scopes. */
  lemma {:induction false} DeduplicatedIsWellFormed(found: seq<Found>, loaded: Loaded)
    requires loaded.observations == RewrittenUpTo(found, |found|)
    requires loaded.entries == PresentEntries(loaded.observations)
    requires forall i, j :: 0 <= i < j < |found| ==> found[i].observation.scope != found[j].observation.scope
    requires forall f :: f in found && f.observation.state.Present? ==> f.observation.state.instruction.scope == f.observation.scope
    ensures WellFormed(loaded)
  {
    var observations := loaded.observations;
    RewrittenKeepsScopes(found);
    hide RewrittenUpTo, PresentEntries;
    assert UniqueScopes(observations);
    forall o | o in observations && o.state.Present? ensures o.state.instruction.scope == o.scope {
      var i :| 0 <= i < |observations| && observations[i] == o;
      assert found[i] in found;
    }
    forall e | e in loaded.entries
      ensures exists o :: o in observations && o.state.Present? && o.scope == e.instruction.scope
    {
      EntriesArePresent(observations, e);
    }
  }

  predicate OnlyUnavailable(loaded: Loaded, scope: Scope) {
    forall o :: o in loaded.observations && o.scope == scope ==> o.state.Unavailable?
  }

  /** No round, from whatever state, alters the record of this scope. */
  ghost predicate KeepsRecord(p: Phrases, loaded: Loaded, scope: Scope) {
    forall before, after :: Round(p, loaded, before, after) ==> Recorded(after, scope) == Recorded(before, scope)
  }

  lemma {:induction false} UniqueMeansOnly(observations: seq<Observation>, o: Observation, other: Observation)
    requires UniqueScopes(observations) && o in observations && other in observations && other.scope == o.scope
    ensures other == o
  {
    var i :| 0 <= i < |observations| && observations[i] == o;
    var j :| 0 <= j < |observations| && observations[j] == other;
  }

  /** With one candidate for each scope, no round touches the record of a file that cannot be read. */
  lemma {:induction false} UnavailableUntouched(p: Phrases, loaded: Loaded, o: Observation)
    requires WellFormed(loaded) && o in loaded.observations && o.state.Unavailable?
    ensures KeepsRecord(p, loaded, o.scope)
  {
    forall other | other in loaded.observations && other.scope == o.scope ensures other.state.Unavailable? {
      UniqueMeansOnly(loaded.observations, o, other);
    }
    assert OnlyUnavailable(loaded, o.scope) && EntriesObserved(loaded);
    hide OnlyUnavailable, EntriesObserved, WellFormed, Round, Recorded;
    forall before, after | Round(p, loaded, before, after) ensures Recorded(after, o.scope) == Recorded(before, o.scope) {
      OnlyUnavailableUntouched(p, loaded, before, after, o);
    }
  }

  lemma OnlyUnavailableUntouched(p: Phrases, loaded: Loaded, before: Visible, after: Visible, o: Observation)
    requires EntriesObserved(loaded) && OnlyUnavailable(loaded, o.scope)
    requires o in loaded.observations && o.state.Unavailable? && Round(p, loaded, before, after)
    ensures Recorded(after, o.scope) == Recorded(before, o.scope)
  {
    hide Render;
    var m :| Reconciles(p, before, loaded, Some(m)) && after == Fold(before, m);
    var shown := Current(p, loaded);
    assert !Shows(shown, o.scope);
    DesiredIsShown(shown, o.scope);
    if !before.sawBaseline {
      SetChangesAgree(before.changes, shown, o.scope);
    } else {
      var all := Differences(before, shown, loaded.observations);
      var rendered := Render(p.wording, all, MAX_INSTRUCTION_BYTES, None);
      RenderFitsBudget(p.wording, all, MAX_INSTRUCTION_BYTES, None);
      forall k | 0 <= k < |all| ensures all[k].kind.ChangeOf? && all[k].instruction.scope != o.scope {
        DifferenceSource(before, shown, loaded.observations, k);
      }
      var told := Shown(all, rendered);
      RecordsOf(told);
      RecordEffect(before.changes, m.changes, o.scope);
    }
  }

  // ----- a scope shared with a file that can be read -----

  /** Shown content is recorded by a first baseline, whatever else has its scope. */
  lemma ShownIsTouched(p: Phrases, loaded: Loaded, scope: Scope)
    requires Shows(Current(p, loaded), scope)
    ensures !KeepsRecord(p, loaded, scope)
  {
    var shown := Current(p, loaded);
    RepresentedHasText(p.wording, loaded.entries, Some(p.baselineIntro));
    hide Render, KeepsRecord;
    var m := Message(true, Some(loaded.identity), SetChanges(shown));
    assert Reconciles(p, NOTHING_VISIBLE, loaded, Some(m));
    SetChangesAgree(map[], shown, scope);
    DesiredIsShown(shown, scope);
    assert Round(p, loaded, NOTHING_VISIBLE, Fold(NOTHING_VISIBLE, m));
    NotKept(p, loaded, scope, NOTHING_VISIBLE, Fold(NOTHING_VISIBLE, m));
  }

  lemma NotKept(p: Phrases, loaded: Loaded, scope: Scope, before: Visible, after: Visible)
    requires Round(p, loaded, before, after) && Recorded(after, scope) != Recorded(before, scope)
    ensures !KeepsRecord(p, loaded, scope)
  {
    hide Round, Recorded;
  }

  lemma RepresentedHasText(w: Wording, entries: seq<RenderEntry>, intro: Option<Bytes>)
    ensures var r := Render(w, entries, MAX_INSTRUCTION_BYTES, intro);
      r.represented != [] ==> r.text != [] && entries != []
  {
    hide Body, Escape, BudgetMarker, FirstFitting, LongestCut, CutFits, Floor;
    assert forall body :: Frame(body) != [];
  }

  const NO_PATH: Bytes := []

  function Removal(scope: Scope): RenderEntry {
    RenderEntry(Instruction(scope, NO_PATH, [], []), ChangeOf(Remove))
  }

  /** One notice for each observation of the scope that could be made. */
  function RemovalsOf(observations: seq<Observation>, scope: Scope): (r: seq<RenderEntry>)
    ensures forall e :: e in r ==> e == Removal(scope)
    ensures r == [] <==> forall o :: o in observations && o.scope == scope ==> o.state.Unavailable?
  {
    if observations == [] then []
    else
      var front, last := observations[..|observations| - 1], observations[|observations| - 1];
      assert observations == front + [last];
      RemovalsOf(front, scope) + if last.scope == scope && !last.state.Unavailable? then [Removal(scope)] else []
  }

  /** There is room to say of a file without a path that it is gone, the same notice before it left out. */
  predicate RemovalFits(p: Phrases, loaded: Loaded, scope: Scope) {
    var removals := RemovalsOf(loaded.observations, scope);
    removals != [] ==> |SuffixText(p.wording, removals, None, MAX_INSTRUCTION_BYTES, |removals| - 1)| <= MAX_INSTRUCTION_BYTES
  }

  lemma {:induction false} RemovalsCount(observations: seq<Observation>, scope: Scope)
    ensures |RemovalsOf(observations, scope)| <= |observations|
  {
    if observations != [] {
      RemovalsCount(observations[..|observations| - 1], scope);
    }
  }

  lemma {:induction false} NoPathsLength(removals: seq<RenderEntry>, scope: Scope)
    requires forall e :: e in removals ==> e == Removal(scope)
    ensures |Paths(removals)| == |removals| && |Join(Paths(removals), COMMA)| <= 2 * |removals|
  {
    if removals != [] {
      var rest := removals[1..];
      assert removals[0] in removals && forall e :: e in rest ==> e in removals;
      NoPathsLength(rest, scope);
      assert Paths(removals) == [NO_PATH] + Paths(rest) && Paths(removals)[1..] == Paths(rest);
    }
  }

  lemma DecimalOfBudget()
    ensures |Decimal(MAX_INSTRUCTION_BYTES)| == 5
  {
    assert |Decimal(6)| == 1 && |Decimal(65)| == 2 && |Decimal(655)| == 3 && |Decimal(6_553)| == 4;
  }

  lemma MarkerLength(w: Wording, omitted: seq<Bytes>)
    ensures |BudgetMarker(w, MAX_INSTRUCTION_BYTES, omitted, [])| <=
      |w.budgetHead| + 5 + |w.budgetTail| + |w.omitted| + |Join(omitted, COMMA)|
  {
    DecimalOfBudget();
    assert Join([w.omitted + Join(omitted, COMMA)], SEMICOLON) == w.omitted + Join(omitted, COMMA);
  }

  lemma RemovalTextLength(w: Wording, scope: Scope, omitted: seq<Bytes>)
    ensures |BuildText(w, [Removal(scope)], None, MAX_INSTRUCTION_BYTES, omitted, [])| <=
      2 * (|w.budgetHead| + |w.budgetTail| + |w.omitted| + |Join(omitted, COMMA)| + |w.removeHead| + |w.removeTail| + 7) + 37
  {
    var marker := BudgetMarker(w, MAX_INSTRUCTION_BYTES, omitted, []);
    var section := SectionText(w, Removal(scope));
    MarkerLength(w, omitted);
    assert |section| == |w.removeHead| + |w.removeTail|;
    assert Sections(w, [Removal(scope)]) == [section];
    hide SectionText, BudgetMarker, Frame;
    JoinTwo(marker, section, BLANK_LINE);
    assert [marker] + [] + [section] == [marker, section] && [] + [] + [section] == [section];
    var body := Body(w, [Removal(scope)], None, MAX_INSTRUCTION_BYTES, omitted, []);
    assert |body| <= |marker| + 2 + |section|;
    FrameLength(body);
  }

  /** There is room whenever the fixed phrases stay within 16 KiB and there are at most 4096 candidates. */
  lemma RemovalsHaveRoom(p: Phrases, loaded: Loaded, scope: Scope)
    requires |loaded.observations| <= 4_096
    requires var w := p.wording;
      |w.budgetHead| + |w.budgetTail| + |w.omitted| + |w.removeHead| + |w.removeTail| <= 16_384
    ensures RemovalFits(p, loaded, scope)
  {
    var removals := RemovalsOf(loaded.observations, scope);
    RemovalsCount(loaded.observations, scope);
    if removals != [] {
      var front := removals[..|removals| - 1];
      assert removals[|removals| - 1] in removals && removals[|removals| - 1..] == [Removal(scope)];
      assert forall e :: e in front ==> e in removals;
      hide RemovalsOf, BuildText, Paths, Join;
      NoPathsLength(front, scope);
      RemovalTextLength(p.wording, scope, Paths(front));
    }
  }

  /** Everything shown is recorded, and something else under the scope. */
  function WithStale(p: Phrases, loaded: Loaded, scope: Scope): Visible {
    Visible(Some(loaded.identity), true, Record(map[], SetChanges(Current(p, loaded)))[scope := Change(Set, scope, NO_PATH, Some([]))])
  }

  lemma StaleAgrees(p: Phrases, loaded: Loaded, scope: Scope, o: Observation)
    requires !Shows(Current(p, loaded), scope)
    ensures Difference(WithStale(p, loaded, scope), Current(p, loaded), o)
      == if o.scope == scope && !o.state.Unavailable? then Some(Removal(scope)) else None
  {
    hide Current;
    var shown := Current(p, loaded);
    DesiredIsShown(shown, scope);
    SetChangesAgree(map[], shown, o.scope);
  }

  lemma {:induction false} StaleDifferences(p: Phrases, loaded: Loaded, scope: Scope, observations: seq<Observation>)
    requires !Shows(Current(p, loaded), scope)
    ensures Differences(WithStale(p, loaded, scope), Current(p, loaded), observations) == RemovalsOf(observations, scope)
  {
    hide Current, WithStale;
    if observations != [] {
      StaleAgrees(p, loaded, scope, observations[|observations| - 1]);
      StaleDifferences(p, loaded, scope, observations[..|observations| - 1]);
    }
  }

  lemma ShownSuffix(entries: seq<RenderEntry>, rendered: Rendered)
    requires 1 <= |rendered.represented| <= |entries|
    ensures Shown(entries, rendered) != []
    ensures forall e :: e in Shown(entries, rendered) ==> e in entries
  {
  }

  lemma RemovalIsRemoved(scope: Scope)
    ensures var e := Removal(scope);
      e.kind.ChangeOf? && RecordOf(e, e.kind.action).scope == scope && RecordOf(e, e.kind.action).action == Remove
  {
  }

  lemma LastFitsIsShown(w: Wording, entries: seq<RenderEntry>)
    requires entries != [] && |SuffixText(w, entries, None, MAX_INSTRUCTION_BYTES, |entries| - 1)| <= MAX_INSTRUCTION_BYTES
    ensures 1 <= |Render(w, entries, MAX_INSTRUCTION_BYTES, None).represented| <= |entries|
  {
    RenderKeepsLongestSuffix(w, entries, MAX_INSTRUCTION_BYTES, None, |entries| - 1);
  }

  lemma {:induction false} RecordsOfRemovals(told: seq<RenderEntry>, scope: Scope)
    requires forall e :: e in told ==> e == Removal(scope)
    ensures |ChangeRecords(told)| == |told|
    ensures forall c :: c in ChangeRecords(told) ==> c.scope == scope && c.action == Remove
  {
    if told != [] {
      RemovalIsRemoved(scope);
      assert told[0] in told && forall e :: e in told[1..] ==> e in told;
      RecordsOfRemovals(told[1..], scope);
    }
  }

  /** The removals that are rendered, as records. */
  lemma RemovalRecords(w: Wording, removals: seq<RenderEntry>, scope: Scope) returns (records: seq<Change>)
    requires removals != [] && forall e :: e in removals ==> e == Removal(scope)
    requires |SuffixText(w, removals, None, MAX_INSTRUCTION_BYTES, |removals| - 1)| <= MAX_INSTRUCTION_BYTES
    ensures records == ChangeRecords(Shown(removals, Render(w, removals, MAX_INSTRUCTION_BYTES, None)))
    ensures records != [] && forall c :: c in records ==> c.scope == scope && c.action == Remove
  {
    hide *;
    LastFitsIsShown(w, removals);
    var rendered := Render(w, removals, MAX_INSTRUCTION_BYTES, None);
    ShownSuffix(removals, rendered);
    RecordsOfRemovals(Shown(removals, rendered), scope);
    records := ChangeRecords(Shown(removals, rendered));
  }

  /** Content that is not shown is removed when it is on record, whatever else has its scope. */
  lemma StaleIsTouched(p: Phrases, loaded: Loaded, scope: Scope)
    requires !Shows(Current(p, loaded), scope) && !OnlyUnavailable(loaded, scope) && RemovalFits(p, loaded, scope)
    ensures !KeepsRecord(p, loaded, scope)
  {
    var before := WithStale(p, loaded, scope);
    var removals := RemovalsOf(loaded.observations, scope);
    assert removals != [];
    StaleDifferences(p, loaded, scope, loaded.observations);
    var records := RemovalRecords(p.wording, removals, scope);
    var m := Message(false, None, records);
    assert ChangesMessage(p, before, loaded) == Some(m) by {
      hide Render, SuffixText, Current, Differences, KeepsRecord, RemovalsOf, ChangeRecords, Shown;
    }
    assert Compatible(before, loaded) && Recorded(before, scope).value.action == Set by {
      hide Render, Current, Record;
    }
    hide Render, SuffixText, Current, Differences, KeepsRecord, RemovalsOf, ChangesMessage, WithStale, Record;
    assert Reconciles(p, before, loaded, Some(m));
    assert records[0] in records;
    RecordEffect(before.changes, records, scope);
    assert Round(p, loaded, before, Fold(before, m));
    NotKept(p, loaded, scope, before, Fold(before, m));
  }

  /**
    The record of a file that cannot be read survives every round from every state if and
    only if no observation that could be made has the same scope.  One scope for each
    candidate is enough, and two unreadable files may share one.
  */
  lemma {:induction false} UnavailableKeptIff(p: Phrases, loaded: Loaded, o: Observation)
    requires EntriesObserved(loaded) && o in loaded.observations && o.state.Unavailable?
    requires RemovalFits(p, loaded, o.scope)
    ensures KeepsRecord(p, loaded, o.scope) <==> OnlyUnavailable(loaded, o.scope)
  {
    hide Reconciles, Current, RemovalFits, EntriesObserved, Round, Recorded, OnlyUnavailable, Shows;
    if OnlyUnavailable(loaded, o.scope) {
      forall before, after | Round(p, loaded, before, after) ensures Recorded(after, o.scope) == Recorded(before, o.scope) {
        OnlyUnavailableUntouched(p, loaded, before, after, o);
      }
    } else if Shows(Current(p, loaded), o.scope) {
      ShownIsTouched(p, loaded, o.scope);
    } else {
      StaleIsTouched(p, loaded, o.scope);
    }
  }

  const USER_GLOBAL: Bytes := [117, 115, 101, 114, 45, 103, 108, 111, 98, 97, 108]
  const HERE: Bytes := [46]
  const AGENTS: Bytes := [65, 71, 69, 78, 84, 83, 46, 109, 100]
  const CLAUDE: Bytes := [67, 76, 65, 85, 68, 69, 46, 109, 100]
  const AGENTS_LOCAL: Bytes := [65, 71, 69, 78, 84, 83, 46, 108, 111, 99, 97, 108, 46, 109, 100]
  const CLAUDE_LOCAL: Bytes := [67, 76, 65, 85, 68, 69, 46, 108, 111, 99, 97, 108, 46, 109, 100]
  const PROJECT_CANDIDATES: seq<Bytes> := [AGENTS, CLAUDE, AGENTS_LOCAL, CLAUDE_LOCAL]

  function Candidate(directory: Bytes, candidate: Bytes, state: CandidateState): Found {
    Found(Observation(Scope(directory, candidate), state), [])
  }

  /** No home directory, nothing at the root, and one file in a workspace directory named `user-global`. */
  function HomelessWorkspace(file: Instruction): seq<Found> {
    [Candidate(USER_GLOBAL, AGENTS, Unavailable),
     Candidate(HERE, AGENTS, Absent), Candidate(HERE, CLAUDE, Absent),
     Candidate(HERE, AGENTS_LOCAL, Absent), Candidate(HERE, CLAUDE_LOCAL, Absent),
     Candidate(USER_GLOBAL, AGENTS, Present(file)), Candidate(USER_GLOBAL, CLAUDE, Absent),
     Candidate(USER_GLOBAL, AGENTS_LOCAL, Absent), Candidate(USER_GLOBAL, CLAUDE_LOCAL, Absent)]
  }

  lemma {:induction false} AbsentAddNothing(front: seq<Observation>, back: seq<Observation>)
    requires forall o :: o in back ==> !o.state.Present?
    ensures PresentEntries(front + back) == PresentEntries(front)
    decreases |back|
  {
    if back == [] {
      assert front + back == front;
    } else {
      var all, last := front + back, back[|back| - 1];
      assert all[..|all| - 1] == front + back[..|back| - 1] && all[|all| - 1] == last;
      AbsentAddNothing(front, back[..|back| - 1]);
    }
  }

  lemma {:induction false} OnePresentStays(found: seq<Found>, k: nat, i: nat)
    requires k < |found| && forall x :: 0 <= x < |found| ==> (found[x].observation.state.Present? <==> x == k)
    requires i < |found|
    ensures RewrittenUpTo(found, |found|)[i] == found[i].observation
  {
    KeyOfPresent(found[i]);
    forall x | 0 <= x < |found| && x != k ensures KeyOf(found[x]).None? {
      KeyOfPresent(found[x]);
    }
    hide KeyOf;
    assert !IsRepeated(found, i);
  }

  /** A single present file is neither repeated nor hidden. */
  lemma {:induction false} OnePresentLoads(found: seq<Found>, k: nat)
    requires k < |found| && forall i :: 0 <= i < |found| ==> (found[i].observation.state.Present? <==> i == k)
    ensures var observations := RewrittenUpTo(found, |found|);
      && (forall i :: 0 <= i < |found| ==> observations[i] == found[i].observation)
      && PresentEntries(observations) == PresentEntry(found[k].observation)
  {
    hide RewrittenUpTo, PresentEntries, PresentEntry, IsRepeated, KeyOf;
    var all := RewrittenUpTo(found, |found|);
    forall i | 0 <= i < |found| ensures all[i] == found[i].observation {
      OnePresentStays(found, k, i);
    }
    var before := all[..k];
    AbsentAddNothing([], before);
    assert [] + before == before && all[..k + 1] == before + [all[k]] && all == all[..k + 1] + all[k + 1..];
    PresentEntriesAppend(before, all[k]);
    AbsentAddNothing(all[..k + 1], all[k + 1..]);
    NoEntries();
  }

  lemma NoEntries()
    ensures PresentEntries([]) == []
  {
  }

  lemma HomelessLoads(file: Instruction, loaded: Loaded)
    requires loaded.observations == RewrittenUpTo(HomelessWorkspace(file), 9)
    requires loaded.entries == PresentEntries(loaded.observations)
    ensures loaded.observations[0] == Observation(Scope(USER_GLOBAL, AGENTS), Unavailable)
    ensures loaded.entries == [RenderEntry(file, Baseline)]
  {
    hide RewrittenUpTo, PresentEntries;
    var found := HomelessWorkspace(file);
    assert |found| == 9;
    assert forall i :: 0 <= i < 9 ==> (found[i].observation.state.Present? <==> i == 5);
    OnePresentLoads(found, 5);
  }

  /**
    A workspace directory named like the global one shares the global file's scope.  With no
    home directory the global file is unavailable, and still its record is written for the
    other file: after the first baseline, for any wording and any file that fits.
  */
  lemma SharedScopeTouchesUnavailable(p: Phrases, file: Instruction, loaded: Loaded)
    requires file.scope == Scope(USER_GLOBAL, AGENTS)
    requires loaded.observations == RewrittenUpTo(HomelessWorkspace(file), 9)
    requires loaded.entries == PresentEntries(loaded.observations)
    requires |SuffixText(p.wording, [RenderEntry(file, Baseline)], Some(p.baselineIntro), MAX_INSTRUCTION_BYTES, 0)| <= MAX_INSTRUCTION_BYTES
    ensures loaded.observations[0] == Observation(file.scope, Unavailable) && !KeepsRecord(p, loaded, file.scope)
  {
    HomelessLoads(file, loaded);
    hide SuffixText, RewrittenUpTo, KeepsRecord, PresentEntries;
    var entry := RenderEntry(file, Baseline);
    assert Current(p, loaded) == [entry];
    assert entry in Current(p, loaded);
    ShownIsTouched(p, loaded, file.scope);
  }

  /**
    Such a workspace, which has no home directory and so always an unavailable file, never
    replaces an outdated baseline: no run from a state that shows another one has a second state.
  */
  lemma {:induction false} HomelessNeverSettles(p: Phrases, file: Instruction, loaded: Loaded, run: seq<Visible>)
    requires loaded.observations == RewrittenUpTo(HomelessWorkspace(file), 9)
    requires loaded.entries == PresentEntries(loaded.observations)
    requires IsRun(p, loaded, run) && run[0].sawBaseline && run[0].identity != Some(loaded.identity)
    ensures run == [run[0]] && Reconciles(p, run[0], loaded, None)
  {
    HomelessLoads(file, loaded);
    hide RewrittenUpTo, PresentEntries, IsRun, HomelessWorkspace, FirstBaseline, ChangesMessage, ReplacementText;
    assert loaded.observations[0] in loaded.observations;
    if |run| > 1 {
      FirstStep(p, loaded, run);
    }
  }
}
