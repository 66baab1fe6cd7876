/**
  What loading, reading and reconciling workspace instructions say about single files and
  records (src/workspace_instructions.rs:366-652), beside the protocol they make up.
*/
module InstructionLaws {
  import opened Wrappers
  import opened ByteText
  import opened InstructionRender
  import opened InstructionSync

  // ----- loading -----

  /** Two project files of one directory with the same trimmed content. */
  predicate Alike(a: Found, b: Found) {
    && a.observation.state.Present? && b.observation.state.Present?
    && a.observation.state.instruction.scope.directory == b.observation.state.instruction.scope.directory
    && a.trimmedDigest == b.trimmedDigest
  }

  lemma AlikeIff(a: Found, b: Found)
    ensures Alike(a, b) <==> KeyOf(a).Some? && KeyOf(a) == KeyOf(b)
  {
  }

  /**
    Of the project files of one directory with the same trimmed content the first is kept
    and every later one becomes absent; the global file, which comes first, and whatever
    is not present are never touched.
  */
  lemma {:induction false} FirstOfAlikeIsKept(found: seq<Found>, i: nat)
    requires i < |found|
    ensures RewrittenUpTo(found, |found|)[i] ==
      if 0 < i && exists j: nat :: 0 < j < i && Alike(found[j], found[i])
      then Observation(found[i].observation.scope, Absent) else found[i].observation
  {
    if found[i].observation.state.Present? {
      forall j: nat | 0 < j < i ensures Alike(found[j], found[i]) <==> KeyOf(found[j]) == KeyOf(found[i]) {
        AlikeIff(found[j], found[i]);
      }
    }
  }

  // ----- the visible state -----

  /** No record of `scope` among these. */
  predicate Silent(changes: seq<Change>, scope: Scope) {
    forall i :: 0 <= i < |changes| ==> changes[i].scope != scope
  }

  lemma {:induction false} RecordNewest(changes: map<Scope, Change>, before: seq<Change>, newest: Change, after: seq<Change>)
    requires Silent(after, newest.scope)
    ensures newest.scope in Record(changes, before + [newest] + after)
    ensures Record(changes, before + [newest] + after)[newest.scope] == newest
    decreases |after|
  {
    var all := before + [newest] + after;
    if after == [] {
      assert all[|all| - 1] == newest;
    } else {
      assert all[|all| - 1] == after[|after| - 1] && all[..|all| - 1] == before + [newest] + after[..|after| - 1];
      RecordNewest(changes, before, newest, after[..|after| - 1]);
    }
  }

  lemma {:induction false} RecordSilent(changes: map<Scope, Change>, added: seq<Change>, scope: Scope)
    requires Silent(added, scope)
    ensures scope in Record(changes, added) <==> scope in changes
    ensures scope in changes ==> Record(changes, added)[scope] == changes[scope]
  {
    if added != [] {
      RecordSilent(changes, added[..|added| - 1], scope);
    }
  }

  predicate AllSilent(messages: seq<Message>, scope: Scope) {
    forall i :: 0 <= i < |messages| ==> Silent(messages[i].changes, scope)
  }

  /** The record of a scope is the newest change that names it, whatever came before. */
  lemma {:induction false} NewestRecordCounts(before: seq<Message>, message: Message, k: nat, after: seq<Message>)
    requires k < |message.changes| && Silent(message.changes[k + 1..], message.changes[k].scope)
    requires AllSilent(after, message.changes[k].scope)
    ensures var scope, visible := message.changes[k].scope, FoldAll(before + [message] + after);
      scope in visible.changes && visible.changes[scope] == message.changes[k]
    decreases |after|
  {
    var all, scope := before + [message] + after, message.changes[k].scope;
    if after == [] {
      assert all[|all| - 1] == message;
      var changes := message.changes;
      assert changes == changes[..k] + [changes[k]] + changes[k + 1..];
      RecordNewest(FoldAll(all[..|all| - 1]).changes, changes[..k], changes[k], changes[k + 1..]);
    } else {
      var front, last := after[..|after| - 1], after[|after| - 1];
      assert all[|all| - 1] == last && all[..|all| - 1] == before + [message] + front;
      NewestRecordCounts(before, message, k, front);
      RecordSilent(FoldAll(all[..|all| - 1]).changes, last.changes, scope);
    }
  }

  /** A scope that no message names has no record, and without a baseline none was seen; the newest baseline gives the identity. */
  lemma {:induction false} NothingSaid(messages: seq<Message>, scope: Scope)
    ensures AllSilent(messages, scope) ==> scope !in FoldAll(messages).changes
    ensures FoldAll(messages).sawBaseline <==> exists i :: 0 <= i < |messages| && messages[i].baseline
    ensures !FoldAll(messages).sawBaseline ==> FoldAll(messages).identity == None
  {
    if messages != [] {
      var front, last := messages[..|messages| - 1], messages[|messages| - 1];
      NothingSaid(front, scope);
      if AllSilent(messages, scope) {
        RecordSilent(FoldAll(front).changes, last.changes, scope);
      }
    }
  }

  lemma {:induction false} NewestBaselineCounts(before: seq<Message>, baseline: Message, after: seq<Message>)
    requires baseline.baseline && forall i :: 0 <= i < |after| ==> !after[i].baseline
    ensures FoldAll(before + [baseline] + after).identity == baseline.identity
    decreases |after|
  {
    var all := before + [baseline] + after;
    if after == [] {
      assert all[|all| - 1] == baseline;
    } else {
      assert all[|all| - 1] == after[|after| - 1] && all[..|all| - 1] == before + [baseline] + after[..|after| - 1];
      NewestBaselineCounts(before, baseline, after[..|after| - 1]);
    }
  }

  // ----- what a message says -----

  /** A record that is live in the visible state. */
  predicate Live(visible: Visible, scope: Scope) {
    scope in visible.changes && visible.changes[scope].action != Remove
  }

  /** A first baseline, and what a replacement shows, is one full record for each entry shown. */
  lemma {:induction false} BaselineRecords(shown: seq<RenderEntry>, k: nat)
    requires k < |shown|
    ensures |SetChanges(shown)| == |shown|
    ensures var here := shown[k].instruction;
      SetChanges(shown)[k] == Change(Set, here.scope, here.displayPath, Some(here.digest))
  {
    if k > 0 {
      BaselineRecords(shown[1..], k - 1);
    } else if |shown| > 1 {
      BaselineRecords(shown[1..], 0);
    }
  }

  /** A removal is told of a live record that the workspace no longer shows; anything else of a file that is shown and not yet recorded so. */
  predicate SaysNews(c: Change, visible: Visible, shown: seq<RenderEntry>, observations: seq<Observation>) {
    && (exists o :: o in observations && o.scope == c.scope && (c.action == Remove ==> !o.state.Unavailable?))
    && if c.action == Remove then
         Live(visible, c.scope) && !Shows(shown, c.scope) && c == Change(Remove, c.scope, visible.changes[c.scope].path, None)
       else
         && (exists e :: e in shown && e.instruction.scope == c.scope
                         && c.path == e.instruction.displayPath && c.digest == Some(e.instruction.digest))
         && c.action == (if Live(visible, c.scope) then Update else Set)
         && (Live(visible, c.scope) ==> visible.changes[c.scope].path != c.path || visible.changes[c.scope].digest != c.digest)
  }

  /** Nothing is asked of a file exactly when its live record has the path and digest shown, or nothing is shown and there is no live record or the file cannot be read. */
  lemma SettledIff(visible: Visible, shown: seq<RenderEntry>, o: Observation)
    ensures Difference(visible, shown, o).None? <==>
      if Shows(shown, o.scope) then
        exists e :: e in shown && e.instruction.scope == o.scope && DesiredFor(shown, o.scope) == Some(e.instruction)
                    && Live(visible, o.scope)
                    && visible.changes[o.scope].path == e.instruction.displayPath
                    && visible.changes[o.scope].digest == Some(e.instruction.digest)
      else o.state.Unavailable? || !Live(visible, o.scope)
  {
    DesiredIsShown(shown, o.scope);
  }

  lemma DifferenceSaysNews(visible: Visible, shown: seq<RenderEntry>, observations: seq<Observation>, o: Observation)
    requires o in observations && Difference(visible, shown, o).Some?
    ensures var e := Difference(visible, shown, o).value;
      e.kind.ChangeOf? && SaysNews(RecordOf(e, e.kind.action), visible, shown, observations)
  {
    DesiredIsShown(shown, o.scope);
  }

  lemma {:induction false} DifferencesSayNews(visible: Visible, shown: seq<RenderEntry>, observations: seq<Observation>, all: seq<Observation>)
    requires forall o :: o in observations ==> o in all
    ensures forall e :: e in Differences(visible, shown, observations) ==>
      e.kind.ChangeOf? && SaysNews(RecordOf(e, e.kind.action), visible, shown, all)
  {
    if observations != [] {
      var front, last := observations[..|observations| - 1], observations[|observations| - 1];
      DifferencesSayNews(visible, shown, front, all);
      if Difference(visible, shown, last).Some? {
        DifferenceSaysNews(visible, shown, all, last);
      }
    }
  }

  lemma {:induction false} RecordsOfEntries(entries: seq<RenderEntry>)
    ensures forall c :: c in ChangeRecords(entries) ==> exists e :: e in entries && e.kind.ChangeOf? && c == RecordOf(e, e.kind.action)
  {
    if entries != [] {
      RecordsOfEntries(entries[1..]);
      assert entries == [entries[0]] + entries[1..];
    }
  }

  /** Under a compatible baseline every record of a message says something new and true of the workspace. */
  lemma {:induction false} ChangesSayNews(p: Phrases, visible: Visible, loaded: Loaded)
    requires ChangesMessage(p, visible, loaded).Some?
    ensures var message := ChangesMessage(p, visible, loaded).value;
      && !message.baseline && message.changes != []
      && forall c :: c in message.changes ==> SaysNews(c, visible, Current(p, loaded), loaded.observations)
  {
    var shown := Current(p, loaded);
    var differences := Differences(visible, shown, loaded.observations);
    var rendered := Render(p.wording, differences, MAX_INSTRUCTION_BYTES, None);
    var message := ChangesMessage(p, visible, loaded).value;
    DifferencesSayNews(visible, shown, loaded.observations, loaded.observations);
    RecordsOfEntries(Shown(differences, rendered));
    hide Render, Differences, ChangeRecords, SaysNews, Current, RecordOf;
    assert forall e :: e in Shown(differences, rendered) ==> e in differences;
  }

  /**
    A first baseline is answered exactly when a file was loaded and its rendering is not
    empty; it records the entries its text shows, which are the last ones.
  */
  lemma FirstBaselineIff(p: Phrases, loaded: Loaded)
    ensures var r, text := FirstBaseline(p, loaded), Render(p.wording, loaded.entries, 65_536, Some(p.baselineIntro));
      && |text.represented| <= |loaded.entries|
      && (r.Some? <==> |loaded.entries| > 0 && |text.text| > 0)
      && (r.Some? ==> r.value == Message(true, Some(loaded.identity), SetChanges(loaded.entries[|loaded.entries| - |text.represented|..])))
  {
    RenderFitsBudget(p.wording, loaded.entries, 65_536, Some(p.baselineIntro));
    hide Render, SetChanges;
  }

  /**
    An outdated baseline is replaced exactly when every file can be read. The replacement
    carries the loaded identity, removes every live record that its text does not show, and
    no other, and then records in full what its text shows.
  */
  lemma {:induction false} ReplacementIff(p: Phrases, visible: Visible, loaded: Loaded, r: Option<Message>)
    requires Reconciles(p, visible, loaded, r) && visible.sawBaseline && visible.identity != Some(loaded.identity)
    ensures r.Some? <==> forall o :: o in loaded.observations ==> !o.state.Unavailable?
    ensures r.Some? ==>
      var shown := Shown(loaded.entries, Render(p.wording, loaded.entries, 65_536,
                                                Some(if |loaded.entries| == 0 then p.emptyIntro else p.replacementIntro)));
      && r.value.baseline && r.value.identity == Some(loaded.identity)
      && (forall scope :: scope in visible.changes ==>
            (Live(visible, scope) && !Shows(shown, scope) <==>
              Change(Remove, scope, visible.changes[scope].path, None) in r.value.changes))
      && (forall c :: c in r.value.changes && c.action == Remove ==> c.scope in visible.changes)
      && |shown| <= |r.value.changes| && r.value.changes[|r.value.changes| - |shown|..] == SetChanges(shown)
  {
    if r.Some? {
      var shown := Shown(loaded.entries, ReplacementText(p, loaded));
      AllFull(shown);
      hide Render, SetChanges;
      var changes := r.value.changes;
      var n := |changes| - |SetChanges(shown)|;
      assert changes == changes[..n] + changes[n..];
    }
  }

  lemma {:induction false} AllFull(shown: seq<RenderEntry>)
    ensures |SetChanges(shown)| == |shown| && forall c :: c in SetChanges(shown) ==> c.action == Set
  {
    if shown != [] {
      AllFull(shown[1..]);
    }
  }
}
