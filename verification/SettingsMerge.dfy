/** Merging tagged hooks and permissions into a user's settings file, and removing the tagged hooks again
    (scripts/merge_assets.py, `merge_settings_file` and `_remove_hf_entries_from_settings`). */
module SettingsMerge {
  import opened Wrappers
  import opened Sequences

  // ---- settings ----

  /** `tagged` is a truthy `_hydraflow` key; `body` is the rest of the hook. */
  datatype Hook = Hook(tagged: bool, body: string)

  /** A matcher entry; either key may be missing from the file. */
  datatype Entry = Entry(matcher: Option<string>, hooks: Option<seq<Hook>>)

  function IsTagged(): Hook -> bool {
    (h: Hook) => h.tagged
  }

  function HooksOf(e: Entry): seq<Hook> {
    if e.hooks.Some? then e.hooks.value else []
  }

  function Tagged(e: Entry): seq<Hook> {
    Filter(HooksOf(e), IsTagged())
  }

  function Untagged(e: Entry): seq<Hook> {
    Filter(HooksOf(e), Not(IsTagged()))
  }

  /** `_is_hf_entry` */
  predicate IsHf(e: Entry) {
    exists h :: h in HooksOf(e) && h.tagged
  }

  lemma HfHasTagged(e: Entry)
    ensures IsHf(e) <==> Tagged(e) != []
  {
    FilterMembers(HooksOf(e), IsTagged());
    if Tagged(e) != [] {
      assert Tagged(e)[0] in Tagged(e);
    }
  }

  // ---- the tagged hooks of a source category, by matcher ----

  datatype Group = Group(matcher: string, hooks: seq<Hook>)

  /** Source entries grouped by matcher in first-seen order. */
  predicate AreGroups(gs: seq<Group>) {
    && (forall i, j :: 0 <= i < j < |gs| ==> gs[i].matcher != gs[j].matcher)
    && (forall i :: 0 <= i < |gs| ==> gs[i].hooks != [] && forall h :: h in gs[i].hooks ==> h.tagged)
  }

  function GroupIndex(gs: seq<Group>, m: string): (r: Option<nat>)
    ensures r.Some? ==> r.value < |gs| && gs[r.value].matcher == m
    ensures r.None? ==> forall i :: 0 <= i < |gs| ==> gs[i].matcher != m
  {
    if gs == [] then None
    else if gs[|gs| - 1].matcher == m then Some(|gs| - 1)
    else GroupIndex(gs[..|gs| - 1], m)
  }

  function AddToGroup(gs: seq<Group>, m: string, hs: seq<Hook>): seq<Group> {
    var i := GroupIndex(gs, m);
    if i.Some? then gs[i.value := Group(m, gs[i.value].hooks + hs)] else gs + [Group(m, hs)]
  }

  datatype MergeError = KeyMissing

  /** The tagged hooks that the source has for a matcher, in order. */
  function HooksFor(entries: seq<Entry>, m: string): seq<Hook> {
    if entries == [] then []
    else
      var e := entries[|entries| - 1];
      HooksFor(entries[..|entries| - 1], m) + if e.matcher == Some(m) then Tagged(e) else []
  }

  predicate HasGroup(gs: seq<Group>, m: string) {
    GroupIndex(gs, m).Some?
  }

  /** `gs` holds exactly the tagged hooks of the entries, each matcher's under that matcher. */
  ghost predicate IsGrouping(gs: seq<Group>, entries: seq<Entry>) {
    && AreGroups(gs)
    && (forall k :: 0 <= k < |gs| ==> gs[k].hooks == HooksFor(entries, gs[k].matcher))
    && (forall m :: !HasGroup(gs, m) ==> HooksFor(entries, m) == [])
  }

  lemma HooksForNext(entries: seq<Entry>, e: Entry, m: string)
    ensures HooksFor(entries + [e], m) == HooksFor(entries, m) + if e.matcher == Some(m) then Tagged(e) else []
  {
    assert (entries + [e])[..|entries|] == entries;
  }

  lemma AddedGroup(gs: seq<Group>, m: string, hs: seq<Hook>)
    requires AreGroups(gs) && hs != [] && forall h :: h in hs ==> h.tagged
    ensures
      var r := AddToGroup(gs, m, hs);
      && AreGroups(r) && |r| >= |gs|
      && (forall k :: 0 <= k < |gs| ==>
            r[k] == Group(gs[k].matcher, gs[k].hooks + if gs[k].matcher == m then hs else []))
      && (|r| > |gs| ==> |r| == |gs| + 1 && r[|gs|] == Group(m, hs) && !HasGroup(gs, m))
      && HasGroup(r, m)
      && (forall m' :: HasGroup(gs, m') ==> HasGroup(r, m'))
  {
    var i, r := GroupIndex(gs, m), AddToGroup(gs, m, hs);
    forall k | 0 <= k < |gs|
      ensures r[k] == Group(gs[k].matcher, gs[k].hooks + if gs[k].matcher == m then hs else [])
    {
      assert gs[k].hooks + [] == gs[k].hooks;
    }
    assert r[if i.Some? then i.value else |gs|].matcher == m;
    forall m' | HasGroup(gs, m')
      ensures HasGroup(r, m')
    {
      assert r[GroupIndex(gs, m').value].matcher == m';
    }
  }

  lemma GroupStep(gs: seq<Group>, entries: seq<Entry>, e: Entry)
    requires IsGrouping(gs, entries) && IsHf(e) && e.matcher.Some?
    ensures IsGrouping(AddToGroup(gs, e.matcher.value, Tagged(e)), entries + [e])
  {
    HfHasTagged(e);
    FilterMembers(HooksOf(e), IsTagged());
    var m, hs := e.matcher.value, Tagged(e);
    var r := AddToGroup(gs, m, hs);
    AddedGroup(gs, m, hs);
    forall k | 0 <= k < |r|
      ensures r[k].hooks == HooksFor(entries + [e], r[k].matcher)
    {
      HooksForNext(entries, e, r[k].matcher);
      if k == |gs| {
        assert HooksFor(entries, m) == [];
      }
    }
    forall m' | !HasGroup(r, m')
      ensures HooksFor(entries + [e], m') == []
    {
      HooksForNext(entries, e, m');
      assert !HasGroup(gs, m');
    }
  }

  lemma UngroupedStep(gs: seq<Group>, entries: seq<Entry>, e: Entry)
    requires IsGrouping(gs, entries) && !IsHf(e)
    ensures IsGrouping(gs, entries + [e])
  {
    HfHasTagged(e);
    forall m
      ensures HooksFor(entries + [e], m) == HooksFor(entries, m)
    {
      HooksForNext(entries, e, m);
    }
  }

  /** The tagged hooks of the source, grouped by matcher in first-seen order. */
  function SourceGroups(entries: seq<Entry>): Result<seq<Group>, MergeError> {
    if entries == [] then Ok([])
    else
      var before, e := SourceGroups(entries[..|entries| - 1]), entries[|entries| - 1];
      if before.Err? || !IsHf(e) then before
      else if e.matcher.None? then Err(KeyMissing)
      else Ok(AddToGroup(before.value, e.matcher.value, Tagged(e)))
  }

  lemma {:induction false} SourceGroupsFacts(entries: seq<Entry>)
    ensures SourceGroups(entries).Ok? ==> IsGrouping(SourceGroups(entries).value, entries)
    ensures SourceGroups(entries).Err? <==>
            exists i :: 0 <= i < |entries| && IsHf(entries[i]) && entries[i].matcher.None?
  {
    if entries != [] {
      var init, e := entries[..|entries| - 1], entries[|entries| - 1];
      SourceGroupsFacts(init);
      assert entries == init + [e];
      assert forall i :: 0 <= i < |init| ==> entries[i] == init[i];
      if SourceGroups(init).Ok? {
        if !IsHf(e) {
          UngroupedStep(SourceGroups(init).value, init, e);
        } else if e.matcher.Some? {
          GroupStep(SourceGroups(init).value, init, e);
        }
      }
    }
  }

  lemma {:induction false} SourcePrefixFails(entries: seq<Entry>, i: nat)
    requires i <= |entries| && SourceGroups(entries[..i]).Err?
    ensures SourceGroups(entries) == SourceGroups(entries[..i])
  {
    if i == |entries| {
      TakeAll(entries);
    } else {
      assert entries[..|entries| - 1][..i] == entries[..i];
      SourcePrefixFails(entries[..|entries| - 1], i);
    }
  }

  method GroupSource(entries: seq<Entry>) returns (r: Result<seq<Group>, MergeError>)
    ensures r == SourceGroups(entries)
    ensures r.Ok? ==> IsGrouping(r.value, entries)
  {
    SourceGroupsFacts(entries);
    var gs: seq<Group> := [];
    for i := 0 to |entries|
      invariant SourceGroups(entries[..i]) == Ok(gs)
    {
      var entry := entries[i];
      assert entries[..i + 1][..i] == entries[..i];
      if IsHf(entry) {
        if entry.matcher.None? {
          SourcePrefixFails(entries, i + 1);
          return Err(KeyMissing);
        }
        gs := AddToGroup(gs, entry.matcher.value, Tagged(entry));
      }
    }
    TakeAll(entries);
    r := Ok(gs);
  }

  // ---- merging the groups into the target's entries ----

  /** Index of the first entry with the matcher; an entry without a matcher before it is an error. */
  function FirstEntry(entries: seq<Entry>, m: string, from: nat): (r: Result<Option<nat>, MergeError>)
    requires from <= |entries|
    ensures r.Ok? && r.value.Some? ==>
              && from <= r.value.value < |entries| && entries[r.value.value].matcher == Some(m)
              && forall i :: from <= i < r.value.value ==> entries[i].matcher.Some? && entries[i].matcher != Some(m)
    ensures r.Ok? && r.value.None? ==>
              forall i :: from <= i < |entries| ==> entries[i].matcher.Some? && entries[i].matcher != Some(m)
    decreases |entries| - from
  {
    if from == |entries| then Ok(None)
    else if entries[from].matcher.None? then Err(KeyMissing)
    else if entries[from].matcher == Some(m) then Ok(Some(from))
    else FirstEntry(entries, m, from + 1)
  }

  function MergeGroup(entries: seq<Entry>, g: Group): Result<seq<Entry>, MergeError> {
    var found := FirstEntry(entries, g.matcher, 0);
    if found.Err? then Err(KeyMissing)
    else if found.value.None? then Ok(entries + [Entry(Some(g.matcher), Some(g.hooks))])
    else
      var e := entries[found.value.value];
      if e.hooks.None? then Err(KeyMissing)
      else Ok(entries[found.value.value := Entry(e.matcher, Some(Untagged(e) + g.hooks))])
  }

  function MergeGroups(entries: seq<Entry>, gs: seq<Group>): Result<seq<Entry>, MergeError> {
    if gs == [] then Ok(entries)
    else
      var r := MergeGroups(entries, gs[..|gs| - 1]);
      if r.Err? then r else MergeGroup(r.value, gs[|gs| - 1])
  }

  lemma {:induction false} MergePrefixFails(entries: seq<Entry>, gs: seq<Group>, i: nat)
    requires i <= |gs| && MergeGroups(entries, gs[..i]).Err?
    ensures MergeGroups(entries, gs) == MergeGroups(entries, gs[..i])
  {
    if i == |gs| {
      TakeAll(gs);
    } else {
      assert gs[..|gs| - 1][..i] == gs[..i];
      MergePrefixFails(entries, gs[..|gs| - 1], i);
    }
  }

  method MergeCategory(entries: seq<Entry>, gs: seq<Group>) returns (r: Result<seq<Entry>, MergeError>)
    ensures r == MergeGroups(entries, gs)
  {
    var tgt := entries;
    for i := 0 to |gs|
      invariant MergeGroups(entries, gs[..i]) == Ok(tgt)
    {
      assert gs[..i + 1][..i] == gs[..i];
      var g := gs[i];
      var k := 0;
      while k < |tgt| && tgt[k].matcher.Some? && tgt[k].matcher != Some(g.matcher)
        invariant 0 <= k <= |tgt|
        invariant FirstEntry(tgt, g.matcher, 0) == FirstEntry(tgt, g.matcher, k)
      {
        k := k + 1;
      }
      if k < |tgt| && (tgt[k].matcher.None? || tgt[k].hooks.None?) {
        MergePrefixFails(entries, gs, i + 1);
        return Err(KeyMissing);
      }
      if k == |tgt| {
        tgt := tgt + [Entry(Some(g.matcher), Some(g.hooks))];
      } else {
        tgt := tgt[k := Entry(tgt[k].matcher, Some(Untagged(tgt[k]) + g.hooks))];
      }
    }
    TakeAll(gs);
    r := Ok(tgt);
  }

  // ---- the merged entries, entry by entry ----

  /** The entry at `i` is the first with the group's matcher, so the group goes to it. */
  predicate Receives(entries: seq<Entry>, i: nat, g: Group)
    requires i < |entries|
  {
    entries[i].matcher == Some(g.matcher) && forall j :: 0 <= j < i ==> entries[j].matcher != Some(g.matcher)
  }

  predicate HasMatcher(entries: seq<Entry>, m: string) {
    exists i :: 0 <= i < |entries| && entries[i].matcher == Some(m)
  }

  /** What becomes of an entry that was there before. */
  function MergedEntry(entries: seq<Entry>, i: nat, gs: seq<Group>): Entry
    requires i < |entries|
  {
    if gs == [] then entries[i]
    else
      var g := gs[|gs| - 1];
      if Receives(entries, i, g) then Entry(entries[i].matcher, Some(Untagged(entries[i]) + g.hooks))
      else MergedEntry(entries, i, gs[..|gs| - 1])
  }

  /** One entry for each group whose matcher is new. */
  function NewEntries(entries: seq<Entry>, gs: seq<Group>): seq<Entry> {
    if gs == [] then []
    else
      var g := gs[|gs| - 1];
      NewEntries(entries, gs[..|gs| - 1]) +
      if HasMatcher(entries, g.matcher) then [] else [Entry(Some(g.matcher), Some(g.hooks))]
  }

  /** The first `n` old entries after the merge. */
  function OldEntries(entries: seq<Entry>, gs: seq<Group>, n: nat): (r: seq<Entry>)
    requires n <= |entries|
    ensures |r| == n
    ensures forall i :: 0 <= i < n ==> r[i] == MergedEntry(entries, i, gs)
  {
    if n == 0 then [] else OldEntries(entries, gs, n - 1) + [MergedEntry(entries, n - 1, gs)]
  }

  /** The whole result at once: every old entry in place, then the new ones. */
  function Merged(entries: seq<Entry>, gs: seq<Group>): seq<Entry> {
    OldEntries(entries, gs, |entries|) + NewEntries(entries, gs)
  }

  predicate CanMerge(entries: seq<Entry>, g: Group) {
    var found := FirstEntry(entries, g.matcher, 0);
    found.Ok? && (found.value.Some? ==> entries[found.value.value].hooks.Some?)
  }

  lemma {:induction false} MergedEntryKeepsMatcher(entries: seq<Entry>, i: nat, gs: seq<Group>)
    requires i < |entries|
    ensures MergedEntry(entries, i, gs).matcher == entries[i].matcher
    ensures entries[i].hooks.Some? ==> MergedEntry(entries, i, gs).hooks.Some?
    ensures (forall k :: 0 <= k < |gs| ==> entries[i].matcher != Some(gs[k].matcher)) ==>
              MergedEntry(entries, i, gs) == entries[i]
  {
    if gs != [] {
      MergedEntryKeepsMatcher(entries, i, gs[..|gs| - 1]);
    }
  }

  /** `e` was made for one of the groups, whose matcher no entry had. */
  ghost predicate IsNewEntry(entries: seq<Entry>, gs: seq<Group>, e: Entry) {
    exists k :: 0 <= k < |gs| && !HasMatcher(entries, gs[k].matcher) &&
                e == Entry(Some(gs[k].matcher), Some(gs[k].hooks))
  }

  lemma {:induction false} NewEntryShape(entries: seq<Entry>, gs: seq<Group>)
    ensures forall e :: e in NewEntries(entries, gs) ==> IsNewEntry(entries, gs, e)
  {
    if gs != [] {
      var init, g := gs[..|gs| - 1], gs[|gs| - 1];
      NewEntryShape(entries, init);
      forall e | e in NewEntries(entries, gs)
        ensures IsNewEntry(entries, gs, e)
      {
        if e in NewEntries(entries, init) {
          var k :| 0 <= k < |init| && !HasMatcher(entries, init[k].matcher) &&
                   e == Entry(Some(init[k].matcher), Some(init[k].hooks));
          assert gs[k] == init[k];
        } else {
          assert e == Entry(Some(g.matcher), Some(g.hooks)) && !HasMatcher(entries, g.matcher);
        }
      }
    }
  }

  /** Searching an extension of the entries finds the same entry, or goes on behind them. */
  lemma {:induction false} FirstEntryExtends(t: seq<Entry>, d: seq<Entry>, m: string, from: nat)
    requires from <= |t| <= |d| && forall i :: 0 <= i < |t| ==> d[i].matcher == t[i].matcher
    ensures FirstEntry(t, m, from) != Ok(None) ==> FirstEntry(d, m, from) == FirstEntry(t, m, from)
    ensures FirstEntry(t, m, from) == Ok(None) ==> FirstEntry(d, m, from) == FirstEntry(d, m, |t|)
    decreases |t| - from
  {
    if from < |t| {
      FirstEntryExtends(t, d, m, from + 1);
    }
  }

  lemma {:induction false} FirstEntryNone(d: seq<Entry>, m: string, from: nat)
    requires from <= |d| && forall i :: from <= i < |d| ==> d[i].matcher.Some? && d[i].matcher != Some(m)
    ensures FirstEntry(d, m, from) == Ok(None)
    decreases |d| - from
  {
    if from < |d| {
      FirstEntryNone(d, m, from + 1);
    }
  }

  /** What a merged category looks like to a group that has not been merged yet. */
  lemma MergedSoFar(t: seq<Entry>, gs: seq<Group>, g: Group)
    requires forall k :: 0 <= k < |gs| ==> gs[k].matcher != g.matcher
    ensures
      var d := Merged(t, gs);
      && |t| <= |d| && d[|t|..] == NewEntries(t, gs)
      && (forall i :: 0 <= i < |t| ==> d[i].matcher == t[i].matcher)
      && (forall i :: 0 <= i < |t| && t[i].matcher == Some(g.matcher) ==> d[i] == t[i])
      && (forall i :: |t| <= i < |d| ==> d[i].matcher.Some? && d[i].matcher != Some(g.matcher))
  {
    var d := Merged(t, gs);
    forall i | 0 <= i < |t|
      ensures d[i].matcher == t[i].matcher
      ensures t[i].matcher == Some(g.matcher) ==> d[i] == t[i]
    {
      MergedEntryKeepsMatcher(t, i, gs);
    }
    NewEntryShape(t, gs);
    forall i | |t| <= i < |d|
      ensures d[i].matcher.Some? && d[i].matcher != Some(g.matcher)
    {
      assert d[i] in NewEntries(t, gs);
    }
  }

  lemma MergedEntryNext(t: seq<Entry>, i: nat, gs: seq<Group>, g: Group)
    requires i < |t|
    ensures MergedEntry(t, i, gs + [g]) ==
            if Receives(t, i, g) then Entry(t[i].matcher, Some(Untagged(t[i]) + g.hooks)) else MergedEntry(t, i, gs)
  {
    assert (gs + [g])[..|gs|] == gs;
  }

  lemma NewEntriesNext(t: seq<Entry>, gs: seq<Group>, g: Group)
    ensures NewEntries(t, gs + [g]) ==
            NewEntries(t, gs) + if HasMatcher(t, g.matcher) then [] else [Entry(Some(g.matcher), Some(g.hooks))]
  {
    assert (gs + [g])[..|gs|] == gs;
  }

  lemma MergeNewMatcher(t: seq<Entry>, gs: seq<Group>, g: Group)
    requires forall k :: 0 <= k < |gs| ==> gs[k].matcher != g.matcher
    requires FirstEntry(t, g.matcher, 0) == Ok(None)
    ensures MergeGroup(Merged(t, gs), g) == Ok(Merged(t, gs + [g]))
  {
    var d := Merged(t, gs);
    MergedSoFar(t, gs, g);
    FirstEntryExtends(t, d, g.matcher, 0);
    FirstEntryNone(d, g.matcher, |t|);
    assert !HasMatcher(t, g.matcher);
    NewEntriesNext(t, gs, g);
    forall i | 0 <= i < |t|
      ensures MergedEntry(t, i, gs + [g]) == MergedEntry(t, i, gs)
    {
      MergedEntryNext(t, i, gs, g);
      assert !Receives(t, i, g);
    }
    assert OldEntries(t, gs + [g], |t|) == OldEntries(t, gs, |t|);
    AppendAssociative(OldEntries(t, gs, |t|), NewEntries(t, gs), [Entry(Some(g.matcher), Some(g.hooks))]);
  }

  lemma ReceiverIsFirst(t: seq<Entry>, g: Group, i: nat)
    requires i < |t| && FirstEntry(t, g.matcher, 0).Ok? && FirstEntry(t, g.matcher, 0).value.Some?
    ensures Receives(t, i, g) <==> i == FirstEntry(t, g.matcher, 0).value.value
  {
  }

  lemma MergeKnownMatcher(t: seq<Entry>, gs: seq<Group>, g: Group)
    requires forall k :: 0 <= k < |gs| ==> gs[k].matcher != g.matcher
    requires CanMerge(t, g) && FirstEntry(t, g.matcher, 0).value.Some?
    ensures MergeGroup(Merged(t, gs), g) == Ok(Merged(t, gs + [g]))
  {
    var d, f := Merged(t, gs), FirstEntry(t, g.matcher, 0).value.value;
    MergedSoFar(t, gs, g);
    FirstEntryExtends(t, d, g.matcher, 0);
    assert HasMatcher(t, g.matcher);
    NewEntriesNext(t, gs, g);
    var e := Entry(d[f].matcher, Some(Untagged(d[f]) + g.hooks));
    forall i | 0 <= i < |t|
      ensures MergedEntry(t, i, gs + [g]) == if i == f then e else MergedEntry(t, i, gs)
    {
      MergedEntryNext(t, i, gs, g);
      ReceiverIsFirst(t, g, i);
    }
    assert OldEntries(t, gs + [g], |t|) == OldEntries(t, gs, |t|)[f := e];
    assert NewEntries(t, gs) + [] == NewEntries(t, gs);
    UpdateInFront(OldEntries(t, gs, |t|), NewEntries(t, gs), f, e);
  }

  /** Merging one more group into a merged category. */
  lemma MergeNext(t: seq<Entry>, gs: seq<Group>, g: Group)
    requires forall k :: 0 <= k < |gs| ==> gs[k].matcher != g.matcher
    ensures MergeGroup(Merged(t, gs), g).Ok? <==> CanMerge(t, g)
    ensures CanMerge(t, g) ==> MergeGroup(Merged(t, gs), g) == Ok(Merged(t, gs + [g]))
  {
    var d, found := Merged(t, gs), FirstEntry(t, g.matcher, 0);
    if found == Ok(None) {
      MergeNewMatcher(t, gs, g);
    } else if CanMerge(t, g) {
      MergeKnownMatcher(t, gs, g);
    } else {
      MergedSoFar(t, gs, g);
      FirstEntryExtends(t, d, g.matcher, 0);
    }
  }

  predicate CanMergeAll(t: seq<Entry>, gs: seq<Group>) {
    gs == [] || (CanMergeAll(t, gs[..|gs| - 1]) && CanMerge(t, gs[|gs| - 1]))
  }

  lemma {:induction false} CanMergeEach(t: seq<Entry>, gs: seq<Group>)
    ensures CanMergeAll(t, gs) <==> forall k :: 0 <= k < |gs| ==> CanMerge(t, gs[k])
  {
    if gs != [] {
      CanMergeEach(t, gs[..|gs| - 1]);
      assert forall k :: 0 <= k < |gs| - 1 ==> gs[..|gs| - 1][k] == gs[k];
    }
  }

  /** The fold over the groups computes the direct form, and fails exactly when a key it needs is missing. */
  lemma {:induction false} MergeGroupsIsMerged(t: seq<Entry>, gs: seq<Group>)
    requires AreGroups(gs)
    ensures MergeGroups(t, gs).Ok? <==> CanMergeAll(t, gs)
    ensures CanMergeAll(t, gs) ==> MergeGroups(t, gs) == Ok(Merged(t, gs))
  {
    if gs == [] {
      assert OldEntries(t, gs, |t|) == t && t + [] == t;
    } else {
      var init, g := gs[..|gs| - 1], gs[|gs| - 1];
      MergeGroupsIsMerged(t, init);
      MergeNext(t, init, g);
      assert gs == init + [g];
    }
  }

  // ---- merging keeps the user's hooks and is idempotent ----

  lemma UntaggedOfMerge(e: Entry, hs: seq<Hook>)
    requires forall h :: h in hs ==> h.tagged
    ensures Filter(Untagged(e) + hs, Not(IsTagged())) == Untagged(e)
  {
    FilterAppend(Untagged(e), hs, Not(IsTagged()));
    FilterMembers(HooksOf(e), Not(IsTagged()));
    FilterAll(Untagged(e), Not(IsTagged()));
    FilterNone(hs, Not(IsTagged()));
  }

  lemma {:induction false} MergedEntryReceives(t: seq<Entry>, i: nat, gs: seq<Group>, k: nat)
    requires AreGroups(gs) && i < |t| && k < |gs| && Receives(t, i, gs[k])
    ensures MergedEntry(t, i, gs) == Entry(t[i].matcher, Some(Untagged(t[i]) + gs[k].hooks))
  {
    if k < |gs| - 1 {
      assert gs[k].matcher != gs[|gs| - 1].matcher;
      MergedEntryReceives(t, i, gs[..|gs| - 1], k);
    }
  }

  lemma {:induction false} MergedEntryUntouched(t: seq<Entry>, i: nat, gs: seq<Group>)
    requires i < |t| && forall k :: 0 <= k < |gs| ==> !Receives(t, i, gs[k])
    ensures MergedEntry(t, i, gs) == t[i]
  {
    if gs != [] {
      MergedEntryUntouched(t, i, gs[..|gs| - 1]);
    }
  }

  /** No untagged hook is changed, moved or dropped, and no matcher changes; new entries hold tagged hooks only. */
  lemma UserHooksKept(t: seq<Entry>, gs: seq<Group>)
    requires AreGroups(gs)
    ensures
      var d := Merged(t, gs);
      && |t| <= |d|
      && (forall i :: 0 <= i < |t| ==> d[i].matcher == t[i].matcher && Untagged(d[i]) == Untagged(t[i]))
      && (forall i :: |t| <= i < |d| ==> Untagged(d[i]) == [] && IsHf(d[i]))
  {
    var d := Merged(t, gs);
    forall i | 0 <= i < |t|
      ensures d[i].matcher == t[i].matcher && Untagged(d[i]) == Untagged(t[i])
    {
      if k :| 0 <= k < |gs| && Receives(t, i, gs[k]) {
        MergedEntryReceives(t, i, gs, k);
        UntaggedOfMerge(t[i], gs[k].hooks);
      } else {
        MergedEntryUntouched(t, i, gs);
      }
    }
    NewEntryShape(t, gs);
    forall i | |t| <= i < |d|
      ensures Untagged(d[i]) == [] && IsHf(d[i])
    {
      assert d[i] in NewEntries(t, gs);
      var k :| 0 <= k < |gs| && d[i] == Entry(Some(gs[k].matcher), Some(gs[k].hooks));
      FilterNone(gs[k].hooks, Not(IsTagged()));
      assert gs[k].hooks[0] in HooksOf(d[i]);
    }
  }

  /** After a merge, the first entry of a matcher holds the user's hooks and then all that the source has for it; an entry
      that is not the first, or that the source has nothing for, is as it was. */
  lemma MergedHooksExactly(t: seq<Entry>, source: seq<Entry>, i: nat)
    requires SourceGroups(source).Ok? && i < |t|
    ensures
      var d, m := Merged(t, SourceGroups(source).value), t[i].matcher;
      && |t| <= |d|
      && d[i] == if m.Some? && HooksFor(source, m.value) != [] && forall j :: 0 <= j < i ==> t[j].matcher != m
                 then Entry(m, Some(Filter(HooksOf(t[i]), Not(IsTagged())) + HooksFor(source, m.value)))
                 else t[i]
  {
    var gs, m := SourceGroups(source).value, t[i].matcher;
    SourceGroupsFacts(source);
    if m.Some? && HasGroup(gs, m.value) && forall j :: 0 <= j < i ==> t[j].matcher != m {
      var k := GroupIndex(gs, m.value).value;
      MergedEntryReceives(t, i, gs, k);
    } else {
      MergedEntryUntouched(t, i, gs);
    }
  }

  function Matchers(gs: seq<Group>): seq<string> {
    Map(gs, (g: Group) => g.matcher)
  }

  /** The matchers of the source's entries with a tagged hook. */
  function HfMatchers(source: seq<Entry>): seq<string> {
    if source == [] then []
    else
      var e := source[|source| - 1];
      HfMatchers(source[..|source| - 1]) + if IsHf(e) && e.matcher.Some? then [e.matcher.value] else []
  }

  lemma AddedMatcher(gs: seq<Group>, m: string, hs: seq<Hook>)
    ensures Matchers(AddToGroup(gs, m, hs)) == if m in Matchers(gs) then Matchers(gs) else Matchers(gs) + [m]
  {
    var i := GroupIndex(gs, m);
    if i.Some? {
      assert Matchers(gs)[i.value] == m;
    }
  }

  /** The groups come in the order in which the source first names their matchers, and so do the entries made for them. */
  lemma {:induction false} FirstSeenOrder(source: seq<Entry>)
    requires SourceGroups(source).Ok?
    ensures Matchers(SourceGroups(source).value) == Dedup(HfMatchers(source))
  {
    if source != [] {
      var init, e := source[..|source| - 1], source[|source| - 1];
      FirstSeenOrder(init);
      if IsHf(e) {
        AddedMatcher(SourceGroups(init).value, e.matcher.value, Tagged(e));
        assert (HfMatchers(init) + [e.matcher.value])[..|HfMatchers(init)|] == HfMatchers(init);
      } else {
        assert HfMatchers(init) + [] == HfMatchers(init);
      }
    }
  }

  lemma {:induction false} NewEntriesInOrder(t: seq<Entry>, gs: seq<Group>)
    ensures |NewEntries(t, gs)| == |Filter(Matchers(gs), (m: string) => !HasMatcher(t, m))|
    ensures forall j :: 0 <= j < |NewEntries(t, gs)| ==>
              NewEntries(t, gs)[j].matcher == Some(Filter(Matchers(gs), (m: string) => !HasMatcher(t, m))[j])
  {
    if gs != [] {
      var init, g, isNew := gs[..|gs| - 1], gs[|gs| - 1], (m: string) => !HasMatcher(t, m);
      NewEntriesInOrder(t, init);
      FilterLast(Matchers(init), g.matcher, isNew);
      assert Matchers(gs) == Matchers(init) + [g.matcher];
    }
  }

  lemma {:induction false} NewEntryPresent(t: seq<Entry>, gs: seq<Group>, k: nat)
    requires k < |gs| && !HasMatcher(t, gs[k].matcher)
    ensures Entry(Some(gs[k].matcher), Some(gs[k].hooks)) in NewEntries(t, gs)
  {
    if k < |gs| - 1 {
      NewEntryPresent(t, gs[..|gs| - 1], k);
    }
  }

  /** The first entry of the group's matcher already ends with the group's hooks. */
  ghost predicate Settled(d: seq<Entry>, g: Group) {
    var found := FirstEntry(d, g.matcher, 0);
    found.Ok? && found.value.Some? &&
    d[found.value.value] == Entry(Some(g.matcher), Some(Untagged(d[found.value.value]) + g.hooks))
  }

  lemma {:induction false} FirstEntryFinds(d: seq<Entry>, m: string, from: nat, i: nat)
    requires from <= i < |d| && d[i].matcher == Some(m) && forall j :: from <= j < |d| ==> d[j].matcher.Some?
    ensures FirstEntry(d, m, from).Ok? && FirstEntry(d, m, from).value.Some?
    decreases |d| - from
  {
    if from < i && d[from].matcher != Some(m) {
      FirstEntryFinds(d, m, from + 1, i);
    }
  }

  lemma KnownIsSettled(t: seq<Entry>, gs: seq<Group>, k: nat)
    requires AreGroups(gs) && k < |gs| && CanMerge(t, gs[k]) && FirstEntry(t, gs[k].matcher, 0).value.Some?
    ensures Settled(Merged(t, gs), gs[k])
  {
    var d, g, f := Merged(t, gs), gs[k], FirstEntry(t, gs[k].matcher, 0).value.value;
    OldMatchers(t, gs);
    FirstEntryExtends(t, d, g.matcher, 0);
    assert Receives(t, f, g);
    MergedEntryReceives(t, f, gs, k);
    UntaggedOfMerge(t[f], g.hooks);
    assert d[f] == MergedEntry(t, f, gs);
  }

  lemma OldMatchers(t: seq<Entry>, gs: seq<Group>)
    ensures |t| <= |Merged(t, gs)| && forall i :: 0 <= i < |t| ==> Merged(t, gs)[i].matcher == t[i].matcher
  {
    forall i | 0 <= i < |t|
      ensures Merged(t, gs)[i].matcher == t[i].matcher
    {
      MergedEntryKeepsMatcher(t, i, gs);
    }
  }

  lemma NewEntryAt(t: seq<Entry>, gs: seq<Group>, k: nat, i: nat)
    requires AreGroups(gs) && k < |gs| && |t| <= i < |Merged(t, gs)|
    ensures
      var e := Merged(t, gs)[i];
      e.matcher.Some? && Untagged(e) == [] && (e.matcher == Some(gs[k].matcher) ==> e.hooks == Some(gs[k].hooks))
  {
    NewEntryShape(t, gs);
    var e := Merged(t, gs)[i];
    assert e in NewEntries(t, gs);
    var j :| 0 <= j < |gs| && e == Entry(Some(gs[j].matcher), Some(gs[j].hooks));
    assert j != k ==> gs[j].matcher != gs[k].matcher;
    FilterNone(gs[j].hooks, Not(IsTagged()));
  }

  lemma SettledAt(d: seq<Entry>, g: Group, f: nat)
    requires FirstEntry(d, g.matcher, 0) == Ok(Some(f)) && f < |d|
    requires d[f].hooks == Some(g.hooks) && Untagged(d[f]) == []
    ensures Settled(d, g)
  {
    assert [] + g.hooks == g.hooks;
  }

  /** Behind the old entries there is an entry for every new matcher. */
  lemma NewEntryFound(t: seq<Entry>, gs: seq<Group>, k: nat) returns (f: nat)
    requires AreGroups(gs) && k < |gs| && !HasMatcher(t, gs[k].matcher)
    ensures |t| <= f < |Merged(t, gs)| && FirstEntry(Merged(t, gs), gs[k].matcher, |t|) == Ok(Some(f))
    ensures Merged(t, gs)[f].matcher == Some(gs[k].matcher)
  {
    var d, g := Merged(t, gs), gs[k];
    NewEntryPresent(t, gs, k);
    var j :| 0 <= j < |NewEntries(t, gs)| && NewEntries(t, gs)[j].matcher == Some(g.matcher);
    assert d[|t| + j] == NewEntries(t, gs)[j];
    forall i | |t| <= i < |d|
      ensures d[i].matcher.Some?
    {
      NewEntryAt(t, gs, k, i);
    }
    FirstEntryFinds(d, g.matcher, |t|, |t| + j);
    f := FirstEntry(d, g.matcher, |t|).value.value;
  }

  lemma NewIsSettled(t: seq<Entry>, gs: seq<Group>, k: nat)
    requires AreGroups(gs) && k < |gs| && FirstEntry(t, gs[k].matcher, 0) == Ok(None)
    ensures Settled(Merged(t, gs), gs[k])
  {
    OldMatchers(t, gs);
    FirstEntryExtends(t, Merged(t, gs), gs[k].matcher, 0);
    assert !HasMatcher(t, gs[k].matcher);
    var f := NewEntryFound(t, gs, k);
    NewEntryAt(t, gs, k, f);
    SettledAt(Merged(t, gs), gs[k], f);
  }

  lemma MergedIsSettled(t: seq<Entry>, gs: seq<Group>, k: nat)
    requires AreGroups(gs) && k < |gs| && CanMerge(t, gs[k])
    ensures Settled(Merged(t, gs), gs[k])
  {
    if FirstEntry(t, gs[k].matcher, 0).value.Some? {
      KnownIsSettled(t, gs, k);
    } else {
      NewIsSettled(t, gs, k);
    }
  }

  lemma SettledIsFixed(d: seq<Entry>, g: Group)
    requires Settled(d, g)
    ensures MergeGroup(d, g) == Ok(d)
  {
    var f := FirstEntry(d, g.matcher, 0).value.value;
    assert d[f := d[f]] == d;
  }

  lemma {:induction false} AllSettledIsFixed(d: seq<Entry>, gs: seq<Group>)
    requires forall k :: 0 <= k < |gs| ==> Settled(d, gs[k])
    ensures MergeGroups(d, gs) == Ok(d)
  {
    if gs != [] {
      AllSettledIsFixed(d, gs[..|gs| - 1]);
      SettledIsFixed(d, gs[|gs| - 1]);
    }
  }

  /** Merging into an existing category a second time changes nothing. */
  lemma MergeIdempotent(t: seq<Entry>, gs: seq<Group>)
    requires AreGroups(gs) && MergeGroups(t, gs).Ok?
    ensures MergeGroups(MergeGroups(t, gs).value, gs) == MergeGroups(t, gs)
  {
    MergeGroupsIsMerged(t, gs);
    CanMergeEach(t, gs);
    forall k | 0 <= k < |gs|
      ensures Settled(Merged(t, gs), gs[k])
    {
      MergedIsSettled(t, gs, k);
    }
    AllSettledIsFixed(Merged(t, gs), gs);
  }

  // ---- permissions ----

  function Missing(existing: seq<string>): string -> bool {
    (p: string) => p !in existing
  }

  /** The user's patterns, then the source's patterns that were missing. */
  function MergedPatterns(existing: seq<string>, source: seq<string>): seq<string> {
    existing + Filter(source, Missing(existing))
  }

  method MergePermissions(existing: seq<string>, source: seq<string>) returns (merged: seq<string>)
    ensures existing <= merged
    ensures forall p :: p in merged <==> p in existing || p in source
    ensures forall p :: p in merged[|existing|..] ==> p in source && p !in existing
    ensures merged == MergedPatterns(existing, source)
  {
    merged := existing;
    for i := 0 to |source|
      invariant merged == existing + Filter(source[..i], Missing(existing))
    {
      TakeNext(source, i);
      FilterLast(source[..i], source[i], Missing(existing));
      if source[i] !in existing {
        merged := merged + [source[i]];
      }
    }
    TakeAll(source);
    FilterMembers(source, Missing(existing));
  }

  lemma PermissionsIdempotent(existing: seq<string>, source: seq<string>)
    ensures MergedPatterns(MergedPatterns(existing, source), source) == MergedPatterns(existing, source)
  {
    var merged := MergedPatterns(existing, source);
    FilterMembers(source, Missing(existing));
    FilterNone(source, Missing(merged));
  }

  // ---- removing the tagged hooks ----

  /** An entry without its tagged hooks; gone when it had nothing else. */
  function StripEntry(e: Entry): seq<Entry> {
    if Untagged(e) != [] then [Entry(e.matcher, Some(Untagged(e)))]
    else if !IsHf(e) then [e] else []
  }

  function Strip(entries: seq<Entry>): seq<Entry> {
    if entries == [] then [] else StripEntry(entries[0]) + Strip(entries[1..])
  }

  predicate IsDropped(e: Entry) {
    Untagged(e) == [] && IsHf(e)
  }

  lemma {:induction false} StripAppend(a: seq<Entry>, b: seq<Entry>)
    ensures Strip(a + b) == Strip(a) + Strip(b)
  {
    if a == [] {
      assert a + b == b;
    } else {
      assert (a + b)[1..] == a[1..] + b;
      StripAppend(a[1..], b);
    }
  }

  lemma {:induction false} StripDropped(a: seq<Entry>)
    requires forall e :: e in a ==> IsDropped(e)
    ensures Strip(a) == []
  {
    if a != [] {
      assert a[0] in a;
      StripDropped(a[1..]);
    }
  }

  lemma {:induction false} StripShrinks(a: seq<Entry>, b: seq<Entry>)
    requires |a| == |b|
    requires forall i :: 0 <= i < |a| ==> StripEntry(a[i]) == StripEntry(b[i]) || (StripEntry(a[i]) == [] && StripEntry(b[i]) != [])
    ensures |Strip(a)| <= |Strip(b)|
    ensures (forall i :: 0 <= i < |a| ==> StripEntry(a[i]) == StripEntry(b[i])) ==> Strip(a) == Strip(b)
    ensures (exists i :: 0 <= i < |a| && StripEntry(a[i]) != StripEntry(b[i])) ==> |Strip(a)| < |Strip(b)|
  {
    if a != [] {
      StripShrinks(a[1..], b[1..]);
      if i :| 0 <= i < |a| && StripEntry(a[i]) != StripEntry(b[i]) {
        assert i > 0 ==> a[1..][i - 1] == a[i] && b[1..][i - 1] == b[i];
      }
      forall i | 0 <= i < |a[1..]|
        ensures a[1..][i] == a[i + 1] && b[1..][i] == b[i + 1]
      {
      }
    }
  }

  /** Some entry that receives hooks had an empty hook list. */
  ghost predicate FillsEmptyList(t: seq<Entry>, gs: seq<Group>) {
    exists i, k :: 0 <= i < |t| && 0 <= k < |gs| && Receives(t, i, gs[k]) && t[i].hooks == Some([])
  }

  lemma StripMergedEntry(t: seq<Entry>, i: nat, gs: seq<Group>, k: nat)
    requires AreGroups(gs) && i < |t| && k < |gs| && Receives(t, i, gs[k]) && t[i].hooks.Some?
    ensures t[i].hooks != Some([]) ==> StripEntry(MergedEntry(t, i, gs)) == StripEntry(t[i])
    ensures t[i].hooks == Some([]) ==> StripEntry(MergedEntry(t, i, gs)) == [] && StripEntry(t[i]) == [t[i]]
  {
    var e := MergedEntry(t, i, gs);
    MergedEntryReceives(t, i, gs, k);
    UntaggedOfMerge(t[i], gs[k].hooks);
    assert gs[k].hooks[0] in HooksOf(e);
    HfHasTagged(t[i]);
    FilterPartition(HooksOf(t[i]), IsTagged());
  }

  lemma StripOldEntry(t: seq<Entry>, gs: seq<Group>, i: nat)
    requires AreGroups(gs) && i < |t| && forall k :: 0 <= k < |gs| ==> CanMerge(t, gs[k])
    ensures
      var now, was := StripEntry(MergedEntry(t, i, gs)), StripEntry(t[i]);
      && (now == was || (now == [] && was != []))
      && (now != was <==> t[i].hooks == Some([]) && exists k :: 0 <= k < |gs| && Receives(t, i, gs[k]))
  {
    if k :| 0 <= k < |gs| && Receives(t, i, gs[k]) {
      ReceiverHasHooks(t, i, gs[k]);
      StripMergedEntry(t, i, gs, k);
    } else {
      MergedEntryUntouched(t, i, gs);
    }
  }

  lemma StripNewEntries(t: seq<Entry>, gs: seq<Group>)
    requires AreGroups(gs)
    ensures Strip(NewEntries(t, gs)) == []
  {
    UserHooksKept(t, gs);
    forall e | e in NewEntries(t, gs)
      ensures IsDropped(e)
    {
      var j :| 0 <= j < |NewEntries(t, gs)| && NewEntries(t, gs)[j] == e;
      assert Merged(t, gs)[|t| + j] == e;
    }
    StripDropped(NewEntries(t, gs));
  }

  /** Stripping a merged category gives what stripping the original gives, exactly when no empty hook list was filled. */
  lemma StripUndoesMergeExactly(t: seq<Entry>, gs: seq<Group>)
    requires AreGroups(gs) && MergeGroups(t, gs).Ok?
    ensures Strip(MergeGroups(t, gs).value) == Strip(t) <==> !FillsEmptyList(t, gs)
  {
    MergeGroupsIsMerged(t, gs);
    CanMergeEach(t, gs);
    var kept := Merged(t, gs)[..|t|];
    assert Merged(t, gs) == kept + NewEntries(t, gs);
    StripAppend(kept, NewEntries(t, gs));
    StripNewEntries(t, gs);
    forall i | 0 <= i < |t|
      ensures
        && (StripEntry(kept[i]) == StripEntry(t[i]) || (StripEntry(kept[i]) == [] && StripEntry(t[i]) != []))
        && (StripEntry(kept[i]) != StripEntry(t[i]) <==>
              t[i].hooks == Some([]) && exists k :: 0 <= k < |gs| && Receives(t, i, gs[k]))
    {
      StripOldEntry(t, gs, i);
    }
    StripShrinks(kept, t);
  }

  lemma ReceiverHasHooks(t: seq<Entry>, i: nat, g: Group)
    requires i < |t| && Receives(t, i, g) && CanMerge(t, g)
    ensures t[i].hooks.Some?
  {
    var found := FirstEntry(t, g.matcher, 0);
    assert found.value.Some? && found.value.value == i;
  }

  // ---- the removal as the source writes it: entries are changed in place, then compared ----

  /** A matcher entry as an object of the parsed file. */
  class EntryObject {
    var value: Entry

    constructor (value: Entry)
      ensures this.value == value
    {
      this.value := value;
    }
  }

  ghost predicate AreDistinct(objs: seq<EntryObject>) {
    forall i, j :: 0 <= i < j < |objs| ==> objs[i] != objs[j]
  }

  /** What the objects hold now. */
  function View(objs: seq<EntryObject>): (vs: seq<Entry>)
    reads objs
    ensures |vs| == |objs| && forall i :: 0 <= i < |vs| ==> vs[i] == objs[i].value
  {
    if objs == [] then [] else View(objs[..|objs| - 1]) + [objs[|objs| - 1].value]
  }

  lemma {:induction false} StripLast(init: seq<Entry>, e: Entry)
    ensures Strip(init + [e]) == Strip(init) + StripEntry(e)
  {
    StripAppend(init, [e]);
    assert [e][1..] == [];
    assert Strip([e]) == StripEntry(e) + Strip([e][1..]);
  }

  lemma StripNext(entries: seq<Entry>, i: nat)
    requires i < |entries|
    ensures Strip(entries[..i + 1]) == Strip(entries[..i]) + StripEntry(entries[i])
  {
    TakeNext(entries, i);
    StripLast(entries[..i], entries[i]);
  }

  ghost predicate DropsAny(entries: seq<Entry>) {
    exists i :: 0 <= i < |entries| && IsDropped(entries[i])
  }

  lemma {:induction false} DropsExactly(entries: seq<Entry>)
    ensures |Strip(entries)| <= |entries|
    ensures DropsAny(entries) <==> |Strip(entries)| < |entries|
  {
    if entries != [] {
      DropsExactly(entries[1..]);
      assert forall i :: 0 <= i < |entries[1..]| ==> entries[1..][i] == entries[i + 1];
      if DropsAny(entries) {
        var i :| 0 <= i < |entries| && IsDropped(entries[i]);
        assert i > 0 ==> IsDropped(entries[1..][i - 1]);
      }
    }
  }

  /** What the loop leaves in an entry's object. */
  function InPlace(e: Entry): Entry {
    if Untagged(e) != [] then Entry(e.matcher, Some(Untagged(e))) else e
  }

  method StripInPlace(entry: EntryObject) returns (keep: bool)
    modifies entry
    ensures entry.value == InPlace(old(entry.value)) && (keep <==> !IsDropped(old(entry.value)))
  {
    var newHooks := Untagged(entry.value);
    if newHooks != [] {
      entry.value := Entry(entry.value.matcher, Some(newHooks));
      keep := true;
    } else {
      keep := !IsHf(entry.value);
    }
  }

  /** The objects kept out of the first `n`. */
  function KeptObjects(objs: seq<EntryObject>, before: seq<Entry>, n: nat): seq<EntryObject>
    requires n <= |objs| == |before|
  {
    if n == 0 then []
    else KeptObjects(objs, before, n - 1) + if IsDropped(before[n - 1]) then [] else [objs[n - 1]]
  }

  lemma {:induction false} ViewOfKept(objs: seq<EntryObject>, before: seq<Entry>, n: nat)
    requires n <= |objs| == |before| && forall j :: 0 <= j < n ==> objs[j].value == InPlace(before[j])
    ensures View(KeptObjects(objs, before, n)) == Strip(before[..n])
  {
    if n > 0 {
      ViewOfKept(objs, before, n - 1);
      StripNext(before, n - 1);
      var kept := KeptObjects(objs, before, n - 1);
      if !IsDropped(before[n - 1]) {
        assert (kept + [objs[n - 1]])[..|kept|] == kept;
        assert View(kept + [objs[n - 1]]) == View(kept) + [objs[n - 1].value];
      }
    }
  }

  lemma {:induction false} KeptAll(objs: seq<EntryObject>, before: seq<Entry>, n: nat)
    requires n <= |objs| == |before|
    ensures |KeptObjects(objs, before, n)| <= n
    ensures |KeptObjects(objs, before, n)| == n ==> KeptObjects(objs, before, n) == objs[..n]
  {
    if n > 0 {
      KeptAll(objs, before, n - 1);
    }
  }

  lemma KeptObjectsFacts(objs: seq<EntryObject>, before: seq<Entry>)
    requires |objs| == |before| && forall j :: 0 <= j < |objs| ==> objs[j].value == InPlace(before[j])
    ensures
      var kept := KeptObjects(objs, before, |objs|);
      && View(kept) == Strip(before) && (|kept| < |objs| <==> DropsAny(before)) && |kept| <= |objs|
      && (|kept| == |objs| ==> kept == objs)
  {
    ViewOfKept(objs, before, |objs|);
    KeptAll(objs, before, |objs|);
    TakeAll(before);
    TakeAll(objs);
    DropsExactly(before);
  }

  /** The list that is kept is the stripped list. But an entry that only loses its tagged hooks is changed in
      place, so it compares equal to itself afterwards: `modified` tells that an entry was dropped, no more. */
  method RemoveTagged(entries: seq<EntryObject>) returns (newEntries: seq<EntryObject>, modified: bool)
    requires AreDistinct(entries)
    modifies entries
    ensures View(newEntries) == Strip(old(View(entries)))
    ensures modified <==> DropsAny(old(View(entries)))
  {
    newEntries, modified := [], false;
    ghost var before := View(entries);
    for i := 0 to |entries|
      invariant forall j :: 0 <= j < |entries| ==> entries[j].value == if j < i then InPlace(before[j]) else before[j]
      invariant newEntries == KeptObjects(entries, before, i)
      invariant |newEntries| <= i && (modified <==> |newEntries| < i)
    {
      var entry := entries[i];
      var keep := StripInPlace(entry);
      if keep {
        newEntries := newEntries + [entry];
      } else {
        modified := true;
      }
    }
    KeptObjectsFacts(entries, before);
    if View(newEntries) != View(entries) {
      modified := true;
    }
  }

  // ---- the whole file ----

  type Hooks = map<string, seq<Entry>>

  /** One hook category of the shipped settings. */
  datatype Category = Category(name: string, entries: seq<Entry>)

  function EntriesOf(file: Hooks, c: string): seq<Entry> {
    if c in file then file[c] else []
  }

  function MergeOne(file: Hooks, c: Category): Result<Hooks, MergeError> {
    var gs := SourceGroups(c.entries);
    if gs.Err? then Err(KeyMissing)
    else
      var r := MergeGroups(EntriesOf(file, c.name), gs.value);
      if r.Err? then Err(KeyMissing) else Ok(file[c.name := r.value])
  }

  function MergeFile(file: Hooks, source: seq<Category>): Result<Hooks, MergeError> {
    if source == [] then Ok(file)
    else
      var r := MergeFile(file, source[..|source| - 1]);
      if r.Err? then r else MergeOne(r.value, source[|source| - 1])
  }

  lemma {:induction false} FilePrefixFails(file: Hooks, source: seq<Category>, i: nat)
    requires i <= |source| && MergeFile(file, source[..i]).Err?
    ensures MergeFile(file, source) == MergeFile(file, source[..i])
  {
    if i == |source| {
      TakeAll(source);
    } else {
      assert source[..|source| - 1][..i] == source[..i];
      FilePrefixFails(file, source[..|source| - 1], i);
    }
  }

  method MergeHooks(file: Hooks, source: seq<Category>) returns (r: Result<Hooks, MergeError>)
    ensures r == MergeFile(file, source)
  {
    var tgt := file;
    for i := 0 to |source|
      invariant MergeFile(file, source[..i]) == Ok(tgt)
    {
      assert source[..i + 1][..i] == source[..i];
      var name := source[i].name;
      var gs := GroupSource(source[i].entries);
      if gs.Err? {
        FilePrefixFails(file, source, i + 1);
        return Err(KeyMissing);
      }
      var merged := MergeCategory(EntriesOf(tgt, name), gs.value);
      if merged.Err? {
        FilePrefixFails(file, source, i + 1);
        return Err(KeyMissing);
      }
      tgt := tgt[name := merged.value];
    }
    TakeAll(source);
    r := Ok(tgt);
  }

  /** A dictionary: every category once. */
  predicate AreCategories(source: seq<Category>) {
    forall i, j :: 0 <= i < j < |source| ==> source[i].name != source[j].name
  }

  /** The groups that the source has for a category. */
  function GroupsOf(source: seq<Category>, c: string): seq<Group> {
    if source == [] then []
    else if source[|source| - 1].name == c && SourceGroups(source[|source| - 1].entries).Ok?
    then SourceGroups(source[|source| - 1].entries).value
    else GroupsOf(source[..|source| - 1], c)
  }

  lemma {:induction false} GroupsOfGroups(source: seq<Category>, c: string)
    ensures AreGroups(GroupsOf(source, c))
  {
    if source != [] {
      SourceGroupsFacts(source[|source| - 1].entries);
      GroupsOfGroups(source[..|source| - 1], c);
    }
  }

  lemma {:induction false} NoGroups(source: seq<Category>, c: string)
    requires forall i :: 0 <= i < |source| ==> source[i].name != c
    ensures GroupsOf(source, c) == []
  {
    if source != [] {
      NoGroups(source[..|source| - 1], c);
    }
  }

  /** Categories do not interfere: each one is its own merge. */
  lemma {:induction false} MergeFileByCategory(file: Hooks, source: seq<Category>, c: string)
    requires AreCategories(source) && MergeFile(file, source).Ok?
    ensures c in MergeFile(file, source).value <==> c in file || exists i :: 0 <= i < |source| && source[i].name == c
    ensures MergeGroups(EntriesOf(file, c), GroupsOf(source, c)) == Ok(EntriesOf(MergeFile(file, source).value, c))
  {
    if source != [] {
      var init, last := source[..|source| - 1], source[|source| - 1];
      MergeFileByCategory(file, init, c);
      assert forall i :: 0 <= i < |init| ==> source[i] == init[i];
      if last.name == c {
        assert forall i :: 0 <= i < |init| ==> init[i].name != c;
        NoGroups(init, c);
      }
    }
  }

  lemma {:induction false} SourceGroupsPresent(file: Hooks, source: seq<Category>, i: nat)
    requires AreCategories(source) && MergeFile(file, source).Ok? && i < |source|
    ensures SourceGroups(source[i].entries) == Ok(GroupsOf(source, source[i].name))
    ensures source[i].name in MergeFile(file, source).value
  {
    var init := source[..|source| - 1];
    if i < |init| {
      SourceGroupsPresent(file, init, i);
      assert init[i] == source[i];
    }
  }

  lemma {:induction false} FixedFile(d: Hooks, source: seq<Category>)
    requires forall i :: 0 <= i < |source| ==> MergeOne(d, source[i]) == Ok(d)
    ensures MergeFile(d, source) == Ok(d)
  {
    if source != [] {
      FixedFile(d, source[..|source| - 1]);
    }
  }

  /** Merging the shipped hooks into an existing file a second time changes nothing. */
  lemma MergeFileIdempotent(file: Hooks, source: seq<Category>)
    requires AreCategories(source) && MergeFile(file, source).Ok?
    ensures MergeFile(MergeFile(file, source).value, source) == MergeFile(file, source)
  {
    var d := MergeFile(file, source).value;
    forall i | 0 <= i < |source|
      ensures MergeOne(d, source[i]) == Ok(d)
    {
      var c := source[i].name;
      SourceGroupsPresent(file, source, i);
      MergeFileByCategory(file, source, c);
      GroupsOfGroups(source, c);
      MergeIdempotent(EntriesOf(file, c), GroupsOf(source, c));
      assert d[c := d[c]] == d;
    }
    FixedFile(d, source);
  }

  // ---- hooks and permissions together ----

  const PERMISSION_KEYS := ["allow", "deny"]

  type Permissions = map<string, seq<string>>

  datatype Settings = Settings(hooks: Hooks, permissions: Permissions)

  function MergeKey(perms: Permissions, source: Permissions, key: string): Permissions {
    if key in source then perms[key := MergedPatterns(if key in perms then perms[key] else [], source[key])] else perms
  }

  function MergeKeys(perms: Permissions, source: Permissions, keys: seq<string>): Permissions {
    if keys == [] then perms else MergeKey(MergeKeys(perms, source, keys[..|keys| - 1]), source, keys[|keys| - 1])
  }

  function MergeSettings(target: Settings, source: seq<Category>, perms: Permissions): Result<Settings, MergeError> {
    var hooks := MergeFile(target.hooks, source);
    if hooks.Err? then Err(hooks.error)
    else Ok(Settings(hooks.value, MergeKeys(target.permissions, perms, PERMISSION_KEYS)))
  }

  /** The whole merge into an existing file. */
  method MergeSettingsFile(target: Settings, source: seq<Category>, perms: Permissions)
    returns (r: Result<Settings, MergeError>)
    ensures r == MergeSettings(target, source, perms)
  {
    var hooks := MergeHooks(target.hooks, source);
    if hooks.Err? {
      return Err(hooks.error);
    }
    var merged := target.permissions;
    for i := 0 to |PERMISSION_KEYS|
      invariant merged == MergeKeys(target.permissions, perms, PERMISSION_KEYS[..i])
    {
      var key := PERMISSION_KEYS[i];
      assert PERMISSION_KEYS[..i + 1][..i] == PERMISSION_KEYS[..i];
      if key in perms {
        var patterns := MergePermissions(if key in merged then merged[key] else [], perms[key]);
        merged := merged[key := patterns];
      }
    }
    TakeAll(PERMISSION_KEYS);
    r := Ok(Settings(hooks.value, merged));
  }

  function PatternsOf(perms: Permissions, key: string): seq<string> {
    if key in perms then perms[key] else []
  }

  /** Only the listed keys that the source has are touched, each by its own merge. */
  lemma {:induction false} MergeKeysAt(perms: Permissions, source: Permissions, keys: seq<string>, key: string)
    requires Distinct(keys)
    ensures
      var merged := MergeKeys(perms, source, keys);
      if key in keys && key in source
      then key in merged && merged[key] == MergedPatterns(PatternsOf(perms, key), source[key])
      else (key in merged <==> key in perms) && (key in perms ==> merged[key] == perms[key])
  {
    if keys != [] {
      var init, last := keys[..|keys| - 1], keys[|keys| - 1];
      assert keys == init + [last];
      MergeKeysAt(perms, source, init, key);
      MergeKeysAt(perms, source, init, last);
    }
  }

  lemma PermissionKeysDiffer()
    ensures Distinct(PERMISSION_KEYS)
  {
    assert PERMISSION_KEYS[0][0] != PERMISSION_KEYS[1][0];
  }

  lemma MergeKeysIdempotent(perms: Permissions, source: Permissions, keys: seq<string>)
    requires Distinct(keys)
    ensures MergeKeys(MergeKeys(perms, source, keys), source, keys) == MergeKeys(perms, source, keys)
  {
    var once := MergeKeys(perms, source, keys);
    var twice := MergeKeys(once, source, keys);
    forall key: string
      ensures (key in twice <==> key in once) && (key in once ==> twice[key] == once[key])
    {
      MergeKeysAt(perms, source, keys, key);
      MergeKeysAt(once, source, keys, key);
      if key in keys && key in source {
        PermissionsIdempotent(PatternsOf(perms, key), source[key]);
      }
    }
    assert twice == once;
  }

  /** Merging the shipped settings, hooks and permissions, into an existing file a second time changes nothing. */
  lemma MergeSettingsIdempotent(target: Settings, source: seq<Category>, perms: Permissions)
    requires AreCategories(source) && MergeSettings(target, source, perms).Ok?
    ensures MergeSettings(MergeSettings(target, source, perms).value, source, perms) == MergeSettings(target, source, perms)
  {
    PermissionKeysDiffer();
    MergeFileIdempotent(target.hooks, source);
    MergeKeysIdempotent(target.permissions, perms, PERMISSION_KEYS);
  }

  ghost predicate DropsEntry(file: Hooks) {
    exists c :: c in file && DropsAny(file[c])
  }

  ghost predicate AnyTagged(entries: seq<Entry>) {
    exists i :: 0 <= i < |entries| && IsHf(entries[i])
  }

  ghost predicate HasTagged(file: Hooks) {
    exists c :: c in file && AnyTagged(file[c])
  }

  function Stripped(file: Hooks): Hooks {
    map c | c in file :: Strip(file[c])
  }

  /** The file after removal: rewritten only when some category reported a modification. */
  ghost function Cleaned(file: Hooks): Hooks {
    if DropsEntry(file) then Stripped(file) else file
  }

  method ParseEntries(entries: seq<Entry>) returns (objs: seq<EntryObject>)
    ensures AreDistinct(objs) && View(objs) == entries && fresh(objs)
  {
    objs := [];
    for i := 0 to |entries|
      invariant |objs| == i && AreDistinct(objs) && fresh(objs)
      invariant forall j :: 0 <= j < i ==> objs[j].value == entries[j]
    {
      var obj := new EntryObject(entries[i]);
      objs := objs + [obj];
    }
  }

  /** The categories done so far are stripped, and `modified` tells that one of them lost an entry. */
  ghost predicate StripsSoFar(file: Hooks, after: Hooks, modified: bool, done: seq<string>) {
    && after.Keys == file.Keys
    && (forall c :: c in file ==> after[c] == if c in done then Strip(file[c]) else file[c])
    && (modified <==> exists c :: c in done && c in file && DropsAny(file[c]))
  }

  lemma StripsNext(file: Hooks, after: Hooks, modified: bool, names: seq<string>, i: nat)
    requires i < |names| && names[i] in file && StripsSoFar(file, after, modified, names[..i])
    ensures StripsSoFar(file, after[names[i] := Strip(file[names[i]])], modified || DropsAny(file[names[i]]), names[..i + 1])
  {
    TakeNext(names, i);
  }

  lemma StripsAll(file: Hooks, after: Hooks, modified: bool, names: seq<string>)
    requires StripsSoFar(file, after, modified, names) && forall c :: c in names <==> c in file
    ensures (if modified then after else file) == Cleaned(file)
  {
    assert after == Stripped(file);
  }

  /** One category of the parsed file. */
  method StripCategory(entries: seq<Entry>) returns (after: seq<Entry>, changed: bool)
    ensures after == Strip(entries) && (changed <==> DropsAny(entries))
  {
    var objs := ParseEntries(entries);
    var newEntries, modified := RemoveTagged(objs);
    after, changed := View(newEntries), modified;
  }

  /** A settings file on disk. */
  class SettingsFile {
    var hooks: Hooks

    constructor (hooks: Hooks)
      ensures this.hooks == hooks
    {
      this.hooks := hooks;
    }

    /** Goes through the categories of the parsed file and writes it back only if one of them reported a change. The
        order in which the dictionary lists them does not matter. */
    method RemoveHfEntries(names: seq<string>)
      requires forall c :: c in names <==> c in hooks
      modifies this
      ensures hooks == Cleaned(old(hooks))
    {
      var file := hooks;
      var after, modified := file, false;
      for i := 0 to |names|
        invariant hooks == file && StripsSoFar(file, after, modified, names[..i])
      {
        var c := names[i];
        assert c in names;
        var stripped, changed := StripCategory(file[c]);
        StripsNext(file, after, modified, names, i);
        after, modified := after[c := stripped], modified || changed;
      }
      TakeAll(names);
      StripsAll(file, after, modified, names);
      if modified {
        hooks := after;
      }
    }
  }

  lemma {:induction false} StripUntagged(entries: seq<Entry>)
    requires forall e :: e in entries ==> !IsHf(e)
    ensures Strip(entries) == entries
  {
    if entries != [] {
      var e := entries[0];
      assert e in entries;
      StripUntagged(entries[1..]);
      if Untagged(e) != [] {
        assert forall h :: h in HooksOf(e) ==> !h.tagged;
        FilterAll(HooksOf(e), Not(IsTagged()));
        assert e.hooks.Some?;
      }
      assert entries == [e] + entries[1..];
    }
  }

  lemma {:induction false} StripHasNoTagged(entries: seq<Entry>)
    ensures forall e :: e in Strip(entries) ==> !IsHf(e)
  {
    if entries != [] {
      StripHasNoTagged(entries[1..]);
      FilterMembers(HooksOf(entries[0]), Not(IsTagged()));
    }
  }

  /** Removal takes every tagged hook out of the file exactly when there is none, or some entry held nothing else. */
  lemma CleanedExactly(file: Hooks)
    ensures Cleaned(file) == Stripped(file) <==> DropsEntry(file) || !HasTagged(file)
  {
    forall c | c in file
      ensures (forall e :: e in file[c] ==> !IsHf(e)) ==> Strip(file[c]) == file[c]
      ensures forall e :: e in Strip(file[c]) ==> !IsHf(e)
    {
      if forall e :: e in file[c] ==> !IsHf(e) {
        StripUntagged(file[c]);
      }
      StripHasNoTagged(file[c]);
    }
    if !DropsEntry(file) && HasTagged(file) {
      var c :| c in file && AnyTagged(file[c]);
      var i :| 0 <= i < |file[c]| && IsHf(file[c][i]);
      assert file[c][i] in file[c];
      assert Stripped(file)[c] != file[c];
    } else if !HasTagged(file) {
      assert forall c :: c in file ==> forall e :: e in file[c] ==> !IsHf(e);
      assert Stripped(file) == file;
    }
  }

  /** What removal should leave after a merge: the user's own entries, and new categories empty. */
  ghost function Restored(file: Hooks, merged: Hooks): Hooks {
    map c | c in merged :: Strip(EntriesOf(file, c))
  }

  lemma MergedStripsToOriginal(file: Hooks, source: seq<Category>, c: string)
    requires AreCategories(source) && MergeFile(file, source).Ok?
    ensures Strip(EntriesOf(MergeFile(file, source).value, c)) == Strip(EntriesOf(file, c)) <==>
            !FillsEmptyList(EntriesOf(file, c), GroupsOf(source, c))
  {
    MergeFileByCategory(file, source, c);
    GroupsOfGroups(source, c);
    StripUndoesMergeExactly(EntriesOf(file, c), GroupsOf(source, c));
  }

  /** No entry that receives hooks had an empty hook list, in any category. */
  ghost predicate FillsNoEmptyList(file: Hooks, source: seq<Category>) {
    forall c: string :: !FillsEmptyList(EntriesOf(file, c), GroupsOf(source, c))
  }

  lemma StrippedIsRestored(file: Hooks, source: seq<Category>)
    requires AreCategories(source) && MergeFile(file, source).Ok?
    ensures
      var merged := MergeFile(file, source).value;
      Stripped(merged) == Restored(file, merged) <==> FillsNoEmptyList(file, source)
  {
    var merged := MergeFile(file, source).value;
    forall c | c in merged
      ensures Stripped(merged)[c] == Restored(file, merged)[c] <==>
              !FillsEmptyList(EntriesOf(file, c), GroupsOf(source, c))
    {
      MergedStripsToOriginal(file, source, c);
    }
    if FillsNoEmptyList(file, source) {
      assert Stripped(merged) == Restored(file, merged);
    } else {
      var c: string :| FillsEmptyList(EntriesOf(file, c), GroupsOf(source, c));
      MergeFileByCategory(file, source, c);
      assert Stripped(merged)[c] != Restored(file, merged)[c];
    }
  }

  lemma TaggedIsNotRestored(file: Hooks, merged: Hooks)
    requires HasTagged(merged)
    ensures merged != Restored(file, merged)
  {
    var c :| c in merged && AnyTagged(merged[c]);
    var i :| 0 <= i < |merged[c]| && IsHf(merged[c][i]);
    assert merged[c][i] in merged[c];
    StripHasNoTagged(EntriesOf(file, c));
    assert Restored(file, merged)[c] != merged[c];
  }

  lemma {:induction false} NewEntriesExactly(t: seq<Entry>, gs: seq<Group>)
    ensures NewEntries(t, gs) != [] <==> AddsMatcher(t, gs)
  {
    if gs != [] {
      var init := gs[..|gs| - 1];
      NewEntriesExactly(t, init);
      assert forall k :: 0 <= k < |init| ==> init[k] == gs[k];
      if AddsMatcher(t, gs) && !AddsMatcher(t, init) {
        assert !HasMatcher(t, gs[|gs| - 1].matcher);
      }
      if AddsMatcher(t, init) {
        var k :| 0 <= k < |init| && !HasMatcher(t, init[k].matcher);
        assert !HasMatcher(t, gs[k].matcher);
      }
    }
  }

  /** Some group has a matcher that the category does not have yet. */
  ghost predicate AddsMatcher(t: seq<Entry>, gs: seq<Group>) {
    exists k :: 0 <= k < |gs| && !HasMatcher(t, gs[k].matcher)
  }

  /** A merged category has an entry to drop exactly when the original had one or the merge added one. */
  lemma DropsAfterMerge(t: seq<Entry>, gs: seq<Group>)
    requires AreGroups(gs) && MergeGroups(t, gs).Ok? && !FillsEmptyList(t, gs)
    ensures DropsAny(MergeGroups(t, gs).value) <==> DropsAny(t) || AddsMatcher(t, gs)
  {
    var merged := MergeGroups(t, gs).value;
    StripUndoesMergeExactly(t, gs);
    MergeGroupsIsMerged(t, gs);
    DropsExactly(t);
    DropsExactly(merged);
    NewEntriesExactly(t, gs);
    assert |merged| == |t| + |NewEntries(t, gs)|;
  }

  /** A merged category has a tagged hook exactly when the original had one or there was something to merge. */
  lemma TaggedAfterMerge(t: seq<Entry>, gs: seq<Group>)
    requires AreGroups(gs) && MergeGroups(t, gs).Ok?
    ensures AnyTagged(MergeGroups(t, gs).value) <==> gs != [] || AnyTagged(t)
  {
    if gs != [] {
      MergeGroupsIsMerged(t, gs);
      CanMergeEach(t, gs);
      MergedIsSettled(t, gs, 0);
      SettledIsTagged(Merged(t, gs), gs[0]);
    }
  }

  lemma SettledIsTagged(d: seq<Entry>, g: Group)
    requires Settled(d, g) && g.hooks != [] && forall h :: h in g.hooks ==> h.tagged
    ensures AnyTagged(d)
  {
    assert g.hooks[0] in g.hooks;
  }

  /** The merge adds an entry to some category. */
  ghost predicate AddsEntry(file: Hooks, source: seq<Category>) {
    exists c: string :: AddsMatcher(EntriesOf(file, c), GroupsOf(source, c))
  }

  /** The shipped settings have something to merge. */
  ghost predicate HasGroups(source: seq<Category>) {
    exists c: string :: GroupsOf(source, c) != []
  }

  lemma CategoriesOf(file: Hooks, source: seq<Category>, c: string)
    requires AreCategories(source) && MergeFile(file, source).Ok?
    ensures
      var merged := MergeFile(file, source).value;
      && (c !in merged ==> c !in file && GroupsOf(source, c) == [])
      && MergeGroups(EntriesOf(file, c), GroupsOf(source, c)) == Ok(EntriesOf(merged, c))
      && AreGroups(GroupsOf(source, c))
  {
    MergeFileByCategory(file, source, c);
    GroupsOfGroups(source, c);
    if c !in MergeFile(file, source).value {
      NoGroups(source, c);
    }
  }

  lemma DropsAfterMergeFile(file: Hooks, source: seq<Category>)
    requires AreCategories(source) && MergeFile(file, source).Ok? && FillsNoEmptyList(file, source)
    ensures DropsEntry(MergeFile(file, source).value) <==> AddsEntry(file, source) || DropsEntry(file)
  {
    var merged := MergeFile(file, source).value;
    forall c: string
      ensures DropsAny(EntriesOf(merged, c)) <==>
              DropsAny(EntriesOf(file, c)) || AddsMatcher(EntriesOf(file, c), GroupsOf(source, c))
      ensures c !in merged ==> c !in file && EntriesOf(merged, c) == []
    {
      CategoriesOf(file, source, c);
      DropsAfterMerge(EntriesOf(file, c), GroupsOf(source, c));
    }
    if DropsEntry(merged) {
      var c :| c in merged && DropsAny(merged[c]);
      assert DropsAny(EntriesOf(merged, c));
    }
    if AddsEntry(file, source) {
      var c: string :| AddsMatcher(EntriesOf(file, c), GroupsOf(source, c));
      assert DropsAny(EntriesOf(merged, c));
    }
    if DropsEntry(file) {
      var c :| c in file && DropsAny(file[c]);
      assert DropsAny(EntriesOf(file, c)) && DropsAny(EntriesOf(merged, c));
    }
  }

  lemma TaggedAfterMergeFile(file: Hooks, source: seq<Category>)
    requires AreCategories(source) && MergeFile(file, source).Ok?
    ensures HasTagged(MergeFile(file, source).value) <==> HasGroups(source) || HasTagged(file)
  {
    var merged := MergeFile(file, source).value;
    forall c: string
      ensures AnyTagged(EntriesOf(merged, c)) <==> GroupsOf(source, c) != [] || AnyTagged(EntriesOf(file, c))
      ensures c !in merged ==> c !in file && EntriesOf(merged, c) == []
    {
      CategoriesOf(file, source, c);
      TaggedAfterMerge(EntriesOf(file, c), GroupsOf(source, c));
    }
    if HasTagged(merged) {
      var c :| c in merged && AnyTagged(merged[c]);
      assert AnyTagged(EntriesOf(merged, c));
    }
    if HasGroups(source) {
      var c: string :| GroupsOf(source, c) != [];
      assert AnyTagged(EntriesOf(merged, c));
    }
    if HasTagged(file) {
      var c :| c in file && AnyTagged(file[c]);
      assert AnyTagged(EntriesOf(file, c)) && AnyTagged(EntriesOf(merged, c));
    }
  }

  /** Merging and then removing gives the user's entries back exactly when no empty hook list was filled, and either the
      merge adds an entry of its own, or the file had an entry with tagged hooks only, or there is nothing tagged at
      all in the file and the shipped settings. */
  lemma RemovalRestoresExactly(file: Hooks, source: seq<Category>)
    requires AreCategories(source) && MergeFile(file, source).Ok?
    ensures
      var merged := MergeFile(file, source).value;
      Cleaned(merged) == Restored(file, merged) <==>
        && FillsNoEmptyList(file, source)
        && (AddsEntry(file, source) || DropsEntry(file) || (!HasGroups(source) && !HasTagged(file)))
  {
    var merged := MergeFile(file, source).value;
    StrippedIsRestored(file, source);
    CleanedExactly(merged);
    if HasTagged(merged) {
      TaggedIsNotRestored(file, merged);
    }
    if FillsNoEmptyList(file, source) {
      DropsAfterMergeFile(file, source);
    }
    TaggedAfterMergeFile(file, source);
  }

  const USER_HOOK := Hook(false, "lint")
  const HF_HOOK := Hook(true, "hf")

  const USER_ENTRY := Entry(Some("Bash"), Some([USER_HOOK]))
  const SHARED_ENTRY := Entry(Some("Bash"), Some([USER_HOOK, HF_HOOK]))

  /** A user and HydraFlow sharing one matcher: after merge and removal the tagged hook is still in the file. */
  lemma SharedMatcherIsNotCleaned()
    ensures MergeGroups([USER_ENTRY], [Group("Bash", [HF_HOOK])]) == Ok([SHARED_ENTRY])
    ensures Cleaned(map["PreToolUse" := [SHARED_ENTRY]]) == map["PreToolUse" := [SHARED_ENTRY]]
  {
    var gs := [Group("Bash", [HF_HOOK])];
    assert gs[..0] == [];
    FilterAll([USER_HOOK], Not(IsTagged()));
    assert Untagged(USER_ENTRY) == [USER_HOOK];
    UntaggedOfMerge(USER_ENTRY, [HF_HOOK]);
    assert [USER_HOOK] + [HF_HOOK] == [USER_HOOK, HF_HOOK];
    assert Untagged(SHARED_ENTRY) == [USER_HOOK];
    assert MergeGroups([USER_ENTRY], gs[..0]) == Ok([USER_ENTRY]);
    assert FirstEntry([USER_ENTRY], "Bash", 0) == Ok(Some(0));
    assert [USER_ENTRY][0 := SHARED_ENTRY] == [SHARED_ENTRY];
  }
}
