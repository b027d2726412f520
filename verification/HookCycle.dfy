/** One merge and one clean of a whole hooks directory (`chain_hooks` and the hook half of `clean_assets` in
    scripts/merge_assets.py): what becomes of every file. */
module HookCycle {
  import opened Wrappers
  import opened Sequences
  import opened HookChain

  function At(files: Files, name: string): Option<string> {
    if name in files then Some(files[name]) else None
  }

  function InstalledName(name: string): string {
    "hf-" + name
  }

  lemma InstalledNameInjective(a: string, b: string)
    ensures InstalledName(a) == InstalledName(b) <==> a == b
  {
    assert InstalledName(a)[3..] == a && InstalledName(b)[3..] == b;
  }

  /** No two shipped hooks write the same file. */
  predicate Separate(hooks: seq<Hook>) {
    && (forall i, j :: 0 <= i < j < |hooks| ==> hooks[i].name != hooks[j].name)
    && (forall i, j :: 0 <= i < |hooks| && 0 <= j < |hooks| ==> hooks[i].name != InstalledName(hooks[j].name))
  }

  predicate IsUnmarked(t: string) {
    !Contains(CHAIN_START, t) && !Contains(CHAIN_END, t)
  }

  predicate Unmarked(files: Files) {
    forall name :: name in files ==> IsUnmarked(files[name])
  }

  predicate NamesUnmarked(hooks: seq<Hook>) {
    forall i :: 0 <= i < |hooks| ==> !Contains(CHAIN_END, hooks[i].name)
  }

  // ---- the merge ----

  function Dispatcher(name: string): string {
    SHEBANG + ChainBlock(name) + "\n"
  }

  /** A hook's text with the block: after what the user had, or after the first line of a new script. */
  function Chained(before: Option<string>, name: string): string {
    if before.None? then Dispatcher(name) else WithNewline(before.value) + ChainBlock(name) + "\n"
  }

  lemma ChainOneFacts(files: Files, h: Hook)
    requires h.name in files ==> IsUnmarked(files[h.name])
    requires h.name != InstalledName(h.name)
    ensures
      var r := ChainOne(files, h);
      && r.1 && At(r.0, h.name) == Some(Chained(At(files, h.name), h.name))
      && At(r.0, InstalledName(h.name)) == Some(h.body)
      && (forall n :: n != h.name && n != InstalledName(h.name) ==> At(r.0, n) == At(files, n))
  {
  }

  lemma SeparateInit(hooks: seq<Hook>)
    requires Separate(hooks) && hooks != []
    ensures Separate(hooks[..|hooks| - 1])
  {
  }

  /** Files of other names are left alone. */
  lemma {:induction false} OthersUntouched(files: Files, hooks: seq<Hook>, n: string)
    requires Separate(hooks) && Unmarked(files)
    requires forall i :: 0 <= i < |hooks| ==> n != hooks[i].name && n != InstalledName(hooks[i].name)
    ensures ChainAll(files, hooks).1 && At(ChainAll(files, hooks).0, n) == At(files, n)
  {
    if hooks != [] {
      var init, last := hooks[..|hooks| - 1], hooks[|hooks| - 1];
      SeparateInit(hooks);
      OthersUntouched(files, init, n);
      LastIsFresh(files, hooks);
      ChainOneFacts(ChainAll(files, init).0, last);
    }
  }

  /** The hooks before the last one do not touch its files. */
  lemma {:induction false} LastIsFresh(files: Files, hooks: seq<Hook>)
    requires Separate(hooks) && Unmarked(files) && hooks != []
    ensures
      var before, last := ChainAll(files, hooks[..|hooks| - 1]), hooks[|hooks| - 1];
      && before.1 && At(before.0, last.name) == At(files, last.name)
      && (last.name in before.0 ==> IsUnmarked(before.0[last.name])) && last.name != InstalledName(last.name)
    decreases |hooks|, 0
  {
    var init, last := hooks[..|hooks| - 1], hooks[|hooks| - 1];
    SeparateInit(hooks);
    if init != [] {
      var init', prior := init[..|init| - 1], init[|init| - 1];
      assert prior == hooks[|hooks| - 2];
      var skipped := init' + [last];
      assert Separate(skipped) by {
        assert forall i :: 0 <= i < |init'| ==> skipped[i] == hooks[i];
        assert skipped[|init'|] == hooks[|hooks| - 1];
      }
      assert skipped[..|skipped| - 1] == init';
      LastIsFresh(files, skipped);
      LastIsFresh(files, init);
      ChainOneFacts(ChainAll(files, init').0, prior);
    }
  }

  /** Every shipped hook is installed and chained, whatever the others do. */
  lemma {:induction false} HookIsChained(files: Files, hooks: seq<Hook>, i: nat)
    requires Separate(hooks) && Unmarked(files) && i < |hooks|
    ensures
      var r, name := ChainAll(files, hooks), hooks[i].name;
      && r.1 && At(r.0, name) == Some(Chained(At(files, name), name))
      && At(r.0, InstalledName(name)) == Some(hooks[i].body)
  {
    var init, last := hooks[..|hooks| - 1], hooks[|hooks| - 1];
    SeparateInit(hooks);
    LastIsFresh(files, hooks);
    ChainOneFacts(ChainAll(files, init).0, last);
    if i < |init| {
      HookIsChained(files, init, i);
      InstalledNameInjective(hooks[i].name, last.name);
    }
  }

  // ---- the clean ----

  function CleanedText(before: Option<string>): Option<string> {
    if before.Some? && Clean(before.value).Ok? then Clean(before.value).value else before
  }

  predicate Cleans(files: Files, names: seq<string>) {
    forall i :: 0 <= i < |names| && names[i] in files ==> Clean(files[names[i]]).Ok?
  }

  lemma {:induction false} CleanAllFacts(files: Files, names: seq<string>, n: string)
    requires Distinct(names) && Cleans(files, names)
    ensures
      var r := CleanAll(files, names);
      r.1 && At(r.0, n) == if n in names then CleanedText(At(files, n)) else At(files, n)
  {
    if names != [] {
      var init, last := names[..|names| - 1], names[|names| - 1];
      assert names == init + [last];
      CleanAllFacts(files, init, n);
      CleanAllFacts(files, init, last);
    }
  }

  lemma HookNamesAreDistinct()
    ensures Distinct(HOOK_NAMES)
    ensures forall name :: InstalledName(name) !in HOOK_NAMES
  {
    assert HOOK_NAMES[0] != HOOK_NAMES[1] by {
      assert HOOK_NAMES[0][4] != HOOK_NAMES[1][4];
    }
    forall name
      ensures InstalledName(name) !in HOOK_NAMES
    {
      assert InstalledName(name)[0] == 'h';
    }
  }

  lemma ChainedIsCleaned(before: Option<string>, name: string)
    requires (before.Some? ==> IsUnmarked(before.value)) && !Contains(CHAIN_END, name)
    ensures Clean(Chained(before, name)) == Ok(if before.Some? then Kept(WithNewline(before.value)) else Some(SHEBANG))
  {
    if before.Some? {
      FreshChainIsUndone(before.value, name);
    } else {
      DispatcherLeavesItsFirstLine(name);
    }
  }

  lemma MergedCleans(files: Files, hooks: seq<Hook>)
    requires Separate(hooks) && Unmarked(files) && NamesUnmarked(hooks)
    ensures Cleans(ChainAll(files, hooks).0, HOOK_NAMES)
  {
    var merged := ChainAll(files, hooks).0;
    HookNamesAreDistinct();
    forall k | 0 <= k < |HOOK_NAMES| && HOOK_NAMES[k] in merged
      ensures Clean(merged[HOOK_NAMES[k]]).Ok?
    {
      var name := HOOK_NAMES[k];
      if i :| 0 <= i < |hooks| && hooks[i].name == name {
        HookIsChained(files, hooks, i);
        ChainedIsCleaned(At(files, name), name);
      } else {
        OthersUntouched(files, hooks, name);
      }
    }
  }

  /** One merge and one clean give every shipped hook's user file back up to a newline, remove it if it was blank, and
      leave the first line of one that did not exist. Only the two listed names are cleaned: a shipped hook of any
      other name stays chained. */
  lemma CycleOfHook(files: Files, hooks: seq<Hook>, i: nat)
    requires Separate(hooks) && Unmarked(files) && NamesUnmarked(hooks) && i < |hooks|
    ensures
      var r, name := CleanAll(ChainAll(files, hooks).0, HOOK_NAMES), hooks[i].name;
      && r.1
      && At(r.0, name) == (if name !in HOOK_NAMES then Some(Chained(At(files, name), name))
                           else if name in files then Kept(WithNewline(files[name])) else Some(SHEBANG))
  {
    var merged, name := ChainAll(files, hooks).0, hooks[i].name;
    HookNamesAreDistinct();
    MergedCleans(files, hooks);
    CleanAllFacts(merged, HOOK_NAMES, name);
    HookIsChained(files, hooks, i);
    ChainedIsCleaned(At(files, name), name);
  }

  /** And every other file is as it was. */
  lemma CycleOfOthers(files: Files, hooks: seq<Hook>, n: string)
    requires Separate(hooks) && Unmarked(files) && NamesUnmarked(hooks)
    requires forall i :: 0 <= i < |hooks| ==> n != hooks[i].name && n != InstalledName(hooks[i].name)
    ensures At(CleanAll(ChainAll(files, hooks).0, HOOK_NAMES).0, n) == At(files, n)
  {
    HookNamesAreDistinct();
    MergedCleans(files, hooks);
    CleanAllFacts(ChainAll(files, hooks).0, HOOK_NAMES, n);
    OthersUntouched(files, hooks, n);
  }
}
