/** The host-wide slot lock as a step system of many wrappers (scripts/quality_host_lock.py).

    Every step is one atomic action of one wrapper or of the host; a run is any sequence of steps, so the
    theorems hold in every interleaving. An advisory lock is owned per lock file, and a lock file is known by
    its slot number: `SlotPathInjective` says that the number and the file name identify each other. */
module HostLock {
  import opened Wrappers
  import opened Sequences
  import opened Text

  // ---- lock files ----

  function SlotPath(n: nat): string {
    if n == 0 then "hydraflow-quality.lock" else "hydraflow-quality." + Decimal(n) + ".lock"
  }

  /** The lock files of a wrapper configured with `slots` slots. */
  function SlotPaths(slots: int): seq<string> {
    seq(if slots < 1 then 1 else slots, i requires i >= 0 => SlotPath(i))
  }

  /** Which file a slot uses identifies the slot. */
  lemma SlotPathInjective(m: nat, n: nat)
    requires SlotPath(m) == SlotPath(n)
    ensures m == n
  {
    SlotPathShape(m);
    SlotPathShape(n);
    if m > 0 && n > 0 {
      DecimalInjective(m, n);
    }
  }

  const STEM := |"hydraflow-quality."|

  lemma SlotPathShape(n: nat)
    ensures |SlotPath(n)| > STEM + 3
    ensures n == 0 ==> SlotPath(n)[STEM] == 'l'
    ensures n > 0 ==> SlotPath(n)[STEM] in DIGITS && SlotPath(n)[STEM..|SlotPath(n)| - 5] == Decimal(n)
  {
    DecimalDigits(n);
    if n > 0 {
      assert SlotPath(n)[STEM] == Decimal(n)[0];
    }
  }

  lemma {:induction false} DecimalDigits(n: nat)
    ensures |Decimal(n)| >= 1 && Decimal(n)[0] in DIGITS
  {
    if n >= 10 {
      DecimalDigits(n / 10);
    }
  }

  /** Files of distinct slots are distinct, and a larger build contends on all the files of a smaller one,
      slot 0 first. */
  lemma SlotPathsNest(few: int, many: int)
    requires few <= many
    ensures SlotPaths(few) <= SlotPaths(many)
    ensures SlotPaths(few)[0] == "hydraflow-quality.lock"
    ensures forall i, j :: 0 <= i < j < |SlotPaths(many)| ==> SlotPaths(many)[i] != SlotPaths(many)[j]
  {
    forall i, j | 0 <= i < j < |SlotPaths(many)|
      ensures SlotPaths(many)[i] != SlotPaths(many)[j]
    {
      if SlotPath(i) == SlotPath(j) {
        SlotPathInjective(i, j);
      }
    }
  }

  // ---- the step system ----

  type Pid = int

  /** What a running suite holds: a slot, or nothing because the wait timed out or the lock was bypassed. */
  datatype Hold = Slot(n: nat) | TimedOut | Bypassed

  datatype Phase =
    | PassStart                  // about to check the parent
    | Trying(next: nat)          // about to try its lock file number `next`
    | Running(hold: Hold)        // the suite is running
    | Finishing(hold: Hold)      // the suite is gone, the slot not yet released
    | Done(code: int)
    | Killed(suiteRuns: bool)    // the wrapper itself was killed; its suite may live on

  datatype Wrapper = Wrapper(slots: nat, parentAlive: bool, phase: Phase)

  datatype State = State(wrappers: map<Pid, Wrapper>, locks: map<nat, Pid>)

  const EMPTY_HOST := State(map[], map[])
  const ABANDONED_EXIT_CODE := 75

  datatype Step =
    | Spawn(pid: Pid, slots: int, bypass: bool)
    | ParentDies(pid: Pid)
    | CheckParent(pid: Pid)
    | TryLock(pid: Pid)
    | EndPass(pid: Pid, expired: bool)   // every slot was busy: give up waiting, or sleep and start again
    | SuiteEnds(pid: Pid)                // it finished, or was killed because the parent is gone
    | Release(pid: Pid, code: int)
    | Kill(pid: Pid)                     // the kernel closes the wrapper's lock files
    | OrphanEnds(pid: Pid)

  function Put(s: State, pid: Pid, w: Wrapper): State {
    s.(wrappers := s.wrappers[pid := w])
  }

  function Unlock(locks: map<nat, Pid>, pid: Pid): map<nat, Pid> {
    map p | p in locks && locks[p] != pid :: locks[p]
  }

  /** A step that is not enabled changes nothing. */
  function Next(s: State, e: Step): State {
    if e.Spawn? then
      if e.pid in s.wrappers then s
      else
        var slots: nat := if e.slots < 1 then 1 else e.slots;
        Put(s, e.pid, Wrapper(slots, true, if e.bypass then Running(Bypassed) else PassStart))
    else if e.pid !in s.wrappers then s
    else
      var w := s.wrappers[e.pid];
      match (e, w.phase)
      case (ParentDies(_), _) => Put(s, e.pid, w.(parentAlive := false))
      case (CheckParent(_), PassStart) =>
        Put(s, e.pid, w.(phase := if w.parentAlive then Trying(0) else Done(ABANDONED_EXIT_CODE)))
      case (TryLock(_), Trying(k)) =>
        if k >= w.slots then s
        else if k in s.locks then Put(s, e.pid, w.(phase := Trying(k + 1)))
        else State(s.wrappers[e.pid := w.(phase := Running(Slot(k)))], s.locks[k := e.pid])
      case (EndPass(_, expired), Trying(k)) =>
        if k < w.slots then s
        else Put(s, e.pid, w.(phase := if expired then Running(TimedOut) else PassStart))
      case (SuiteEnds(_), Running(hold)) => Put(s, e.pid, w.(phase := Finishing(hold)))
      case (Release(_, code), Finishing(hold)) =>
        State(s.wrappers[e.pid := w.(phase := Done(code))],
              if hold.Slot? then s.locks - {hold.n} else s.locks)
      case (Kill(_), _) =>
        if w.phase.Done? || w.phase.Killed? then s
        else State(s.wrappers[e.pid := w.(phase := Killed(w.phase.Running?))], Unlock(s.locks, e.pid))
      case (OrphanEnds(_), Killed(_)) => Put(s, e.pid, w.(phase := Killed(false)))
      case _ => s
  }

  function Run(s: State, steps: seq<Step>): State
    decreases |steps|
  {
    if steps == [] then s else Run(Next(s, steps[0]), steps[1..])
  }

  // ---- the invariant ----

  predicate Holds(w: Wrapper) {
    (w.phase.Running? || w.phase.Finishing?) && w.phase.hold.Slot?
  }

  function HeldSlot(w: Wrapper): nat
    requires Holds(w)
  {
    w.phase.hold.n
  }

  /** Locks and holders say the same thing, and a wrapper only holds slots it is configured for. */
  ghost predicate Inv(s: State) {
    && (forall k :: k in s.locks ==>
          s.locks[k] in s.wrappers && Holds(s.wrappers[s.locks[k]]) && HeldSlot(s.wrappers[s.locks[k]]) == k)
    && (forall w :: w in s.wrappers && Holds(s.wrappers[w]) ==>
          var k := HeldSlot(s.wrappers[w]);
          k < s.wrappers[w].slots && k in s.locks && s.locks[k] == w)
  }

  lemma NextKeepsInv(s: State, e: Step)
    requires Inv(s)
    ensures Inv(Next(s, e))
  {
  }

  lemma {:induction false} RunKeepsInv(s: State, steps: seq<Step>)
    requires Inv(s)
    ensures Inv(Run(s, steps))
    decreases |steps|
  {
    if steps != [] {
      NextKeepsInv(s, steps[0]);
      RunKeepsInv(Next(s, steps[0]), steps[1..]);
    }
  }

  // ---- safety in every reachable state ----

  /** Holders among the wrappers configured for at most `k` slots. */
  ghost function HoldersWithin(s: State, k: nat): set<Pid> {
    set w | w in s.wrappers && Holds(s.wrappers[w]) && s.wrappers[w].slots <= k
  }

  lemma OneHolderPerSlot(s: State, a: Pid, b: Pid)
    requires Inv(s) && a in s.wrappers && b in s.wrappers
    requires Holds(s.wrappers[a]) && Holds(s.wrappers[b]) && HeldSlot(s.wrappers[a]) == HeldSlot(s.wrappers[b])
    ensures a == b
  {
  }

  lemma {:induction false} Pigeonhole(s: State, group: set<Pid>, k: nat)
    requires Inv(s)
    requires forall w :: w in group ==> w in s.wrappers && Holds(s.wrappers[w]) && HeldSlot(s.wrappers[w]) < k
    ensures |group| <= k
  {
    if k == 0 {
      assert forall w :: w !in group;
      assert group == {};
    } else if w :| w in group && HeldSlot(s.wrappers[w]) == k - 1 {
      var rest := group - {w};
      forall v | v in rest
        ensures HeldSlot(s.wrappers[v]) < k - 1
      {
        if HeldSlot(s.wrappers[v]) == k - 1 {
          OneHolderPerSlot(s, v, w);
        }
      }
      Pigeonhole(s, rest, k - 1);
      assert group == rest + {w};
    } else {
      Pigeonhole(s, group, k - 1);
    }
  }

  /** Suites actually running, also those whose wrapper was killed. */
  ghost function RunningSuites(s: State): set<Pid> {
    set w | w in s.wrappers && (s.wrappers[w].phase.Running? || s.wrappers[w].phase == Killed(true))
  }

  /** Suites running without a slot: timed out, bypassed, or orphaned by a killed wrapper. */
  ghost function UnlockedSuites(s: State): set<Pid> {
    set w | w in RunningSuites(s) && !Holds(s.wrappers[w])
  }

  lemma UnionCard<T>(a: set<T>, b: set<T>)
    ensures |a + b| <= |a| + |b|
  {
    assert a + b == a + (b - a);
  }

  /** In every state that any interleaving can reach:
      no two wrappers hold one slot; of the wrappers configured for at most k slots at most k hold one, so
      single-slot wrappers exclude each other whatever the others are configured for; and the suites running
      at once exceed the largest slot count only by those that run without a slot. */
  lemma EveryInterleavingIsSafe(steps: seq<Step>, k: nat)
    ensures
      var s := Run(EMPTY_HOST, steps);
      && (forall a, b | a in s.wrappers && b in s.wrappers && Holds(s.wrappers[a]) && Holds(s.wrappers[b]) ::
            HeldSlot(s.wrappers[a]) == HeldSlot(s.wrappers[b]) ==> a == b)
      && |HoldersWithin(s, k)| <= k
      && ((forall w :: w in s.wrappers ==> s.wrappers[w].slots <= k) ==>
            |RunningSuites(s)| <= k + |UnlockedSuites(s)|)
  {
    var s := Run(EMPTY_HOST, steps);
    RunKeepsInv(EMPTY_HOST, steps);
    forall w | w in HoldersWithin(s, k)
      ensures HeldSlot(s.wrappers[w]) < k
    {
    }
    Pigeonhole(s, HoldersWithin(s, k), k);
    if forall w :: w in s.wrappers ==> s.wrappers[w].slots <= k {
      assert RunningSuites(s) <= HoldersWithin(s, k) + UnlockedSuites(s);
      SubsetCard(RunningSuites(s), HoldersWithin(s, k) + UnlockedSuites(s));
      UnionCard(HoldersWithin(s, k), UnlockedSuites(s));
    }
  }

  /** No slot leaks: a lock is owned by a wrapper that is running or about to release it, never by one that is
      done or killed. */
  lemma FinishedHoldsNothing(steps: seq<Step>, k: nat)
    ensures
      var s := Run(EMPTY_HOST, steps);
      k in s.locks ==>
        && s.locks[k] in s.wrappers
        && !s.wrappers[s.locks[k]].phase.Done? && !s.wrappers[s.locks[k]].phase.Killed?
        && Holds(s.wrappers[s.locks[k]]) && HeldSlot(s.wrappers[s.locks[k]]) == k
  {
    RunKeepsInv(EMPTY_HOST, steps);
  }

  /** The wrapper is queueing for nobody: it starts a pass, or has left, with its parent gone. */
  ghost predicate IsAbandoned(s: State, pid: Pid) {
    && pid in s.wrappers && !s.wrappers[pid].parentAlive
    && (s.wrappers[pid].phase == PassStart || s.wrappers[pid].phase.Done? || s.wrappers[pid].phase == Killed(false))
  }

  /** A wrapper that starts a pass with its parent gone never starts a suite and never takes a slot. */
  lemma {:induction false} AbandonedNeverStarts(s: State, steps: seq<Step>, pid: Pid)
    requires IsAbandoned(s, pid)
    ensures IsAbandoned(Run(s, steps), pid)
    ensures pid !in RunningSuites(Run(s, steps)) && !Holds(Run(s, steps).wrappers[pid])
    decreases |steps|
  {
    if steps != [] {
      AbandonedNeverStarts(Next(s, steps[0]), steps[1..], pid);
    }
  }

  // ---- when suites start and end, and when a slot is free again ----

  predicate IsRunning(s: State, pid: Pid) {
    pid in s.wrappers && (s.wrappers[pid].phase.Running? || s.wrappers[pid].phase == Killed(true))
  }

  /** A new wrapper contends for exactly its lock files. */
  lemma SpawnUsesItsFiles(s: State, pid: Pid, slots: int, bypass: bool)
    requires pid !in s.wrappers
    ensures
      var t := Next(s, Spawn(pid, slots, bypass));
      && pid in t.wrappers && t.wrappers[pid].slots == |SlotPaths(slots)| == (if slots < 1 then 1 else slots)
      && t.locks == s.locks
  {
  }

  /** A suite ends on its own or when its orphaned process does; killing the wrapper does not end it. */
  lemma SuiteEndsExactly(s: State, e: Step, pid: Pid)
    requires IsRunning(s, pid)
    ensures !IsRunning(Next(s, e), pid) <==>
            e.pid == pid && if s.wrappers[pid].phase.Running? then e.SuiteEnds? else e.OrphanEnds?
  {
  }

  /** A suite starts when the lock is bypassed, with the first free slot, or when the wait times out with every slot
      tried. */
  lemma SuiteStartsExactly(s: State, e: Step, pid: Pid)
    requires !IsRunning(s, pid)
    ensures IsRunning(Next(s, e), pid) <==>
            && e.pid == pid
            && if pid !in s.wrappers then e.Spawn? && e.bypass
               else
                 var w := s.wrappers[pid];
                 && w.phase.Trying?
                 && if w.phase.next < w.slots then e.TryLock? && w.phase.next !in s.locks else e.EndPass? && e.expired
  {
  }

  /** A lock goes exactly when its holder releases it after its suite, or is killed; and it has one holder until then. */
  lemma LockIsFreedExactly(s: State, e: Step, k: nat)
    requires Inv(s) && k in s.locks
    ensures k !in Next(s, e).locks <==>
            e.pid == s.locks[k] && (e.Kill? || (e.Release? && s.wrappers[s.locks[k]].phase == Finishing(Slot(k))))
    ensures k in Next(s, e).locks ==> Next(s, e).locks[k] == s.locks[k]
  {
  }

  /** A wrapper leaves with its suite's exit code, or with 75 when its parent is gone before a pass; then it is done. */
  lemma DoneExactly(s: State, e: Step, pid: Pid, code: int)
    requires pid in s.wrappers
    ensures Next(s, e).wrappers[pid].phase == Done(code) <==>
            var w := s.wrappers[pid];
            || w.phase == Done(code)
            || (e.pid == pid && e.Release? && w.phase.Finishing? && e.code == code)
            || (e.pid == pid && e.CheckParent? && w.phase == PassStart && !w.parentAlive && code == 75)
  {
  }

  /** The bound counts suites without a slot for a reason: two wrappers, one slot, and one of them times out. */
  lemma TimeoutRunsBeside()
    ensures
      var s := Run(EMPTY_HOST, [Spawn(1, 1, false), CheckParent(1), TryLock(1),
                                Spawn(2, 1, false), CheckParent(2), TryLock(2), EndPass(2, true)]);
      RunningSuites(s) == {1, 2} && UnlockedSuites(s) == {2}
  {
    var one, two := Wrapper(1, true, Running(Slot(0))), Wrapper(1, true, Running(TimedOut));
    var s1 := RunThree(EMPTY_HOST, Spawn(1, 1, false), CheckParent(1), TryLock(1),
                       [Spawn(2, 1, false), CheckParent(2), TryLock(2), EndPass(2, true)]);
    assert s1 == State(map[1 := one], map[0 := 1]);
    var s2 := RunThree(s1, Spawn(2, 1, false), CheckParent(2), TryLock(2), [EndPass(2, true)]);
    var s3 := Next(s2, EndPass(2, true));
    assert s3 == State(map[1 := one, 2 := two], map[0 := 1]);
    assert [EndPass(2, true)][1..] == [];
    assert Run(s2, [EndPass(2, true)]) == s3;
  }

  lemma RunThree(s: State, a: Step, b: Step, c: Step, rest: seq<Step>) returns (t: State)
    ensures t == Next(Next(Next(s, a), b), c)
    ensures Run(s, [a, b, c] + rest) == Run(t, rest)
  {
    t := Next(Next(Next(s, a), b), c);
    var steps := [a, b, c] + rest;
    var tail := steps[1..];
    assert tail[0] == b && tail[1..][0] == c && tail[1..][1..] == rest;
    assert Run(Next(s, a), tail) == Run(Next(Next(s, a), b), tail[1..]);
    assert Run(Next(Next(s, a), b), tail[1..]) == Run(t, rest);
  }
}
