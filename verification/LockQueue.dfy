/** The slot lock and the wait for a slot are one protocol (scripts/quality_host_lock.py): along every run of the host,
    each wrapper does what `_acquire_any_slot` decides from what that wrapper observed. */
module LockQueue {
  import opened Wrappers
  import opened HostLock
  import Q = SlotQueue

  // ---- what a wrapper observed ----

  /** One pass over the lock files: whether the parent was there, which files were taken when they were tried, and
      whether the deadline had passed in the end. */
  datatype Pass = Pass(alive: bool, taken: seq<bool>, expired: Option<bool>)

  datatype Log = Log(slots: nat, bypass: bool, parentAlive: bool, killed: bool, passes: seq<Pass>)

  /** How far a wait has come, as far as the log tells. */
  datatype Wait = Starting | Probing(next: nat) | Left(outcome: Q.Outcome)

  function WaitOf(log: Log): Wait {
    if log.passes == [] then Starting
    else
      var last := log.passes[|log.passes| - 1];
      var n := |last.taken|;
      if !last.alive then Left(Q.Abandoned)
      else if n > 0 && !last.taken[n - 1] then Left(Q.Acquired(n - 1))
      else if last.expired == Some(true) then Left(Q.TimedOut)
      else if last.expired == Some(false) then Starting
      else Probing(n)
  }

  function LastPass(log: Log, pass: Pass): Log
    requires log.passes != []
  {
    log.(passes := log.passes[|log.passes| - 1 := pass])
  }

  /** What one step of the host adds to the log of a wrapper; `locked` tells which slots are locked at that moment. */
  function Record(log: Option<Log>, locked: set<nat>, e: Step, pid: Pid): Option<Log> {
    if e.pid != pid then log
    else if e.Spawn? then
      if log.Some? then log else Some(Log(if e.slots < 1 then 1 else e.slots, e.bypass, true, false, []))
    else if log.None? then None
    else if e.ParentDies? then Some(log.value.(parentAlive := false))
    else if e.Kill? then Some(log.value.(killed := true))
    else if log.value.killed || log.value.bypass then log
    else
      var l := log.value;
      match (e, WaitOf(l))
      case (CheckParent(_), Starting) => Some(l.(passes := l.passes + [Pass(l.parentAlive, [], None)]))
      case (TryLock(_), Probing(k)) =>
        var last := l.passes[|l.passes| - 1];
        if k < l.slots then Some(LastPass(l, last.(taken := last.taken + [k in locked]))) else log
      case (EndPass(_, expired), Probing(k)) =>
        var last := l.passes[|l.passes| - 1];
        if k < l.slots then log else Some(LastPass(l, last.(expired := Some(expired))))
      case _ => log
  }

  /** The wrapper's log after a run of the host. */
  function LogAfter(steps: seq<Step>, pid: Pid): Option<Log> {
    if steps == [] then None
    else
      var init := steps[..|steps| - 1];
      Record(LogAfter(init, pid), Run(EMPTY_HOST, init).locks.Keys, steps[|steps| - 1], pid)
  }

  // ---- the wrapper does what the log says ----

  /** The wrapper waits as the log tells, and once it has left it holds what the outcome says until it is done. */
  predicate Follows(w: Wrapper, log: Log) {
    && w.slots == log.slots && w.parentAlive == log.parentAlive && log.slots >= 1
    && if log.bypass then log.passes == [] && Holding(w.phase, Bypassed)
       else match WaitOf(log)
         case Starting => w.phase == if log.killed then Killed(false) else PassStart
         case Probing(k) => k <= log.slots && w.phase == if log.killed then Killed(false) else Trying(k)
         case Left(Acquired(k)) => Holding(w.phase, Slot(k))
         case Left(TimedOut) => Holding(w.phase, HostLock.TimedOut)
         case Left(Abandoned) => w.phase == Done(75)
  }

  predicate Holding(phase: Phase, hold: Hold) {
    phase == Running(hold) || phase == Finishing(hold) || phase.Done? || phase.Killed?
  }

  lemma {:induction false} RunLast(s: State, steps: seq<Step>, e: Step)
    ensures Run(s, steps + [e]) == Next(Run(s, steps), e)
    decreases |steps|
  {
    if steps == [] {
      assert [e][1..] == [];
    } else {
      assert (steps + [e])[1..] == steps[1..] + [e];
      RunLast(Next(s, steps[0]), steps[1..], e);
    }
  }

  predicate AllFollow(s: State, pid: Pid, log: Option<Log>) {
    (pid in s.wrappers <==> log.Some?) && (log.Some? ==> Follows(s.wrappers[pid], log.value))
  }

  lemma OthersStay(s: State, pid: Pid, e: Step)
    requires e.pid != pid
    ensures pid in Next(s, e).wrappers <==> pid in s.wrappers
    ensures pid in s.wrappers ==> Next(s, e).wrappers[pid] == s.wrappers[pid]
  {
  }

  lemma SpawnFollows(s: State, log: Option<Log>, e: Step)
    requires e.Spawn? && AllFollow(s, e.pid, log)
    ensures AllFollow(Next(s, e), e.pid, Record(log, s.locks.Keys, e, e.pid))
  {
  }

  lemma OutsideFollows(s: State, log: Option<Log>, e: Step)
    requires e.ParentDies? || e.Kill? || e.SuiteEnds? || e.Release? || e.OrphanEnds?
    requires AllFollow(s, e.pid, log)
    ensures AllFollow(Next(s, e), e.pid, Record(log, s.locks.Keys, e, e.pid))
  {
  }

  lemma CheckFollows(s: State, log: Option<Log>, e: Step)
    requires e.CheckParent? && AllFollow(s, e.pid, log)
    ensures AllFollow(Next(s, e), e.pid, Record(log, s.locks.Keys, e, e.pid))
  {
  }

  lemma TryFollows(s: State, log: Option<Log>, e: Step)
    requires e.TryLock? && AllFollow(s, e.pid, log)
    ensures AllFollow(Next(s, e), e.pid, Record(log, s.locks.Keys, e, e.pid))
  {
  }

  lemma EndFollows(s: State, log: Option<Log>, e: Step)
    requires e.EndPass? && AllFollow(s, e.pid, log)
    ensures AllFollow(Next(s, e), e.pid, Record(log, s.locks.Keys, e, e.pid))
  {
  }

  lemma FollowsStep(s: State, pid: Pid, log: Option<Log>, e: Step)
    requires AllFollow(s, pid, log)
    ensures AllFollow(Next(s, e), pid, Record(log, s.locks.Keys, e, pid))
  {
    if e.pid != pid {
      OthersStay(s, pid, e);
    } else if e.Spawn? {
      SpawnFollows(s, log, e);
    } else if e.CheckParent? {
      CheckFollows(s, log, e);
    } else if e.TryLock? {
      TryFollows(s, log, e);
    } else if e.EndPass? {
      EndFollows(s, log, e);
    } else {
      OutsideFollows(s, log, e);
    }
  }

  /** Along every run, every wrapper does what its log says. */
  lemma {:induction false} EveryWrapperFollowsItsLog(steps: seq<Step>, pid: Pid)
    ensures AllFollow(Run(EMPTY_HOST, steps), pid, LogAfter(steps, pid))
  {
    if steps != [] {
      var init, e := steps[..|steps| - 1], steps[|steps| - 1];
      EveryWrapperFollowsItsLog(init, pid);
      RunLast(EMPTY_HOST, init, e);
      assert steps == init + [e];
      FollowsStep(Run(EMPTY_HOST, init), pid, LogAfter(init, pid), e);
    }
  }

  // ---- and the log is a wait as the queue decides it ----

  const DEADLINE := 0.0

  /** What the wrapper's loop saw: files it did not try count as taken, and a clock that says whether a pass ended past
      the deadline. */
  function WorldOf(log: Log): Q.World {
    var ps := log.passes;
    Q.World(
      (p: nat) => p < |ps| ==> ps[p].alive,
      (p: nat, k: nat) => p < |ps| && k < |ps[p].taken| ==> ps[p].taken[k],
      (p: nat) => if p < |ps| && ps[p].expired == Some(true) then DEADLINE else DEADLINE - 1.0)
  }

  /** A pass that settled nothing: the parent was there, every slot was taken and the deadline was ahead. */
  predicate SettlesNothing(pass: Pass, slots: nat) {
    pass.alive && |pass.taken| == slots && (forall k :: 0 <= k < slots ==> pass.taken[k]) && pass.expired == Some(false)
  }

  /** A pass that is under way or was the last: it stops at a missing parent and at the first free slot. */
  predicate IsPrefixOfPass(pass: Pass, slots: nat) {
    && |pass.taken| <= slots && (!pass.alive ==> pass.taken == [] && pass.expired == None)
    && (forall k :: 0 <= k < |pass.taken| - 1 ==> pass.taken[k])
    && (pass.expired.Some? ==> |pass.taken| == slots && forall k :: 0 <= k < slots ==> pass.taken[k])
  }

  predicate IsWait(log: Log) {
    && log.slots >= 1
    && (forall p :: 0 <= p < |log.passes| - 1 ==> SettlesNothing(log.passes[p], log.slots))
    && (log.passes != [] ==> IsPrefixOfPass(log.passes[|log.passes| - 1], log.slots))
  }

  lemma RecordKeepsWait(log: Option<Log>, locked: set<nat>, e: Step, pid: Pid)
    requires log.Some? ==> IsWait(log.value)
    ensures
      var next := Record(log, locked, e, pid);
      next.Some? ==> IsWait(next.value)
  {
    if log.Some? && e.pid == pid && !log.value.killed && !log.value.bypass && log.value.passes != [] {
      var l := log.value;
      var last := l.passes[|l.passes| - 1];
      if e.TryLock? && WaitOf(l).Probing? && |last.taken| < l.slots {
        TryKeepsPass(last, l.slots, |last.taken| in locked);
      } else if e.EndPass? && WaitOf(l).Probing? {
        assert |last.taken| > 0 ==> last.taken[|last.taken| - 1];
      } else if e.CheckParent? && WaitOf(l).Starting? {
        assert SettlesNothing(last, l.slots);
      }
    }
  }

  lemma TryKeepsPass(last: Pass, slots: nat, isTaken: bool)
    requires IsPrefixOfPass(last, slots) && last.alive && last.expired == None && |last.taken| < slots
    requires |last.taken| > 0 ==> last.taken[|last.taken| - 1]
    ensures IsPrefixOfPass(last.(taken := last.taken + [isTaken]), slots)
  {
  }

  lemma {:induction false} EveryLogIsAWait(steps: seq<Step>, pid: Pid)
    ensures LogAfter(steps, pid).Some? ==> IsWait(LogAfter(steps, pid).value)
  {
    if steps != [] {
      var init := steps[..|steps| - 1];
      EveryLogIsAWait(init, pid);
      RecordKeepsWait(LogAfter(init, pid), Run(EMPTY_HOST, init).locks.Keys, steps[|steps| - 1], pid);
    }
  }

  lemma WaitDecides(log: Log)
    requires IsWait(log)
    ensures forall p: nat :: p + 1 < |log.passes| ==> Q.KeepsWaiting(WorldOf(log), log.slots, DEADLINE, p)
    ensures WaitOf(log).Left? ==>
              log.passes != [] && Q.Decides(WorldOf(log), log.slots, DEADLINE, |log.passes| - 1, WaitOf(log).outcome)
  {
    forall p: nat | p + 1 < |log.passes|
      ensures Q.KeepsWaiting(WorldOf(log), log.slots, DEADLINE, p)
    {
      assert SettlesNothing(log.passes[p], log.slots);
    }
  }

  /** In every interleaving: a wrapper that runs on slot k left its wait in a pass that found the parent there, every
      smaller slot locked at the moment it tried it, and k free; one that timed out found every one of its slots
      locked when it tried it and the deadline passed; and in every pass before that it found all of them locked. */
  lemma EveryPassDecides(steps: seq<Step>, pid: Pid)
    ensures
      var s, log := Run(EMPTY_HOST, steps), LogAfter(steps, pid);
      pid in s.wrappers ==>
        && log.Some? && s.wrappers[pid].slots == log.value.slots
        && var w, phase, n := WorldOf(log.value), s.wrappers[pid].phase, |log.value.passes|;
        && (forall p: nat :: p + 1 < n ==> Q.KeepsWaiting(w, log.value.slots, DEADLINE, p))
        && (phase.Running? && phase.hold.Slot? ==>
              n > 0 && Q.Decides(w, log.value.slots, DEADLINE, n - 1, Q.Acquired(phase.hold.n)))
        && (phase.Running? && phase.hold == HostLock.TimedOut ==>
              n > 0 && Q.Decides(w, log.value.slots, DEADLINE, n - 1, Q.TimedOut))
        && (phase == PassStart || phase.Trying? ==> !WaitOf(log.value).Left?)
  {
    EveryWrapperFollowsItsLog(steps, pid);
    EveryLogIsAWait(steps, pid);
    if LogAfter(steps, pid).Some? {
      WaitDecides(LogAfter(steps, pid).value);
    }
  }
}
