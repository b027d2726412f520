/** One wrapper's wait for a slot (scripts/quality_host_lock.py, `_acquire_any_slot`).

    The world is what the loop can observe: whether the parent is still there when pass `p` starts, whether
    lock file `k` is taken when pass `p` tries it, and the clock when pass `p` has found every file taken. */
module SlotQueue {

  const POLL_INTERVAL_S := 2.0

  datatype World = World(parentAlive: nat -> bool, taken: (nat, nat) -> bool, clock: nat -> real)

  datatype Outcome = Acquired(slot: nat) | Abandoned | TimedOut

  /** Every sleep takes at least the poll interval. */
  ghost predicate SleepsFully(w: World, start: real) {
    start <= w.clock(0) && forall p: nat :: w.clock(p) + POLL_INTERVAL_S <= w.clock(p + 1)
  }

  ghost predicate AllTaken(w: World, slots: nat, p: nat) {
    forall k: nat :: k < slots ==> w.taken(p, k)
  }

  /** Pass `p` settles nothing: the parent is there, every slot is taken and the deadline is ahead. */
  ghost predicate KeepsWaiting(w: World, slots: nat, deadline: real, p: nat) {
    w.parentAlive(p) && AllTaken(w, slots, p) && w.clock(p) < deadline
  }

  /** What pass `p` decides. */
  ghost predicate Decides(w: World, slots: nat, deadline: real, p: nat, outcome: Outcome) {
    match outcome
    case Abandoned => !w.parentAlive(p)
    case Acquired(k) => w.parentAlive(p) && k < slots && !w.taken(p, k) && forall j: nat :: j < k ==> w.taken(p, j)
    case TimedOut => w.parentAlive(p) && AllTaken(w, slots, p) && deadline <= w.clock(p)
  }

  function Deadline(start: real, timeout: int): real {
    start + timeout as real
  }

  function PassBound(timeout: int): nat {
    (if timeout > 0 then (timeout + 1) / 2 else 0) + 1
  }

  lemma {:induction false} ClockAdvances(w: World, start: real, p: nat)
    requires SleepsFully(w, start)
    ensures start + POLL_INTERVAL_S * p as real <= w.clock(p)
  {
    if p > 0 {
      ClockAdvances(w, start, p - 1);
      assert w.clock(p - 1) + POLL_INTERVAL_S <= w.clock(p - 1 + 1);
    }
  }

  /** The loop stops in the first pass that settles anything, with that pass's outcome, and within the bound. */
  method AcquireAnySlot(w: World, slots: nat, timeout: int, start: real) returns (outcome: Outcome, passes: nat)
    requires SleepsFully(w, start)
    ensures 1 <= passes <= PassBound(timeout)
    ensures Decides(w, slots, Deadline(start, timeout), passes - 1, outcome)
    ensures forall p: nat :: p < passes - 1 ==> KeepsWaiting(w, slots, Deadline(start, timeout), p)
  {
    var deadline := Deadline(start, timeout);
    passes := 0;
    while true
      invariant passes < PassBound(timeout)
      invariant forall p: nat :: p < passes ==> KeepsWaiting(w, slots, deadline, p)
      decreases PassBound(timeout) - passes
    {
      if !w.parentAlive(passes) {
        return Abandoned, passes + 1;
      }
      for k := 0 to slots
        invariant forall j: nat :: j < k ==> w.taken(passes, j)
      {
        if !w.taken(passes, k) {
          return Acquired(k), passes + 1;
        }
      }
      if w.clock(passes) >= deadline {
        return TimedOut, passes + 1;
      }
      ClockAdvances(w, start, passes);
      assert KeepsWaiting(w, slots, deadline, passes);
      passes := passes + 1;
    }
  }

  /** The bound is reached: on a busy host whose sleeps are exact, only the last pass can stop the loop. */
  lemma BoundIsReached(slots: nat, timeout: int, p: nat)
    requires p + 1 < PassBound(timeout)
    ensures
      var w := World(_ => true, (_, _) => true, (q: nat) => POLL_INTERVAL_S * q as real);
      SleepsFully(w, 0.0) && KeepsWaiting(w, slots, Deadline(0.0, timeout), p)
  {
  }

  /** A pass has one outcome, so the loop's answer is determined by what it observes. */
  lemma OutcomeUnique(w: World, slots: nat, deadline: real, p: nat, a: Outcome, b: Outcome)
    requires Decides(w, slots, deadline, p, a) && Decides(w, slots, deadline, p, b)
    ensures a == b
  {
    if a.Acquired? && b.Acquired? {
      assert !(a.slot < b.slot) && !(b.slot < a.slot);
    }
  }
}
