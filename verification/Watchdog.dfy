/** The liveness watchdog: one tick reads the persisted marker, decides, acts, and writes the merged marker
    back (scripts/factory_liveness_watchdog.py, with scripts/liveness/credit_probe.py).

    Probes and effects are inputs of a tick. The theorems are about whole sequences of ticks. */
module Watchdog {
  import opened Wrappers

  // ---- inputs and the persisted marker ----

  datatype BootAction = Start | ResyncReboot | NoAction

  /** What the boot guard and the credit probe find, when the watchdog runs with a workspace. */
  datatype Kernel = Kernel(boot: BootAction, rebootSucceeds: bool, creditsPaused: bool)

  datatype Tick = Tick(healthzOk: bool, eventsAge: Option<real>, staleThreshold: real, restartEnabled: bool,
                       now: string, kernel: Option<Kernel>, dryRun: bool)

  /** The marker file's fields; an absent field is `None`, a missing file is no marker at all. */
  datatype Marker = Marker(downSince: Option<string>, lastChecked: Option<string>, restarted: bool,
                           staleRebootAt: Option<string>, pausedTicks: nat)

  const NO_FIELDS := Marker(None, None, false, None, 0)

  const STUCK_THRESHOLD_TICKS := 6

  // ---- down detection ----

  predicate IsDown(t: Tick) {
    !t.healthzOk || (t.eventsAge.Some? && t.eventsAge.value > t.staleThreshold)
  }

  datatype Notice = Silent | Recovered(downSince: string) | Down(downSince: string, restarting: bool)

  datatype Decision = Decision(isDown: bool, notice: Notice, shouldRestart: bool, newMarker: Option<Marker>)

  /** A field as text, the way Python prints a missing one. */
  function Shown(field: Option<string>, missing: string): string {
    if field.Some? then field.value else missing
  }

  function Decide(t: Tick, marker: Option<Marker>): Decision {
    if !IsDown(t) then
      Decision(false, if marker.None? then Silent else Recovered(Shown(marker.value.downSince, "unknown")), false, None)
    else
      var downSince := if marker.Some? then Shown(marker.value.downSince, "None") else t.now;
      var already := marker.Some? && marker.value.restarted;
      var restart := t.restartEnabled && !already;
      Decision(true, Down(downSince, restart), restart,
               Some(Marker(Some(downSince), Some(t.now), already || restart, None, 0)))
  }

  // ---- the boot guard and the credit probe ----

  datatype Guard = Guard(staleRebootAt: Option<string>, rebooted: bool, started: bool)

  function BootGuard(k: Kernel, prior: Option<string>, now: string, dryRun: bool): Guard {
    match k.boot
    case ResyncReboot =>
      if prior.Some? || dryRun then Guard(prior, false, false)
      else Guard(if k.rebootSucceeds then Some(now) else prior, k.rebootSucceeds, false)
    case Start => Guard(None, false, !dryRun)
    case NoAction => Guard(None, false, false)
  }

  datatype Credit = Credit(pausedTicks: nat, refreshes: bool)

  function CreditProbe(k: Kernel, priorTicks: nat): Credit {
    if !k.creditsPaused then Credit(0, false)
    else if priorTicks + 1 > STUCK_THRESHOLD_TICKS then Credit(0, true)
    else Credit(priorTicks + 1, false)
  }

  // ---- one tick ----

  /** What a tick did to the factory. */
  datatype Effects = Effects(notice: Notice, restarted: bool, rebooted: bool, started: bool, refreshed: bool)

  /** The kernel's incident fields are merged into the down-detection marker; an empty marker is no file. */
  function Merge(down: Option<Marker>, staleRebootAt: Option<string>, pausedTicks: nat): Option<Marker> {
    if down.None? && staleRebootAt.None? && pausedTicks == 0 then None
    else
      var base := if down.Some? then down.value else NO_FIELDS;
      Some(base.(staleRebootAt := staleRebootAt, pausedTicks := pausedTicks))
  }

  function RunTick(t: Tick, marker: Option<Marker>): (Option<Marker>, Effects) {
    var d := Decide(t, marker);
    var prior := if marker.Some? then marker.value else NO_FIELDS;
    var guard := if t.kernel.Some? then BootGuard(t.kernel.value, prior.staleRebootAt, t.now, t.dryRun)
                 else Guard(None, false, false);
    var credit := if t.kernel.Some? then CreditProbe(t.kernel.value, prior.pausedTicks) else Credit(0, false);
    if t.dryRun then (marker, Effects(Silent, false, false, false, false))
    else (Merge(d.newMarker, guard.staleRebootAt, credit.pausedTicks),
          Effects(d.notice, d.shouldRestart, guard.rebooted, guard.started, credit.refreshes))
  }

  /** The marker file, read and rewritten by each tick. */
  class MarkerFile {
    var marker: Option<Marker>

    constructor ()
      ensures marker == None
    {
      marker := None;
    }

    method Run(t: Tick) returns (e: Effects)
      modifies this
      ensures (marker, e) == RunTick(t, old(marker))
      ensures t.dryRun ==> marker == old(marker)
      ensures marker != Some(NO_FIELDS) || t.dryRun
    {
      var d := Decide(t, marker);
      var sra: Option<string>, pausedTicks: nat := None, 0;
      e := Effects(d.notice, d.shouldRestart, false, false, false);
      if t.kernel.Some? {
        var prior := if marker.Some? then marker.value else NO_FIELDS;
        var guard := BootGuard(t.kernel.value, prior.staleRebootAt, t.now, t.dryRun);
        var credit := CreditProbe(t.kernel.value, prior.pausedTicks);
        sra, pausedTicks := guard.staleRebootAt, credit.pausedTicks;
        e := e.(rebooted := guard.rebooted, started := guard.started, refreshed := credit.refreshes);
      }
      if t.dryRun {
        return Effects(Silent, false, false, false, false);
      }
      var final := Merge(d.newMarker, sra, pausedTicks);
      marker := final;
    }
  }

  // ---- runs ----

  /** The marker after a run of ticks that starts with marker `m`. */
  function MarkerAfter(m: Option<Marker>, ticks: seq<Tick>): Option<Marker> {
    if ticks == [] then m
    else RunTick(ticks[|ticks| - 1], MarkerAfter(m, ticks[..|ticks| - 1])).0
  }

  function EffectsAt(m: Option<Marker>, ticks: seq<Tick>, i: nat): Effects
    requires i < |ticks|
  {
    RunTick(ticks[i], MarkerAfter(m, ticks[..i])).1
  }

  /** A real tick that finds the factory up. */
  predicate IsUpTick(t: Tick) {
    !t.dryRun && !IsDown(t)
  }

  /** A real tick whose boot decision is not to resync and reboot, or that made none. */
  predicate ClearsReboot(t: Tick) {
    !t.dryRun && (t.kernel.None? || t.kernel.value.boot != ResyncReboot)
  }

  /** Something fired (or was on record at the start) and nothing has cleared it in the `n` ticks so far. */
  ghost predicate Latched(n: nat, onRecord: bool, fires: nat -> bool, clears: nat -> bool) {
    || (onRecord && forall k :: 0 <= k < n ==> !clears(k))
    || exists j :: 0 <= j < n && FiredAndStands(n, j, fires, clears)
  }

  ghost predicate FiredAndStands(n: nat, j: nat, fires: nat -> bool, clears: nat -> bool) {
    fires(j) && forall k :: j < k < n ==> !clears(k)
  }

  lemma LatchedStep(n: nat, onRecord: bool, fires: nat -> bool, clears: nat -> bool)
    ensures Latched(n + 1, onRecord, fires, clears) <==>
            fires(n) || (!clears(n) && Latched(n, onRecord, fires, clears))
  {
    if fires(n) {
      assert FiredAndStands(n + 1, n, fires, clears);
    }
    if !clears(n) {
      if j :| 0 <= j < n && FiredAndStands(n, j, fires, clears) {
        assert FiredAndStands(n + 1, j, fires, clears);
      }
    }
    var next := n + 1;
    if j :| 0 <= j < next && FiredAndStands(next, j, fires, clears) {
      if j < n {
        assert FiredAndStands(n, j, fires, clears);
      }
    }
  }

  function RestartsIn(m: Option<Marker>, ticks: seq<Tick>): nat -> bool {
    (i: nat) => i < |ticks| && EffectsAt(m, ticks, i).restarted
  }

  function RebootsIn(m: Option<Marker>, ticks: seq<Tick>): nat -> bool {
    (i: nat) => i < |ticks| && EffectsAt(m, ticks, i).rebooted
  }

  function UpIn(ticks: seq<Tick>): nat -> bool {
    (i: nat) => i < |ticks| && IsUpTick(ticks[i])
  }

  function ClearIn(ticks: seq<Tick>): nat -> bool {
    (i: nat) => i < |ticks| && ClearsReboot(ticks[i])
  }

  predicate HasRestarted(m: Option<Marker>) {
    m.Some? && m.value.restarted
  }

  predicate HasRebooted(m: Option<Marker>) {
    m.Some? && m.value.staleRebootAt.Some?
  }

  lemma NextMarker(m: Option<Marker>, ticks: seq<Tick>, n: nat)
    requires n < |ticks|
    ensures MarkerAfter(m, ticks[..n + 1]) == RunTick(ticks[n], MarkerAfter(m, ticks[..n])).0
  {
    assert ticks[..n + 1][..n] == ticks[..n];
  }

  /** One tick sets a flag when it acts, and drops it only on a tick that ends the incident. */
  lemma FlagStep(t: Tick, m: Option<Marker>)
    ensures HasRestarted(RunTick(t, m).0) <==> RunTick(t, m).1.restarted || (!IsUpTick(t) && HasRestarted(m))
    ensures HasRebooted(RunTick(t, m).0) <==> RunTick(t, m).1.rebooted || (!ClearsReboot(t) && HasRebooted(m))
  {
  }

  /** The persisted flag says exactly that a restart stands with no up tick since. */
  lemma {:induction false} RestartLatch(m: Option<Marker>, ticks: seq<Tick>, n: nat)
    requires n <= |ticks|
    ensures HasRestarted(MarkerAfter(m, ticks[..n])) <==> Latched(n, HasRestarted(m), RestartsIn(m, ticks), UpIn(ticks))
  {
    if n > 0 {
      RestartLatch(m, ticks, n - 1);
      NextMarker(m, ticks, n - 1);
      FlagStep(ticks[n - 1], MarkerAfter(m, ticks[..n - 1]));
      LatchedStep(n - 1, HasRestarted(m), RestartsIn(m, ticks), UpIn(ticks));
    }
  }

  /** The persisted time says exactly that a stale-boot reboot stands, although up ticks clear the rest of the file. */
  lemma {:induction false} RebootLatch(m: Option<Marker>, ticks: seq<Tick>, n: nat)
    requires n <= |ticks|
    ensures HasRebooted(MarkerAfter(m, ticks[..n])) <==> Latched(n, HasRebooted(m), RebootsIn(m, ticks), ClearIn(ticks))
  {
    if n > 0 {
      RebootLatch(m, ticks, n - 1);
      NextMarker(m, ticks, n - 1);
      FlagStep(ticks[n - 1], MarkerAfter(m, ticks[..n - 1]));
      LatchedStep(n - 1, HasRebooted(m), RebootsIn(m, ticks), ClearIn(ticks));
    }
  }

  /** When the watchdog restarts: on a real, enabled down tick with no restart standing in this incident. */
  lemma RestartExactly(m: Option<Marker>, ticks: seq<Tick>, i: nat)
    requires i < |ticks|
    ensures RestartsIn(m, ticks)(i) <==>
            && !ticks[i].dryRun && ticks[i].restartEnabled
            && (!ticks[i].healthzOk || (ticks[i].eventsAge.Some? && ticks[i].eventsAge.value > ticks[i].staleThreshold))
            && !Latched(i, HasRestarted(m), RestartsIn(m, ticks), UpIn(ticks))
  {
    RestartLatch(m, ticks, i);
  }

  /** When the boot guard reboots: on a real tick that finds a stale boot, with no reboot standing. */
  lemma RebootExactly(m: Option<Marker>, ticks: seq<Tick>, i: nat)
    requires i < |ticks|
    ensures RebootsIn(m, ticks)(i) <==>
            && !ticks[i].dryRun && ticks[i].kernel.Some? && ticks[i].kernel.value.boot == ResyncReboot
            && ticks[i].kernel.value.rebootSucceeds
            && !Latched(i, HasRebooted(m), RebootsIn(m, ticks), ClearIn(ticks))
  {
    RebootLatch(m, ticks, i);
  }

  /** The time on record is that of the reboot, until it is cleared. */
  lemma RebootTime(t: Tick, m: Option<Marker>)
    ensures
      var (next, effects) := RunTick(t, m);
      && (effects.rebooted ==> next.Some? && next.value.staleRebootAt == Some(t.now))
      && (!effects.rebooted && !ClearsReboot(t) ==>
            (if next.Some? then next.value.staleRebootAt else None) == if m.Some? then m.value.staleRebootAt else None)
  {
  }

  /** When the boot guard starts the factory: on every real tick with a workspace that decides to start it. */
  lemma StartExactly(m: Option<Marker>, ticks: seq<Tick>, i: nat)
    requires i < |ticks|
    ensures EffectsAt(m, ticks, i).started <==>
            !ticks[i].dryRun && ticks[i].kernel.Some? && ticks[i].kernel.value.boot == Start
  {
  }

  /** Over every run from every persisted marker, two automated restarts are separated by an up tick. */
  lemma RestartsAreSeparated(m: Option<Marker>, ticks: seq<Tick>, i: nat, j: nat)
    requires i < j < |ticks| && RestartsIn(m, ticks)(i) && RestartsIn(m, ticks)(j)
    ensures exists k :: i < k < j && IsUpTick(ticks[k])
  {
    RestartExactly(m, ticks, j);
    assert !FiredAndStands(j, i, RestartsIn(m, ticks), UpIn(ticks));
  }

  /** And two successful stale-boot reboots by a real tick that did not decide to resync and reboot. */
  lemma RebootsAreSeparated(m: Option<Marker>, ticks: seq<Tick>, i: nat, j: nat)
    requires i < j < |ticks| && RebootsIn(m, ticks)(i) && RebootsIn(m, ticks)(j)
    ensures exists k :: i < k < j && ClearsReboot(ticks[k])
  {
    RebootExactly(m, ticks, j);
    assert !FiredAndStands(j, i, RebootsIn(m, ticks), ClearIn(ticks));
  }

  // ---- why the two machines' fields are merged ----

  /** The tick as it would be if only the down detector's own marker were written back. */
  function UnmergedTick(t: Tick, marker: Option<Marker>): (Option<Marker>, Effects) {
    if t.dryRun then RunTick(t, marker) else (Decide(t, marker).newMarker, RunTick(t, marker).1)
  }

  /** The tick as it would be if only the boot guard's own field were written back. */
  function GuardOnlyTick(t: Tick, marker: Option<Marker>): (Option<Marker>, Effects) {
    var m := RunTick(t, marker).0;
    (if m.Some? && m.value.staleRebootAt.Some? then Some(NO_FIELDS.(staleRebootAt := m.value.staleRebootAt)) else None,
     RunTick(t, marker).1)
  }

  const STALE_UP_TICK := Tick(true, None, 900.0, false, "t", Some(Kernel(ResyncReboot, true, false)), false)
  const DOWN_TICK := Tick(false, None, 900.0, true, "t", Some(Kernel(NoAction, false, false)), false)

  /** Either machine alone would clear the file the other one relies on: the unmerged writes act twice in one
      incident, the merged write does not. */
  lemma MergeIsNeeded()
    ensures
      var first := UnmergedTick(STALE_UP_TICK, None);
      first.1.rebooted && UnmergedTick(STALE_UP_TICK, first.0).1.rebooted
    ensures
      var first := GuardOnlyTick(DOWN_TICK, None);
      first.1.restarted && GuardOnlyTick(DOWN_TICK, first.0).1.restarted
    ensures !RunTick(STALE_UP_TICK, RunTick(STALE_UP_TICK, None).0).1.rebooted
    ensures !RunTick(DOWN_TICK, RunTick(DOWN_TICK, None).0).1.restarted
  {
  }

  // ---- the credit pause ----

  /** Consecutive paused ticks at the end of the run; dry runs do not count. */
  function PauseStreak(ticks: seq<Tick>): nat {
    if ticks == [] then 0
    else
      var t, before := ticks[|ticks| - 1], PauseStreak(ticks[..|ticks| - 1]);
      if t.dryRun then before
      else if IsPausedTick(t) then before + 1 else 0
  }

  function PausedTicks(m: Option<Marker>): nat {
    if m.Some? then m.value.pausedTicks else 0
  }

  predicate IsPausedTick(t: Tick) {
    t.kernel.Some? && t.kernel.value.creditsPaused
  }

  lemma PauseStep(t: Tick, m: Option<Marker>)
    ensures t.dryRun ==> PausedTicks(RunTick(t, m).0) == PausedTicks(m)
    ensures !t.dryRun && !IsPausedTick(t) ==> PausedTicks(RunTick(t, m).0) == 0
    ensures !t.dryRun && IsPausedTick(t) ==>
              PausedTicks(RunTick(t, m).0) == if PausedTicks(m) < STUCK_THRESHOLD_TICKS then PausedTicks(m) + 1 else 0
  {
  }

  lemma NextModulo(streak: nat)
    ensures (streak + 1) % 7 == if streak % 7 < 6 then streak % 7 + 1 else 0
  {
  }

  /** The persisted counter is the streak modulo seven, so a refresh is requested on every seventh paused tick. */
  lemma {:induction false} PauseCounter(ticks: seq<Tick>)
    ensures PausedTicks(MarkerAfter(None, ticks)) == PauseStreak(ticks) % 7
  {
    if ticks != [] {
      var init := ticks[..|ticks| - 1];
      PauseCounter(init);
      PauseStep(ticks[|ticks| - 1], MarkerAfter(None, init));
      NextModulo(PauseStreak(init));
    }
  }

  lemma RefreshEverySeventh(ticks: seq<Tick>, i: nat)
    requires i < |ticks|
    ensures EffectsAt(None, ticks, i).refreshed <==>
            && !ticks[i].dryRun && PauseStreak(ticks[..i + 1]) > 0
            && PauseStreak(ticks[..i + 1]) % 7 == 0
  {
    PauseCounter(ticks[..i]);
    NextModulo(PauseStreak(ticks[..i]));
    assert ticks[..i + 1][..i] == ticks[..i];
  }

  // ---- what the notices may say ----

  /** The last real tick found the factory down. */
  function WasDown(ticks: seq<Tick>): bool {
    if ticks == [] then false
    else
      var t := ticks[|ticks| - 1];
      if t.dryRun then WasDown(ticks[..|ticks| - 1]) else IsDown(t)
  }

  /** The time of the first down tick of the incident that the run ends in. */
  function IncidentStart(ticks: seq<Tick>): string
    requires WasDown(ticks)
  {
    var init, t := ticks[..|ticks| - 1], ticks[|ticks| - 1];
    if t.dryRun || WasDown(init) then IncidentStart(init) else t.now
  }

  /** Without a workspace the marker exists exactly during an incident and carries the incident's start. */
  lemma {:induction false} MarkerIsIncident(ticks: seq<Tick>)
    requires forall t :: t in ticks ==> t.kernel.None?
    ensures MarkerAfter(None, ticks).Some? <==> WasDown(ticks)
    ensures WasDown(ticks) ==> MarkerAfter(None, ticks).value.downSince == Some(IncidentStart(ticks))
  {
    if ticks != [] {
      MarkerIsIncident(ticks[..|ticks| - 1]);
    }
  }

  /** So a recovery is announced exactly on the first up tick after an incident, with the right start. */
  lemma RecoveryExactly(ticks: seq<Tick>, i: nat)
    requires i < |ticks| && forall t :: t in ticks ==> t.kernel.None?
    ensures EffectsAt(None, ticks, i).notice.Recovered? <==> IsUpTick(ticks[i]) && WasDown(ticks[..i])
    ensures IsUpTick(ticks[i]) && WasDown(ticks[..i]) ==>
              EffectsAt(None, ticks, i).notice == Recovered(IncidentStart(ticks[..i]))
  {
    MarkerIsIncident(ticks[..i]);
  }

  /** The factory is announced as down on exactly the real ticks that find it down, with the word whether this tick
      restarts it, and the marker is stamped with the tick's time. */
  lemma DownNoticeExactly(m: Option<Marker>, ticks: seq<Tick>, i: nat)
    requires i < |ticks|
    ensures EffectsAt(m, ticks, i).notice.Down? <==>
            && !ticks[i].dryRun
            && (!ticks[i].healthzOk || (ticks[i].eventsAge.Some? && ticks[i].eventsAge.value > ticks[i].staleThreshold))
    ensures EffectsAt(m, ticks, i).notice.Down? ==>
              && EffectsAt(m, ticks, i).notice.restarting == EffectsAt(m, ticks, i).restarted
              && MarkerAfter(m, ticks[..i + 1]).Some?
              && MarkerAfter(m, ticks[..i + 1]).value.lastChecked == Some(ticks[i].now)
  {
    NextMarker(m, ticks, i);
  }

  /** Without a workspace it names the start of the incident. */
  lemma DownSinceExactly(ticks: seq<Tick>, i: nat)
    requires i < |ticks| && forall t :: t in ticks ==> t.kernel.None?
    ensures EffectsAt(None, ticks, i).notice.Down? ==>
              && WasDown(ticks[..i + 1])
              && EffectsAt(None, ticks, i).notice.downSince == IncidentStart(ticks[..i + 1])
  {
    MarkerIsIncident(ticks[..i]);
    assert ticks[..i + 1][..i] == ticks[..i];
  }

  /** With a workspace a marker may hold kernel fields only: a factory that was never down is announced as recovered. */
  lemma RecoveryWithoutIncident()
    ensures !WasDown([STALE_UP_TICK])
    ensures EffectsAt(None, [STALE_UP_TICK, STALE_UP_TICK], 1).notice == Recovered("unknown")
  {
    assert [STALE_UP_TICK, STALE_UP_TICK][..1] == [STALE_UP_TICK];
    assert [STALE_UP_TICK][..0] == [];
  }

  lemma {:induction false} MarkerExactly(ticks: seq<Tick>)
    ensures MarkerAfter(None, ticks).Some? <==>
            || WasDown(ticks)
            || HasRebooted(MarkerAfter(None, ticks)) || PausedTicks(MarkerAfter(None, ticks)) > 0
  {
    if ticks != [] {
      MarkerExactly(ticks[..|ticks| - 1]);
    }
  }

  /** In general an up tick announces a recovery exactly when the factory was down, a stale-boot reboot stands,
      or a credit pause is being counted. */
  lemma RecoveryNoticeExactly(ticks: seq<Tick>, i: nat)
    requires i < |ticks|
    ensures EffectsAt(None, ticks, i).notice.Recovered? <==>
            && IsUpTick(ticks[i])
            && (|| WasDown(ticks[..i])
                || Latched(i, false, RebootsIn(None, ticks), ClearIn(ticks))
                || PauseStreak(ticks[..i]) % 7 != 0)
  {
    MarkerExactly(ticks[..i]);
    RebootLatch(None, ticks, i);
    PauseCounter(ticks[..i]);
  }

  /** Outside an incident the marker holds no start; in one it holds the text of one. */
  lemma {:induction false} StartIsRecorded(ticks: seq<Tick>)
    ensures MarkerAfter(None, ticks).Some? ==> (MarkerAfter(None, ticks).value.downSince.Some? <==> WasDown(ticks))
  {
    if ticks != [] {
      StartIsRecorded(ticks[..|ticks| - 1]);
    }
  }

  /** With a workspace, the first down tick of an incident names its own time exactly when neither a stale-boot reboot
      stands nor a credit pause is being counted; otherwise it names no time, and says "None". */
  lemma IncidentStartExactly(ticks: seq<Tick>, i: nat)
    requires i < |ticks| && !WasDown(ticks[..i]) && EffectsAt(None, ticks, i).notice.Down?
    ensures EffectsAt(None, ticks, i).notice.downSince ==
            if Latched(i, false, RebootsIn(None, ticks), ClearIn(ticks)) || PauseStreak(ticks[..i]) % 7 != 0
            then "None" else ticks[i].now
  {
    MarkerExactly(ticks[..i]);
    StartIsRecorded(ticks[..i]);
    RebootLatch(None, ticks, i);
    PauseCounter(ticks[..i]);
  }

  /** Every later tick of the incident repeats what the first one named. */
  lemma IncidentStartStays(ticks: seq<Tick>, i: nat)
    requires i < |ticks| && WasDown(ticks[..i]) && EffectsAt(None, ticks, i).notice.Down?
    ensures
      var marker, since := MarkerAfter(None, ticks[..i]), EffectsAt(None, ticks, i).notice.downSince;
      && marker.Some? && marker.value.downSince == Some(since)
      && MarkerAfter(None, ticks[..i + 1]).Some? && MarkerAfter(None, ticks[..i + 1]).value.downSince == Some(since)
  {
    MarkerExactly(ticks[..i]);
    StartIsRecorded(ticks[..i]);
    NextMarker(None, ticks, i);
  }
}
