/** What a run corpus can establish about the gate: resolving issue outcomes under the grace window,
    joining verdicts to them, and the reject arm that can never resolve
    (src/adequacy_calibration.py, with the join of src/judge_calibration.py). */
module Identifiability {
  import opened Wrappers
  import opened Sequences
  import opened Text
  import opened CorpusWalks

  // ---- issue outcomes and the grace window ----

  /** `escaped` is the escape-ledger reading, `closedAt` the instant the closing work landed. */
  datatype IssueOutcome = IssueOutcome(issue: int, closingPrs: seq<int>, escaped: Option<bool>, closedAt: Option<int>)

  predicate IsEligible(o: IssueOutcome) {
    o.escaped.Some? && o.closingPrs != []
  }

  predicate HasEscaped(o: IssueOutcome) {
    IsEligible(o) && o.escaped.value
  }

  /** A clean reading that will resolve once it is old enough. */
  predicate IsDatedClean(o: IssueOutcome) {
    IsEligible(o) && !o.escaped.value && o.closedAt.Some?
  }

  /** What one outcome says at `now`: an escape at once, a clean reading only past the grace window. */
  function Reading(o: IssueOutcome, now: int, grace: int): Option<bool> {
    if HasEscaped(o) then Some(true)
    else if IsDatedClean(o) && now - o.closedAt.value > grace then Some(false)
    else None
  }

  function Resolved(outcomes: seq<IssueOutcome>, now: int, grace: int): map<int, bool> {
    if outcomes == [] then map[]
    else
      var init, o := outcomes[..|outcomes| - 1], outcomes[|outcomes| - 1];
      var r := Reading(o, now, grace);
      if r.Some? then Resolved(init, now, grace)[o.issue := r.value] else Resolved(init, now, grace)
  }

  method ResolvedEscapes(outcomes: seq<IssueOutcome>, now: int, grace: int) returns (resolved: map<int, bool>)
    ensures resolved == Resolved(outcomes, now, grace)
  {
    resolved := map[];
    for i := 0 to |outcomes|
      invariant resolved == Resolved(outcomes[..i], now, grace)
    {
      var outcome := outcomes[i];
      assert outcomes[..i + 1][..i] == outcomes[..i];
      if outcome.escaped.None? || outcome.closingPrs == [] {
        continue;
      }
      if outcome.escaped.value {
        resolved := resolved[outcome.issue := true];
        continue;
      }
      if outcome.closedAt.None? || now - outcome.closedAt.value <= grace {
        continue;
      }
      resolved := resolved[outcome.issue := false];
    }
    TakeAll(outcomes);
  }

  /** The latest reading of an issue decides. */
  lemma {:induction false} ResolvedFromReading(outcomes: seq<IssueOutcome>, issue: int, now: int, grace: int)
    requires issue in Resolved(outcomes, now, grace)
    ensures exists i :: 0 <= i < |outcomes| && outcomes[i].issue == issue &&
                        Reading(outcomes[i], now, grace) == Some(Resolved(outcomes, now, grace)[issue])
  {
    var init, o := outcomes[..|outcomes| - 1], outcomes[|outcomes| - 1];
    if o.issue != issue || Reading(o, now, grace).None? {
      ResolvedFromReading(init, issue, now, grace);
      var i :| 0 <= i < |init| && init[i].issue == issue &&
               Reading(init[i], now, grace) == Some(Resolved(init, now, grace)[issue]);
      assert outcomes[i] == init[i];
    }
  }

  /** The row has a ledger reading and a closing pull request, and it is an escape or old enough. */
  predicate Counts(o: IssueOutcome, now: int, grace: int) {
    && o.closingPrs != [] && o.escaped.Some?
    && (o.escaped == Some(true) || (o.closedAt.Some? && now - o.closedAt.value > grace))
  }

  /** The last row of the issue that counts. */
  ghost predicate IsLastCounted(outcomes: seq<IssueOutcome>, i: int, now: int, grace: int) {
    && 0 <= i < |outcomes| && Counts(outcomes[i], now, grace)
    && forall k :: i < k < |outcomes| && outcomes[k].issue == outcomes[i].issue ==> !Counts(outcomes[k], now, grace)
  }

  /** An issue resolves to what the last row that counts says. */
  lemma {:induction false} ResolvedByLast(outcomes: seq<IssueOutcome>, i: nat, now: int, grace: int)
    requires IsLastCounted(outcomes, i, now, grace)
    ensures
      var issue, resolved := outcomes[i].issue, Resolved(outcomes, now, grace);
      issue in resolved && outcomes[i].escaped == Some(resolved[issue])
  {
    var init := outcomes[..|outcomes| - 1];
    if i < |init| {
      assert forall k :: 0 <= k < |init| ==> outcomes[k] == init[k];
      ResolvedByLast(init, i, now, grace);
    }
  }

  /** And only such an issue resolves. */
  lemma {:induction false} LastCounted(outcomes: seq<IssueOutcome>, issue: int, now: int, grace: int) returns (i: nat)
    requires issue in Resolved(outcomes, now, grace)
    ensures IsLastCounted(outcomes, i, now, grace) && outcomes[i].issue == issue
  {
    var init, o := outcomes[..|outcomes| - 1], outcomes[|outcomes| - 1];
    if o.issue == issue && Counts(o, now, grace) {
      i := |init|;
    } else {
      i := LastCounted(init, issue, now, grace);
      assert forall k :: 0 <= k < |init| ==> outcomes[k] == init[k];
    }
  }

  ghost predicate Extends(m: map<int, bool>, m': map<int, bool>) {
    forall k :: k in m ==> k in m' && m'[k] == m[k]
  }

  /** Waiting never takes a resolution back or turns it round. */
  ghost predicate IsSettled(outcomes: seq<IssueOutcome>, grace: int) {
    forall now, now' :: now <= now' ==> Extends(Resolved(outcomes, now, grace), Resolved(outcomes, now', grace))
  }

  /** The last escape recorded for the issue is followed by a dated clean reading of it. */
  ghost predicate IsOverridden(outcomes: seq<IssueOutcome>, issue: int) {
    exists i, j ::
      && 0 <= i < j < |outcomes| && outcomes[i].issue == outcomes[j].issue == issue
      && HasEscaped(outcomes[i]) && IsDatedClean(outcomes[j])
      && NoEscapeAfter(outcomes, issue, j)
  }

  ghost predicate NoEscapeAfter(outcomes: seq<IssueOutcome>, issue: int, j: int) {
    forall k :: j < k < |outcomes| && 0 <= k && outcomes[k].issue == issue ==> !HasEscaped(outcomes[k])
  }

  lemma OverriddenPrefix(outcomes: seq<IssueOutcome>, issue: int)
    requires outcomes != [] && IsOverridden(outcomes[..|outcomes| - 1], issue)
    requires outcomes[|outcomes| - 1].issue != issue || !HasEscaped(outcomes[|outcomes| - 1])
    ensures IsOverridden(outcomes, issue)
  {
    var init := outcomes[..|outcomes| - 1];
    var i, j :| && 0 <= i < j < |init| && init[i].issue == init[j].issue == issue
                && HasEscaped(init[i]) && IsDatedClean(init[j]) && NoEscapeAfter(init, issue, j);
    assert outcomes[i] == init[i] && outcomes[j] == init[j];
    assert NoEscapeAfter(outcomes, issue, j) by {
      forall k | j < k < |outcomes| && outcomes[k].issue == issue
        ensures !HasEscaped(outcomes[k])
      {
        assert k < |init| ==> outcomes[k] == init[k];
      }
    }
  }

  /** A resolution stays, and stays the same unless the issue's escape is overridden. */
  lemma {:induction false} LaterReadings(outcomes: seq<IssueOutcome>, issue: int, now: int, now': int, grace: int)
    requires now <= now' && issue in Resolved(outcomes, now, grace)
    ensures issue in Resolved(outcomes, now', grace)
    ensures Resolved(outcomes, now', grace)[issue] == Resolved(outcomes, now, grace)[issue]
            || IsOverridden(outcomes, issue)
  {
    var init, o := outcomes[..|outcomes| - 1], outcomes[|outcomes| - 1];
    if o.issue == issue && Reading(o, now, grace).Some? {
    } else {
      LaterReadings(init, issue, now, now', grace);
      if o.issue == issue && Reading(o, now', grace).Some? && Resolved(init, now, grace)[issue] {
        ResolvedFromReading(init, issue, now, grace);
        var i :| 0 <= i < |init| && init[i].issue == issue && Reading(init[i], now, grace) == Some(true);
        assert outcomes[i] == init[i] && NoEscapeAfter(outcomes, issue, |init|);
      } else if IsOverridden(init, issue) {
        OverriddenPrefix(outcomes, issue);
      }
    }
  }

  /** An instant before any clean reading is old enough, and one after all of them are. */
  lemma {:induction false} BeforeAndAfter(outcomes: seq<IssueOutcome>, grace: int) returns (early: int, late: int)
    ensures early <= late
    ensures forall o :: o in outcomes && o.closedAt.Some? ==>
                        early - o.closedAt.value <= grace < late - o.closedAt.value
  {
    if outcomes == [] {
      early, late := 0, 0;
    } else {
      var o := outcomes[0];
      early, late := BeforeAndAfter(outcomes[1..], grace);
      if o.closedAt.Some? {
        var t := o.closedAt.value + grace;
        early, late := if t < early then t else early, if t + 1 > late then t + 1 else late;
      }
    }
  }

  /** While no clean reading counts, an escape is all there is. */
  lemma {:induction false} EscapeWhileEarly(outcomes: seq<IssueOutcome>, i: nat, now: int, grace: int)
    requires i < |outcomes| && HasEscaped(outcomes[i])
    requires forall o :: o in outcomes ==> Reading(o, now, grace) != Some(false)
    ensures outcomes[i].issue in Resolved(outcomes, now, grace) && Resolved(outcomes, now, grace)[outcomes[i].issue]
  {
    var init, o := outcomes[..|outcomes| - 1], outcomes[|outcomes| - 1];
    assert o in outcomes;
    if i < |init| {
      assert forall p :: p in init ==> p in outcomes;
      EscapeWhileEarly(init, i, now, grace);
    }
  }

  /** Once a clean reading counts and no escape follows it, the issue reads clean. */
  lemma {:induction false} CleanWhenLate(outcomes: seq<IssueOutcome>, j: nat, now: int, grace: int)
    requires j < |outcomes| && Reading(outcomes[j], now, grace) == Some(false)
    requires NoEscapeAfter(outcomes, outcomes[j].issue, j)
    ensures outcomes[j].issue in Resolved(outcomes, now, grace) && !Resolved(outcomes, now, grace)[outcomes[j].issue]
  {
    var init, o := outcomes[..|outcomes| - 1], outcomes[|outcomes| - 1];
    if j < |init| {
      assert NoEscapeAfter(init, outcomes[j].issue, j) by {
        forall k | j < k < |init| && init[k].issue == outcomes[j].issue
          ensures !HasEscaped(init[k])
        {
          assert init[k] == outcomes[k];
        }
      }
      CleanWhenLate(init, j, now, grace);
    }
  }

  /** Waiting is safe exactly when no issue's last escape is followed by a dated clean reading. */
  lemma SettledExactly(outcomes: seq<IssueOutcome>, grace: int)
    ensures IsSettled(outcomes, grace) <==> !exists issue :: IsOverridden(outcomes, issue)
  {
    if issue :| IsOverridden(outcomes, issue) {
      var i, j :| && 0 <= i < j < |outcomes| && outcomes[i].issue == outcomes[j].issue == issue
                  && HasEscaped(outcomes[i]) && IsDatedClean(outcomes[j]) && NoEscapeAfter(outcomes, issue, j);
      var early, late := BeforeAndAfter(outcomes, grace);
      EscapeWhileEarly(outcomes, i, early, grace);
      assert outcomes[j] in outcomes;
      CleanWhenLate(outcomes, j, late, grace);
      assert !Extends(Resolved(outcomes, early, grace), Resolved(outcomes, late, grace));
    } else {
      forall now, now', issue | now <= now' && issue in Resolved(outcomes, now, grace)
        ensures issue in Resolved(outcomes, now', grace)
        ensures Resolved(outcomes, now', grace)[issue] == Resolved(outcomes, now, grace)[issue]
      {
        LaterReadings(outcomes, issue, now, now', grace);
      }
    }
  }

  ghost predicate DistinctIssues(outcomes: seq<IssueOutcome>) {
    forall i, j :: 0 <= i < j < |outcomes| ==> outcomes[i].issue != outcomes[j].issue
  }

  lemma DistinctIssuesSettle(outcomes: seq<IssueOutcome>, grace: int)
    requires DistinctIssues(outcomes)
    ensures IsSettled(outcomes, grace)
  {
    SettledExactly(outcomes, grace);
  }

  /** Two rows for one issue: the escape is seen, and a week later it is gone. */
  lemma RepeatedIssueCanFlip()
    ensures
      var rows := [IssueOutcome(7, [41], Some(true), Some(0)), IssueOutcome(7, [42], Some(false), Some(0))];
      Resolved(rows, 1, 7) == map[7 := true] && Resolved(rows, 8, 7) == map[7 := false]
  {
    var first := IssueOutcome(7, [41], Some(true), Some(0));
    var rows := [first, IssueOutcome(7, [42], Some(false), Some(0))];
    assert rows[..1] == [first] && [first][..0] == [];
  }

  // ---- resolved and grace-censored outcomes add up ----

  function IsEligibleFn(): IssueOutcome -> bool {
    (o: IssueOutcome) => IsEligible(o)
  }

  function IsCensored(resolved: map<int, bool>): IssueOutcome -> bool {
    (o: IssueOutcome) => o.escaped == Some(false) && o.closingPrs != [] && o.issue !in resolved
  }

  function Reads(now: int, grace: int): IssueOutcome -> bool {
    (o: IssueOutcome) => Reading(o, now, grace).Some?
  }

  lemma {:induction false} ResolvedCount(outcomes: seq<IssueOutcome>, now: int, grace: int)
    ensures |Resolved(outcomes, now, grace)| <= |Filter(outcomes, Reads(now, grace))|
    ensures DistinctIssues(outcomes) ==> |Resolved(outcomes, now, grace)| == |Filter(outcomes, Reads(now, grace))|
    ensures forall k :: k in Resolved(outcomes, now, grace) ==> exists o :: o in outcomes && o.issue == k
  {
    if outcomes != [] {
      var init, o := outcomes[..|outcomes| - 1], outcomes[|outcomes| - 1];
      ResolvedCount(init, now, grace);
      assert outcomes == init + [o];
      FilterLast(init, o, Reads(now, grace));
      var before, after := Resolved(init, now, grace), Resolved(outcomes, now, grace);
      if Reading(o, now, grace).Some? {
        assert after.Keys == before.Keys + {o.issue};
        assert |after| == |after.Keys| && |before| == |before.Keys|;
      }
    }
  }

  lemma {:induction false} ReadIsResolved(outcomes: seq<IssueOutcome>, o: IssueOutcome, now: int, grace: int)
    requires o in outcomes && Reading(o, now, grace).Some?
    ensures o.issue in Resolved(outcomes, now, grace)
  {
    if o != outcomes[|outcomes| - 1] {
      ReadIsResolved(outcomes[..|outcomes| - 1], o, now, grace);
    }
  }

  /** Every eligible outcome is either resolved or held back by the grace window, when issues are distinct;
      repeated issues can only lose some. */
  lemma ResolvedPlusCensored(outcomes: seq<IssueOutcome>, now: int, grace: int)
    ensures
      var resolved := Resolved(outcomes, now, grace);
      var total := |resolved| + |Filter(outcomes, IsCensored(resolved))|;
      && total <= |Filter(outcomes, IsEligibleFn())|
      && (DistinctIssues(outcomes) ==> total == |Filter(outcomes, IsEligibleFn())|)
  {
    var resolved := Resolved(outcomes, now, grace);
    ResolvedCount(outcomes, now, grace);
    forall o | o in outcomes && Reading(o, now, grace).Some?
      ensures o.issue in resolved
    {
      ReadIsResolved(outcomes, o, now, grace);
    }
    if DistinctIssues(outcomes) {
      forall o | o in outcomes && Reading(o, now, grace).None?
        ensures o.issue !in resolved
      {
        if o.issue in resolved {
          ResolvedFromReading(outcomes, o.issue, now, grace);
          assert false;
        }
      }
    }
    SplitEligible(outcomes, outcomes, resolved, now, grace);
  }

  lemma {:induction false} SplitEligible(
    part: seq<IssueOutcome>, outcomes: seq<IssueOutcome>, resolved: map<int, bool>, now: int, grace: int)
    requires forall o :: o in part ==> o in outcomes
    requires forall o :: o in outcomes && Reading(o, now, grace).Some? ==> o.issue in resolved
    ensures |Filter(part, Reads(now, grace))| + |Filter(part, IsCensored(resolved))| <= |Filter(part, IsEligibleFn())|
    ensures (forall o :: o in outcomes && Reading(o, now, grace).None? ==> o.issue !in resolved) ==>
              |Filter(part, Reads(now, grace))| + |Filter(part, IsCensored(resolved))| == |Filter(part, IsEligibleFn())|
  {
    if part != [] {
      SplitEligible(part[1..], outcomes, resolved, now, grace);
    }
  }

  // ---- verdicts and their join to outcomes ----

  datatype Verdict = Pass | Fail

  datatype JudgeVerdict = JudgeVerdict(subject: Subject, verdict: Verdict, confidence: real, at: int)

  datatype SubjectOutcome = SubjectOutcome(subject: Subject, good: bool)

  datatype Forecast = Forecast(subject: Subject, predictedGood: real, actualGood: bool)

  const BINARY_VERDICT_CONFIDENCE := 1.0

  /** What a verdict is about. The ledger stores the rendered text, which identifies the subject. */
  datatype Subject = SubjectForPr(pr: int) | SubjectForIssue(issue: int)

  function Render(s: Subject): string {
    match s
    case SubjectForPr(pr) => "pr:" + Signed(pr)
    case SubjectForIssue(issue) => "issue:" + Signed(issue)
  }

  /** Joining on the rendered text is joining on the subject. */
  lemma RenderInjective(s: Subject, t: Subject)
    ensures Render(s) == Render(t) <==> s == t
  {
    if Render(s) == Render(t) {
      assert Render(s)[0] == (if s.SubjectForPr? then 'p' else 'i');
      assert Render(t)[0] == (if t.SubjectForPr? then 'p' else 'i');
      if s.SubjectForPr? {
        assert Render(s)[3..] == Signed(s.pr) && Render(t)[3..] == Signed(t.pr);
        SignedInjective(s.pr, t.pr);
      } else {
        assert Render(s)[6..] == Signed(s.issue) && Render(t)[6..] == Signed(t.issue);
        SignedInjective(s.issue, t.issue);
      }
    }
  }

  function PrByIssue(outcomes: seq<IssueOutcome>): map<int, int> {
    if outcomes == [] then map[]
    else
      var init, o := outcomes[..|outcomes| - 1], outcomes[|outcomes| - 1];
      if o.closingPrs == [] then PrByIssue(init) else PrByIssue(init)[o.issue := o.closingPrs[0]]
  }

  /** One gate decision as a verdict; a run that never reached the gate gives none. */
  function VerdictOf(r: RunRecord, prs: map<int, int>): Option<JudgeVerdict> {
    match r.outcome
    case Accepted =>
      var subject := if r.issue in prs then SubjectForPr(prs[r.issue]) else SubjectForIssue(r.issue);
      Some(JudgeVerdict(subject, Pass, BINARY_VERDICT_CONFIDENCE, r.at))
    case Rejected => Some(JudgeVerdict(SubjectForIssue(r.issue), Fail, BINARY_VERDICT_CONFIDENCE, r.at))
    case NotReached => None
  }

  function Verdicts(records: seq<RunRecord>, prs: map<int, int>): seq<JudgeVerdict> {
    if records == [] then []
    else
      var v := VerdictOf(records[|records| - 1], prs);
      Verdicts(records[..|records| - 1], prs) + if v.Some? then [v.value] else []
  }

  method ToJudgeVerdicts(records: seq<RunRecord>, outcomes: seq<IssueOutcome>) returns (verdicts: seq<JudgeVerdict>)
    ensures verdicts == Verdicts(records, PrByIssue(outcomes))
  {
    var prByIssue: map<int, int> := map[];
    for i := 0 to |outcomes|
      invariant prByIssue == PrByIssue(outcomes[..i])
    {
      assert outcomes[..i + 1][..i] == outcomes[..i];
      if outcomes[i].closingPrs != [] {
        prByIssue := prByIssue[outcomes[i].issue := outcomes[i].closingPrs[0]];
      }
    }
    TakeAll(outcomes);
    verdicts := [];
    for i := 0 to |records|
      invariant verdicts == Verdicts(records[..i], prByIssue)
    {
      assert records[..i + 1][..i] == records[..i];
      var record := records[i];
      if record.outcome == Accepted {
        var subject := if record.issue in prByIssue then SubjectForPr(prByIssue[record.issue])
                       else SubjectForIssue(record.issue);
        verdicts := verdicts + [JudgeVerdict(subject, Pass, BINARY_VERDICT_CONFIDENCE, record.at)];
      } else if record.outcome == Rejected {
        verdicts := verdicts + [JudgeVerdict(SubjectForIssue(record.issue), Fail, BINARY_VERDICT_CONFIDENCE, record.at)];
      }
    }
    TakeAll(records);
  }

  function EscapeOutcomes(outcomes: seq<IssueOutcome>, resolved: map<int, bool>): seq<SubjectOutcome> {
    if outcomes == [] then []
    else
      var o := outcomes[|outcomes| - 1];
      EscapeOutcomes(outcomes[..|outcomes| - 1], resolved) +
      if o.issue in resolved && o.closingPrs != []
      then [SubjectOutcome(SubjectForPr(o.closingPrs[0]), !resolved[o.issue])] else []
  }

  function ToForecast(verdict: Verdict, confidence: real): real {
    var clamped := if confidence < 0.0 then 0.0 else if confidence > 1.0 then 1.0 else confidence;
    if verdict == Pass then clamped else 1.0 - clamped
  }

  function BySubject(outcomes: seq<SubjectOutcome>): map<Subject, bool> {
    if outcomes == [] then map[]
    else BySubject(outcomes[..|outcomes| - 1])[outcomes[|outcomes| - 1].subject := outcomes[|outcomes| - 1].good]
  }

  function Joined(verdicts: seq<JudgeVerdict>, good: map<Subject, bool>): seq<Forecast> {
    if verdicts == [] then []
    else
      var v := verdicts[|verdicts| - 1];
      Joined(verdicts[..|verdicts| - 1], good) +
      if v.subject in good then [Forecast(v.subject, ToForecast(v.verdict, v.confidence), good[v.subject])] else []
  }

  method Resolve(verdicts: seq<JudgeVerdict>, outcomes: seq<SubjectOutcome>) returns (forecasts: seq<Forecast>)
    ensures forecasts == Joined(verdicts, BySubject(outcomes))
  {
    var good: map<Subject, bool> := map[];
    for i := 0 to |outcomes|
      invariant good == BySubject(outcomes[..i])
    {
      assert outcomes[..i + 1][..i] == outcomes[..i];
      good := good[outcomes[i].subject := outcomes[i].good];
    }
    TakeAll(outcomes);
    forecasts := [];
    for i := 0 to |verdicts|
      invariant forecasts == Joined(verdicts[..i], good)
    {
      assert verdicts[..i + 1][..i] == verdicts[..i];
      var v := verdicts[i];
      if v.subject !in good {
        continue;
      }
      forecasts := forecasts + [Forecast(v.subject, ToForecast(v.verdict, v.confidence), good[v.subject])];
    }
    TakeAll(verdicts);
  }

  lemma JoinedNext(vs: seq<JudgeVerdict>, v: JudgeVerdict, good: map<Subject, bool>)
    ensures |Joined(vs + [v], good)| == |Joined(vs, good)| + if v.subject in good then 1 else 0
  {
    assert (vs + [v])[..|vs|] == vs;
  }

  lemma BySubjectNext(os: seq<SubjectOutcome>, o: SubjectOutcome)
    ensures BySubject(os + [o]) == BySubject(os)[o.subject := o.good]
  {
    assert (os + [o])[..|os|] == os;
  }

  lemma EscapeOutcomesNext(outcomes: seq<IssueOutcome>, o: IssueOutcome, resolved: map<int, bool>, subject: Subject)
    ensures subject in BySubject(EscapeOutcomes(outcomes + [o], resolved)) <==>
            || subject in BySubject(EscapeOutcomes(outcomes, resolved))
            || (o.issue in resolved && o.closingPrs != [] && subject == SubjectForPr(o.closingPrs[0]))
  {
    var so := EscapeOutcomes(outcomes, resolved);
    assert (outcomes + [o])[..|outcomes|] == outcomes;
    if o.issue in resolved && o.closingPrs != [] {
      BySubjectNext(so, SubjectOutcome(SubjectForPr(o.closingPrs[0]), !resolved[o.issue]));
    } else {
      assert so + [] == so;
    }
  }

  /** The outcome is resolved and `subject` is its pull request. */
  predicate Names(o: IssueOutcome, resolved: map<int, bool>, subject: Subject) {
    o.issue in resolved && o.closingPrs != [] && subject == SubjectForPr(o.closingPrs[0])
  }

  ghost predicate IsResolvedSubject(outcomes: seq<IssueOutcome>, resolved: map<int, bool>, subject: Subject) {
    exists i :: 0 <= i < |outcomes| && Names(outcomes[i], resolved, subject)
  }

  lemma ResolvedSubjectNext(outcomes: seq<IssueOutcome>, o: IssueOutcome, resolved: map<int, bool>, subject: Subject)
    ensures IsResolvedSubject(outcomes + [o], resolved, subject) <==>
            IsResolvedSubject(outcomes, resolved, subject) || Names(o, resolved, subject)
  {
    var all := outcomes + [o];
    assert all[|outcomes|] == o;
    if i :| 0 <= i < |outcomes| && Names(outcomes[i], resolved, subject) {
      assert all[i] == outcomes[i];
    }
  }

  /** The join keys on the outcome side are exactly the pull requests of resolved outcomes. */
  lemma {:induction false} SubjectsArePrs(outcomes: seq<IssueOutcome>, resolved: map<int, bool>, subject: Subject)
    ensures subject in BySubject(EscapeOutcomes(outcomes, resolved)) <==>
            IsResolvedSubject(outcomes, resolved, subject)
  {
    if outcomes != [] {
      var init, o := outcomes[..|outcomes| - 1], outcomes[|outcomes| - 1];
      SubjectsArePrs(init, resolved, subject);
      assert outcomes == init + [o];
      EscapeOutcomesNext(init, o, resolved, subject);
      ResolvedSubjectNext(init, o, resolved, subject);
    }
  }

  /** The last resolved row that closes with the pull request. */
  ghost predicate IsLastNamed(outcomes: seq<IssueOutcome>, i: int, resolved: map<int, bool>, pr: int) {
    && 0 <= i < |outcomes| && ClosesWith(outcomes[i], resolved, pr)
    && forall k :: i < k < |outcomes| ==> !ClosesWith(outcomes[k], resolved, pr)
  }

  lemma GoodNext(outcomes: seq<IssueOutcome>, o: IssueOutcome, resolved: map<int, bool>)
    ensures BySubject(EscapeOutcomes(outcomes + [o], resolved)) ==
            if o.issue in resolved && o.closingPrs != []
            then BySubject(EscapeOutcomes(outcomes, resolved))[SubjectForPr(o.closingPrs[0]) := !resolved[o.issue]]
            else BySubject(EscapeOutcomes(outcomes, resolved))
  {
    var so := EscapeOutcomes(outcomes, resolved);
    assert (outcomes + [o])[..|outcomes|] == outcomes;
    if o.issue in resolved && o.closingPrs != [] {
      BySubjectNext(so, SubjectOutcome(SubjectForPr(o.closingPrs[0]), !resolved[o.issue]));
    } else {
      assert so + [] == so;
    }
  }

  /** A pull request is good exactly when the issue of its last resolved row did not escape. */
  lemma {:induction false} GoodExactly(outcomes: seq<IssueOutcome>, i: nat, resolved: map<int, bool>, pr: int)
    requires IsLastNamed(outcomes, i, resolved, pr)
    ensures
      var good := BySubject(EscapeOutcomes(outcomes, resolved));
      SubjectForPr(pr) in good && (good[SubjectForPr(pr)] <==> resolved[outcomes[i].issue] == false)
  {
    var init, o := outcomes[..|outcomes| - 1], outcomes[|outcomes| - 1];
    assert outcomes == init + [o];
    GoodNext(init, o, resolved);
    if i < |init| {
      assert forall k :: 0 <= k < |init| ==> outcomes[k] == init[k];
      GoodExactly(init, i, resolved, pr);
    }
  }

  /** The last row of the issue that has a closing pull request. */
  ghost predicate IsLastClosed(outcomes: seq<IssueOutcome>, i: int) {
    && 0 <= i < |outcomes| && outcomes[i].closingPrs != []
    && forall k :: i < k < |outcomes| && outcomes[k].issue == outcomes[i].issue ==> outcomes[k].closingPrs == []
  }

  /** An issue is keyed to the first pull request of its last row that has one. */
  lemma {:induction false} PrOfLast(outcomes: seq<IssueOutcome>, i: nat)
    requires IsLastClosed(outcomes, i)
    ensures
      var issue, prs := outcomes[i].issue, PrByIssue(outcomes);
      issue in prs && prs[issue] == outcomes[i].closingPrs[0]
  {
    var init := outcomes[..|outcomes| - 1];
    if i < |init| {
      assert forall k :: 0 <= k < |init| ==> outcomes[k] == init[k];
      PrOfLast(init, i);
    }
  }

  /** And only such an issue has a key. */
  lemma {:induction false} LastClosed(outcomes: seq<IssueOutcome>, issue: int) returns (i: nat)
    requires issue in PrByIssue(outcomes)
    ensures IsLastClosed(outcomes, i) && outcomes[i].issue == issue
  {
    var init, o := outcomes[..|outcomes| - 1], outcomes[|outcomes| - 1];
    if o.issue == issue && o.closingPrs != [] {
      i := |init|;
    } else {
      i := LastClosed(init, issue);
      assert forall k :: 0 <= k < |init| ==> outcomes[k] == init[k];
    }
  }

  /** A pass predicts a good outcome with the given confidence and a fail the opposite, within the unit interval. */
  lemma ForecastFacts(confidence: real)
    ensures 0.0 <= ToForecast(Pass, confidence) <= 1.0
    ensures 0.0 <= confidence <= 1.0 ==> ToForecast(Pass, confidence) == confidence
    ensures confidence < 0.0 ==> ToForecast(Pass, confidence) == 0.0
    ensures confidence > 1.0 ==> ToForecast(Pass, confidence) == 1.0
    ensures ToForecast(Fail, confidence) + ToForecast(Pass, confidence) == 1.0
  {
  }

  // ---- the two arms ----

  function IsAccepted(): RunRecord -> bool {
    (r: RunRecord) => r.outcome == Accepted
  }

  /** How many verdicts of one arm join, given a test that says which. */
  lemma {:induction false} JoinedCount(
    records: seq<RunRecord>, prs: map<int, int>, good: map<Subject, bool>, joins: RunRecord -> bool)
    requires forall r :: r in records ==>
                         VerdictOf(r, prs).Some? && (joins(r) <==> VerdictOf(r, prs).value.subject in good)
    ensures |Joined(Verdicts(records, prs), good)| == |Filter(records, joins)|
  {
    if records != [] {
      var init, r := records[..|records| - 1], records[|records| - 1];
      JoinedCount(init, prs, good, joins);
      assert records == init + [r];
      FilterLast(init, r, joins);
      JoinedNext(Verdicts(init, prs), VerdictOf(r, prs).value, good);
    }
  }

  /** No rejection ever resolves, whatever the outcomes say and however long one waits. */
  lemma RejectArmIsCensored(
    records: seq<RunRecord>, prs: map<int, int>, outcomes: seq<IssueOutcome>, resolved: map<int, bool>)
    requires forall r :: r in records ==> r.outcome == Rejected
    ensures Joined(Verdicts(records, prs), BySubject(EscapeOutcomes(outcomes, resolved))) == []
  {
    var never := (r: RunRecord) => false;
    forall r | r in records
      ensures VerdictOf(r, prs).value.subject !in BySubject(EscapeOutcomes(outcomes, resolved))
    {
      var subject := VerdictOf(r, prs).value.subject;
      SubjectsArePrs(outcomes, resolved, subject);
    }
    JoinedCount(records, prs, BySubject(EscapeOutcomes(outcomes, resolved)), never);
    FilterNone(records, never);
  }

  /** The issue of the run has a closing pull request, and some resolved outcome closes with it. */
  ghost predicate HasResolvedPr(r: RunRecord, outcomes: seq<IssueOutcome>, resolved: map<int, bool>) {
    var prs := PrByIssue(outcomes);
    r.issue in prs && exists i :: 0 <= i < |outcomes| && ClosesWith(outcomes[i], resolved, prs[r.issue])
  }

  predicate ClosesWith(o: IssueOutcome, resolved: map<int, bool>, pr: int) {
    o.issue in resolved && o.closingPrs != [] && o.closingPrs[0] == pr
  }

  lemma NamedByPr(outcomes: seq<IssueOutcome>, resolved: map<int, bool>, pr: int)
    ensures IsResolvedSubject(outcomes, resolved, SubjectForPr(pr)) <==>
            exists i :: 0 <= i < |outcomes| && ClosesWith(outcomes[i], resolved, pr)
  {
    forall i | 0 <= i < |outcomes|
      ensures Names(outcomes[i], resolved, SubjectForPr(pr)) <==> ClosesWith(outcomes[i], resolved, pr)
    {
    }
  }

  ghost function Resolvable(outcomes: seq<IssueOutcome>, resolved: map<int, bool>): RunRecord -> bool {
    (r: RunRecord) => HasResolvedPr(r, outcomes, resolved)
  }

  /** An acceptance resolves exactly when the pull request it is keyed to is one of the resolved ones. */
  lemma AcceptanceResolves(r: RunRecord, outcomes: seq<IssueOutcome>, resolved: map<int, bool>)
    requires r.outcome == Accepted
    ensures VerdictOf(r, PrByIssue(outcomes)).value.subject in BySubject(EscapeOutcomes(outcomes, resolved))
            <==> HasResolvedPr(r, outcomes, resolved)
  {
    var prs := PrByIssue(outcomes);
    var subject := VerdictOf(r, prs).value.subject;
    SubjectsArePrs(outcomes, resolved, subject);
    if r.issue in prs {
      NamedByPr(outcomes, resolved, prs[r.issue]);
    }
  }

  /** The forecast is sure that the run's pull request is good, and says what became of it. */
  ghost predicate IsForecastOf(f: Forecast, r: RunRecord, outcomes: seq<IssueOutcome>, resolved: map<int, bool>) {
    && r.issue in PrByIssue(outcomes) && f.subject == SubjectForPr(PrByIssue(outcomes)[r.issue])
    && f.predictedGood == 1.0
    && exists i :: IsLastNamed(outcomes, i, resolved, PrByIssue(outcomes)[r.issue]) &&
                   (f.actualGood <==> resolved[outcomes[i].issue] == false)
  }

  lemma {:induction false} LastNamed(outcomes: seq<IssueOutcome>, resolved: map<int, bool>, pr: int) returns (i: nat)
    requires IsResolvedSubject(outcomes, resolved, SubjectForPr(pr))
    ensures IsLastNamed(outcomes, i, resolved, pr)
  {
    NamedByPr(outcomes, resolved, pr);
    var init, o := outcomes[..|outcomes| - 1], outcomes[|outcomes| - 1];
    if ClosesWith(o, resolved, pr) {
      i := |init|;
    } else {
      assert outcomes == init + [o];
      ResolvedSubjectNext(init, o, resolved, SubjectForPr(pr));
      i := LastNamed(init, resolved, pr);
    }
  }

  lemma JoinedAcceptance(r: RunRecord, outcomes: seq<IssueOutcome>, resolved: map<int, bool>)
    requires r.outcome == Accepted
    ensures
      var good, v := BySubject(EscapeOutcomes(outcomes, resolved)), VerdictOf(r, PrByIssue(outcomes)).value;
      v.subject in good ==>
        IsForecastOf(Forecast(v.subject, ToForecast(v.verdict, v.confidence), good[v.subject]), r, outcomes, resolved)
  {
    var subject := VerdictOf(r, PrByIssue(outcomes)).value.subject;
    SubjectsArePrs(outcomes, resolved, subject);
    if IsResolvedSubject(outcomes, resolved, subject) {
      var pr := PrByIssue(outcomes)[r.issue];
      var i := LastNamed(outcomes, resolved, pr);
      GoodExactly(outcomes, i, resolved, pr);
    }
  }

  lemma JoinedMembers(vs: seq<JudgeVerdict>, v: JudgeVerdict, good: map<Subject, bool>)
    ensures forall f :: f in Joined(vs + [v], good) <==>
                        || f in Joined(vs, good)
                        || (v.subject in good && f == Forecast(v.subject, ToForecast(v.verdict, v.confidence), good[v.subject]))
  {
    assert (vs + [v])[..|vs|] == vs;
  }

  ghost predicate IsForecast(f: Forecast, records: seq<RunRecord>, outcomes: seq<IssueOutcome>, resolved: map<int, bool>) {
    exists r :: r in records && IsForecastOf(f, r, outcomes, resolved)
  }

  /** Every forecast of the accept arm is that of one acceptance. */
  lemma {:induction false} AcceptArmForecasts(records: seq<RunRecord>, outcomes: seq<IssueOutcome>, resolved: map<int, bool>)
    requires forall r :: r in records ==> r.outcome == Accepted
    ensures forall f :: f in Joined(Verdicts(records, PrByIssue(outcomes)), BySubject(EscapeOutcomes(outcomes, resolved))) ==>
              IsForecast(f, records, outcomes, resolved)
  {
    if records != [] {
      var init, r := records[..|records| - 1], records[|records| - 1];
      assert records == init + [r];
      AcceptArmForecasts(init, outcomes, resolved);
      JoinedAcceptance(r, outcomes, resolved);
      JoinedMembers(Verdicts(init, PrByIssue(outcomes)), VerdictOf(r, PrByIssue(outcomes)).value,
                    BySubject(EscapeOutcomes(outcomes, resolved)));
    }
  }

  lemma AcceptArmCount(records: seq<RunRecord>, outcomes: seq<IssueOutcome>, resolved: map<int, bool>)
    requires forall r :: r in records ==> r.outcome == Accepted
    ensures |Joined(Verdicts(records, PrByIssue(outcomes)), BySubject(EscapeOutcomes(outcomes, resolved)))| ==
            |Filter(records, Resolvable(outcomes, resolved))|
  {
    forall r | r in records
      ensures Resolvable(outcomes, resolved)(r) <==>
              VerdictOf(r, PrByIssue(outcomes)).value.subject in BySubject(EscapeOutcomes(outcomes, resolved))
    {
      AcceptanceResolves(r, outcomes, resolved);
    }
    JoinedCount(records, PrByIssue(outcomes), BySubject(EscapeOutcomes(outcomes, resolved)), Resolvable(outcomes, resolved));
  }

  // ---- the honesty header ----

  datatype Reason = RejectArmCensored | GraceCensored(n: nat) | AcceptArmUnmeasured | AcceptArmThin(n: nat) | EmptyCorpus

  datatype Report = Report(
    nRejections: nat, nRejectionsResolved: nat, nAcceptances: nat, nAcceptancesResolved: nat,
    underDetermined: bool, reasons: seq<Reason>)

  const CONFIDENCE_FLOOR := 10

  function When(applies: bool, reason: Reason): (r: seq<Reason>)
    ensures forall x :: x in r <==> applies && x == reason
  {
    if applies then [reason] else []
  }

  function AcceptArmReasons(nResolved: nat): (r: seq<Reason>)
    ensures forall x :: x in r <==> || (nResolved == 0 && x == AcceptArmUnmeasured)
                                    || (0 < nResolved < 10 && x == AcceptArmThin(nResolved))
  {
    if nResolved == 0 then [AcceptArmUnmeasured] else When(nResolved < CONFIDENCE_FLOOR, AcceptArmThin(nResolved))
  }

  function Assess(nRejections: nat, nRejectionsResolved: nat, nAcceptances: nat, nAcceptancesResolved: nat,
                  nGraceCensored: nat): Report
  {
    var reasons := AllReasons(When(nRejections > 0 && nRejectionsResolved == 0, RejectArmCensored),
                              When(nGraceCensored > 0, GraceCensored(nGraceCensored)),
                              AcceptArmReasons(nAcceptancesResolved),
                              When(nRejections == 0 && nAcceptances == 0, EmptyCorpus));
    Report(nRejections, nRejectionsResolved, nAcceptances, nAcceptancesResolved, reasons != [], reasons)
  }

  function AllReasons(a: seq<Reason>, b: seq<Reason>, c: seq<Reason>, d: seq<Reason>): seq<Reason> {
    a + b + c + d
  }

  lemma InOneOf(a: seq<Reason>, b: seq<Reason>, c: seq<Reason>, d: seq<Reason>, x: Reason)
    ensures x in AllReasons(a, b, c, d) <==> x in a || x in b || x in c || x in d
  {
  }

  /** Every reason is given exactly when it applies. */
  lemma AssessFacts(nRejections: nat, nRejectionsResolved: nat, nAcceptances: nat, nAcceptancesResolved: nat,
                    nGraceCensored: nat, x: Reason)
    ensures
      var report := Assess(nRejections, nRejectionsResolved, nAcceptances, nAcceptancesResolved, nGraceCensored);
      x in report.reasons <==>
      match x
      case RejectArmCensored => nRejections > 0 && nRejectionsResolved == 0
      case GraceCensored(n) => n == nGraceCensored && n > 0
      case AcceptArmUnmeasured => nAcceptancesResolved == 0
      case AcceptArmThin(n) => n == nAcceptancesResolved && 0 < n < 10
      case EmptyCorpus => nRejections == 0 && nAcceptances == 0
  {
    InOneOf(When(nRejections > 0 && nRejectionsResolved == 0, RejectArmCensored),
            When(nGraceCensored > 0, GraceCensored(nGraceCensored)),
            AcceptArmReasons(nAcceptancesResolved),
            When(nRejections == 0 && nAcceptances == 0, EmptyCorpus), x);
  }

  /** The identifiability part of the report. */
  method Calibrate(records: seq<RunRecord>, outcomes: seq<IssueOutcome>, now: int, grace: int) returns (report: Report)
    ensures report.nRejections == |Filter(records, IsRejected())|
    ensures report.nAcceptances == |Filter(records, IsAccepted())|
    ensures report.nRejectionsResolved == 0
    ensures report.nAcceptancesResolved ==
            |Filter(Filter(records, IsAccepted()), Resolvable(outcomes, Resolved(outcomes, now, grace)))|
    // the only way to a determined report: no rejection, nothing held back, ten resolved acceptances
    ensures report.underDetermined <==>
            || report.nRejections > 0
            || Filter(outcomes, IsCensored(Resolved(outcomes, now, grace))) != []
            || report.nAcceptancesResolved < 10
    // and every reason is given exactly when it applies
    ensures forall x :: x in report.reasons <==>
                        match x
                        case RejectArmCensored => report.nRejections > 0
                        case GraceCensored(n) =>
                          n == |Filter(outcomes, IsCensored(Resolved(outcomes, now, grace)))| && n > 0
                        case AcceptArmUnmeasured => report.nAcceptancesResolved == 0
                        case AcceptArmThin(n) => n == report.nAcceptancesResolved && 0 < n < 10
                        case EmptyCorpus => report.nRejections == 0 && report.nAcceptances == 0
  {
    var rejections, acceptances := Filter(records, IsRejected()), Filter(records, IsAccepted());
    var resolved := ResolvedEscapes(outcomes, now, grace);
    var censored := |Filter(outcomes, IsCensored(resolved))|;
    var escapeOutcomes := EscapeOutcomes(outcomes, resolved);
    var acceptVerdicts := ToJudgeVerdicts(acceptances, outcomes);
    var acceptArm := Resolve(acceptVerdicts, escapeOutcomes);
    var rejectVerdicts := ToJudgeVerdicts(rejections, outcomes);
    var rejectArm := Resolve(rejectVerdicts, escapeOutcomes);
    FilterMembers(records, IsRejected());
    FilterMembers(records, IsAccepted());
    RejectArmIsCensored(rejections, PrByIssue(outcomes), outcomes, resolved);
    AcceptArmCount(acceptances, outcomes, resolved);
    report := Assess(|rejections|, |rejectArm|, |acceptances|, |acceptArm|, censored);
    forall x
      ensures x in report.reasons <==>
              match x
              case RejectArmCensored => report.nRejections > 0
              case GraceCensored(n) => n == censored && n > 0
              case AcceptArmUnmeasured => report.nAcceptancesResolved == 0
              case AcceptArmThin(n) => n == report.nAcceptancesResolved && 0 < n < 10
              case EmptyCorpus => report.nRejections == 0 && report.nAcceptances == 0
    {
      AssessFacts(|rejections|, |rejectArm|, |acceptances|, |acceptArm|, censored, x);
    }
  }
}
