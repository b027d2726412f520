/** Two independently written walks over the run corpus that must inspect the same pairs of
    rejections (src/adequacy_calibration.py, `demand_stationarity` and `suspect_rejections`). */
module CorpusWalks {
  import opened Wrappers
  import opened Sequences
  import opened StableSort
  import opened Demand
  import Wilson

  datatype GateOutcome = Accepted | Rejected | NotReached

  /** `at` is the instant of the run; only its order matters. */
  datatype RunRecord = RunRecord(issue: int, at: int, outcome: GateOutcome, findings: seq<string>)

  type Pair = (RunRecord, RunRecord)

  function Tokens(r: RunRecord): set<string> {
    DemandTokens(r.findings)
  }

  function IsRejected(): RunRecord -> bool {
    (r: RunRecord) => r.outcome == Rejected
  }

  function OfIssue(i: int): RunRecord -> bool {
    (r: RunRecord) => r.issue == i
  }

  function RejectedOfIssue(i: int): RunRecord -> bool {
    (r: RunRecord) => r.outcome == Rejected && r.issue == i
  }

  function ByTime(): (RunRecord, RunRecord) -> bool {
    (a: RunRecord, b: RunRecord) => a.at < b.at
  }

  function ByTimeThenIssue(): (RunRecord, RunRecord) -> bool {
    (a: RunRecord, b: RunRecord) => a.at < b.at || (a.at == b.at && a.issue < b.issue)
  }

  // ---- similarity of two demands ----

  function Jaccard(left: set<string>, right: set<string>): real {
    if left + right == {} then 1.0
    else |left * right| as real / |left + right| as real
  }

  /** The score is the share of the tokens that both have. Zero overlap means disjoint with at least one side not empty;
      a full score means equal. */
  lemma JaccardFacts(left: set<string>, right: set<string>)
    ensures Jaccard(left, right) * |left + right| as real == |left * right| as real
    ensures 0.0 <= Jaccard(left, right) <= 1.0
    ensures Jaccard(left, right) == Jaccard(right, left)
    ensures Jaccard(left, right) == 0.0 <==> left * right == {} && left + right != {}
    ensures Jaccard(left, right) == 1.0 <==> left == right
  {
    assert left * right == right * left && left + right == right + left;
    NonemptyCard(left + right);
    NonemptyCard(left * right);
    if left + right != {} {
      SubsetCard(left * right, left + right);
      QuotientFacts(|left * right| as real, |left + right| as real);
      if |left * right| == |left + right| {
        assert left * right == left + right;
        assert left == right by {
          forall x | x in left + right ensures x in left && x in right { assert x in left * right; }
        }
      }
      if left == right {
        assert left * right == left + right;
      }
    }
  }

  function IsDisjointPair(): Pair -> bool {
    (p: Pair) => Jaccard(Tokens(p.0), Tokens(p.1)) == 0.0
  }

  function IsBothEmptyPair(): Pair -> bool {
    (p: Pair) => Tokens(p.0) == {} && Tokens(p.1) == {}
  }

  function IsMovedPair(): Pair -> bool {
    (p: Pair) => Tokens(p.0) * Tokens(p.1) == {}
  }

  // ---- the grouping walk ----

  function Consecutive(g: seq<RunRecord>): seq<Pair> {
    if |g| < 2 then [] else Consecutive(g[..|g| - 1]) + [(g[|g| - 2], g[|g| - 1])]
  }

  /** Rejected issues in first-seen order. */
  function Issues(records: seq<RunRecord>): seq<int> {
    Dedup(Map(Filter(records, IsRejected()), (r: RunRecord) => r.issue))
  }

  function OrderedGroup(records: seq<RunRecord>, i: int): seq<RunRecord> {
    Sort(Filter(records, RejectedOfIssue(i)), ByTime())
  }

  function PairsOfIssues(records: seq<RunRecord>, issues: seq<int>): seq<Pair> {
    if issues == [] then []
    else Consecutive(OrderedGroup(records, issues[0])) + PairsOfIssues(records, issues[1..])
  }

  function GroupedPairs(records: seq<RunRecord>): seq<Pair> {
    PairsOfIssues(records, Issues(records))
  }

  // ---- the one-pass walk ----

  /** Each record paired with the latest one of its issue before it. */
  function PairsInOrder(s: seq<RunRecord>): seq<Pair> {
    if s == [] then []
    else
      var init, r := s[..|s| - 1], s[|s| - 1];
      PairsInOrder(init) + PairWith(init, r)
  }

  function PairWith(seen: seq<RunRecord>, r: RunRecord): seq<Pair> {
    var g := Filter(seen, OfIssue(r.issue));
    if g == [] then [] else [(g[|g| - 1], r)]
  }

  function Timeline(records: seq<RunRecord>): seq<RunRecord> {
    Filter(Sort(records, ByTimeThenIssue()), IsRejected())
  }

  function OnePassPairs(records: seq<RunRecord>): seq<Pair> {
    PairsInOrder(Timeline(records))
  }

  // ---- both walks inspect the same pairs ----

  lemma OrdersAreWeak()
    ensures StrictWeakOrder(ByTime()) && StrictWeakOrder(ByTimeThenIssue())
  {
  }

  /** Ties in time and the interleaving of issues do not matter: one issue's slice of the timeline is its group. */
  lemma TimelineSlice(records: seq<RunRecord>, i: int)
    ensures Filter(Timeline(records), OfIssue(i)) == OrderedGroup(records, i)
  {
    OrdersAreWeak();
    var sorted := Sort(records, ByTimeThenIssue());
    FilterTwice(sorted, IsRejected(), OfIssue(i));
    FilterAgree(sorted, And(IsRejected(), OfIssue(i)), RejectedOfIssue(i));
    SortFilter(records, ByTimeThenIssue(), RejectedOfIssue(i), ByTime());
  }

  /** All pairs within issues, as a multiset. */
  ghost function Gather(s: seq<RunRecord>, issues: seq<int>): multiset<Pair> {
    if issues == [] then multiset{} else Gather(s, issues[1..]) + Slice(s, issues[0])
  }

  ghost function Slice(s: seq<RunRecord>, i: int): multiset<Pair> {
    multiset(Consecutive(Filter(s, OfIssue(i))))
  }

  /** One more record adds at most one pair, and only to its own issue. */
  lemma SliceStep(init: seq<RunRecord>, r: RunRecord, i: int)
    ensures Slice(init + [r], i) == Slice(init, i) + if i == r.issue then multiset(PairWith(init, r)) else multiset{}
  {
    FilterLast(init, r, OfIssue(i));
    var g := Filter(init, OfIssue(i));
    if i == r.issue {
      assert (g + [r])[..|g|] == g;
    }
  }

  lemma {:induction false} GatherStep(init: seq<RunRecord>, r: RunRecord, issues: seq<int>)
    requires Distinct(issues)
    ensures Gather(init + [r], issues) ==
            Gather(init, issues) + if r.issue in issues then multiset(PairWith(init, r)) else multiset{}
  {
    if issues != [] {
      var i, rest := issues[0], issues[1..];
      GatherStep(init, r, rest);
      SliceStep(init, r, i);
      assert r.issue in issues <==> r.issue == i || r.issue in rest;
    }
  }

  lemma {:induction false} OrderGathers(s: seq<RunRecord>, issues: seq<int>)
    requires Distinct(issues) && forall r :: r in s ==> r.issue in issues
    ensures multiset(PairsInOrder(s)) == Gather(s, issues)
  {
    if s == [] {
      GatherEmpty(issues);
    } else {
      var init, r := s[..|s| - 1], s[|s| - 1];
      assert s == init + [r];
      OrderGathers(init, issues);
      GatherStep(init, r, issues);
    }
  }

  lemma {:induction false} GatherEmpty(issues: seq<int>)
    ensures Gather([], issues) == multiset{}
  {
    if issues != [] {
      GatherEmpty(issues[1..]);
    }
  }

  lemma {:induction false} GroupsGather(records: seq<RunRecord>, issues: seq<int>)
    ensures multiset(PairsOfIssues(records, issues)) == Gather(Timeline(records), issues)
  {
    if issues != [] {
      GroupsGather(records, issues[1..]);
      TimelineSlice(records, issues[0]);
    }
  }

  lemma TimelineMembers(records: seq<RunRecord>)
    ensures forall r :: r in Timeline(records) <==> r in Filter(records, IsRejected())
  {
    OrdersAreWeak();
    var sorted := Sort(records, ByTimeThenIssue());
    SortSorted(records, ByTimeThenIssue());
    FilterMembers(records, IsRejected());
    FilterMembers(sorted, IsRejected());
    forall r
      ensures r in sorted <==> r in records
    {
      assert r in sorted <==> r in multiset(sorted);
      assert r in records <==> r in multiset(records);
    }
  }

  lemma IssuesCover(records: seq<RunRecord>)
    ensures Distinct(Issues(records))
    ensures forall r :: r in Timeline(records) ==> r.issue in Issues(records)
    ensures forall i :: i in Issues(records) ==> exists r :: r in Timeline(records) && r.issue == i
  {
    TimelineMembers(records);
    var rej := Filter(records, IsRejected());
    var issues := Map(rej, (r: RunRecord) => r.issue);
    DedupFacts(issues);
    forall r | r in Timeline(records)
      ensures r.issue in Issues(records)
    {
      var k :| 0 <= k < |rej| && rej[k] == r;
      assert issues[k] == r.issue;
    }
    forall i | i in Issues(records)
      ensures exists r :: r in Timeline(records) && r.issue == i
    {
      var k :| 0 <= k < |issues| && issues[k] == i;
      assert rej[k] in Timeline(records) && rej[k].issue == i;
    }
  }

  /** The grouping walk and the one-pass walk compare exactly the same pairs, for every corpus. */
  lemma SamePairs(records: seq<RunRecord>)
    ensures multiset(GroupedPairs(records)) == multiset(OnePassPairs(records))
  {
    IssuesCover(records);
    OrderGathers(Timeline(records), Issues(records));
    GroupsGather(records, Issues(records));
  }

  /** The pairs of the given arrangements of the issues' rejections. */
  function PairsOfGroups(groups: seq<seq<RunRecord>>): seq<Pair> {
    if groups == [] then [] else Consecutive(groups[0]) + PairsOfGroups(groups[1..])
  }

  lemma {:induction false} PairsOfStableGroups(records: seq<RunRecord>, issues: seq<int>, groups: seq<seq<RunRecord>>)
    requires |groups| == |issues|
    requires forall j :: 0 <= j < |issues| ==>
               IsStableSort(groups[j], Filter(records, RejectedOfIssue(issues[j])), ByTime())
    ensures PairsOfGroups(groups) == PairsOfIssues(records, issues)
  {
    if issues != [] {
      OrdersAreWeak();
      AnyStableSort(groups[0], Filter(records, RejectedOfIssue(issues[0])), ByTime());
      PairsOfStableGroups(records, issues[1..], groups[1..]);
    }
  }

  /** That holds for every stable sort, not just the one above: let the timeline be any stable arrangement of the
      records by time and issue, and each group any stable arrangement of its rejections by time. */
  lemma SamePairsForAnyStableSort(records: seq<RunRecord>, timeline: seq<RunRecord>, groups: seq<seq<RunRecord>>)
    requires IsStableSort(timeline, records, ByTimeThenIssue()) && |groups| == |Issues(records)|
    requires forall j :: 0 <= j < |groups| ==>
               IsStableSort(groups[j], Filter(records, RejectedOfIssue(Issues(records)[j])), ByTime())
    ensures multiset(PairsOfGroups(groups)) == multiset(PairsInOrder(Filter(timeline, IsRejected())))
  {
    OrdersAreWeak();
    AnyStableSort(timeline, records, ByTimeThenIssue());
    PairsOfStableGroups(records, Issues(records), groups);
    SamePairs(records);
  }

  // ---- the counts ----

  ghost function IssueSet(s: seq<RunRecord>): set<int> {
    set r | r in s :: r.issue
  }

  /** All but the first record of each issue open a pair. */
  lemma {:induction false} PairCount(s: seq<RunRecord>)
    ensures |PairsInOrder(s)| == |s| - |IssueSet(s)|
  {
    if s != [] {
      var init, r := s[..|s| - 1], s[|s| - 1];
      PairCount(init);
      assert s == init + [r];
      IssueSetNext(init, r);
    }
  }

  lemma IssueSetNext(init: seq<RunRecord>, r: RunRecord)
    ensures |IssueSet(init + [r])| == |IssueSet(init)| + if Filter(init, OfIssue(r.issue)) == [] then 1 else 0
  {
    assert IssueSet(init + [r]) == IssueSet(init) + {r.issue};
    FilterMembers(init, OfIssue(r.issue));
    var g := Filter(init, OfIssue(r.issue));
    if g == [] {
      assert r.issue !in IssueSet(init);
    } else {
      assert g[0] in g;
    }
  }

  /** Repeat pairs are the rejections less the rejected issues. */
  lemma RepeatPairs(records: seq<RunRecord>)
    ensures |GroupedPairs(records)| == |Filter(records, IsRejected())| - |Issues(records)|
  {
    SamePairs(records);
    var t := Timeline(records);
    assert |GroupedPairs(records)| == |multiset(GroupedPairs(records))|;
    assert |OnePassPairs(records)| == |multiset(OnePassPairs(records))|;
    PairCount(t);
    IssuesCover(records);
    assert IssueSet(t) == set i | i in Issues(records);
    DistinctCardinality(Issues(records));
    OrdersAreWeak();
    SortSorted(records, ByTimeThenIssue());
    FilterCountOfPermutation(Sort(records, ByTimeThenIssue()), records, IsRejected());
  }

  lemma {:induction false} MovedSplits(pairs: seq<Pair>)
    ensures |Filter(pairs, IsMovedPair())| ==
            |Filter(pairs, IsDisjointPair())| + |Filter(pairs, IsBothEmptyPair())|
  {
    if pairs != [] {
      MovedSplits(pairs[1..]);
      JaccardFacts(Tokens(pairs[0].0), Tokens(pairs[0].1));
    }
  }

  /** Moved demands seen in one pass are the disjoint pairs of the groups plus the pairs with nothing to compare. */
  lemma MovedPairs(records: seq<RunRecord>)
    ensures |Filter(OnePassPairs(records), IsMovedPair())| ==
            |Filter(GroupedPairs(records), IsDisjointPair())| + |Filter(GroupedPairs(records), IsBothEmptyPair())|
  {
    SamePairs(records);
    FilterCountOfPermutation(OnePassPairs(records), GroupedPairs(records), IsMovedPair());
    MovedSplits(GroupedPairs(records));
  }

  // ---- which pairs those are ----

  /** A rejection and the next one of the same issue. */
  predicate IsRepeat(t: seq<RunRecord>, i: int, j: int) {
    0 <= i < j < |t| && t[i].issue == t[j].issue && forall k :: i < k < j ==> t[k].issue != t[j].issue
  }

  ghost predicate IsRepeatPair(t: seq<RunRecord>, p: Pair) {
    exists i, j :: IsRepeat(t, i, j) && p == (t[i], t[j])
  }

  /** The latest record of the issue. */
  lemma {:induction false} LastOfIssue(t: seq<RunRecord>, issue: int) returns (i: int)
    ensures i < 0 ==> Filter(t, OfIssue(issue)) == []
    ensures 0 <= i ==> Filter(t, OfIssue(issue)) != []
    ensures -1 <= i < |t| && forall k :: i < k < |t| ==> t[k].issue != issue
    ensures 0 <= i ==> t[i].issue == issue
    ensures
      var g := Filter(t, OfIssue(issue));
      g != [] && 0 <= i ==> g[|g| - 1] == t[i]
  {
    if t == [] {
      i := -1;
    } else {
      var init, r := t[..|t| - 1], t[|t| - 1];
      FilterLast(init, r, OfIssue(issue));
      assert t == init + [r];
      if r.issue == issue {
        i := |t| - 1;
      } else {
        i := LastOfIssue(init, issue);
        assert Filter(t, OfIssue(issue)) == Filter(init, OfIssue(issue));
      }
    }
  }

  lemma RepeatNext(init: seq<RunRecord>, r: RunRecord, p: Pair)
    ensures IsRepeatPair(init + [r], p) <==> IsRepeatPair(init, p) || p in PairWith(init, r)
  {
    var t := init + [r];
    var last := LastOfIssue(init, r.issue);
    assert forall k :: 0 <= k < |init| ==> t[k] == init[k];
    if i, j :| IsRepeat(init, i, j) && p == (init[i], init[j]) {
      assert IsRepeat(t, i, j);
    }
    if i, j :| IsRepeat(t, i, j) && p == (t[i], t[j]) {
      if j < |init| {
        assert IsRepeat(init, i, j);
      } else {
        assert i == last;
      }
    }
    if p in PairWith(init, r) {
      assert IsRepeat(t, last, |init|);
    }
  }

  /** A walk over a timeline compares each record with the next one of its issue and with no other. */
  lemma {:induction false} PairsAreRepeats(t: seq<RunRecord>, p: Pair)
    ensures p in PairsInOrder(t) <==> IsRepeatPair(t, p)
  {
    if t != [] {
      var init, r := t[..|t| - 1], t[|t| - 1];
      assert t == init + [r];
      PairsAreRepeats(init, p);
      RepeatNext(init, r, p);
    }
  }

  /** The timeline holds the rejected runs and no other, by time and then by issue. */
  lemma TimelineExactly(records: seq<RunRecord>)
    ensures forall r :: r in Timeline(records) <==> r in records && r.outcome == Rejected
    ensures
      var t := Timeline(records);
      forall i, j :: 0 <= i < j < |t| ==> t[i].at < t[j].at || (t[i].at == t[j].at && t[i].issue <= t[j].issue)
  {
    OrdersAreWeak();
    TimelineMembers(records);
    FilterMembers(records, IsRejected());
    SortFilter(records, ByTimeThenIssue(), IsRejected(), ByTimeThenIssue());
    SortSorted(Filter(records, IsRejected()), ByTimeThenIssue());
  }

  /** So the grouping walk too compares each rejection with its issue's next one. */
  lemma GroupedPairsAreRepeats(records: seq<RunRecord>, p: Pair)
    ensures p in GroupedPairs(records) <==> IsRepeatPair(Timeline(records), p)
  {
    SamePairs(records);
    PairsAreRepeats(Timeline(records), p);
    assert p in GroupedPairs(records) <==> p in multiset(GroupedPairs(records));
    assert p in OnePassPairs(records) <==> p in multiset(OnePassPairs(records));
  }

  // ---- the walks as the source writes them ----

  function Sum(s: seq<real>): real {
    if s == [] then 0.0 else s[0] + Sum(s[1..])
  }

  function Score(): Pair -> real {
    (p: Pair) => Jaccard(Tokens(p.0), Tokens(p.1))
  }

  /** Summing runs over every element once. */
  lemma {:induction false} SumSplits(s: seq<real>, x: real, t: seq<real>)
    ensures Sum(s + [x] + t) == Sum(s + t) + x
  {
    if s == [] {
      assert ([x] + t)[1..] == t && [] + [x] + t == [x] + t && [] + t == t;
    } else {
      SumSplits(s[1..], x, t);
      assert (s + [x] + t)[1..] == s[1..] + [x] + t && (s + t)[1..] == s[1..] + t;
    }
  }

  datatype Stationarity = Stationarity(
    nRepeatPairs: nat, nDisjointPairs: nat, meanJaccard: Option<real>, disjointRate: Option<Wilson.ProportionInterval>)

  lemma {:induction false} PairsOfMoreIssues(records: seq<RunRecord>, issues: seq<int>, i: int)
    ensures PairsOfIssues(records, issues + [i]) ==
            PairsOfIssues(records, issues) + Consecutive(OrderedGroup(records, i))
  {
    if issues != [] {
      assert (issues + [i])[1..] == issues[1..] + [i];
      PairsOfMoreIssues(records, issues[1..], i);
    }
  }

  /** What reading one more record does to the groups. */
  lemma GroupStep(seen: seq<RunRecord>, r: RunRecord)
    ensures Issues(seen + [r]) ==
            if r.outcome == Rejected && r.issue !in Issues(seen) then Issues(seen) + [r.issue] else Issues(seen)
    ensures forall k :: Filter(seen + [r], RejectedOfIssue(k)) ==
                        Filter(seen, RejectedOfIssue(k)) + if RejectedOfIssue(k)(r) then [r] else []
    ensures r.issue !in Issues(seen) ==> Filter(seen, RejectedOfIssue(r.issue)) == []
  {
    var rej, f := Filter(seen, IsRejected()), (q: RunRecord) => q.issue;
    FilterLast(seen, r, IsRejected());
    MapAppend(rej, [r], f);
    assert (Map(rej, f) + [r.issue])[..|rej|] == Map(rej, f);
    forall k
      ensures Filter(seen + [r], RejectedOfIssue(k)) ==
              Filter(seen, RejectedOfIssue(k)) + if RejectedOfIssue(k)(r) then [r] else []
    {
      FilterLast(seen, r, RejectedOfIssue(k));
    }
    if r.issue !in Issues(seen) {
      DedupFacts(Map(rej, f));
      FilterMembers(seen, IsRejected());
      forall q | q in seen
        ensures !RejectedOfIssue(r.issue)(q)
      {
        if q in rej {
          var j :| 0 <= j < |rej| && rej[j] == q;
          assert Map(rej, f)[j] == q.issue;
        }
      }
      FilterNone(seen, RejectedOfIssue(r.issue));
    }
  }

  method GroupByIssue(records: seq<RunRecord>) returns (order: seq<int>, byIssue: map<int, seq<RunRecord>>)
    ensures order == Issues(records)
    ensures forall k :: k in byIssue <==> k in order
    ensures forall k :: k in byIssue ==> byIssue[k] == Filter(records, RejectedOfIssue(k))
  {
    order, byIssue := [], map[];
    for i := 0 to |records|
      invariant order == Issues(records[..i])
      invariant forall k :: k in byIssue <==> k in order
      invariant forall k :: k in byIssue ==> byIssue[k] == Filter(records[..i], RejectedOfIssue(k))
    {
      var record := records[i];
      GroupStep(records[..i], record);
      TakeNext(records, i);
      if record.outcome == Rejected {
        if record.issue !in byIssue {
          order, byIssue := order + [record.issue], byIssue[record.issue := []];
        }
        byIssue := byIssue[record.issue := byIssue[record.issue] + [record]];
      }
    }
    TakeAll(records);
  }

  method ScoreGroup(ordered: seq<RunRecord>) returns (scores: seq<real>)
    ensures scores == Map(Consecutive(ordered), Score())
  {
    scores := [];
    if ordered == [] {
      return;
    }
    for k := 1 to |ordered|
      invariant scores == Map(Consecutive(ordered[..k]), Score())
    {
      assert ordered[..k + 1][..k] == ordered[..k];
      MapAppend(Consecutive(ordered[..k]), [(ordered[k - 1], ordered[k])], Score());
      scores := scores + [Jaccard(Tokens(ordered[k - 1]), Tokens(ordered[k]))];
    }
    assert ordered[..|ordered|] == ordered;
  }

  method ScorePairs(records: seq<RunRecord>) returns (scores: seq<real>)
    ensures scores == Map(GroupedPairs(records), Score())
  {
    var order, byIssue := GroupByIssue(records);
    scores := [];
    for j := 0 to |order|
      invariant scores == Map(PairsOfIssues(records, order[..j]), Score())
    {
      var issue := order[j];
      assert issue in order;
      var ordered := Sort(byIssue[issue], ByTime());
      var more := ScoreGroup(ordered);
      TakeNext(order, j);
      PairsOfMoreIssues(records, order[..j], issue);
      MapAppend(PairsOfIssues(records, order[..j]), Consecutive(ordered), Score());
      scores := scores + more;
    }
    TakeAll(order);
  }

  method DemandStationarity(records: seq<RunRecord>, sqrt: real -> real) returns (r: Stationarity)
    requires Wilson.IsSqrt(sqrt)
    ensures r.nRepeatPairs == |GroupedPairs(records)|
    ensures r.nDisjointPairs == |Filter(GroupedPairs(records), IsDisjointPair())| <= r.nRepeatPairs
    ensures r.meanJaccard == if GroupedPairs(records) == [] then None else
                             Some(Sum(Map(GroupedPairs(records), Score())) / |GroupedPairs(records)| as real)
    ensures r.disjointRate == Wilson.DefaultInterval(r.nDisjointPairs, r.nRepeatPairs, sqrt)
  {
    var scores := ScorePairs(records);
    var isZero := (x: real) => x == 0.0;
    var disjoint := |Filter(scores, isZero)|;
    FilterOfMap(GroupedPairs(records), Score(), isZero, IsDisjointPair());
    FilterMembers(GroupedPairs(records), IsDisjointPair());
    r := Stationarity(|scores|, disjoint, if scores == [] then None else Some(Sum(scores) / |scores| as real),
                      Wilson.DefaultInterval(disjoint, |scores|, sqrt));
  }

  // ---- suspect rejections ----

  datatype SuspectReason = AllFindingsUnanchored | DemandNotStationary | SelfDeclaredCoreCovered | RemitDrift

  datatype Suspect = Suspect(record: RunRecord, reasons: seq<SuspectReason>)

  /** The lexical tests on finding text. */
  datatype Lexicon = Lexicon(anchored: string -> bool, selfCovered: seq<string> -> bool, outOfRemit: string -> bool)

  predicate MovedFrom(prior: Option<set<string>>, r: RunRecord) {
    prior.Some? && prior.value * Tokens(r) == {}
  }

  function Reasons(prior: Option<set<string>>, r: RunRecord, lex: Lexicon): seq<SuspectReason> {
    (if r.findings != [] && (forall f :: f in r.findings ==> !lex.anchored(f)) then [AllFindingsUnanchored] else [])
    + (if MovedFrom(prior, r) then [DemandNotStationary] else [])
    + (if lex.selfCovered(r.findings) then [SelfDeclaredCoreCovered] else [])
    + (if exists f :: f in r.findings && lex.outOfRemit(f) then [RemitDrift] else [])
  }

  function PriorTokens(seen: seq<RunRecord>, i: int): Option<set<string>> {
    var g := Filter(seen, OfIssue(i));
    if g == [] then None else Some(Tokens(g[|g| - 1]))
  }

  /** The entry for one rejection, if it has any reason. */
  function Entry(prior: Option<set<string>>, r: RunRecord, lex: Lexicon): seq<Suspect> {
    var reasons := Reasons(prior, r, lex);
    if reasons == [] then [] else [Suspect(r, reasons)]
  }

  function Suspects(s: seq<RunRecord>, lex: Lexicon): seq<Suspect> {
    if s == [] then []
    else
      var init, r := s[..|s| - 1], s[|s| - 1];
      Suspects(init, lex) + Entry(PriorTokens(init, r.issue), r, lex)
  }

  ghost predicate Remembers(previous: map<int, set<string>>, seen: seq<RunRecord>) {
    forall k :: PriorTokens(seen, k) == if k in previous then Some(previous[k]) else None
  }

  lemma RememberStep(previous: map<int, set<string>>, seen: seq<RunRecord>, r: RunRecord)
    requires Remembers(previous, seen)
    ensures Remembers(previous[r.issue := Tokens(r)], seen + [r])
  {
    var next := previous[r.issue := Tokens(r)];
    forall k
      ensures PriorTokens(seen + [r], k) == if k in next then Some(next[k]) else None
    {
      assert PriorTokens(seen, k) == if k in previous then Some(previous[k]) else None;
      PriorOfNext(seen, r, k);
    }
  }

  lemma PriorOfNext(seen: seq<RunRecord>, r: RunRecord, k: int)
    ensures PriorTokens(seen + [r], k) == if k == r.issue then Some(Tokens(r)) else PriorTokens(seen, k)
  {
    FilterLast(seen, r, OfIssue(k));
  }

  lemma SuspectStep(seen: seq<RunRecord>, r: RunRecord, lex: Lexicon)
    ensures Suspects(seen + [r], lex) == Suspects(seen, lex) + Entry(PriorTokens(seen, r.issue), r, lex)
  {
    assert (seen + [r])[..|seen|] == seen;
  }

  method SuspectRejections(records: seq<RunRecord>, lex: Lexicon) returns (suspects: seq<Suspect>)
    ensures suspects == Suspects(Timeline(records), lex)
  {
    var previous: map<int, set<string>> := map[];
    suspects := [];
    var sorted := Sort(records, ByTimeThenIssue());
    for i := 0 to |sorted|
      invariant suspects == Suspects(Filter(sorted[..i], IsRejected()), lex)
      invariant Remembers(previous, Filter(sorted[..i], IsRejected()))
    {
      var record := sorted[i];
      TakeNext(sorted, i);
      FilterLast(sorted[..i], record, IsRejected());
      if record.outcome != Rejected {
        continue;
      }
      ghost var seen := Filter(sorted[..i], IsRejected());
      SuspectStep(seen, record, lex);
      RememberStep(previous, seen, record);
      var prior := if record.issue in previous then Some(previous[record.issue]) else None;
      assert prior == PriorTokens(seen, record.issue);
      suspects := suspects + Entry(prior, record, lex);
      previous := previous[record.issue := Tokens(record)];
    }
    TakeAll(sorted);
  }

  ghost predicate NoneShared(a: set<string>, b: set<string>) {
    forall w :: w in b ==> w !in a
  }

  /** The entry names the rejection and says exactly what speaks against it; `prior` is the issue's previous one. */
  ghost predicate Explains(x: Suspect, r: RunRecord, prior: Option<RunRecord>, lex: Lexicon) {
    && x.record == r
    && (AllFindingsUnanchored in x.reasons <==> r.findings != [] && forall f :: f in r.findings ==> !lex.anchored(f))
    && (DemandNotStationary in x.reasons <==>
        prior.Some? && NoneShared(DemandTokens(prior.value.findings), DemandTokens(r.findings)))
    && (SelfDeclaredCoreCovered in x.reasons <==> lex.selfCovered(r.findings))
    && (RemitDrift in x.reasons <==> exists f :: f in r.findings && lex.outOfRemit(f))
  }

  /** The record of the same issue before the j-th one. */
  ghost predicate IsPriorOf(t: seq<RunRecord>, j: int, prior: Option<RunRecord>) {
    && 0 <= j < |t|
    && (prior.None? ==> forall k :: 0 <= k < j ==> t[k].issue != t[j].issue)
    && (prior.Some? ==> exists i :: IsRepeat(t, i, j) && prior.value == t[i])
  }

  ghost predicate ExplainsAt(x: Suspect, t: seq<RunRecord>, j: int, lex: Lexicon) {
    exists prior :: IsPriorOf(t, j, prior) && Explains(x, t[j], prior, lex)
  }

  lemma MovedFromNothingShared(prior: RunRecord, r: RunRecord)
    ensures MovedFrom(Some(Tokens(prior)), r) <==> NoneShared(DemandTokens(prior.findings), DemandTokens(r.findings))
  {
    var shared := Tokens(prior) * Tokens(r);
    assert shared == {} <==> forall w :: w in Tokens(r) ==> w !in shared;
  }

  lemma ReasonMembers(prior: Option<set<string>>, r: RunRecord, lex: Lexicon)
    ensures
      var reasons := Reasons(prior, r, lex);
      && (AllFindingsUnanchored in reasons <==> r.findings != [] && forall f :: f in r.findings ==> !lex.anchored(f))
      && (DemandNotStationary in reasons <==> MovedFrom(prior, r))
      && (SelfDeclaredCoreCovered in reasons <==> lex.selfCovered(r.findings))
      && (RemitDrift in reasons <==> exists f :: f in r.findings && lex.outOfRemit(f))
  {
  }

  /** The previous record of the issue, found and described. */
  lemma PriorRecord(t: seq<RunRecord>, r: RunRecord) returns (prior: Option<RunRecord>)
    ensures IsPriorOf(t + [r], |t|, prior)
    ensures PriorTokens(t, r.issue) == if prior.Some? then Some(Tokens(prior.value)) else None
  {
    var i := LastOfIssue(t, r.issue);
    var all := t + [r];
    prior := if i < 0 then None else Some(t[i]);
    if 0 <= i {
      assert IsRepeat(all, i, |t|) && all[i] == t[i];
    }
  }

  lemma ReasonsExplain(t: seq<RunRecord>, r: RunRecord, lex: Lexicon)
    ensures ExplainsAt(Suspect(r, Reasons(PriorTokens(t, r.issue), r, lex)), t + [r], |t|, lex)
  {
    var prior := PriorRecord(t, r);
    if prior.Some? {
      MovedFromNothingShared(prior.value, r);
    }
    ReasonMembers(PriorTokens(t, r.issue), r, lex);
    assert (t + [r])[|t|] == r;
    assert Explains(Suspect(r, Reasons(PriorTokens(t, r.issue), r, lex)), r, prior, lex);
  }

  lemma ExplainsLonger(x: Suspect, t: seq<RunRecord>, r: RunRecord, j: int, lex: Lexicon)
    requires ExplainsAt(x, t, j, lex)
    ensures ExplainsAt(x, t + [r], j, lex)
  {
    var prior :| IsPriorOf(t, j, prior) && Explains(x, t[j], prior, lex);
    var all := t + [r];
    assert forall k :: 0 <= k < |t| ==> all[k] == t[k];
    if prior.Some? {
      var i :| IsRepeat(t, i, j) && prior.value == t[i];
      assert IsRepeat(all, i, j);
    }
    assert IsPriorOf(all, j, prior);
  }

  /** The entries explain the rejections at the given places, in their order, by at least one reason each; nothing speaks
      against the other rejections. */
  ghost predicate AreExplained(suspects: seq<Suspect>, at: seq<nat>, t: seq<RunRecord>, lex: Lexicon) {
    && |at| == |suspects| && (forall i, j :: 0 <= i < j < |at| ==> at[i] < at[j])
    && (forall i :: 0 <= i < |at| ==> at[i] < |t| && suspects[i].reasons != [] && ExplainsAt(suspects[i], t, at[i], lex))
    && (forall j :: 0 <= j < |t| && j !in at ==> ExplainsAt(Suspect(t[j], []), t, j, lex))
  }

  lemma ExplainedLonger(suspects: seq<Suspect>, at: seq<nat>, t: seq<RunRecord>, r: RunRecord, lex: Lexicon)
    requires AreExplained(suspects, at, t, lex)
    ensures forall i :: 0 <= i < |at| ==> ExplainsAt(suspects[i], t + [r], at[i], lex)
    ensures forall j :: 0 <= j < |t| && j !in at ==> ExplainsAt(Suspect((t + [r])[j], []), t + [r], j, lex)
  {
    forall i | 0 <= i < |at|
      ensures ExplainsAt(suspects[i], t + [r], at[i], lex)
    {
      ExplainsLonger(suspects[i], t, r, at[i], lex);
    }
    forall j | 0 <= j < |t| && j !in at
      ensures ExplainsAt(Suspect((t + [r])[j], []), t + [r], j, lex)
    {
      ExplainsLonger(Suspect(t[j], []), t, r, j, lex);
    }
  }

  lemma ExplainedNext(suspects: seq<Suspect>, at: seq<nat>, t: seq<RunRecord>, r: RunRecord, x: Suspect, lex: Lexicon)
    requires AreExplained(suspects, at, t, lex) && x.record == r && ExplainsAt(x, t + [r], |t|, lex)
    ensures x.reasons != [] ==> AreExplained(suspects + [x], at + [|t|], t + [r], lex)
    ensures x.reasons == [] ==> AreExplained(suspects, at, t + [r], lex)
  {
    ExplainedLonger(suspects, at, t, r, lex);
    assert forall j :: j in at ==> j in at + [|t|];
    assert |t| in at + [|t|] by { assert (at + [|t|])[|at|] == |t|; }
    assert x.reasons == [] ==> x == Suspect((t + [r])[|t|], []);
  }

  /** The report lists exactly the rejections that something speaks against, in the timeline's order, with the reasons. */
  lemma {:induction false} SuspectsExactly(t: seq<RunRecord>, lex: Lexicon) returns (at: seq<nat>)
    ensures AreExplained(Suspects(t, lex), at, t, lex)
  {
    at := [];
    if t != [] {
      var init, r := t[..|t| - 1], t[|t| - 1];
      assert t == init + [r];
      var before := SuspectsExactly(init, lex);
      at := SuspectsNext(init, r, before, lex);
    }
  }

  lemma SuspectsNext(t: seq<RunRecord>, r: RunRecord, before: seq<nat>, lex: Lexicon) returns (at: seq<nat>)
    requires AreExplained(Suspects(t, lex), before, t, lex)
    ensures AreExplained(Suspects(t + [r], lex), at, t + [r], lex)
  {
    var x := Suspect(r, Reasons(PriorTokens(t, r.issue), r, lex));
    ReasonsExplain(t, r, lex);
    ExplainedNext(Suspects(t, lex), before, t, r, x, lex);
    SuspectStep(t, r, lex);
    assert Suspects(t, lex) + [] == Suspects(t, lex);
    at := if x.reasons == [] then before else before + [|t|];
  }

  function HasMoved(): Suspect -> bool {
    (s: Suspect) => DemandNotStationary in s.reasons
  }

  lemma EntryMoved(prior: Option<set<string>>, r: RunRecord, lex: Lexicon)
    ensures |Filter(Entry(prior, r, lex), HasMoved())| == if MovedFrom(prior, r) then 1 else 0
  {
    var reasons := Reasons(prior, r, lex);
    assert DemandNotStationary in reasons <==> MovedFrom(prior, r);
  }

  lemma PairMoved(seen: seq<RunRecord>, r: RunRecord)
    ensures |Filter(PairWith(seen, r), IsMovedPair())| == if MovedFrom(PriorTokens(seen, r.issue), r) then 1 else 0
  {
  }

  lemma {:induction false} MovedSuspects(s: seq<RunRecord>, lex: Lexicon)
    ensures |Filter(Suspects(s, lex), HasMoved())| == |Filter(PairsInOrder(s), IsMovedPair())|
  {
    if s != [] {
      var init, r := s[..|s| - 1], s[|s| - 1];
      MovedSuspects(init, lex);
      var entry := Entry(PriorTokens(init, r.issue), r, lex);
      EntryMoved(PriorTokens(init, r.issue), r, lex);
      PairMoved(init, r);
      FilterAppend(Suspects(init, lex), entry, HasMoved());
      FilterAppend(PairsInOrder(init), PairWith(init, r), IsMovedPair());
    }
  }

  /** The report agrees with itself: rejections flagged as not stationary are the disjoint repeat pairs plus
      the repeat pairs in which neither demand has a token. */
  lemma NotStationaryCount(records: seq<RunRecord>, lex: Lexicon)
    ensures |Filter(Suspects(Timeline(records), lex), HasMoved())| ==
            |Filter(GroupedPairs(records), IsDisjointPair())| + |Filter(GroupedPairs(records), IsBothEmptyPair())|
  {
    MovedSuspects(Timeline(records), lex);
    MovedPairs(records);
  }
}
