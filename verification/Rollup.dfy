/** Reclassifying phantom cost records and rebuilding the telemetry rollup
    (scripts/cleanup_phantom_cost.py). Money is exact: a real number of dollars, and rounding is to the
    nearest integer with ties to even, as Python's `round` does. */
module Rollup {
  import opened Wrappers
  import opened Sequences
  import opened Text

  // ---- records ----

  /** A JSON value; a number with a fraction and a composite value carry their printed text. */
  datatype Json = Null | Bool(b: bool) | Int(n: int) | Float(r: real, shown: string) | Str(s: string)
                | Other(truthy: bool, shown: string)

  /** The fields that the script reads or writes; the rest by name. */
  datatype Field =
    | Status | UsageAnomaly | UsageAvailable | UsageStatus | InputTokens | OutputTokens | PromptChars
    | EstimatedCostUsd | TokenSource | Timestamp | SessionId | PrNumber | IssueNumber | Source
    | PromptEstTokens | TotalEstTokens | TotalTokens | HistoryCharsSaved | ContextCharsSaved | CacheHits
    | CacheMisses | CacheCreationInputTokens | CacheReadInputTokens | PrunedCharsTotal
    | Named(name: string)

  type Record = map<Field, Json>

  function Get(rec: Record, key: Field): Json {
    if key in rec then rec[key] else Null
  }

  function GetText(rec: Record, key: Field): string {
    if key in rec then Shown(rec[key]) else ""
  }

  function Shown(v: Json): string {
    match v
    case Null => "None"
    case Bool(b) => if b then "True" else "False"
    case Int(n) => Signed(n)
    case Float(_, shown) => shown
    case Str(s) => s
    case Other(_, shown) => shown
  }

  predicate IsTruthy(v: Json) {
    match v
    case Null => false
    case Bool(b) => b
    case Int(n) => n != 0
    case Float(r, _) => r != 0.0
    case Str(s) => s != ""
    case Other(truthy, _) => truthy
  }

  function Truncate(r: real): int {
    if r >= 0.0 then r.Floor else -((-r).Floor)
  }

  function AsInt(v: Json): int {
    match v
    case Bool(b) => if b then 1 else 0
    case Int(n) => n
    case Float(r, _) => Truncate(r)
    case _ => 0
  }

  function AsReal(v: Json): real {
    match v
    case Bool(b) => if b then 1.0 else 0.0
    case Int(n) => n as real
    case Float(r, _) => r
    case _ => 0.0
  }

  // ---- anomalies ----

  const ZERO_USAGE_PROMPT_THRESHOLD := 500

  predicate IsAnomaly(rec: Record) {
    && !IsTruthy(Get(rec, UsageAnomaly))
    && Get(rec, Status) == Str("success")
    && !IsTruthy(Get(rec, UsageAvailable))
    && AsInt(Get(rec, InputTokens)) + AsInt(Get(rec, OutputTokens)) <= 0
    && AsInt(Get(rec, PromptChars)) > ZERO_USAGE_PROMPT_THRESHOLD
  }

  function Reclassify(rec: Record): Record {
    rec[Status := Str("failed")][EstimatedCostUsd := Float(0.0, "0.0")]
       [UsageAnomaly := Str("zero_usage_with_prompt")]
  }

  function CleanRecord(rec: Record): Record {
    if IsAnomaly(rec) then Reclassify(rec) else rec
  }

  function Cleaner(): Record -> Record {
    (rec: Record) => CleanRecord(rec)
  }

  function Anomalous(): Record -> bool {
    (rec: Record) => IsAnomaly(rec)
  }

  function TotalCost(records: seq<Record>): real {
    if records == [] then 0.0
    else TotalCost(records[..|records| - 1]) + AsReal(Get(records[|records| - 1], EstimatedCostUsd))
  }

  method CleanRecords(records: seq<Record>) returns (cleaned: seq<Record>, reclassified: nat, phantom: real)
    ensures cleaned == Map(records, Cleaner())
    ensures reclassified == |Filter(records, Anomalous())|
    ensures phantom == TotalCost(Filter(records, Anomalous()))
  {
    cleaned, reclassified, phantom := [], 0, 0.0;
    for i := 0 to |records|
      invariant cleaned == Map(records[..i], Cleaner())
      invariant reclassified == |Filter(records[..i], Anomalous())|
      invariant phantom == TotalCost(Filter(records[..i], Anomalous()))
    {
      var rec := records[i];
      TakeNext(records, i);
      MapAppend(records[..i], [rec], Cleaner());
      FilterLast(records[..i], rec, Anomalous());
      if IsAnomaly(rec) {
        ghost var before := Filter(records[..i], Anomalous());
        assert (before + [rec])[..|before|] == before;
        reclassified := reclassified + 1;
        phantom := phantom + AsReal(Get(rec, EstimatedCostUsd));
        cleaned := cleaned + [Reclassify(rec)];
      } else {
        cleaned := cleaned + [rec];
      }
    }
    TakeAll(records);
  }

  /** A record with plain fields: `anomaly` is its earlier classification, if any. */
  predicate HasFields(rec: Record, anomaly: Option<string>, status: string, available: bool, tokensIn: int, tokensOut: int,
                      chars: int)
  {
    && (if anomaly.None? then UsageAnomaly !in rec else UsageAnomaly in rec && rec[UsageAnomaly] == Str(anomaly.value))
    && Status in rec && rec[Status] == Str(status)
    && UsageAvailable in rec && rec[UsageAvailable] == Bool(available)
    && InputTokens in rec && rec[InputTokens] == Int(tokensIn)
    && OutputTokens in rec && rec[OutputTokens] == Int(tokensOut)
    && PromptChars in rec && rec[PromptChars] == Int(chars)
  }

  predicate IsPhantom(anomaly: Option<string>, status: string, available: bool, tokensIn: int, tokensOut: int, chars: int) {
    && (anomaly.None? || anomaly == Some("")) && status == "success" && !available
    && tokensIn + tokensOut <= 0 && chars > 500
  }

  lemma AnomalyIsPhantom(rec: Record, anomaly: Option<string>, status: string, available: bool, tokensIn: int,
                         tokensOut: int, chars: int)
    requires HasFields(rec, anomaly, status, available, tokensIn, tokensOut, chars)
    ensures IsAnomaly(rec) <==> IsPhantom(anomaly, status, available, tokensIn, tokensOut, chars)
  {
    assert IsTruthy(Get(rec, UsageAnomaly)) <==> anomaly.Some? && anomaly.value != "";
  }

  /** A call that succeeded on a prompt of more than 500 characters with no usage and no token is made a failed one that
      cost nothing; every other record, and every other field, stays. */
  lemma ReclassifiedExactly(rec: Record, anomaly: Option<string>, status: string, available: bool, tokensIn: int,
                            tokensOut: int, chars: int)
    requires HasFields(rec, anomaly, status, available, tokensIn, tokensOut, chars)
    ensures
      var fixed := CleanRecord(rec);
      && (!IsPhantom(anomaly, status, available, tokensIn, tokensOut, chars) ==> fixed == rec)
      && (IsPhantom(anomaly, status, available, tokensIn, tokensOut, chars) ==>
            && Get(fixed, UsageAnomaly) == Str("zero_usage_with_prompt") && Get(fixed, Status) == Str("failed")
            && AsReal(Get(fixed, EstimatedCostUsd)) == 0.0)
    ensures forall key :: key != Status && key != EstimatedCostUsd && key != UsageAnomaly ==>
              Get(CleanRecord(rec), key) == Get(rec, key)
  {
    AnomalyIsPhantom(rec, anomaly, status, available, tokensIn, tokensOut, chars);
  }

  lemma ReclassifiedIsClean(rec: Record)
    ensures !IsAnomaly(CleanRecord(rec)) && CleanRecord(CleanRecord(rec)) == CleanRecord(rec)
  {
    assert IsTruthy(Str("zero_usage_with_prompt"));
  }

  /** A second pass finds nothing to reclassify and changes nothing. */
  lemma SecondPassIsIdle(records: seq<Record>)
    ensures Filter(Map(records, Cleaner()), Anomalous()) == []
    ensures Map(Map(records, Cleaner()), Cleaner()) == Map(records, Cleaner())
  {
    var cleaned := Map(records, Cleaner());
    forall i | 0 <= i < |records|
      ensures !IsAnomaly(cleaned[i]) && CleanRecord(cleaned[i]) == cleaned[i]
    {
      ReclassifiedIsClean(records[i]);
    }
    FilterNone(cleaned, Anomalous());
  }

  // ---- rounding ----

  const MICRO := 1_000_000.0

  /** Nearest integer, ties to even. */
  function Round(x: real): int {
    var f := x.Floor;
    var d := x - f as real;
    if d < 0.5 then f else if d > 0.5 then f + 1 else if f % 2 == 0 then f else f + 1
  }

  /** No integer is nearer, and a tie goes to the even one. */
  lemma RoundIsNearest(x: real)
    ensures -0.5 <= x - Round(x) as real <= 0.5
    ensures x - Round(x) as real == 0.5 || x - Round(x) as real == -0.5 ==> Round(x) % 2 == 0
  {
    assert 0.0 <= x - x.Floor as real < 1.0;
  }

  /** A number with a fraction counts as the integer next to it towards zero. */
  lemma AsIntTruncates(r: real, shown: string)
    ensures r >= 0.0 ==> AsInt(Float(r, shown)) as real <= r < AsInt(Float(r, shown)) as real + 1.0
    ensures r <= 0.0 ==> AsInt(Float(r, shown)) as real - 1.0 < r <= AsInt(Float(r, shown)) as real
  {
  }

  function RoundTo6(x: real): real {
    Round(x * MICRO) as real / MICRO
  }

  /** Exactly half way between two integers. */
  predicate IsTie(x: real) {
    x - x.Floor as real == 0.5
  }

  lemma FloorShift(n: int, x: real)
    ensures (n as real + x).Floor == n + x.Floor
  {
  }

  /** Rounding commutes with adding an integer, except that a tie may go the other way. */
  lemma RoundShift(n: int, x: real)
    ensures !IsTie(x) ==> Round(n as real + x) == n + Round(x)
    ensures IsTie(x) ==> n + Round(x) - 1 <= Round(n as real + x) <= n + Round(x) + 1
  {
    FloorShift(n, x);
  }

  // ---- counters ----

  /** Running totals of integer fields; a fresh counter does not hold the two cache token ones. */
  datatype Sums = Sums(
    promptEstTokens: int, totalEstTokens: int, totalTokens: int, historyCharsSaved: int, contextCharsSaved: int,
    cacheHits: int, cacheMisses: int, prunedCharsTotal: int,
    cacheCreationInputTokens: Option<int>, cacheReadInputTokens: Option<int>)

  /** A counter; the cost fields appear with the first positive contribution. */
  datatype Counter = Counter(
    inferenceCalls: int, sums: Sums, actualUsageCalls: int, usageUnavailableCalls: int,
    costUsd: Option<real>, costMicro: Option<int>, unavailableMicro: Option<int>, lastUpdated: string)

  const NEW_COUNTER := Counter(0, Sums(0, 0, 0, 0, 0, 0, 0, 0, None, None), 0, 0, None, None, None, "")

  function OrZero(n: Option<int>): int {
    if n.Some? then n.value else 0
  }

  function UsdOf(c: Counter): real {
    if c.costUsd.Some? then c.costUsd.value else 0.0
  }

  function IntOf(rec: Record, key: Field): int {
    AsInt(Get(rec, key))
  }

  function AddSums(s: Sums, rec: Record): Sums {
    Sums(
      s.promptEstTokens + IntOf(rec, PromptEstTokens),
      s.totalEstTokens + IntOf(rec, TotalEstTokens),
      s.totalTokens + IntOf(rec, TotalTokens),
      s.historyCharsSaved + IntOf(rec, HistoryCharsSaved),
      s.contextCharsSaved + IntOf(rec, ContextCharsSaved),
      s.cacheHits + IntOf(rec, CacheHits),
      s.cacheMisses + IntOf(rec, CacheMisses),
      s.prunedCharsTotal + IntOf(rec, PrunedCharsTotal),
      Some(OrZero(s.cacheCreationInputTokens) + IntOf(rec, CacheCreationInputTokens)),
      Some(OrZero(s.cacheReadInputTokens) + IntOf(rec, CacheReadInputTokens)))
  }

  /** The cost that a record contributes: numbers only, and only when positive. */
  function CostOf(rec: Record): real {
    var cost := AsReal(Get(rec, EstimatedCostUsd));
    if cost > 0.0 then cost else 0.0
  }

  function MicroOf(rec: Record): int {
    if CostOf(rec) > 0.0 then Round(CostOf(rec) * MICRO) else 0
  }

  /** A cost in dollars counts as the nearest micro-dollars, and as nothing unless it is positive. */
  lemma MicroIsNearest(rec: Record, cost: real, shown: string)
    requires EstimatedCostUsd in rec && rec[EstimatedCostUsd] == Float(cost, shown)
    ensures cost <= 0.0 ==> MicroOf(rec) == 0
    ensures cost > 0.0 ==> -0.5 <= cost * 1000000.0 - MicroOf(rec) as real <= 0.5
  {
    RoundIsNearest(cost * MICRO);
  }

  predicate IsUnavailable(rec: Record) {
    Get(rec, UsageStatus) == Str("unavailable")
  }

  function AddCost(c: Counter, rec: Record): Counter {
    if CostOf(rec) <= 0.0 then c
    else
      c.(costUsd := Some(RoundTo6(UsdOf(c) + CostOf(rec))),
         costMicro := Some(OrZero(c.costMicro) + MicroOf(rec)),
         unavailableMicro := if IsUnavailable(rec) then Some(OrZero(c.unavailableMicro) + MicroOf(rec))
                             else c.unavailableMicro)
  }

  /** Everything in a counter but the money. */
  function AddUsage(c: Counter, rec: Record): Counter {
    c.(inferenceCalls := c.inferenceCalls + 1,
       sums := AddSums(c.sums, rec),
       actualUsageCalls := c.actualUsageCalls + if Get(rec, TokenSource) == Str("actual") then 1 else 0,
       usageUnavailableCalls := c.usageUnavailableCalls + if IsUnavailable(rec) then 1 else 0,
       lastUpdated := GetText(rec, Timestamp))
  }

  function Accumulate(c: Counter, rec: Record): Counter {
    AddUsage(AddCost(c, rec), rec)
  }

  function Fold(records: seq<Record>): Counter {
    if records == [] then NEW_COUNTER
    else Accumulate(Fold(records[..|records| - 1]), records[|records| - 1])
  }

  // ---- what a counter adds up to ----

  function Total(records: seq<Record>, key: Field): int {
    if records == [] then 0 else Total(records[..|records| - 1], key) + IntOf(records[|records| - 1], key)
  }

  function TotalMicro(records: seq<Record>, unavailableOnly: bool): int {
    if records == [] then 0
    else
      var rec := records[|records| - 1];
      TotalMicro(records[..|records| - 1], unavailableOnly)
        + if unavailableOnly && Get(rec, UsageStatus) != Str("unavailable") then 0 else MicroOf(rec)
  }

  function HasActualUsage(): Record -> bool {
    (rec: Record) => Get(rec, TokenSource) == Str("actual")
  }

  function Unavailable(): Record -> bool {
    (rec: Record) => Get(rec, UsageStatus) == Str("unavailable")
  }

  /** Each running total is the sum of its own field over the records. */
  lemma {:induction false} SumsAreTotals(records: seq<Record>)
    ensures
      var s := Fold(records).sums;
      && s.promptEstTokens == Total(records, PromptEstTokens)
      && s.totalEstTokens == Total(records, TotalEstTokens)
      && s.totalTokens == Total(records, TotalTokens)
      && s.historyCharsSaved == Total(records, HistoryCharsSaved)
      && s.contextCharsSaved == Total(records, ContextCharsSaved)
      && s.cacheHits == Total(records, CacheHits)
      && s.cacheMisses == Total(records, CacheMisses)
      && s.prunedCharsTotal == Total(records, PrunedCharsTotal)
      && OrZero(s.cacheCreationInputTokens) == Total(records, CacheCreationInputTokens)
      && OrZero(s.cacheReadInputTokens) == Total(records, CacheReadInputTokens)
  {
    if records != [] {
      SumsAreTotals(records[..|records| - 1]);
    }
  }

  /** The other fields count calls, add up rounded costs and keep the last timestamp; a cost field is there exactly
      when some record had a positive cost. */
  lemma {:induction false} CountersAreCounts(records: seq<Record>)
    ensures
      var c := Fold(records);
      && c.inferenceCalls == |records|
      && c.actualUsageCalls == |Filter(records, HasActualUsage())|
      && c.usageUnavailableCalls == |Filter(records, Unavailable())|
      && OrZero(c.costMicro) == TotalMicro(records, false)
      && OrZero(c.unavailableMicro) == TotalMicro(records, true)
      && (c.costUsd.Some? <==> c.costMicro.Some?)
      && (c.costMicro.Some? <==> exists rec :: rec in records && CostOf(rec) > 0.0)
      && c.lastUpdated == if records == [] then "" else GetText(records[|records| - 1], Timestamp)
  {
    if records != [] {
      var init, last := records[..|records| - 1], records[|records| - 1];
      assert records == init + [last];
      CountersAreCounts(init);
      FilterLast(init, last, HasActualUsage());
      FilterLast(init, last, Unavailable());
    }
  }

  // ---- buckets ----

  function Nonblank(text: string): Option<string> {
    if Strip(text) == "" then None else Some(Strip(text))
  }

  /** A positive integer as a key; Python counts `true` as the integer 1 and prints it as a word. */
  function PositiveKey(v: Json): Option<string> {
    match v
    case Int(n) => if n > 0 then Some(Signed(n)) else None
    case Bool(b) => if b then Some("True") else None
    case _ => None
  }

  datatype Index = Sessions | Prs | Issues | Sources

  function KeyOf(ix: Index, rec: Record): Option<string> {
    match ix
    case Sessions => Nonblank(GetText(rec, SessionId))
    case Prs => PositiveKey(Get(rec, PrNumber))
    case Issues => PositiveKey(Get(rec, IssueNumber))
    case Sources => Nonblank(GetText(rec, Source))
  }

  function HasKey(ix: Index, key: string): Record -> bool {
    (rec: Record) => KeyOf(ix, rec) == Some(key)
  }

  lemma SignedIsNoWord(n: int)
    ensures Signed(n) != "True" && Signed(n) != ""
  {
    LastDigit(if n < 0 then -n else n);
    assert n < 0 ==> Signed(n)[|Signed(n)| - 1] == Decimal(-n)[|Decimal(-n)| - 1];
    assert "True"[3] == 'e';
  }

  /** Which field puts a record in which bucket: its own field alone, a number under its digits, a text trimmed. */
  lemma KeysExactly(rec: Record, n: int, text: string)
    requires n > 0
    ensures KeyOf(Prs, rec) == Some(Signed(n)) <==> PrNumber in rec && rec[PrNumber] == Int(n)
    ensures KeyOf(Issues, rec) == Some(Signed(n)) <==> IssueNumber in rec && rec[IssueNumber] == Int(n)
    ensures text != "" ==>
              (KeyOf(Sessions, rec) == Some(text) <==> SessionId in rec && Strip(Shown(rec[SessionId])) == text)
    ensures text != "" ==> (KeyOf(Sources, rec) == Some(text) <==> Source in rec && Strip(Shown(rec[Source])) == text)
  {
    SignedIsNoWord(n);
    NumberKey(Get(rec, PrNumber), n);
    NumberKey(Get(rec, IssueNumber), n);
  }

  lemma NumberKey(v: Json, n: int)
    requires n > 0
    ensures PositiveKey(v) == Some(Signed(n)) <==> v == Int(n)
  {
    SignedIsNoWord(n);
    if v.Int? && Signed(v.n) == Signed(n) {
      SignedInjective(v.n, n);
    }
  }

  /** A number that is not positive, an absent field and a blank text put the record in no bucket. */
  lemma NoKeyExactly(rec: Record)
    ensures KeyOf(Prs, rec).None? <==>
            !(PrNumber in rec && (rec[PrNumber] == Bool(true) || (rec[PrNumber].Int? && rec[PrNumber].n > 0)))
    ensures KeyOf(Issues, rec).None? <==>
            !(IssueNumber in rec && (rec[IssueNumber] == Bool(true) || (rec[IssueNumber].Int? && rec[IssueNumber].n > 0)))
    ensures KeyOf(Sessions, rec).None? <==> SessionId !in rec || Strip(Shown(rec[SessionId])) == ""
    ensures KeyOf(Sources, rec).None? <==> Source !in rec || Strip(Shown(rec[Source])) == ""
  {
  }

  type Buckets = map<string, Counter>

  /** A bucket exists exactly for the keys that occur, and holds the fold of the records with that key. */
  ghost predicate AreFolds(buckets: Buckets, ix: Index, records: seq<Record>) {
    forall key :: IsFoldAt(buckets, ix, records, key)
  }

  ghost predicate IsFoldAt(buckets: Buckets, ix: Index, records: seq<Record>, key: string) {
    var slice := Filter(records, HasKey(ix, key));
    && (key in buckets <==> slice != [])
    && (key in buckets ==> buckets[key] == Fold(slice))
  }

  function AddTo(buckets: Buckets, key: Option<string>, rec: Record): Buckets {
    if key.None? then buckets
    else buckets[key.value := Accumulate(if key.value in buckets then buckets[key.value] else NEW_COUNTER, rec)]
  }

  lemma FoldNext(records: seq<Record>, rec: Record)
    ensures Fold(records + [rec]) == Accumulate(Fold(records), rec)
  {
    assert (records + [rec])[..|records|] == records;
  }

  lemma FoldsStep(buckets: Buckets, ix: Index, records: seq<Record>, rec: Record)
    requires AreFolds(buckets, ix, records)
    ensures AreFolds(AddTo(buckets, KeyOf(ix, rec), rec), ix, records + [rec])
  {
    var next := AddTo(buckets, KeyOf(ix, rec), rec);
    forall key
      ensures IsFoldAt(next, ix, records + [rec], key)
    {
      var slice := Filter(records, HasKey(ix, key));
      assert IsFoldAt(buckets, ix, records, key);
      FilterLast(records, rec, HasKey(ix, key));
      FoldNext(slice, rec);
    }
  }

  /** The rollup file's contents, rebuilt record by record. */
  class RollupFile {
    var lifetime: Counter
    var sessions: Buckets
    var prs: Buckets
    var issues: Buckets
    var sources: Buckets
    var updatedAt: Option<string>

    constructor ()
      ensures Reflects([]) && updatedAt == None
    {
      lifetime, updatedAt := NEW_COUNTER, None;
      sessions, prs, issues, sources := map[], map[], map[], map[];
    }

    /** Holds exactly what the records so far amount to. */
    ghost predicate Reflects(records: seq<Record>)
      reads this
    {
      && lifetime == Fold(records)
      && AreFolds(sessions, Sessions, records) && AreFolds(prs, Prs, records)
      && AreFolds(issues, Issues, records) && AreFolds(sources, Sources, records)
    }

    method AddRecord(rec: Record, ghost records: seq<Record>)
      requires Reflects(records)
      modifies this
      ensures Reflects(records + [rec]) && updatedAt == old(updatedAt)
    {
      FoldNext(records, rec);
      lifetime := Accumulate(lifetime, rec);
      FoldsStep(sessions, Sessions, records, rec);
      sessions := AddTo(sessions, KeyOf(Sessions, rec), rec);
      FoldsStep(prs, Prs, records, rec);
      prs := AddTo(prs, KeyOf(Prs, rec), rec);
      FoldsStep(issues, Issues, records, rec);
      issues := AddTo(issues, KeyOf(Issues, rec), rec);
      FoldsStep(sources, Sources, records, rec);
      sources := AddTo(sources, KeyOf(Sources, rec), rec);
    }

    /** Every bucket of all four indexes, and the lifetime counter, is the fold of its own records. */
    method Rebuild(records: seq<Record>)
      requires Reflects([]) && updatedAt == None
      modifies this
      ensures Reflects(records)
      ensures updatedAt == if records == [] then None else Some(GetText(records[|records| - 1], Timestamp))
    {
      for i := 0 to |records|
        invariant Reflects(records[..i]) && updatedAt == None
      {
        AddRecord(records[i], records[..i]);
        TakeNext(records, i);
      }
      TakeAll(records);
      if records != [] {
        updatedAt := Some(GetText(records[|records| - 1], Timestamp));
      }
    }
  }

  // ---- cleaning takes out exactly the phantom money ----

  function PhantomMicro(records: seq<Record>): int {
    if records == [] then 0
    else
      var rec := records[|records| - 1];
      PhantomMicro(records[..|records| - 1]) + if IsAnomaly(rec) then MicroOf(rec) else 0
  }

  function PhantomUnavailable(records: seq<Record>): int {
    if records == [] then 0
    else
      var rec := records[|records| - 1];
      PhantomUnavailable(records[..|records| - 1]) + if IsAnomaly(rec) && IsUnavailable(rec) then MicroOf(rec) else 0
  }

  /** A counter without its money. */
  function Usage(c: Counter): Counter {
    c.(costUsd := None, costMicro := None, unavailableMicro := None)
  }

  predicate IsReclassified(key: Field) {
    key == Status || key == EstimatedCostUsd || key == UsageAnomaly
  }

  lemma ReclassifyKeepsField(rec: Record, key: Field)
    requires !IsReclassified(key)
    ensures Get(Reclassify(rec), key) == Get(rec, key) && GetText(Reclassify(rec), key) == GetText(rec, key)
  {
  }

  /** Reclassifying leaves every record in its buckets. */
  lemma ReclassifyKeepsKeys(rec: Record, ix: Index)
    ensures KeyOf(ix, Reclassify(rec)) == KeyOf(ix, rec)
  {
    ReclassifyKeepsField(rec, SessionId);
    ReclassifyKeepsField(rec, PrNumber);
    ReclassifyKeepsField(rec, IssueNumber);
    ReclassifyKeepsField(rec, Source);
  }

  lemma UsageOfCost(c: Counter, rec: Record)
    ensures Usage(AddUsage(AddCost(c, rec), rec)) == Usage(AddUsage(c, rec))
  {
  }

  lemma ReclassifyKeepsSums(sums: Sums, rec: Record)
    ensures AddSums(sums, Reclassify(rec)) == AddSums(sums, rec)
  {
  }

  /** Reclassifying leaves what the record counts for. */
  lemma ReclassifyKeepsUsage(c: Counter, rec: Record)
    ensures Usage(Accumulate(c, Reclassify(rec))) == Usage(Accumulate(c, rec))
  {
    var fixed := Reclassify(rec);
    ReclassifyKeepsSums(c.sums, rec);
    UsageOfCost(c, fixed);
    UsageOfCost(c, rec);
    ReclassifyKeepsField(rec, TokenSource);
    ReclassifyKeepsField(rec, UsageStatus);
    ReclassifyKeepsField(rec, Timestamp);
  }

  lemma UsageOfAccumulate(c: Counter, d: Counter, rec: Record)
    requires Usage(c) == Usage(d)
    ensures Usage(Accumulate(c, rec)) == Usage(Accumulate(d, rec))
  {
    assert c.sums == Usage(c).sums && d.sums == Usage(d).sums;
  }

  lemma MoneyOfAccumulate(c: Counter, rec: Record)
    ensures OrZero(Accumulate(c, rec).costMicro) == OrZero(c.costMicro) + MicroOf(rec)
    ensures OrZero(Accumulate(c, rec).unavailableMicro) ==
            OrZero(c.unavailableMicro) + if IsUnavailable(rec) then MicroOf(rec) else 0
  {
  }

  lemma ReclassifiedIsFree(rec: Record)
    ensures MicroOf(Reclassify(rec)) == 0
  {
    assert Get(Reclassify(rec), EstimatedCostUsd) == Float(0.0, "0.0");
  }

  /** Counting a cleaned record into one counter and the original into another. */
  lemma CleaningStep(c: Counter, d: Counter, rec: Record)
    requires Usage(c) == Usage(d)
    ensures
      var phantom := if IsAnomaly(rec) then MicroOf(rec) else 0;
      var cleaned, original := Accumulate(c, CleanRecord(rec)), Accumulate(d, rec);
      && Usage(cleaned) == Usage(original)
      && OrZero(cleaned.costMicro) - OrZero(c.costMicro) == OrZero(original.costMicro) - OrZero(d.costMicro) - phantom
      && OrZero(cleaned.unavailableMicro) - OrZero(c.unavailableMicro) ==
         OrZero(original.unavailableMicro) - OrZero(d.unavailableMicro) - if IsUnavailable(rec) then phantom else 0
  {
    UsageOfAccumulate(c, d, rec);
    if IsAnomaly(rec) {
      ReclassifyKeepsUsage(c, rec);
      ReclassifiedIsFree(rec);
    }
    MoneyOfAccumulate(c, CleanRecord(rec));
    MoneyOfAccumulate(d, rec);
  }

  lemma CleanedFoldNext(records: seq<Record>)
    requires records != []
    ensures
      var init, rec := records[..|records| - 1], records[|records| - 1];
      Fold(Map(records, Cleaner())) == Accumulate(Fold(Map(init, Cleaner())), CleanRecord(rec))
  {
    var init, rec := records[..|records| - 1], records[|records| - 1];
    assert records == init + [rec];
    MapAppend(init, [rec], Cleaner());
    FoldNext(Map(init, Cleaner()), CleanRecord(rec));
  }

  /** For any set of records, so for the lifetime and for every bucket: cleaning lowers the micro-dollars by exactly
      the anomalies' rounded costs and changes nothing but money. */
  lemma {:induction false} CleaningRemovesPhantomCost(records: seq<Record>)
    ensures
      var cleaned, original := Fold(Map(records, Cleaner())), Fold(records);
      && OrZero(cleaned.costMicro) == OrZero(original.costMicro) - PhantomMicro(records)
      && OrZero(cleaned.unavailableMicro) == OrZero(original.unavailableMicro) - PhantomUnavailable(records)
      && Usage(cleaned) == Usage(original)
  {
    if records != [] {
      var init, rec := records[..|records| - 1], records[|records| - 1];
      CleaningRemovesPhantomCost(init);
      CleanedFoldNext(records);
      CleaningStep(Fold(Map(init, Cleaner())), Fold(init), rec);
    }
  }

  /** Cleaning keeps every record in its buckets. */
  lemma {:induction false} CleaningKeepsBuckets(records: seq<Record>, ix: Index, key: string)
    ensures Filter(Map(records, Cleaner()), HasKey(ix, key)) == Map(Filter(records, HasKey(ix, key)), Cleaner())
  {
    if records != [] {
      CleaningKeepsBuckets(records[1..], ix, key);
      ReclassifyKeepsKeys(records[0], ix);
      assert Map(records, Cleaner())[1..] == Map(records[1..], Cleaner());
    }
  }

  /** So every bucket loses exactly the rounded cost of its own anomalies. */
  lemma EveryBucketLosesItsPhantoms(records: seq<Record>, ix: Index, key: string)
    ensures
      var slice := Filter(records, HasKey(ix, key));
      var cleaned := Fold(Filter(Map(records, Cleaner()), HasKey(ix, key)));
      && OrZero(cleaned.costMicro) == OrZero(Fold(slice).costMicro) - PhantomMicro(slice)
      && Usage(cleaned) == Usage(Fold(slice))
  {
    CleaningKeepsBuckets(records, ix, key);
    CleaningRemovesPhantomCost(Filter(records, HasKey(ix, key)));
  }

  // ---- the two money fields drift apart only on ties ----

  function Ties(records: seq<Record>): nat {
    if records == [] then 0
    else
      var rec := records[|records| - 1];
      Ties(records[..|records| - 1]) + if CostsATie(rec) then 1 else 0
  }

  lemma UsdOfAccumulate(c: Counter, rec: Record)
    ensures UsdOf(Accumulate(c, rec)) == if CostOf(rec) > 0.0 then RoundTo6(UsdOf(c) + CostOf(rec)) else UsdOf(c)
  {
  }

  lemma RoundInMicros(micros: int, cost: real)
    ensures RoundTo6(micros as real / MICRO + cost) == Round(micros as real + cost * MICRO) as real / MICRO
  {
    assert (micros as real / MICRO + cost) * MICRO == micros as real + cost * MICRO;
  }

  predicate CostsATie(rec: Record) {
    CostOf(rec) > 0.0 && IsTie(CostOf(rec) * MICRO)
  }

  lemma DriftStep(c: Counter, rec: Record, before: int) returns (micros: int)
    requires UsdOf(c) == before as real / MICRO
    ensures UsdOf(Accumulate(c, rec)) == micros as real / MICRO
    ensures !CostsATie(rec) ==> micros == before + MicroOf(rec)
    ensures before + MicroOf(rec) - 1 <= micros <= before + MicroOf(rec) + 1
  {
    UsdOfAccumulate(c, rec);
    micros := before;
    if CostOf(rec) > 0.0 {
      RoundInMicros(before, CostOf(rec));
      RoundShift(before, CostOf(rec) * MICRO);
      micros := Round(before as real + CostOf(rec) * MICRO);
    }
  }

  /** The dollar counter is a whole number of micro-dollars, and each exact tie moves it by at most one of them
      away from the micro-dollar counter. */
  lemma {:induction false} DriftBound(records: seq<Record>) returns (micros: int)
    ensures UsdOf(Fold(records)) == micros as real / MICRO
    ensures OrZero(Fold(records).costMicro) - Ties(records) <= micros <= OrZero(Fold(records).costMicro) + Ties(records)
  {
    if records == [] {
      micros := 0;
    } else {
      var init, rec := records[..|records| - 1], records[|records| - 1];
      var before := DriftBound(init);
      micros := DriftStep(Fold(init), rec, before);
      MoneyOfAccumulate(Fold(init), rec);
    }
  }

  lemma TiesNext(records: seq<Record>, rec: Record)
    ensures Ties(records + [rec]) == Ties(records) + if CostsATie(rec) then 1 else 0
  {
    assert (records + [rec])[..|records|] == records;
  }

  lemma RoundOfMicros(n: nat)
    ensures !IsTie(1.0) && IsTie(0.5) && Round(1.0) == 1 && Round(0.5) == 0
    ensures Round(2.0 * n as real + 1.0) == 2 * n + 1 && Round(2.0 * n as real + 1.5) == 2 * n + 2
  {
    assert (1.0).Floor == 1 && (0.5).Floor == 0;
    FloorShift(2 * n, 1.0);
    FloorShift(2 * n, 1.5);
    assert (1.5).Floor == 1 && (2 * n) as real == 2.0 * n as real;
  }

  /** One micro-dollar and then half of one, n times over. */
  function Repeated(one: Record, half: Record, n: nat): seq<Record> {
    if n == 0 then [] else Repeated(one, half, n - 1) + [one] + [half]
  }

  lemma DriftNext(c: Counter, one: Record, half: Record, n: nat)
    requires CostOf(one) == 0.000001 && CostOf(half) == 0.0000005
    requires UsdOf(c) == (2 * n) as real / MICRO && OrZero(c.costMicro) == n
    ensures
      var d := Accumulate(Accumulate(c, one), half);
      UsdOf(d) == (2 * (n + 1)) as real / MICRO && OrZero(d.costMicro) == n + 1
  {
    var d := Accumulate(c, one);
    RoundOfMicros(n);
    UsdOfAccumulate(c, one);
    RoundInMicros(2 * n, CostOf(one));
    assert CostOf(one) * MICRO == 1.0 && CostOf(half) * MICRO == 0.5;
    assert UsdOf(d) == (2 * n + 1) as real / MICRO;
    UsdOfAccumulate(d, half);
    RoundInMicros(2 * n + 1, CostOf(half));
    assert (2 * n + 1) as real + 0.5 == 2.0 * n as real + 1.5;
    MoneyOfAccumulate(c, one);
    MoneyOfAccumulate(d, half);
  }

  /** The bound is met for every number of ties: n times a record of one micro-dollar and one of half a micro-dollar
      give 2n against n. */
  lemma {:induction false} DriftIsReached(one: Record, half: Record, n: nat)
    requires CostOf(one) == 0.000001 && CostOf(half) == 0.0000005
    ensures
      var records := Repeated(one, half, n);
      var c := Fold(records);
      UsdOf(c) == (2 * n) as real / MICRO && OrZero(c.costMicro) == n && Ties(records) == n
  {
    if n > 0 {
      var before := Repeated(one, half, n - 1);
      DriftIsReached(one, half, n - 1);
      DriftNext(Fold(before), one, half, n - 1);
      FoldNext(before, one);
      FoldNext(before + [one], half);
      RoundOfMicros(0);
      assert CostOf(one) * MICRO == 1.0 && CostOf(half) * MICRO == 0.5;
      TiesNext(before, one);
      TiesNext(before + [one], half);
    }
  }
}
