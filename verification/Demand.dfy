/** What a failing verdict may demand of a retry: topical tokens, the pinned demand and the
    partition of a verdict's findings against it (src/adequacy_demand.py).

    Whether a finding is anchored is a lexical test on its text; here it is the parameter `anchored`. */
module Demand {
  import opened Sequences
  import opened Text

  const MIN_TOKEN_LENGTH := 4
  const MAX_PINNED_FINDINGS := 10

  const STOPWORDS: set<string> :=
    {"also", "both", "from", "into", "only", "over", "that", "this", "when", "then", "with"}

  const GATE_VOCABULARY: set<string> :=
    {"branch", "branches", "case", "cases", "cover", "coverage", "covered", "edge", "edges", "gaps",
     "missing", "test", "tested", "testing", "tests", "uncovered", "unpinned", "untested"}

  // ---- tokens ----

  predicate IsWordChar(c: char) {
    'a' <= c <= 'z' || '0' <= c <= '9'
  }

  /** How many leading characters belong to one word. */
  function WordLength(s: string): (n: nat)
    ensures n <= |s|
    ensures n > 0 <==> s != [] && IsWordChar(s[0])
  {
    if s != [] && IsWordChar(s[0]) then 1 + WordLength(s[1..]) else 0
  }

  /** The maximal runs of word characters. */
  function Words(s: string): seq<string>
    decreases |s|
  {
    if s == [] then []
    else if !IsWordChar(s[0]) then Words(s[1..])
    else [s[..WordLength(s)]] + Words(s[WordLength(s)..])
  }

  /** `w` is a maximal run of lower-case letters and digits in `s`. */
  ghost predicate IsWordOf(s: string, w: string) {
    exists i, j :: 0 <= i < j <= |s| && s[i..j] == w && IsWordAt(s, i, j)
  }

  predicate IsWordAt(s: string, i: int, j: int)
    requires 0 <= i < j <= |s|
  {
    && (forall k :: i <= k < j ==> IsWordChar(s[k]))
    && (i > 0 ==> !IsWordChar(s[i - 1])) && (j < |s| ==> !IsWordChar(s[j]))
  }

  lemma {:induction false} WordLengthIsRun(s: string)
    ensures forall k :: 0 <= k < WordLength(s) ==> IsWordChar(s[k])
    ensures WordLength(s) < |s| ==> !IsWordChar(s[WordLength(s)])
  {
    if s != [] && IsWordChar(s[0]) {
      WordLengthIsRun(s[1..]);
    }
  }

  lemma SliceOfSlice(s: string, n: nat, i: nat, j: nat)
    requires i <= j && n + j <= |s|
    ensures s[n..][i..j] == s[n + i..n + j]
  {
  }

  /** A word of `s` starts at the front or is a word of what follows the front. */
  lemma WordAfter(s: string, n: nat, w: string)
    requires 0 < n <= |s| && (n < |s| ==> !IsWordChar(s[n - 1]) || !IsWordChar(s[n]))
    requires IsWordOf(s[n..], w)
    ensures IsWordOf(s, w)
  {
    var t := s[n..];
    var i, j :| 0 <= i < j <= |t| && t[i..j] == w && IsWordAt(t, i, j);
    SliceOfSlice(s, n, i, j);
    assert forall k :: 0 <= k < |t| ==> t[k] == s[n + k];
    assert forall k :: n + i <= k < n + j ==> s[k] == t[k - n];
    assert IsWordChar(t[i]);
    assert IsWordAt(s, n + i, n + j);
  }

  /** A word that starts at n or later is a word of the rest. */
  lemma WordIsLater(s: string, n: nat, i: nat, j: nat)
    requires n <= i < j <= |s| && IsWordAt(s, i, j)
    ensures IsWordOf(s[n..], s[i..j])
  {
    var t := s[n..];
    SliceOfSlice(s, n, i - n, j - n);
    assert forall k :: 0 <= k < |t| ==> t[k] == s[n + k];
    assert IsWordAt(t, i - n, j - n);
  }

  lemma WordBefore(s: string, n: nat, w: string)
    requires 0 < n <= |s| && IsWordOf(s, w)
    requires forall k :: 0 <= k < n ==> !IsWordChar(s[k])
    ensures IsWordOf(s[n..], w)
  {
    var i, j :| 0 <= i < j <= |s| && s[i..j] == w && IsWordAt(s, i, j);
    assert IsWordChar(s[i]) && i >= n;
    WordIsLater(s, n, i, j);
  }

  lemma WordAtFront(s: string, w: string)
    requires s != [] && IsWordChar(s[0])
    ensures
      var n := WordLength(s);
      IsWordOf(s, w) <==> w == s[..n] || IsWordOf(s[n..], w)
  {
    var n := WordLength(s);
    WordLengthIsRun(s);
    assert IsWordAt(s, 0, n) && s[0..n] == s[..n];
    if IsWordOf(s[n..], w) {
      WordAfter(s, n, w);
    }
    if IsWordOf(s, w) && w != s[..n] {
      var i, j :| 0 <= i < j <= |s| && s[i..j] == w && IsWordAt(s, i, j);
      OtherWordIsLater(s, n, i, j);
      WordIsLater(s, n, i, j);
    }
  }

  lemma OtherWordIsLater(s: string, n: nat, i: nat, j: nat)
    requires n <= |s| && i < j <= |s| && IsWordAt(s, i, j) && s[i..j] != s[..n] && 0 < n
    requires IsWordAt(s, 0, n)
    ensures n <= i
  {
  }

  /** Tokenising finds exactly the maximal runs. */
  lemma {:induction false} WordsAreMaximalRuns(s: string, w: string)
    ensures w in Words(s) <==> IsWordOf(s, w)
    decreases |s|
  {
    if s == [] {
    } else if !IsWordChar(s[0]) {
      WordsAreMaximalRuns(s[1..], w);
      if IsWordOf(s, w) {
        WordBefore(s, 1, w);
      }
      if IsWordOf(s[1..], w) {
        WordAfter(s, 1, w);
      }
    } else {
      WordsAreMaximalRuns(s[WordLength(s)..], w);
      WordAtFront(s, w);
    }
  }

  /** A finding's tokens are the maximal runs of at least four letters and digits in its lower-cased text, without the
      ignored vocabularies. */
  lemma TokensExactly(f: string, t: string)
    ensures t in FindingTokens(f) <==> IsWordOf(Lower(f), t) && |t| >= 4 && t !in STOPWORDS && t !in GATE_VOCABULARY
  {
    WordsAreMaximalRuns(Lower(f), t);
  }

  function FindingTokens(finding: string): set<string> {
    set w | w in Words(Lower(finding)) &&
            |w| >= MIN_TOKEN_LENGTH && w !in STOPWORDS && w !in GATE_VOCABULARY
  }

  function DemandTokens(findings: seq<string>): set<string> {
    if findings == [] then {} else DemandTokens(findings[..|findings| - 1]) + FindingTokens(findings[|findings| - 1])
  }

  lemma {:induction false} DemandTokensCover(findings: seq<string>, f: string)
    requires f in findings
    ensures FindingTokens(f) <= DemandTokens(findings)
  {
    if f in findings[..|findings| - 1] {
      DemandTokensCover(findings[..|findings| - 1], f);
    }
  }

  lemma {:induction false} DemandTokensFromFinding(findings: seq<string>, t: string)
    requires t in DemandTokens(findings)
    ensures exists f :: f in findings && t in FindingTokens(f)
  {
    if t !in FindingTokens(findings[|findings| - 1]) {
      DemandTokensFromFinding(findings[..|findings| - 1], t);
    }
  }

  method DemandTokensLoop(findings: seq<string>) returns (tokens: set<string>)
    ensures forall t :: t in tokens <==> exists f :: f in findings && t in FindingTokens(f)
    ensures tokens == DemandTokens(findings)
  {
    tokens := {};
    for i := 0 to |findings|
      invariant tokens == DemandTokens(findings[..i])
    {
      assert findings[..i + 1][..i] == findings[..i];
      tokens := tokens + FindingTokens(findings[i]);
    }
    assert findings[..|findings|] == findings;
    forall t
      ensures t in tokens <==> exists f :: f in findings && t in FindingTokens(f)
    {
      if t in tokens {
        DemandTokensFromFinding(findings, t);
      } else if f :| f in findings && t in FindingTokens(f) {
        DemandTokensCover(findings, f);
      }
    }
  }

  // ---- outer whitespace carries no token ----

  ghost predicate NoWordChar(s: string) {
    forall i :: 0 <= i < |s| ==> !IsWordChar(s[i])
  }

  lemma {:induction false} LowerAppend(a: string, b: string)
    ensures Lower(a + b) == Lower(a) + Lower(b)
  {
    if a == [] {
      assert a + b == b;
    } else {
      assert (a + b)[1..] == a[1..] + b;
      LowerAppend(a[1..], b);
    }
  }

  lemma {:induction false} LowerBlank(s: string)
    requires IsBlank(s)
    ensures NoWordChar(Lower(s))
  {
    if s != [] {
      assert IsSpace(s[0]);
      LowerBlank(s[1..]);
    }
  }

  lemma {:induction false} WordsAfterGap(pre: string, s: string)
    requires NoWordChar(pre)
    ensures Words(pre + s) == Words(s)
  {
    if pre == [] {
      assert pre + s == s;
    } else {
      assert (pre + s)[1..] == pre[1..] + s;
      WordsAfterGap(pre[1..], s);
    }
  }

  lemma {:induction false} WordLengthBeforeGap(s: string, post: string)
    requires NoWordChar(post)
    ensures WordLength(s + post) == WordLength(s)
  {
    if s == [] {
      assert s + post == post;
    } else {
      assert (s + post)[1..] == s[1..] + post;
      WordLengthBeforeGap(s[1..], post);
    }
  }

  lemma {:induction false} WordsBeforeGap(s: string, post: string)
    requires NoWordChar(post)
    ensures Words(s + post) == Words(s)
    decreases |s|
  {
    if s == [] {
      assert s + post == post + [];
      WordsAfterGap(post, []);
    } else if !IsWordChar(s[0]) {
      assert (s + post)[1..] == s[1..] + post;
      WordsBeforeGap(s[1..], post);
    } else {
      var n := WordLength(s);
      WordLengthBeforeGap(s, post);
      assert (s + post)[..n] == s[..n] && (s + post)[n..] == s[n..] + post;
      WordsBeforeGap(s[n..], post);
    }
  }

  lemma TokensIgnorePadding(f: string)
    ensures FindingTokens(Strip(f)) == FindingTokens(f)
  {
    var pre, post := StripSplits(f);
    LowerAppend(pre + Strip(f), post);
    LowerAppend(pre, Strip(f));
    LowerBlank(pre);
    LowerBlank(post);
    WordsBeforeGap(Lower(pre) + Lower(Strip(f)), Lower(post));
    WordsAfterGap(Lower(pre), Lower(Strip(f)));
  }

  // ---- the pin ----

  function Stripped(findings: seq<string>): seq<string> {
    Filter(Map(findings, (f: string) => Strip(f)), (f: string) => f != [])
  }

  function Pin(findings: seq<string>): seq<string> {
    var distinct := Dedup(Stripped(findings));
    if |distinct| <= MAX_PINNED_FINDINGS then distinct else distinct[..MAX_PINNED_FINDINGS]
  }

  lemma StrippedPrefix(findings: seq<string>, i: nat)
    requires i < |findings|
    ensures Stripped(findings[..i + 1]) ==
            Stripped(findings[..i]) + if Strip(findings[i]) == [] then [] else [Strip(findings[i])]
  {
    assert findings[..i + 1] == findings[..i] + [findings[i]];
    var f := (f: string) => Strip(f);
    MapAppend(findings[..i], [findings[i]], f);
    assert Map([findings[i]], f) == [Strip(findings[i])];
    FilterAppend(Map(findings[..i], f), [Strip(findings[i])], (f: string) => f != []);
  }

  lemma StrippedMembers(findings: seq<string>)
    ensures forall f :: f in findings && Strip(f) != [] ==> Strip(f) in Stripped(findings)
    ensures forall p :: p in Stripped(findings) ==> p != [] && IsTrimmed(p) && exists f :: f in findings && Strip(f) == p
  {
    var m := Map(findings, (f: string) => Strip(f));
    FilterMembers(m, (f: string) => f != []);
    forall f | f in findings && Strip(f) != []
      ensures Strip(f) in Stripped(findings)
    {
      var i :| 0 <= i < |findings| && findings[i] == f;
      assert m[i] == Strip(f);
    }
    forall p | p in Stripped(findings)
      ensures p != [] && IsTrimmed(p) && exists f :: f in findings && Strip(f) == p
    {
      var i :| 0 <= i < |m| && m[i] == p;
      var _, _ := StripSplits(findings[i]);
      assert findings[i] in findings && Strip(findings[i]) == p;
    }
  }

  /** The pin holds stripped findings, at most ten, with no blank, no padding and no duplicate; it misses a finding only
      when full. */
  lemma PinFacts(findings: seq<string>)
    ensures |Pin(findings)| <= 10
    ensures Distinct(Pin(findings))
    ensures forall p :: p in Pin(findings) ==> p != [] && IsTrimmed(p) && exists f :: f in findings && Strip(f) == p
    ensures forall f :: f in findings && Strip(f) != [] && Strip(f) !in Pin(findings) ==> |Pin(findings)| == 10
    ensures |Dedup(Stripped(findings))| <= MAX_PINNED_FINDINGS ==>
              forall f :: f in findings && Strip(f) != [] ==> Strip(f) in Pin(findings)
  {
    DedupFacts(Stripped(findings));
    StrippedMembers(findings);
    assert forall p :: p in Pin(findings) ==> p in Dedup(Stripped(findings));
  }

  lemma {:induction false} StrippedTidy(s: seq<string>)
    requires forall p :: p in s ==> p != [] && IsTrimmed(p)
    ensures Stripped(s) == s
  {
    var m := Map(s, (f: string) => Strip(f));
    forall i | 0 <= i < |s|
      ensures m[i] == s[i]
    {
      assert s[i] in s;
      StripTrimmed(s[i]);
    }
    assert m == s;
    FilterAll(s, (f: string) => f != []);
  }

  /** Pinning a pinned demand changes nothing. */
  lemma PinIdempotent(findings: seq<string>)
    ensures Pin(Pin(findings)) == Pin(findings)
  {
    PinFacts(findings);
    StrippedTidy(Pin(findings));
    DedupDistinct(Pin(findings));
  }

  /** The loop, with its early exit at the bound. */
  method PinFindings(findings: seq<string>) returns (pinned: seq<string>)
    ensures pinned == Pin(findings)
  {
    pinned := [];
    var seen: set<string> := {};
    for i := 0 to |findings|
      invariant pinned == Dedup(Stripped(findings[..i]))
      invariant forall f :: f in seen <==> f in pinned
      invariant |pinned| < MAX_PINNED_FINDINGS
    {
      var stripped := Strip(findings[i]);
      StrippedPrefix(findings, i);
      ghost var before := Stripped(findings[..i]);
      assert (before + [stripped])[..|before|] == before;
      if stripped == [] || stripped in seen {
        assert before + [] == before;
        continue;
      }
      seen := seen + {stripped};
      pinned := pinned + [stripped];
      if |pinned| >= MAX_PINNED_FINDINGS {
        PinStopsEarly(findings, i + 1);
        return;
      }
    }
    assert findings[..|findings|] == findings;
  }

  lemma PinStopsEarly(findings: seq<string>, i: nat)
    requires i <= |findings|
    requires |Dedup(Stripped(findings[..i]))| == MAX_PINNED_FINDINGS
    ensures Pin(findings) == Dedup(Stripped(findings[..i]))
  {
    assert findings == findings[..i] + findings[i..];
    var f := (f: string) => Strip(f);
    MapAppend(findings[..i], findings[i..], f);
    FilterAppend(Map(findings[..i], f), Map(findings[i..], f), (f: string) => f != []);
    DedupPrefix(Stripped(findings[..i]), Stripped(findings[i..]));
  }

  // ---- the demand contract ----

  datatype DemandVerdict = DemandVerdict(
    blocking: seq<string>, advisory: seq<string>, restated: seq<string>, novel: seq<string>,
    anchored: seq<string>, unanchored: seq<string>, pinnedEnforced: bool)

  /** A finding that shares a token with the pin, or that has none to compare. */
  predicate Restates(pinTokens: set<string>, f: string) {
    FindingTokens(f) == {} || FindingTokens(f) * pinTokens != {}
  }

  /** The only findings a pin may waive. */
  predicate IsWaivable(pinTokens: set<string>, anchored: string -> bool, f: string) {
    pinTokens != {} && !Restates(pinTokens, f) && !anchored(f)
  }

  function Restating(pinTokens: set<string>): string -> bool {
    f => Restates(pinTokens, f)
  }

  function Waivable(pinTokens: set<string>, anchored: string -> bool): string -> bool {
    f => IsWaivable(pinTokens, anchored, f)
  }

  /** The pin's vocabulary; empty when no pin is in force. */
  function PinTokens(pinned: seq<string>, pinnedEnforced: bool): set<string> {
    if pinnedEnforced then DemandTokens(pinned) else {}
  }

  /** How a verdict must divide the findings, given the vocabulary of the pin. */
  ghost predicate Divides(v: DemandVerdict, findings: seq<string>, pinTokens: set<string>, anchored: string -> bool) {
    // blocking and advisory share the findings out; no finding is invented, repeated or lost
    && multiset(v.blocking) + multiset(v.advisory) == multiset(findings)
    // exactly the new, unanchored findings of a usable pin are waived, in order
    && v.advisory == Filter(findings, Waivable(pinTokens, anchored))
    && v.pinnedEnforced == (pinTokens != {})
    && (pinTokens == {} ==> v.blocking == findings && v.restated == v.novel == [])
    && (pinTokens != {} ==>
          && v.restated == Filter(findings, Restating(pinTokens))
          && multiset(v.restated) + multiset(v.novel) == multiset(findings)
          && v.restated <= v.blocking)
    && v.anchored == Filter(findings, anchored)
    && multiset(v.anchored) + multiset(v.unanchored) == multiset(findings)
  }

  /** Some pinned finding has a token to compare. */
  ghost predicate HasTokens(pinned: seq<string>) {
    exists p :: p in pinned && FindingTokens(p) != {}
  }

  /** Some token of the finding is a token of a pinned one. */
  ghost predicate SharesToken(f: string, pinned: seq<string>) {
    exists p, t :: p in pinned && t in FindingTokens(f) && t in FindingTokens(p)
  }

  lemma SharesWithDemand(f: string, pinned: seq<string>)
    ensures SharesToken(f, pinned) <==> FindingTokens(f) * DemandTokens(pinned) != {}
    ensures HasTokens(pinned) <==> DemandTokens(pinned) != {}
  {
    if t :| t in FindingTokens(f) * DemandTokens(pinned) {
      DemandTokensFromFinding(pinned, t);
    }
    if SharesToken(f, pinned) {
      var p, t :| p in pinned && t in FindingTokens(f) && t in FindingTokens(p);
      DemandTokensCover(pinned, p);
      assert t in FindingTokens(f) * DemandTokens(pinned);
    }
    if t :| t in DemandTokens(pinned) {
      DemandTokensFromFinding(pinned, t);
    }
    if HasTokens(pinned) {
      var p :| p in pinned && FindingTokens(p) != {};
      DemandTokensCover(pinned, p);
    }
  }

  lemma SharedTokens(findings: seq<string>, pinned: seq<string>, pinnedEnforced: bool, anchored: string -> bool)
    ensures
      var pinTokens := PinTokens(pinned, pinnedEnforced);
      && (pinTokens != {} <==> pinnedEnforced && HasTokens(pinned))
      && (forall f :: f in Filter(findings, Waivable(pinTokens, anchored)) <==>
            f in findings && !anchored(f) && pinnedEnforced && HasTokens(pinned) && FindingTokens(f) != {}
            && !SharesToken(f, pinned))
      && (pinTokens != {} ==> forall f :: f in Filter(findings, Restating(pinTokens)) <==>
            f in findings && (FindingTokens(f) == {} || SharesToken(f, pinned)))
  {
    var pinTokens := PinTokens(pinned, pinnedEnforced);
    FilterMembers(findings, Waivable(pinTokens, anchored));
    FilterMembers(findings, Restating(pinTokens));
    SharesWithDemand("", pinned);
    forall f: string
      ensures SharesToken(f, pinned) <==> FindingTokens(f) * DemandTokens(pinned) != {}
    {
      SharesWithDemand(f, pinned);
    }
  }

  method EvaluateDemand(findings: seq<string>, pinned: seq<string>, pinnedEnforced: bool,
                        anchored: string -> bool) returns (v: DemandVerdict)
    ensures Divides(v, findings, PinTokens(pinned, pinnedEnforced), anchored)
    // a finding is waived exactly when it is not anchored and has tokens, none of them in an enforced pin that has any
    ensures forall f :: f in v.advisory <==>
              f in findings && !anchored(f) && pinnedEnforced && HasTokens(pinned) && FindingTokens(f) != {}
              && !SharesToken(f, pinned)
    // and restated exactly when it shares a token with such a pin or has none to share
    ensures forall f :: f in v.restated <==>
              f in findings && pinnedEnforced && HasTokens(pinned) && (FindingTokens(f) == {} || SharesToken(f, pinned))
    ensures forall f :: f in v.blocking <==> f in findings && f !in v.advisory
    ensures v.pinnedEnforced <==> pinnedEnforced && HasTokens(pinned)
  {
    SharedTokens(findings, pinned, pinnedEnforced, anchored);
    var anchoredFs, unanchoredFs := SplitBy(findings, anchored);
    var pinTokens: set<string> := {};
    if pinnedEnforced {
      pinTokens := DemandTokensLoop(pinned);
    }
    if pinTokens == {} {
      FilterNone(findings, Waivable(pinTokens, anchored));
      return DemandVerdict(findings, [], [], [], anchoredFs, unanchoredFs, false);
    }
    var restated, novel := SplitBy(findings, Restating(pinTokens));
    var novelAnchored, advisory := SplitBy(novel, anchored);
    WaivedInTwoSteps(findings, pinTokens, anchored);
    FilterMembers(findings, Restating(pinTokens));
    FilterMembers(findings, Not(Restating(pinTokens)));
    FilterMembers(novel, anchored);
    FilterMembers(novel, Not(anchored));
    v := DemandVerdict(restated + novelAnchored, advisory, restated, novel, anchoredFs, unanchoredFs, true);
  }

  lemma {:induction false} WaivedInTwoSteps(s: seq<string>, pinTokens: set<string>, anchored: string -> bool)
    requires pinTokens != {}
    ensures Filter(Filter(s, Not(Restating(pinTokens))), Not(anchored)) == Filter(s, Waivable(pinTokens, anchored))
  {
    if s != [] {
      WaivedInTwoSteps(s[1..], pinTokens, anchored);
      var p := Not(Restating(pinTokens));
      assert Waivable(pinTokens, anchored)(s[0]) == (p(s[0]) && !anchored(s[0]));
      FilterAppend(if p(s[0]) then [s[0]] else [], Filter(s[1..], p), Not(anchored));
    }
  }

  method SplitBy(s: seq<string>, p: string -> bool) returns (yes: seq<string>, no: seq<string>)
    ensures yes == Filter(s, p) && no == Filter(s, Not(p))
    ensures multiset(yes) + multiset(no) == multiset(s)
  {
    yes, no := [], [];
    for i := 0 to |s|
      invariant yes == Filter(s[..i], p) && no == Filter(s[..i], Not(p))
    {
      assert s[..i + 1] == s[..i] + [s[i]];
      FilterAppend(s[..i], [s[i]], p);
      FilterAppend(s[..i], [s[i]], Not(p));
      if p(s[i]) {
        yes := yes + [s[i]];
      } else {
        no := no + [s[i]];
      }
    }
    assert s[..|s|] == s;
    FilterPartition(s, p);
  }

  /** A finding is waived exactly when the pin is usable, shares no token with it, and it names nothing. */
  lemma WaivedExactly(v: DemandVerdict, findings: seq<string>, pinTokens: set<string>, anchored: string -> bool)
    requires Divides(v, findings, pinTokens, anchored)
    ensures forall f :: f in v.advisory <==> f in findings && IsWaivable(pinTokens, anchored, f)
  {
    FilterMembers(findings, Waivable(pinTokens, anchored));
  }

  lemma PinnedFindingIsNotWaivable(demand: seq<string>, f: string, anchored: string -> bool)
    requires f in demand && (Strip(f) != [] ==> Strip(f) in Pin(demand))
    ensures !IsWaivable(DemandTokens(Pin(demand)), anchored, f)
  {
    TokensIgnorePadding(f);
    if Strip(f) != [] {
      DemandTokensCover(Pin(demand), Strip(f));
    }
  }

  /** The finding did not make it into the pin, which was full. */
  predicate IsUnpinned(demand: seq<string>, f: string) {
    Strip(f) != [] && Strip(f) !in Pin(demand)
  }

  predicate NothingToWaive(demand: seq<string>, retry: seq<string>, pinTokens: set<string>, anchored: string -> bool) {
    pinTokens == {} || forall f :: f in retry && IsUnpinned(demand, f) ==> anchored(f) || Restates(pinTokens, f)
  }

  /** A retry that only repeats a demand has nothing waived exactly when the pin has no token to compare, or every
      finding that did not make it into the pin is anchored or shares a token with the pin. */
  lemma RepeatIsNotWaivedExactly(demand: seq<string>, retry: seq<string>, v: DemandVerdict, anchored: string -> bool)
    requires forall f :: f in retry ==> f in demand
    requires Divides(v, retry, PinTokens(Pin(demand), true), anchored)
    ensures v.advisory == [] <==> NothingToWaive(demand, retry, DemandTokens(Pin(demand)), anchored)
  {
    var pinTokens := DemandTokens(Pin(demand));
    WaivedExactly(v, retry, pinTokens, anchored);
    forall f | f in retry && !IsUnpinned(demand, f)
      ensures !IsWaivable(pinTokens, anchored, f)
    {
      PinnedFindingIsNotWaivable(demand, f, anchored);
    }
    if v.advisory != [] {
      assert v.advisory[0] in v.advisory;
    }
  }

  /** So a retry that repeats a demand of at most ten distinct findings has nothing waived. */
  lemma RepeatedDemandIsNotWaived(demand: seq<string>, retry: seq<string>, v: DemandVerdict, anchored: string -> bool)
    requires forall f :: f in retry ==> f in demand
    requires |Dedup(Stripped(demand))| <= MAX_PINNED_FINDINGS
    requires Divides(v, retry, PinTokens(Pin(demand), true), anchored)
    ensures v.advisory == []
  {
    PinFacts(demand);
    RepeatIsNotWaivedExactly(demand, retry, v, anchored);
  }

  // ---- the bound of ten is where that guarantee ends ----

  /** One lower-case word, long enough and outside the ignored vocabularies. */
  predicate IsPlainWord(w: string) {
    && |w| >= MIN_TOKEN_LENGTH && w !in STOPWORDS && w !in GATE_VOCABULARY
    && forall i :: 0 <= i < |w| ==> IsWordChar(w[i])
  }

  lemma {:induction false} WordIsLower(w: string)
    requires forall i :: 0 <= i < |w| ==> IsWordChar(w[i])
    ensures Lower(w) == w && WordLength(w) == |w|
  {
    if w != [] {
      WordIsLower(w[1..]);
    }
  }

  lemma PlainWordTokens(w: string)
    requires IsPlainWord(w)
    ensures FindingTokens(w) == {w}
  {
    WordIsLower(w);
    assert w[..|w|] == w && w[|w|..] == [];
    assert Words(w) == [w] + Words([]);
  }

  predicate ArePlainWords(demand: seq<string>) {
    Distinct(demand) && forall i :: 0 <= i < |demand| ==> IsPlainWord(demand[i])
  }

  lemma PlainWordIsTrimmed(w: string)
    requires IsPlainWord(w)
    ensures w != [] && IsTrimmed(w) && Strip(w) == w
  {
    assert IsWordChar(w[0]) && IsWordChar(w[|w| - 1]);
    StripTrimmed(w);
  }

  /** The pin of distinct plain words is the first ten of them. */
  lemma PinOfPlainWords(demand: seq<string>)
    requires ArePlainWords(demand)
    ensures Pin(demand) == if |demand| <= MAX_PINNED_FINDINGS then demand else demand[..MAX_PINNED_FINDINGS]
  {
    forall f | f in demand
      ensures f != [] && IsTrimmed(f)
    {
      PlainWordIsTrimmed(f);
    }
    StrippedTidy(demand);
    DedupDistinct(demand);
  }

  predicate SharesNothing(pinTokens: set<string>, f: string) {
    pinTokens != {} && !Restates(pinTokens, f)
  }

  /** Of a demand of distinct plain words, everything beyond the tenth is unpinned and shares no token with the pin. */
  lemma BeyondTenIsUnpinned(demand: seq<string>, k: nat)
    requires ArePlainWords(demand) && MAX_PINNED_FINDINGS <= k < |demand|
    ensures IsUnpinned(demand, demand[k]) && SharesNothing(DemandTokens(Pin(demand)), demand[k])
  {
    PinOfPlainWords(demand);
    PlainWordIsTrimmed(demand[k]);
    PlainWordTokens(demand[k]);
    PinHasNoWord(demand, k);
    PinHasTokens(demand);
  }

  lemma PinHasTokens(demand: seq<string>)
    requires ArePlainWords(demand) && demand != [] && demand[0] in Pin(demand)
    ensures demand[0] in DemandTokens(Pin(demand))
  {
    PlainWordTokens(demand[0]);
    DemandTokensCover(Pin(demand), demand[0]);
  }

  lemma PinHasNoWord(demand: seq<string>, k: nat)
    requires ArePlainWords(demand) && MAX_PINNED_FINDINGS <= k < |demand| && Pin(demand) == demand[..MAX_PINNED_FINDINGS]
    ensures demand[k] !in DemandTokens(Pin(demand)) && demand[k] !in Pin(demand)
  {
    if demand[k] in DemandTokens(Pin(demand)) {
      DemandTokensFromFinding(Pin(demand), demand[k]);
      var f :| f in Pin(demand) && demand[k] in FindingTokens(f);
      PlainWordTokens(f);
    }
  }

  lemma PinnedIsFirstTen(demand: seq<string>, k: nat)
    requires ArePlainWords(demand) && k < |demand|
    ensures IsUnpinned(demand, demand[k]) <==> MAX_PINNED_FINDINGS <= k
  {
    PinOfPlainWords(demand);
    PlainWordIsTrimmed(demand[k]);
    if k < MAX_PINNED_FINDINGS {
      assert Pin(demand)[k] == demand[k];
    } else {
      PinHasNoWord(demand, k);
    }
  }

  lemma PlainWordsToWaive(demand: seq<string>, anchored: string -> bool)
    requires ArePlainWords(demand)
    ensures NothingToWaive(demand, demand, DemandTokens(Pin(demand)), anchored) <==>
            forall k :: MAX_PINNED_FINDINGS <= k < |demand| ==> anchored(demand[k])
  {
    forall k | 0 <= k < |demand|
      ensures IsUnpinned(demand, demand[k]) <==> MAX_PINNED_FINDINGS <= k
    {
      PinnedIsFirstTen(demand, k);
    }
    forall k | MAX_PINNED_FINDINGS <= k < |demand|
      ensures SharesNothing(DemandTokens(Pin(demand)), demand[k])
    {
      BeyondTenIsUnpinned(demand, k);
    }
    WaivedByPosition(demand, anchored, DemandTokens(Pin(demand)));
  }

  lemma WaivedByPosition(demand: seq<string>, anchored: string -> bool, pinTokens: set<string>)
    requires forall k :: 0 <= k < |demand| ==> (IsUnpinned(demand, demand[k]) <==> MAX_PINNED_FINDINGS <= k)
    requires forall k :: MAX_PINNED_FINDINGS <= k < |demand| ==> SharesNothing(pinTokens, demand[k])
    ensures NothingToWaive(demand, demand, pinTokens, anchored) <==>
            forall k :: MAX_PINNED_FINDINGS <= k < |demand| ==> anchored(demand[k])
  {
    forall k | MAX_PINNED_FINDINGS <= k < |demand|
      ensures demand[k] in demand && IsUnpinned(demand, demand[k])
    {
    }
  }

  /** So repeating it has a waived finding exactly when one of those is not anchored. */
  lemma BeyondTenIsWaived(demand: seq<string>, v: DemandVerdict, anchored: string -> bool)
    requires ArePlainWords(demand) && Divides(v, demand, PinTokens(Pin(demand), true), anchored)
    ensures v.advisory == [] <==> forall k :: MAX_PINNED_FINDINGS <= k < |demand| ==> anchored(demand[k])
  {
    RepeatIsNotWaivedExactly(demand, demand, v, anchored);
    PlainWordsToWaive(demand, anchored);
  }

  const ELEVEN_FINDINGS: seq<string> :=
    ["alpha", "bravo", "charlie", "delta", "echo", "foxtrot", "golf", "hotel", "india", "juliett", "kilo"]

  lemma ElevenPlainWords()
    ensures ArePlainWords(ELEVEN_FINDINGS)
  {
    forall i | 0 <= i < |ELEVEN_FINDINGS|
      ensures IsPlainWord(ELEVEN_FINDINGS[i])
    {
    }
    forall i, j | 0 <= i < j < |ELEVEN_FINDINGS|
      ensures ELEVEN_FINDINGS[i] != ELEVEN_FINDINGS[j]
    {
      assert ELEVEN_FINDINGS[i][0] != ELEVEN_FINDINGS[j][0];
    }
  }

  /** Repeating these eleven, the last one is waived. */
  lemma EleventhFindingIsWaived()
    ensures IsWaivable(DemandTokens(Pin(ELEVEN_FINDINGS)), _ => false, ELEVEN_FINDINGS[10])
  {
    ElevenPlainWords();
    BeyondTenIsUnpinned(ELEVEN_FINDINGS, 10);
  }
}
