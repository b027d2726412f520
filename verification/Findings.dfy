/** Splitting a rejection summary into findings at top-level commas and semicolons
    (src/adequacy_demand.py, `split_findings`). */
module Findings {
  import opened Text

  /** Bracket depth and backtick parity. */
  datatype Scan = Scan(depth: nat, inCode: bool)

  const START := Scan(0, false)

  function Step(st: Scan, c: char): Scan {
    if c == '`' then Scan(st.depth, !st.inCode)
    else if c in "([{" && !st.inCode then Scan(st.depth + 1, st.inCode)
    else if c in ")]}" && !st.inCode then Scan(if st.depth == 0 then 0 else st.depth - 1, st.inCode)
    else st
  }

  function Run(st: Scan, s: string): Scan
    decreases |s|
  {
    if s == [] then st else Run(Step(st, s[0]), s[1..])
  }

  predicate IsSeparator(c: char) {
    c == ',' || c == ';'
  }

  predicate IsCut(st: Scan, c: char) {
    IsSeparator(c) && st == START
  }

  /** The raw pieces between the cuts, when scanning starts in state `st`. */
  function Pieces(s: string, st: Scan): (ps: seq<string>)
    ensures ps != []
  {
    if s == [] then [[]]
    else
      var rest := Pieces(s[1..], Step(st, s[0]));
      if IsCut(st, s[0]) then [[]] + rest else [[s[0]] + rest[0]] + rest[1..]
  }

  /** The separators dropped by those cuts, in order. */
  function Cuts(s: string, st: Scan): string {
    if s == [] then []
    else (if IsCut(st, s[0]) then [s[0]] else []) + Cuts(s[1..], Step(st, s[0]))
  }

  // ---- where the cuts are, by counting ----

  function Ticks(s: string): nat {
    if s == [] then 0 else Ticks(s[..|s| - 1]) + if s[|s| - 1] == '`' then 1 else 0
  }

  /** A bracket outside code counts one up or one down. */
  function Weight(s: string, k: nat): int
    requires k < |s|
  {
    if Ticks(s[..k]) % 2 == 1 then 0
    else if s[k] in "([{" then 1
    else if s[k] in ")]}" then -1
    else 0
  }

  /** Opening less closing brackets outside code from `j` up to `i`. */
  function Balance(s: string, j: nat, i: nat): int
    requires j <= i <= |s|
  {
    if i == j then 0 else Balance(s, j, i - 1) + Weight(s, i - 1)
  }

  /** The scanner's state is a count: backticks by parity, and as depth the largest number of brackets left open by any
      stretch of text that ends here. */
  ghost predicate Counts(s: string, i: nat, st: Scan)
    requires i <= |s|
  {
    && (st.inCode <==> Ticks(s[..i]) % 2 == 1)
    && LeavesOpen(s, i, st.depth) && LeavesAtMost(s, i, st.depth)
  }

  ghost predicate LeavesOpen(s: string, i: nat, d: int)
    requires i <= |s|
  {
    exists j :: 0 <= j <= i && Balance(s, j, i) == d
  }

  /** No stretch of text that ends at i leaves more than d brackets open. */
  ghost predicate LeavesAtMost(s: string, i: nat, d: int)
    requires i <= |s|
  {
    forall j :: 0 <= j <= i ==> Balance(s, j, i) <= d
  }

  lemma {:induction false} RunLast(st: Scan, s: string, i: nat)
    requires i < |s|
    ensures Run(st, s[..i + 1]) == Step(Run(st, s[..i]), s[i])
    decreases i
  {
    if i == 0 {
      assert s[..1] == [s[0]] && s[..1][1..] == [] && s[..0] == [];
    } else {
      var t := s[1..];
      RunLast(Step(st, s[0]), t, i - 1);
      assert s[..i + 1][1..] == t[..i] && s[..i][1..] == t[..i - 1];
    }
  }

  lemma CountStep(s: string, i: nat, st: Scan)
    requires i < |s| && Counts(s, i, st)
    ensures Counts(s, i + 1, Step(st, s[i]))
  {
    var next := Step(st, s[i]);
    assert s[..i + 1][..i] == s[..i];
    assert Balance(s, i + 1, i + 1) == 0;
    assert forall j :: 0 <= j <= i ==> Balance(s, j, i + 1) == Balance(s, j, i) + Weight(s, i);
    var j :| 0 <= j <= i && Balance(s, j, i) == st.depth;
    assert Balance(s, j, i + 1) == st.depth + Weight(s, i);
    assert next.depth == if st.depth + Weight(s, i) < 0 then 0 else st.depth + Weight(s, i);
    var top := if st.depth + Weight(s, i) < 0 then i + 1 else j;
    assert 0 <= top <= i + 1 && Balance(s, top, i + 1) == next.depth;
    var here := i + 1;
    forall k | 0 <= k <= here
      ensures Balance(s, k, here) <= next.depth
    {
      assert k <= i ==> Balance(s, k, i + 1) == Balance(s, k, i) + Weight(s, i) && Balance(s, k, i) <= st.depth;
    }
  }

  lemma {:induction false} ScanCounts(s: string, i: nat)
    requires i <= |s|
    ensures Counts(s, i, Run(START, s[..i]))
  {
    if i == 0 {
      assert s[..0] == [] && Balance(s, 0, 0) == 0;
    } else {
      ScanCounts(s, i - 1);
      RunLast(START, s, i - 1);
      CountStep(s, i - 1, Run(START, s[..i - 1]));
    }
  }

  /** The text is cut at position i exactly when a comma or semicolon stands there, after an even number of backticks,
      and no stretch of text before it leaves a bracket open. */
  lemma CutExactly(s: string, i: nat)
    requires i < |s|
    ensures IsCut(Run(START, s[..i]), s[i]) <==>
            && (s[i] == ',' || s[i] == ';')
            && Ticks(s[..i]) % 2 == 0
            && LeavesAtMost(s, i, 0)
  {
    ScanCounts(s, i);
    var st := Run(START, s[..i]);
    DepthZero(s, i, st);
    assert IsCut(st, s[i]) <==> (s[i] == ',' || s[i] == ';') && st.depth == 0 && !st.inCode;
  }

  lemma DepthZero(s: string, i: nat, st: Scan)
    requires i <= |s| && Counts(s, i, st)
    ensures st.depth == 0 <==> LeavesAtMost(s, i, 0)
    ensures !st.inCode <==> Ticks(s[..i]) % 2 == 0
  {
    var j :| 0 <= j <= i && Balance(s, j, i) == st.depth;
  }

  /** Strips every piece and drops the blank ones. */
  function Tidy(ps: seq<string>): seq<string> {
    if ps == [] then []
    else (if Strip(ps[0]) == [] then [] else [Strip(ps[0])]) + Tidy(ps[1..])
  }

  function Split(summary: string): seq<string> {
    Tidy(Pieces(summary, START))
  }

  lemma {:induction false} TidyAppend(ps: seq<string>, qs: seq<string>)
    ensures Tidy(ps + qs) == Tidy(ps) + Tidy(qs)
  {
    if ps == [] {
      assert ps + qs == qs;
    } else {
      assert (ps + qs)[1..] == ps[1..] + qs;
      TidyAppend(ps[1..], qs);
    }
  }

  /** What the scanning loop has established with `rest` still to read. */
  ghost predicate Scanned(summary: string, parts: seq<string>, current: string, st: Scan, rest: string) {
    var ps := Pieces(rest, st);
    Pieces(summary, START) == parts + [current + ps[0]] + ps[1..]
  }

  lemma ScanStart(summary: string)
    ensures Scanned(summary, [], [], START, summary)
  {
    var ps := Pieces(summary, START);
    assert [] + ps[0] == ps[0] && ps == [] + [ps[0]] + ps[1..];
  }

  lemma ScanStep(summary: string, parts: seq<string>, current: string, st: Scan, rest: string)
    requires rest != [] && Scanned(summary, parts, current, st, rest)
    ensures
      if IsCut(st, rest[0])
      then Scanned(summary, parts + [current], [], Step(st, rest[0]), rest[1..])
      else Scanned(summary, parts, current + [rest[0]], Step(st, rest[0]), rest[1..])
  {
    var c, next := rest[0], Pieces(rest[1..], Step(st, rest[0]));
    if IsCut(st, c) {
      assert current + [] == current && ([[]] + next)[1..] == next;
      assert [] + next[0] == next[0];
      assert parts + [current] + next == (parts + [current]) + [[] + next[0]] + next[1..];
    } else {
      assert current + ([c] + next[0]) == (current + [c]) + next[0];
      assert ([[c] + next[0]] + next[1..])[1..] == next[1..];
    }
  }

  lemma ScanEnd(summary: string, parts: seq<string>, current: string, st: Scan)
    requires Scanned(summary, parts, current, st, [])
    ensures parts + [current] == Pieces(summary, START)
  {
    assert current + [] == current;
  }

  /** The scanning loop. */
  method SplitFindings(summary: string) returns (findings: seq<string>)
    ensures findings == Split(summary)
  {
    var parts: seq<string>, current: string := [], [];
    var depth: nat, inCode := 0, false;
    ScanStart(summary);
    assert summary[0..] == summary;
    for i := 0 to |summary|
      invariant Scanned(summary, parts, current, Scan(depth, inCode), summary[i..])
    {
      var c := summary[i];
      ScanStep(summary, parts, current, Scan(depth, inCode), summary[i..]);
      assert summary[i..][0] == c && summary[i..][1..] == summary[i + 1..];
      if c == '`' {
        inCode := !inCode;
      } else if c in "([{" && !inCode {
        depth := depth + 1;
      } else if c in ")]}" && !inCode {
        depth := if depth == 0 then 0 else depth - 1;
      }
      if IsSeparator(c) && depth == 0 && !inCode {
        parts, current := parts + [current], [];
      } else {
        current := current + [c];
      }
    }
    assert summary[|summary|..] == [];
    ScanEnd(summary, parts, current, Scan(depth, inCode));
    parts := parts + [current];
    findings := TidyLoop(parts);
  }

  method TidyLoop(parts: seq<string>) returns (findings: seq<string>)
    ensures findings == Tidy(parts)
  {
    findings := [];
    for i := 0 to |parts|
      invariant findings == Tidy(parts[..i])
    {
      assert parts[..i + 1] == parts[..i] + [parts[i]];
      TidyAppend(parts[..i], [parts[i]]);
      if Strip(parts[i]) != [] {
        findings := findings + [Strip(parts[i])];
      }
    }
    assert parts[..|parts|] == parts;
  }

  // ---- nothing is lost but separators and outer whitespace ----

  /** Pieces with one separator put back between each two. */
  function Weave(ps: seq<string>, seps: string): string
    requires |ps| == |seps| + 1
  {
    if seps == [] then ps[0] else ps[0] + [seps[0]] + Weave(ps[1..], seps[1..])
  }

  lemma {:induction false} PiecesWeave(s: string, st: Scan)
    ensures |Pieces(s, st)| == |Cuts(s, st)| + 1
    ensures Weave(Pieces(s, st), Cuts(s, st)) == s
    ensures forall i :: 0 <= i < |Cuts(s, st)| ==> IsSeparator(Cuts(s, st)[i])
  {
    if s != [] {
      var st' := Step(st, s[0]);
      PiecesWeave(s[1..], st');
      var ps, seps := Pieces(s[1..], st'), Cuts(s[1..], st');
      if IsCut(st, s[0]) {
        assert ([[]] + ps)[1..] == ps && ([s[0]] + seps)[1..] == seps;
        assert Weave([[]] + ps, [s[0]] + seps) == [] + [s[0]] + Weave(ps, seps);
      } else {
        assert [] + seps == seps;
        assert ([[s[0]] + ps[0]] + ps[1..])[1..] == ps[1..];
        if seps != [] {
          assert [s[0]] + ps[0] + [seps[0]] + Weave(ps[1..], seps[1..])
              == [s[0]] + (ps[0] + [seps[0]] + Weave(ps[1..], seps[1..]));
        }
      }
    }
  }

  /** `t` holds no separator at top level when scanning starts in state `st`. */
  predicate Uncut(t: string, st: Scan) {
    t == [] || (!IsCut(st, t[0]) && Uncut(t[1..], Step(st, t[0])))
  }

  lemma {:induction false} RunAppend(st: Scan, a: string, b: string)
    ensures Run(st, a + b) == Run(Run(st, a), b)
    ensures Uncut(a + b, st) <==> Uncut(a, st) && Uncut(b, Run(st, a))
    decreases |a|
  {
    if a == [] {
      assert a + b == b;
    } else {
      assert (a + b)[1..] == a[1..] + b;
      RunAppend(Step(st, a[0]), a[1..], b);
    }
  }

  lemma {:induction false} BlankKeepsState(st: Scan, t: string)
    requires IsBlank(t)
    ensures Run(st, t) == st && Uncut(t, st)
  {
    if t != [] {
      assert IsSpace(t[0]);
      BlankKeepsState(st, t[1..]);
    }
  }

  /** An uncut text is one piece; a text behind it joins that piece up to its own first cut. */
  lemma {:induction false} UncutPrefix(t: string, st: Scan, rest: string)
    requires Uncut(t, st)
    ensures
      var ps := Pieces(rest, Run(st, t));
      Pieces(t + rest, st) == [t + ps[0]] + ps[1..]
  {
    if t == [] {
      assert t + rest == rest;
      var ps := Pieces(rest, st);
      assert [] + ps[0] == ps[0];
    } else {
      UncutPrefix(t[1..], Step(st, t[0]), rest);
      assert (t + rest)[1..] == t[1..] + rest;
      var ps := Pieces(rest, Run(st, t));
      assert [t[0]] + (t[1..] + ps[0]) == t + ps[0];
    }
  }

  lemma UncutIsOnePiece(t: string, st: Scan)
    requires Uncut(t, st)
    ensures Pieces(t, st) == [t]
  {
    UncutPrefix(t, st, []);
    assert t + [] == t;
  }

  /** Every piece is uncut, the first one from the scan's own state and the others from a fresh one. */
  lemma {:induction false} PiecesUncut(s: string, st: Scan)
    ensures Uncut(Pieces(s, st)[0], st)
    ensures forall i :: 1 <= i < |Pieces(s, st)| ==> Uncut(Pieces(s, st)[i], START)
  {
    if s != [] {
      PiecesUncut(s[1..], Step(st, s[0]));
      var ps := Pieces(s[1..], Step(st, s[0]));
      if !IsCut(st, s[0]) {
        assert ([s[0]] + ps[0])[1..] == ps[0];
      }
    }
  }

  /** A complete finding: trimmed, non-empty and free of top-level separators. */
  predicate IsFinding(f: string) {
    f != [] && IsTrimmed(f) && Uncut(f, START)
  }

  lemma {:induction false} TidyMembers(ps: seq<string>)
    requires forall p :: p in ps ==> Uncut(p, START)
    ensures forall f :: f in Tidy(ps) ==> IsFinding(f)
  {
    if ps != [] {
      TidyMembers(ps[1..]);
      var pre, post := StripSplits(ps[0]);
      RunAppend(START, pre + Strip(ps[0]), post);
      RunAppend(START, pre, Strip(ps[0]));
      BlankKeepsState(START, pre);
    }
  }

  /** Every result is a complete finding, and splitting it again returns it alone. */
  lemma FindingsAreStable(summary: string, f: string)
    requires f in Split(summary)
    ensures IsFinding(f) && Split(f) == [f]
  {
    PiecesUncut(summary, START);
    TidyMembers(Pieces(summary, START));
    SplitFinding(f);
  }

  lemma SplitFinding(f: string)
    requires IsFinding(f)
    ensures Split(f) == [f]
  {
    UncutIsOnePiece(f, START);
    StripTrimmed(f);
    assert Tidy([f]) == [f] + Tidy([f][1..]);
  }

  // ---- join and split ----

  function Join(fs: seq<string>): string {
    if fs == [] then []
    else if |fs| == 1 then fs[0]
    else fs[0] + ", " + Join(fs[1..])
  }

  predicate IsBalanced(f: string) {
    Run(START, f) == START
  }

  /** Complete findings, all but the last one closing every bracket and code span it opens. */
  predicate Joinable(fs: seq<string>) {
    && (forall i :: 0 <= i < |fs| ==> IsFinding(fs[i]))
    && (forall i :: 0 <= i < |fs| - 1 ==> IsBalanced(fs[i]))
  }

  lemma SplitAfterSpace(s: string)
    ensures Split([' '] + s) == Split(s)
  {
    assert ([' '] + s)[1..] == s;
    var ps := Pieces(s, START);
    assert Pieces([' '] + s, START) == [[' '] + ps[0]] + ps[1..];
    StripLeftBlank([' '], ps[0]);
    assert ([[' '] + ps[0]] + ps[1..])[1..] == ps[1..];
  }

  /** A balanced finding followed by a separator splits off. */
  lemma SplitOffHead(f: string, rest: string)
    requires IsFinding(f) && IsBalanced(f)
    ensures Split(f + ", " + rest) == [f] + Split(rest)
  {
    var tail := [','] + ([' '] + rest);
    assert f + ", " + rest == f + tail;
    UncutPrefix(f, START, tail);
    assert tail[1..] == [' '] + rest;
    var qs := Pieces([' '] + rest, START);
    assert Pieces(tail, START) == [[]] + qs;
    assert f + [] == f && ([[]] + qs)[1..] == qs;
    assert Pieces(f + tail, START) == [f] + qs;
    StripTrimmed(f);
    assert ([f] + qs)[1..] == qs;
    SplitAfterSpace(rest);
  }

  /** An unbalanced finding swallows the separator behind it. */
  lemma UnbalancedHeadGrows(f: string, rest: string)
    requires IsFinding(f) && !IsBalanced(f)
    ensures Split(f + ", " + rest) != [] ==> Split(f + ", " + rest)[0] != f
  {
    var tail := [','] + ([' '] + rest);
    assert f + ", " + rest == f + tail;
    UncutPrefix(f, START, tail);
    var ps := Pieces(tail, Run(START, f));
    var head := f + ps[0];
    assert Pieces(f + tail, START)[0] == head;
    assert ps[0][0] == ',' && head[|f|] == ',' && head[0] == f[0];
    StripReaches(head, |f|);
  }

  lemma {:induction false} JoinableRoundTrips(fs: seq<string>)
    requires Joinable(fs)
    ensures Split(Join(fs)) == fs
  {
    if |fs| == 0 {
      var ps: seq<string> := [[]];
      assert ps[1..] == [];
    } else if |fs| == 1 {
      SplitFinding(fs[0]);
    } else {
      JoinableRoundTrips(fs[1..]);
      SplitOffHead(fs[0], Join(fs[1..]));
      assert fs == [fs[0]] + fs[1..];
    }
  }

  lemma {:induction false} RoundTripIsBalanced(fs: seq<string>)
    requires forall i :: 0 <= i < |fs| ==> IsFinding(fs[i])
    requires Split(Join(fs)) == fs
    ensures Joinable(fs)
  {
    if |fs| > 1 {
      if !IsBalanced(fs[0]) {
        UnbalancedHeadGrows(fs[0], Join(fs[1..]));
      }
      SplitOffHead(fs[0], Join(fs[1..]));
      assert fs == [fs[0]] + fs[1..];
      RoundTripIsBalanced(fs[1..]);
    }
  }

  /** Joining with ", " and splitting again returns the same findings exactly when they are joinable. */
  lemma JoinSplitRoundTrip(fs: seq<string>)
    ensures Split(Join(fs)) == fs <==> Joinable(fs)
  {
    if Joinable(fs) {
      JoinableRoundTrips(fs);
    }
    if Split(Join(fs)) == fs {
      forall i | 0 <= i < |fs|
        ensures IsFinding(fs[i])
      {
        FindingsAreStable(Join(fs), fs[i]);
      }
      RoundTripIsBalanced(fs);
    }
  }
}
