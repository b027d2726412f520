/** The canary cross-check's edit distance: a two-row dynamic program over a pair of strings
    (scripts/audit_prompts.py, `_levenshtein_ratio`).

    The reference meaning is independent of the table: an edit script is a list of single-character
    edits, `Apply` runs it, and the distance is the cheapest script turning one string into the other. */
module EditDistance {

  import opened Wrappers
  import opened Sequences

  /** Edits are listed from the last character backwards. Only `Keep` is free. */
  datatype Script =
    | Done
    | Keep(more: Script)
    | Replace(c: char, more: Script)
    | Insert(c: char, more: Script)
    | Delete(more: Script)

  function Init(s: string): string
    requires s != []
  {
    s[..|s| - 1]
  }

  function Last(s: string): char
    requires s != []
  {
    s[|s| - 1]
  }

  function Append(r: Option<string>, c: char): Option<string> {
    match r
    case None => None
    case Some(t) => Some(t + [c])
  }

  /** The string that `s` makes out of `a`; `None` when the script does not fit `a`. */
  function Apply(s: Script, a: string): Option<string> {
    match s
    case Done => if a == [] then Some([]) else None
    case Keep(more) => if a == [] then None else Append(Apply(more, Init(a)), Last(a))
    case Replace(c, more) => if a == [] then None else Append(Apply(more, Init(a)), c)
    case Insert(c, more) => Append(Apply(more, a), c)
    case Delete(more) => if a == [] then None else Apply(more, Init(a))
  }

  function Cost(s: Script): nat {
    match s
    case Done => 0
    case Keep(more) => Cost(more)
    case Replace(_, more) => 1 + Cost(more)
    case Insert(_, more) => 1 + Cost(more)
    case Delete(more) => 1 + Cost(more)
  }

  ghost predicate IsMinimum(a: string, b: string, d: nat) {
    && (exists s :: Apply(s, a) == Some(b) && Cost(s) == d)
    && (forall s :: Apply(s, a) == Some(b) ==> d <= Cost(s))
  }

  function Min(x: nat, y: nat): nat {
    if x <= y then x else y
  }

  function Max(x: nat, y: nat): nat {
    if x >= y then x else y
  }

  /** The recurrence that the table fills in. */
  function Dist(a: string, b: string): nat
    decreases |a| + |b|
  {
    if a == [] then |b|
    else if b == [] then |a|
    else
      var cost := if Last(a) == Last(b) then 0 else 1;
      Min(Min(Dist(a, Init(b)) + 1, Dist(Init(a), b) + 1), Dist(Init(a), Init(b)) + cost)
  }

  lemma InitLast(s: string)
    requires s != []
    ensures Init(s) + [Last(s)] == s
  {
  }

  /** A script that meets the recurrence exactly. */
  lemma {:induction false} BestScript(a: string, b: string) returns (s: Script)
    ensures Apply(s, a) == Some(b)
    ensures Cost(s) == Dist(a, b)
    decreases |a| + |b|
  {
    if a == [] && b == [] {
      s := Done;
    } else if a == [] {
      var m := BestScript(a, Init(b));
      s := Insert(Last(b), m);
      InitLast(b);
    } else if b == [] {
      var m := BestScript(Init(a), b);
      s := Delete(m);
    } else {
      InitLast(b);
      var ins := BestScript(a, Init(b));
      var del := BestScript(Init(a), b);
      var sub := BestScript(Init(a), Init(b));
      var cost := if Last(a) == Last(b) then 0 else 1;
      if Dist(a, b) == Dist(a, Init(b)) + 1 {
        s := Insert(Last(b), ins);
      } else if Dist(a, b) == Dist(Init(a), b) + 1 {
        s := Delete(del);
      } else if cost == 0 {
        s := Keep(sub);
      } else {
        s := Replace(Last(b), sub);
      }
    }
  }

  /** No script undercuts the recurrence. */
  lemma {:induction false} NoCheaperScript(s: Script, a: string)
    requires Apply(s, a).Some?
    ensures Dist(a, Apply(s, a).value) <= Cost(s)
  {
    match s
    case Done =>
    case Keep(more) => NoCheaperScript(more, Init(a));
    case Replace(c, more) => NoCheaperScript(more, Init(a));
    case Insert(c, more) =>
      NoCheaperScript(more, a);
      var b := Apply(s, a).value;
      assert Init(b) == Apply(more, a).value;
    case Delete(more) =>
      NoCheaperScript(more, Init(a));
  }

  lemma DistIsMinimum(a: string, b: string)
    ensures IsMinimum(a, b, Dist(a, b))
  {
    var best := BestScript(a, b);
    forall s | Apply(s, a) == Some(b)
      ensures Dist(a, b) <= Cost(s)
    {
      NoCheaperScript(s, a);
    }
  }

  /** The undo script: deletions and insertions trade places. */
  lemma {:induction false} Undo(s: Script, a: string) returns (u: Script)
    requires Apply(s, a).Some?
    ensures Apply(u, Apply(s, a).value) == Some(a)
    ensures Cost(u) == Cost(s)
  {
    match s
    case Done => u := Done;
    case Keep(more) =>
      var m := Undo(more, Init(a));
      u := Keep(m);
      assert Init(Apply(s, a).value) == Apply(more, Init(a)).value;
      InitLast(a);
    case Replace(c, more) =>
      var m := Undo(more, Init(a));
      u := Replace(Last(a), m);
      assert Init(Apply(s, a).value) == Apply(more, Init(a)).value;
      InitLast(a);
    case Insert(c, more) =>
      var m := Undo(more, a);
      u := Delete(m);
      assert Init(Apply(s, a).value) == Apply(more, a).value;
    case Delete(more) =>
      var m := Undo(more, Init(a));
      u := Insert(Last(a), m);
      InitLast(a);
  }

  /** One script doing the work of two, for no more than the sum of their costs. */
  lemma {:induction false} Chain(s: Script, t: Script, a: string) returns (r: Script)
    requires Apply(s, a).Some?
    requires Apply(t, Apply(s, a).value).Some?
    ensures Apply(r, a) == Apply(t, Apply(s, a).value)
    ensures Cost(r) <= Cost(s) + Cost(t)
    decreases s, t
  {
    var b := Apply(s, a).value;
    if s.Delete? {
      var m := Chain(s.more, t, Init(a));
      r := Delete(m);
    } else if t.Insert? {
      var m := Chain(s, t.more, a);
      r := Insert(t.c, m);
    } else if s.Done? {
      r := t;
    } else if s.Insert? {
      assert Init(b) == Apply(s.more, a).value;
      var m := Chain(s.more, t.more, a);
      match t
      case Keep(_) => r := Insert(s.c, m);
      case Replace(c, _) => r := Insert(c, m);
      case Delete(_) => r := m;
    } else {
      assert Init(b) == Apply(s.more, Init(a)).value;
      var m := Chain(s.more, t.more, Init(a));
      match t
      case Keep(_) => r := if s.Keep? then Keep(m) else Replace(s.c, m);
      case Replace(c, _) => r := Replace(c, m);
      case Delete(_) => r := Delete(m);
    }
  }

  lemma DistSymmetric(a: string, b: string)
    ensures Dist(a, b) == Dist(b, a)
  {
    var s := BestScript(a, b);
    var u := Undo(s, a);
    NoCheaperScript(u, b);
    var t := BestScript(b, a);
    var v := Undo(t, b);
    NoCheaperScript(v, a);
  }

  lemma TriangleInequality(a: string, b: string, c: string)
    ensures Dist(a, c) <= Dist(a, b) + Dist(b, c)
  {
    var s := BestScript(a, b);
    var t := BestScript(b, c);
    var r := Chain(s, t, a);
    NoCheaperScript(r, a);
  }

  lemma {:induction false} FreeScriptKeepsText(s: Script, a: string)
    requires Apply(s, a).Some?
    requires Cost(s) == 0
    ensures Apply(s, a).value == a
  {
    if s.Keep? {
      FreeScriptKeepsText(s.more, Init(a));
      InitLast(a);
    }
  }

  lemma {:induction false} SameTextIsFree(a: string)
    ensures Dist(a, a) == 0
  {
    if a != [] {
      SameTextIsFree(Init(a));
    }
  }

  /** Distance zero means equal, and no distance exceeds the longer string. */
  lemma ZeroOnlyWhenEqual(a: string, b: string)
    ensures Dist(a, b) == 0 <==> a == b
  {
    var s := BestScript(a, b);
    if Cost(s) == 0 {
      FreeScriptKeepsText(s, a);
    }
    if a == b {
      SameTextIsFree(a);
    }
  }

  lemma {:induction false} AtMostLongerLength(a: string, b: string)
    ensures Dist(a, b) <= Max(|a|, |b|)
    decreases |a| + |b|
  {
    if a != [] && b != [] {
      AtMostLongerLength(Init(a), Init(b));
    }
  }

  /** The table cell for the first `i` characters of `a` and the first `j` of `b`. */
  function Cell(a: string, b: string, i: nat, j: nat): nat
    requires i <= |a| && j <= |b|
  {
    Dist(a[..i], b[..j])
  }

  lemma CellStep(a: string, b: string, i: nat, j: nat)
    requires 1 <= i <= |a| && 1 <= j <= |b|
    ensures Cell(a, b, i, j) ==
            Min(Min(Cell(a, b, i, j - 1) + 1, Cell(a, b, i - 1, j) + 1),
                Cell(a, b, i - 1, j - 1) + if a[i - 1] == b[j - 1] then 0 else 1)
  {
    assert Init(a[..i]) == a[..i - 1] && Init(b[..j]) == b[..j - 1];
  }

  ghost predicate IsRow(row: seq<nat>, a: string, b: string, i: nat)
    requires i <= |a|
  {
    |row| == |b| + 1 && forall j :: 0 <= j <= |b| ==> row[j] == Cell(a, b, i, j)
  }

  /** The two-row loop. `prev` and `curr` are swapped after every row, as in the source. */
  method FillTable(a: string, b: string) returns (d: nat)
    ensures d == Dist(a, b)
  {
    var m, n := |a|, |b|;
    var prev := new nat[n + 1](j => j);
    var curr := new nat[n + 1](_ => 0);
    for i := 1 to m + 1
      invariant prev != curr && prev.Length == curr.Length == n + 1
      invariant fresh(prev) && fresh(curr)
      invariant IsRow(prev[..], a, b, i - 1)
    {
      curr[0] := i;
      for j := 1 to n + 1
        invariant forall k :: 0 <= k < j ==> curr[k] == Cell(a, b, i, k)
        invariant IsRow(prev[..], a, b, i - 1)
      {
        var cost := if a[i - 1] == b[j - 1] then 0 else 1;
        CellStep(a, b, i, j);
        assert prev[..][j] == prev[j] && prev[..][j - 1] == prev[j - 1];
        curr[j] := Min(Min(curr[j - 1] + 1, prev[j] + 1), prev[j - 1] + cost);
      }
      prev, curr := curr, prev;
    }
    assert a[..m] == a && b[..n] == b && prev[..][n] == prev[n];
    d := prev[n];
  }

  method LevenshteinRatio(a: string, b: string) returns (ratio: real)
    ensures 0.0 <= ratio <= 1.0
    ensures ratio == 0.0 <==> a == b
    ensures IsMinimum(a, b, Dist(a, b))
    ensures a != [] || b != [] ==> ratio == Dist(a, b) as real / Max(|a|, |b|) as real
  {
    DistIsMinimum(a, b);
    if a == [] && b == [] {
      return 0.0;
    }
    var d := FillTable(a, b);
    var longest := Max(|a|, |b|);
    AtMostLongerLength(a, b);
    ZeroOnlyWhenEqual(a, b);
    QuotientFacts(d as real, longest as real);
    ratio := d as real / longest as real;
  }
}
