/** Line spans of statements (`_block_start` and the node spans in scripts/god_class_split.py): which lines a moved
    statement takes along, and that its span holds that statement's code lines and no others. */
module Spans {
  import opened Wrappers
  import opened Sequences
  import opened PythonText

  // ---- lines that belong together ----

  function LastPlace(lines: seq<Line>): Option<Place> {
    if lines == [] then None
    else if lines[|lines| - 1].Code? then Some(lines[|lines| - 1].place)
    else LastPlace(lines[..|lines| - 1])
  }

  /** A line that continues a statement stands where the code line before it does. */
  predicate Tagged(lines: seq<Line>) {
    lines == [] ||
    var init, last := lines[..|lines| - 1], lines[|lines| - 1];
    Tagged(init) && (last.Code? && !last.opens ==> LastPlace(init) == Some(last.place))
  }

  predicate Opens(line: Line) {
    line.Code? && line.opens
  }

  lemma {:induction false} TaggedTake(lines: seq<Line>, n: nat)
    requires Tagged(lines) && n <= |lines|
    ensures Tagged(lines[..n])
  {
    if n < |lines| {
      TaggedTake(lines[..|lines| - 1], n);
      assert lines[..|lines| - 1][..n] == lines[..n];
    } else {
      TakeAll(lines);
    }
  }

  lemma TaggedAt(lines: seq<Line>, k: nat)
    requires Tagged(lines) && k < |lines|
    ensures lines[k].Code? && !lines[k].opens ==> LastPlace(lines[..k]) == Some(lines[k].place)
    ensures LastPlace(lines[..k + 1]) == if lines[k].Code? then Some(lines[k].place) else LastPlace(lines[..k])
  {
    TaggedTake(lines, k + 1);
    assert lines[..k + 1][..k] == lines[..k];
  }

  /** The lines from `f` up to `k` hold no other opening line. */
  predicate Unbroken(lines: seq<Line>, f: int, k: int) {
    0 <= f <= k < |lines| && Opens(lines[f]) && forall m :: f < m <= k ==> !Opens(lines[m])
  }

  lemma {:induction false} UnbrokenPlace(lines: seq<Line>, f: int, k: int)
    requires Tagged(lines) && Unbroken(lines, f, k)
    ensures LastPlace(lines[..k + 1]) == Some(lines[f].place)
    ensures lines[k].Code? ==> lines[k].place == lines[f].place
    decreases k
  {
    TaggedAt(lines, k);
    if f < k {
      UnbrokenPlace(lines, f, k - 1);
    }
  }

  /** Every code line has an opening line of its own place. */
  lemma {:induction false} OpenerExists(lines: seq<Line>, k: int) returns (f: int)
    requires Tagged(lines) && 0 <= k < |lines| && LastPlace(lines[..k + 1]).Some?
    ensures Unbroken(lines, f, k) && LastPlace(lines[..k + 1]) == Some(lines[f].place)
    decreases k
  {
    TaggedAt(lines, k);
    if Opens(lines[k]) {
      f := k;
    } else {
      f := OpenerExists(lines, k - 1);
    }
  }

  // ---- spans ----

  /** The opening line of the last statement at a place: later definitions win. */
  function FindLast(lines: seq<Line>, place: Place): (f: Option<nat>)
    ensures f.Some? ==> f.value < |lines| && Opens(lines[f.value]) && lines[f.value].place == place
    ensures f.None? ==> forall k :: 0 <= k < |lines| && Opens(lines[k]) ==> lines[k].place != place
  {
    if lines == [] then None
    else
      var last := lines[|lines| - 1];
      if Opens(last) && last.place == place then Some(|lines| - 1) else FindLast(lines[..|lines| - 1], place)
  }

  /** Walks up over the comment lines above a statement. */
  function BlockStart(lines: seq<Line>, i: nat): (start: nat)
    requires i <= |lines|
    ensures start <= i
    ensures forall k :: start <= k < i ==> lines[k].Comment?
    ensures start > 0 ==> !lines[start - 1].Comment?
  {
    if i > 0 && lines[i - 1].Comment? then BlockStart(lines, i - 1) else i
  }

  /** One past the last code line before the next opening line at or after `i`. */
  function EndFrom(lines: seq<Line>, i: nat, end: nat): nat
    requires i <= |lines|
    decreases |lines| - i
  {
    if i == |lines| || Opens(lines[i]) then end
    else EndFrom(lines, i + 1, if lines[i].Code? then i + 1 else end)
  }

  lemma {:induction false} EndFromFacts(lines: seq<Line>, i: nat, end: nat)
    requires 0 < end <= i <= |lines|
    ensures
      var e := EndFrom(lines, i, end);
      && end <= e <= |lines|
      && (forall k :: i <= k < e ==> !Opens(lines[k]))
      && (e == end || (i < e && lines[e - 1].Code?))
      && (forall k :: i <= k < |lines| && lines[k].Code? && (forall m :: i <= m <= k ==> !Opens(lines[m])) ==> k < e)
    decreases |lines| - i
  {
    if i < |lines| && !Opens(lines[i]) {
      EndFromFacts(lines, i + 1, if lines[i].Code? then i + 1 else end);
    }
  }

  function End(lines: seq<Line>, f: nat): nat
    requires f < |lines|
  {
    EndFrom(lines, f + 1, f + 1)
  }

  lemma EndFacts(lines: seq<Line>, f: nat)
    requires f < |lines| && Opens(lines[f])
    ensures f < End(lines, f) <= |lines| && lines[End(lines, f) - 1].Code?
    ensures forall k :: f <= k < |lines| && lines[k].Code? ==> (k < End(lines, f) <==> Unbroken(lines, f, k))
  {
    EndFromFacts(lines, f + 1, f + 1);
  }

  predicate InSpan(lines: seq<Line>, f: nat, k: int)
    requires f < |lines|
  {
    BlockStart(lines, f) <= k < End(lines, f)
  }

  predicate IsSoleOpener(lines: seq<Line>, f: nat) {
    && f < |lines| && Opens(lines[f])
    && forall g :: 0 <= g < |lines| && Opens(lines[g]) && lines[g].place == lines[f].place ==> g == f
  }

  /** A code line is in the span of a statement exactly when it belongs to the statement. */
  lemma SpanHoldsStatement(lines: seq<Line>, f: nat, k: nat)
    requires Tagged(lines) && IsSoleOpener(lines, f) && k < |lines| && lines[k].Code?
    ensures InSpan(lines, f, k) <==> lines[k].place == lines[f].place
  {
    EndFacts(lines, f);
    if InSpan(lines, f, k) {
      UnbrokenPlace(lines, f, k);
    }
    if lines[k].place == lines[f].place {
      TaggedAt(lines, k);
      var g := OpenerExists(lines, k);
      assert g == f;
    }
  }

  function Chunk(lines: seq<Line>, f: nat): seq<Line>
    requires f < |lines| && Opens(lines[f])
  {
    EndFacts(lines, f);
    lines[BlockStart(lines, f)..End(lines, f)]
  }

  function At(place: Place): Stmt -> bool {
    (stmt: Stmt) => stmt.place == place
  }

  lemma {:induction false} ParsePlaces(lines: seq<Line>)
    ensures forall s :: s in Parse(lines) ==> exists k :: 0 <= k < |lines| && lines[k].Code? && lines[k].place == s.place
  {
    if lines != [] {
      var init := lines[..|lines| - 1];
      ParsePlaces(init);
      var stmts := Parse(init);
      forall s | s in Parse(lines)
        ensures exists k :: 0 <= k < |lines| && lines[k].Code? && lines[k].place == s.place
      {
        if s in stmts || (stmts != [] && s.place == stmts[|stmts| - 1].place) {
          var t := if s in stmts then s else stmts[|stmts| - 1];
          var k :| 0 <= k < |init| && init[k].Code? && init[k].place == t.place;
          assert lines[k] == init[k];
        } else {
          assert lines[|lines| - 1].Code? && lines[|lines| - 1].place == s.place;
        }
      }
    }
  }

  lemma {:induction false} LastPlaceParsed(lines: seq<Line>)
    requires Tagged(lines)
    ensures LastPlace(lines) == if Parse(lines) == [] then None else Some(Parse(lines)[|Parse(lines)| - 1].place)
  {
    if lines != [] {
      LastPlaceParsed(lines[..|lines| - 1]);
    }
  }

  lemma {:induction false} FreshWhenFirstOpens(lines: seq<Line>)
    requires forall k :: 0 <= k < |lines| && lines[k].Code? && (forall m :: 0 <= m < k ==> !lines[m].Code?) ==> Opens(lines[k])
    ensures StartsFresh(lines)
  {
    if lines != [] && !lines[0].Code? {
      var rest := lines[1..];
      forall k | 0 <= k < |rest| && rest[k].Code? && (forall m :: 0 <= m < k ==> !rest[m].Code?)
        ensures Opens(rest[k])
      {
        assert lines[k + 1] == rest[k];
        forall m | 0 <= m < k + 1
          ensures !lines[m].Code?
        {
          assert m > 0 ==> lines[m] == rest[m - 1];
        }
      }
      FreshWhenFirstOpens(rest);
    }
  }

  lemma {:induction false} ParseOne(lines: seq<Line>, o: nat, n: nat)
    requires o < |lines| && Opens(lines[o]) && n <= |lines|
    requires forall k :: 0 <= k < o ==> !lines[k].Code?
    requires forall k :: o < k < |lines| ==> !Opens(lines[k])
    ensures
      var stmts := Parse(lines[..n]);
      if n <= o then stmts == [] else |stmts| == 1 && stmts[0].place == lines[o].place
  {
    if n > 0 {
      ParseOne(lines, o, n - 1);
      TakeNext(lines, n - 1);
      ParseLast(lines[..n - 1], lines[n - 1]);
    }
  }

  lemma FilterNotAt(lines: seq<Line>, place: Place)
    requires forall k :: 0 <= k < |lines| && lines[k].Code? ==> lines[k].place != place
    ensures Filter(Parse(lines), At(place)) == []
  {
    ParsePlaces(lines);
    FilterNone(Parse(lines), At(place));
  }

  lemma NextCodeOpens(lines: seq<Line>, f: nat, k: nat)
    requires f < |lines| && Opens(lines[f]) && End(lines, f) <= k < |lines| && lines[k].Code?
    requires forall m :: End(lines, f) <= m < k ==> !lines[m].Code?
    ensures Opens(lines[k])
  {
    EndFacts(lines, f);
    assert Unbroken(lines, f, End(lines, f) - 1);
    assert !Unbroken(lines, f, k);
  }

  lemma TailIsFresh(lines: seq<Line>, f: nat)
    requires f < |lines| && Opens(lines[f])
    ensures 0 <= End(lines, f) <= |lines| && StartsFresh(lines[End(lines, f)..])
  {
    EndFacts(lines, f);
    var e := End(lines, f);
    var tail := lines[e..];
    forall k | 0 <= k < |tail| && tail[k].Code? && (forall m :: 0 <= m < k ==> !tail[m].Code?)
      ensures Opens(tail[k])
    {
      assert forall m :: e <= m < e + k ==> lines[m] == tail[m - e];
      NextCodeOpens(lines, f, e + k);
    }
    FreshWhenFirstOpens(tail);
  }

  lemma ChunkParse(lines: seq<Line>, f: nat)
    requires f < |lines| && Opens(lines[f])
    ensures |Parse(Chunk(lines, f))| == 1 && Parse(Chunk(lines, f))[0].place == lines[f].place
    ensures StartsFresh(Chunk(lines, f))
  {
    EndFacts(lines, f);
    var start, end, chunk := BlockStart(lines, f), End(lines, f), Chunk(lines, f);
    assert Unbroken(lines, f, end - 1);
    assert forall k :: 0 <= k < |chunk| ==> chunk[k] == lines[start + k];
    ParseOne(chunk, f - start, |chunk|);
    TakeAll(chunk);
    FreshWhenFirstOpens(chunk);
  }

  lemma NoneOutside(lines: seq<Line>, f: nat)
    requires Tagged(lines) && IsSoleOpener(lines, f) && BlockStart(lines, f) <= End(lines, f) <= |lines|
    ensures Filter(Parse(lines[..BlockStart(lines, f)]), At(lines[f].place)) == []
    ensures Filter(Parse(lines[End(lines, f)..]), At(lines[f].place)) == []
  {
    var start, end := BlockStart(lines, f), End(lines, f);
    forall k | 0 <= k < |lines| && !(start <= k < end) && lines[k].Code?
      ensures lines[k].place != lines[f].place
    {
      SpanHoldsStatement(lines, f, k);
    }
    FilterNotAt(lines[..start], lines[f].place);
    FilterNotAt(lines[end..], lines[f].place);
  }

  lemma CutOut(a: seq<Line>, chunk: seq<Line>, b: seq<Line>, place: Place)
    requires StartsFresh(chunk) && StartsFresh(b) && |Parse(chunk)| == 1 && Parse(chunk)[0].place == place
    requires Filter(Parse(a), At(place)) == [] && Filter(Parse(b), At(place)) == []
    ensures Filter(Parse(a + (chunk + b)), At(place)) == Parse(chunk)
  {
    AppendAssociative(a, chunk, b);
    ParseAppend(a, chunk);
    ParseAppend(a + chunk, b);
    FilterAppend(Parse(a), Parse(chunk), At(place));
    FilterAppend(Parse(a) + Parse(chunk), Parse(b), At(place));
    assert Parse(chunk) == [Parse(chunk)[0]];
    assert Filter(Parse(chunk), At(place)) == Parse(chunk);
  }

  /** The span of a statement holds that statement and nothing else. */
  lemma ChunkIsStatement(lines: seq<Line>, f: nat)
    requires Tagged(lines) && IsSoleOpener(lines, f)
    ensures |Parse(Chunk(lines, f))| == 1
    ensures Filter(Parse(lines), At(lines[f].place)) == Parse(Chunk(lines, f))
  {
    EndFacts(lines, f);
    var start, end := BlockStart(lines, f), End(lines, f);
    ChunkParse(lines, f);
    TailIsFresh(lines, f);
    NoneOutside(lines, f);
    CutOut(lines[..start], lines[start..end], lines[end..], lines[f].place);
    ThreeParts(lines, start, end);
  }

  lemma SoleStatement(lines: seq<Line>, f: nat) returns (stmt: Stmt)
    requires Tagged(lines) && IsSoleOpener(lines, f)
    ensures stmt in Parse(lines) && stmt.place == lines[f].place
    ensures forall s :: s in Parse(lines) && s.place == lines[f].place ==> s == stmt
  {
    ChunkIsStatement(lines, f);
    var at := Filter(Parse(lines), At(lines[f].place));
    FilterMembers(Parse(lines), At(lines[f].place));
    stmt := at[0];
    assert stmt in at;
  }
}
