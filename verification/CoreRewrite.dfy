/** The core file of a split class (`_rewrite_class_header` and the core half of `do_split` in
    scripts/god_class_split.py): the source without the moved statements and with a new class header. */
module CoreRewrite {
  import opened Wrappers
  import opened Sequences
  import opened PythonText
  import opened Spans

  // ---- the class header ----

  /** The first class statement with the name. */
  function FindHead(lines: seq<Line>, cls: string): (h: Option<nat>)
    ensures h.Some? ==> h.value < |lines| && Opens(lines[h.value]) && lines[h.value].place.Head?
    ensures h.Some? ==> lines[h.value].place.cls == cls
    ensures h.None? ==> forall k :: 0 <= k < |lines| && Opens(lines[k]) && lines[k].place.Head? ==> lines[k].place.cls != cls
  {
    if lines == [] then None
    else if Opens(lines[0]) && lines[0].place.Head? && lines[0].place.cls == cls then Some(0)
    else
      var h := FindHead(lines[1..], cls);
      if h.Some? then Some(h.value + 1) else None
  }

  function NextOpener(lines: seq<Line>, i: nat): (b: nat)
    requires i <= |lines|
    ensures i <= b <= |lines| && (b < |lines| ==> Opens(lines[b]))
    ensures forall k :: i <= k < b ==> !Opens(lines[k])
    decreases |lines| - i
  {
    if i == |lines| || Opens(lines[i]) then i else NextOpener(lines, i + 1)
  }

  /** One past the header: the line on which the block of the first body statement starts. */
  function HeaderEnd(lines: seq<Line>, h: nat): (end: nat)
    requires h < |lines| && Opens(lines[h])
    ensures h < end <= |lines|
  {
    BlockStart(lines, NextOpener(lines, h + 1))
  }

  function HeaderLines(cls: string, bases: seq<string>): seq<Line> {
    var place := Head(cls, bases);
    [Code("class " + cls + "(", place, true, [])]
      + seq(|bases|, i requires 0 <= i < |bases| => Code("    " + bases[i] + ",", place, false, []))
      + [Code("):", place, false, [])]
  }

  lemma HeaderParse(cls: string, bases: seq<string>)
    ensures |Parse(HeaderLines(cls, bases))| == 1 && Parse(HeaderLines(cls, bases))[0].place == Head(cls, bases)
    ensures StartsFresh(HeaderLines(cls, bases))
  {
    var header := HeaderLines(cls, bases);
    ParseOne(header, 0, |header|);
    TakeAll(header);
  }

  predicate HeadIsSole(lines: seq<Line>, h: nat) {
    && h < |lines| && Opens(lines[h]) && lines[h].place.Head?
    && forall g :: 0 <= g < |lines| && Opens(lines[g]) && lines[g].place.Head? ==> g == h
  }

  /** The header's range holds the class statement's code lines and no others. */
  lemma HeaderHoldsHead(lines: seq<Line>, h: nat, k: nat)
    requires Tagged(lines) && HeadIsSole(lines, h) && k < |lines| && lines[k].Code?
    ensures h <= k < HeaderEnd(lines, h) <==> lines[k].place.Head?
    ensures lines[k].place.Head? && lines[k].opens ==> k == h
  {
    if h <= k < HeaderEnd(lines, h) {
      UnbrokenPlace(lines, h, k);
    }
    if lines[k].place.Head? {
      TaggedAt(lines, k);
      var g := OpenerExists(lines, k);
    }
  }

  // ---- the lines that stay ----

  /** Line k is in the span of a moved statement. */
  predicate InDrop(lines: seq<Line>, moved: seq<Place>, k: int) {
    exists i :: 0 <= i < |moved| && InSpanOf(lines, moved[i], k)
  }

  predicate InSpanOf(lines: seq<Line>, place: Place, k: int) {
    var f := FindLast(lines, place);
    f.Some? && InSpan(lines, f.value, k)
  }

  predicate MovedOnce(lines: seq<Line>, moved: seq<Place>) {
    forall i :: 0 <= i < |moved| ==>
      && !moved[i].Head?
      && FindLast(lines, moved[i]).Some?
      && IsSoleOpener(lines, FindLast(lines, moved[i]).value)
  }

  /** A code line goes exactly when its statement moves. */
  lemma DropHoldsMoved(lines: seq<Line>, moved: seq<Place>, k: nat)
    requires Tagged(lines) && MovedOnce(lines, moved) && k < |lines| && lines[k].Code?
    ensures InDrop(lines, moved, k) <==> lines[k].place in moved
  {
    forall i | 0 <= i < |moved|
      ensures InSpanOf(lines, moved[i], k) <==> lines[k].place == moved[i]
    {
      SpanHoldsStatement(lines, FindLast(lines, moved[i]).value, k);
    }
  }

  /** The first n lines of the source without the moved spans, and with the header replaced. */
  function Kept(lines: seq<Line>, n: nat, moved: seq<Place>, h: nat, header: seq<Line>): seq<Line>
    requires n <= |lines| && h < |lines| && Opens(lines[h])
  {
    if n == 0 then []
    else Kept(lines, n - 1, moved, h, header) + KeptAt(lines, n - 1, moved, h, header)
  }

  function KeptAt(lines: seq<Line>, k: nat, moved: seq<Place>, h: nat, header: seq<Line>): seq<Line>
    requires k < |lines| && h < |lines| && Opens(lines[h])
  {
    if InDrop(lines, moved, k) then []
    else if k == h then header
    else if h < k < HeaderEnd(lines, h) then []
    else [lines[k]]
  }

  method KeepLines(lines: seq<Line>, drop: set<nat>, moved: seq<Place>, h: nat, header: seq<Line>)
    returns (kept: seq<Line>)
    requires h < |lines| && Opens(lines[h])
    requires forall k :: 0 <= k < |lines| ==> (k in drop <==> InDrop(lines, moved, k))
    ensures kept == Kept(lines, |lines|, moved, h, header)
  {
    var end := HeaderEnd(lines, h);
    kept := [];
    for i := 0 to |lines|
      invariant kept == Kept(lines, i, moved, h, header)
    {
      assert kept + [] == kept;
      if i !in drop {
        if i == h {
          kept := kept + header;
        } else if !(h < i < end) {
          kept := kept + [lines[i]];
        }
      }
    }
  }

  // ---- what they say ----

  /** The statements without the moved ones and with the class statement replaced. */
  function Rewritten(stmts: seq<Stmt>, moved: seq<Place>, head: Stmt): seq<Stmt> {
    if stmts == [] then []
    else
      var init, last := stmts[..|stmts| - 1], stmts[|stmts| - 1];
      Rewritten(init, moved, head) + Rewrite(last, moved, head)
  }

  function Rewrite(stmt: Stmt, moved: seq<Place>, head: Stmt): seq<Stmt> {
    if stmt.place in moved then [] else if stmt.place.Head? then [head] else [stmt]
  }

  lemma RewrittenLast(stmts: seq<Stmt>, stmt: Stmt, moved: seq<Place>, head: Stmt)
    ensures Rewritten(stmts + [stmt], moved, head) == Rewritten(stmts, moved, head) + Rewrite(stmt, moved, head)
  {
    assert (stmts + [stmt])[..|stmts|] == stmts;
  }

  /** What one more line does to the rewritten statements. */
  function RewriteNext(before: seq<Stmt>, line: Line, moved: seq<Place>, head: Stmt): seq<Stmt> {
    if line.Code? && line.place in moved then before
    else if line.Code? && line.place.Head? then if line.opens then before + [head] else before
    else ParseNext(before, line)
  }

  lemma RewrittenNext(stmts: seq<Stmt>, line: Line, moved: seq<Place>, head: Stmt)
    requires line.Code? && !line.opens ==> stmts != [] && stmts[|stmts| - 1].place == line.place
    ensures Rewritten(ParseNext(stmts, line), moved, head) == RewriteNext(Rewritten(stmts, moved, head), line, moved, head)
  {
    if line.Code? {
      if line.opens {
        RewrittenLast(stmts, Stmt(line.place, [line.text], line.nested), moved, head);
      } else {
        var init, last := stmts[..|stmts| - 1], stmts[|stmts| - 1];
        assert stmts == init + [last];
        RewrittenLast(init, last, moved, head);
        RewrittenLast(init, last.(texts := last.texts + [line.text], nested := last.nested + line.nested), moved, head);
      }
    }
  }

  lemma KeptNext(lines: seq<Line>, k: nat, moved: seq<Place>, h: nat, header: seq<Line>, before: seq<Line>)
    requires k < |lines| && Tagged(lines) && HeadIsSole(lines, h) && MovedOnce(lines, moved)
    requires StartsFresh(header) && |Parse(header)| == 1
    ensures Parse(before + KeptAt(lines, k, moved, h, header)) ==
            RewriteNext(Parse(before), lines[k], moved, Parse(header)[0])
  {
    if lines[k].Code? {
      DropHoldsMoved(lines, moved, k);
      HeaderHoldsHead(lines, h, k);
    }
    assert before + [] == before;
    ParseAppend(before, header);
    ParseLast(before, lines[k]);
  }

  lemma LastStatementGoesOn(lines: seq<Line>, k: nat)
    requires Tagged(lines) && k < |lines| && lines[k].Code? && !lines[k].opens
    ensures Parse(lines[..k]) != [] && Parse(lines[..k])[|Parse(lines[..k])| - 1].place == lines[k].place
  {
    TaggedTake(lines, k);
    LastPlaceParsed(lines[..k]);
    TaggedAt(lines, k);
  }

  lemma {:induction false} KeptStatements(lines: seq<Line>, n: nat, moved: seq<Place>, h: nat, header: seq<Line>)
    requires n <= |lines| && Tagged(lines) && HeadIsSole(lines, h) && MovedOnce(lines, moved)
    requires StartsFresh(header) && |Parse(header)| == 1
    ensures Parse(Kept(lines, n, moved, h, header)) == Rewritten(Parse(lines[..n]), moved, Parse(header)[0])
  {
    if n > 0 {
      var k := n - 1;
      KeptStatements(lines, k, moved, h, header);
      TakeNext(lines, k);
      ParseLast(lines[..k], lines[k]);
      if lines[k].Code? && !lines[k].opens {
        LastStatementGoesOn(lines, k);
      }
      RewrittenNext(Parse(lines[..k]), lines[k], moved, Parse(header)[0]);
      KeptNext(lines, k, moved, h, header, Kept(lines, k, moved, h, header));
    }
  }
}
