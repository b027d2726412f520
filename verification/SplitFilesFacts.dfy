/** What the files of a split say: the statements of each file, and the bodies of the classes in it. */
module SplitFilesFacts {
  import opened Wrappers
  import opened Sequences
  import opened PythonText
  import opened Spans
  import opened CoreRewrite
  import opened ClassSplit

  // ---- joined chunks ----

  lemma {:induction false} FreshAppend(a: seq<Line>, b: seq<Line>)
    requires StartsFresh(a) && StartsFresh(b)
    ensures StartsFresh(a + b)
  {
    if a == [] {
      assert a + b == b;
    } else if !a[0].Code? {
      FreshAppend(a[1..], b);
      assert (a + b)[1..] == a[1..] + b;
    }
  }

  /** The source's statements at the given places, one after the other. */
  function StmtsAt(stmts: seq<Stmt>, places: seq<Place>): seq<Stmt> {
    if places == [] then []
    else StmtsAt(stmts, places[..|places| - 1]) + Filter(stmts, At(places[|places| - 1]))
  }

  lemma {:induction false} StmtAtMember(stmts: seq<Stmt>, places: seq<Place>, s: Stmt)
    ensures s in StmtsAt(stmts, places) <==> s in stmts && s.place in places
  {
    if places != [] {
      var init, last := places[..|places| - 1], places[|places| - 1];
      StmtAtMember(stmts, init, s);
      FilterMembers(stmts, At(last));
      assert s.place in places <==> s.place in init || s.place == last by {
        assert places == init + [last];
      }
    }
  }

  lemma StmtsAtMembers(stmts: seq<Stmt>, places: seq<Place>)
    ensures forall s :: s in StmtsAt(stmts, places) <==> s in stmts && s.place in places
  {
    forall s
      ensures s in StmtsAt(stmts, places) <==> s in stmts && s.place in places
    {
      StmtAtMember(stmts, places, s);
    }
  }

  lemma MovedOnceInit(lines: seq<Line>, places: seq<Place>)
    requires MovedOnce(lines, places) && places != []
    ensures MovedOnce(lines, places[..|places| - 1])
  {
    var init := places[..|places| - 1];
    assert forall i :: 0 <= i < |init| ==> init[i] == places[i];
  }

  /** Statements from three parts. */
  lemma ParseThree(a: seq<Line>, b: seq<Line>, c: seq<Line>)
    requires StartsFresh(b) && StartsFresh(c)
    ensures Parse(a + b + c) == Parse(a) + Parse(b) + Parse(c)
    ensures StartsFresh(a) ==> StartsFresh(a + b + c)
  {
    ParseAppend(a, b);
    ParseAppend(a + b, c);
    if StartsFresh(a) {
      FreshAppend(a, b);
      FreshAppend(a + b, c);
    }
  }

  lemma GapIsEmpty()
    ensures Parse([]) == [] && StartsFresh([])
    ensures Parse([Blank]) == [] && StartsFresh([Blank])
  {
    assert [Blank][..0] == [] && [Blank][1..] == [];
  }

  lemma {:induction false} JoinedStatements(lines: seq<Line>, places: seq<Place>)
    requires Tagged(lines) && MovedOnce(lines, places)
    ensures Parse(Joined(lines, places)) == StmtsAt(Parse(lines), places) && StartsFresh(Joined(lines, places))
  {
    if places != [] {
      var init, last := places[..|places| - 1], places[|places| - 1];
      MovedOnceInit(lines, places);
      JoinedStatements(lines, init);
      var f := FindLast(lines, last).value;
      ChunkIsStatement(lines, f);
      ChunkParse(lines, f);
      GapIsEmpty();
      ParseThree(Joined(lines, init), if init == [] then [] else [Blank], ChunkAt(lines, last));
      assert Parse(Joined(lines, init)) + [] == Parse(Joined(lines, init));
    }
  }

  // ---- seams ----

  lemma {:induction false} AttributeLinesAreUnbound(names: seq<string>)
    ensures forall line :: line in AttributeLines(names) ==>
              line.Code? && line.place == Unbound && line.opens && line.nested == []
  {
    if names != [] {
      AttributeLinesAreUnbound(names[..|names| - 1]);
    }
  }

  function StubStmt(name: string): Stmt {
    Stmt(Method(name), [StubText(name)], [])
  }

  lemma {:induction false} StubLinesFacts(names: seq<string>, guarded: bool)
    ensures forall line :: line in StubLines(names, guarded) && line.Code? ==>
              line.nested == [] &&
              if guarded then line.place == Unbound && !line.opens
              else line.opens && line.place.Method? && line.place.name in names && line.text == StubText(line.place.name)
    ensures !guarded ==> forall n :: n in names ==> Code(StubText(n), Method(n), true, []) in StubLines(names, guarded)
  {
    if names != [] {
      var init, last := names[..|names| - 1], names[|names| - 1];
      StubLinesFacts(init, guarded);
      assert names == init + [last];
    }
  }

  /** When every code line opens a statement, the statements are the code lines. */
  lemma {:induction false} ParseOpening(lines: seq<Line>)
    requires forall line :: line in lines && line.Code? ==> line.opens
    ensures forall s :: s in Parse(lines) ==> |s.texts| == 1 && Code(s.texts[0], s.place, true, s.nested) in lines
    ensures forall line :: line in lines && line.Code? ==> Stmt(line.place, [line.text], line.nested) in Parse(lines)
    ensures StartsFresh(lines)
  {
    if lines != [] {
      var init, last := lines[..|lines| - 1], lines[|lines| - 1];
      assert lines == init + [last];
      ParseOpening(init);
      assert last in lines;
      ParseLast(init, last);
      FreshAppend(init, [last]);
    }
  }

  lemma {:induction false} ParsePlain(lines: seq<Line>)
    requires forall line :: line in lines && line.Code? ==> line.nested == []
    ensures forall s :: s in Parse(lines) ==> s.nested == []
  {
    if lines != [] {
      var init, last := lines[..|lines| - 1], lines[|lines| - 1];
      assert lines == init + [last];
      ParsePlain(init);
      assert last in lines;
    }
  }

  lemma {:induction false} ParseUnbound(lines: seq<Line>)
    requires forall line :: line in lines && line.Code? ==> line.place == Unbound
    ensures forall s :: s in Parse(lines) ==> s.place == Unbound
  {
    ParsePlaces(lines);
    forall s | s in Parse(lines)
      ensures s.place == Unbound
    {
      var k :| 0 <= k < |lines| && lines[k].Code? && lines[k].place == s.place;
      assert lines[k] in lines;
    }
  }

  lemma DeclarationsAreFresh(methods: seq<string>)
    ensures StartsFresh(DeclarationLines(methods, true) + [Blank])
  {
    var lines := DeclarationLines(methods, true) + [Blank];
    if methods != [] {
      assert lines[0] == Blank && lines[1..][0] == GuardLine();
    } else {
      assert lines == [Blank];
      GapIsEmpty();
    }
  }

  lemma WithoutFirst<T>(x: T, a: seq<T>, b: seq<T>, c: seq<T>)
    ensures ([x] + a + b + c)[1..] == a + (b + c)
  {
  }

  lemma GuardedSeamIsFresh(mod: Module, src: Source)
    ensures StartsFresh(SeamLines(mod, src, true))
  {
    var seam, declared := SeamLines(mod, src, true), AttributeLines(ForeignAttributes(mod, src));
    if seam != [] {
      var tail := DeclarationLines(ForeignMethods(mod, src), true) + [Blank];
      AttributeLinesAreUnbound(ForeignAttributes(mod, src));
      ParseOpening(declared);
      DeclarationsAreFresh(ForeignMethods(mod, src));
      FreshAppend(declared, tail);
      WithoutFirst(seam[0], declared, DeclarationLines(ForeignMethods(mod, src), true), [Blank]);
    }
  }

  lemma GuardedSeam(mod: Module, src: Source)
    ensures StartsFresh(SeamLines(mod, src, true))
    ensures forall s :: s in Parse(SeamLines(mod, src, true)) ==> s.place == Unbound && s.nested == []
  {
    GuardedSeamIsFresh(mod, src);
    AttributeLinesAreUnbound(ForeignAttributes(mod, src));
    StubLinesFacts(ForeignMethods(mod, src), true);
    ParsePlain(SeamLines(mod, src, true));
    ParseUnbound(SeamLines(mod, src, true));
  }

  lemma UnguardedSeam(mod: Module, src: Source)
    ensures StartsFresh(SeamLines(mod, src, false))
    ensures forall s :: s in Parse(SeamLines(mod, src, false)) ==>
              s.place == Unbound || (s.place.Method? && s.place.name in ForeignMethods(mod, src) && s == StubStmt(s.place.name))
    ensures forall n :: n in ForeignMethods(mod, src) ==> StubStmt(n) in Parse(SeamLines(mod, src, false))
  {
    var attributes, methods := ForeignAttributes(mod, src), ForeignMethods(mod, src);
    var seam := SeamLines(mod, src, false);
    AttributeLinesAreUnbound(attributes);
    StubLinesFacts(methods, false);
    ParseOpening(seam);
    forall s | s in Parse(seam)
      ensures s.place == Unbound || (s.place.Method? && s.place.name in methods && s == StubStmt(s.place.name))
    {
      assert Code(s.texts[0], s.place, true, s.nested) in seam;
      assert s.texts == [s.texts[0]];
    }
    forall n | n in methods
      ensures StubStmt(n) in Parse(seam)
    {
      var line := Code(StubText(n), Method(n), true, []);
      assert line in StubLines(methods, false) && line in seam;
    }
  }

  // ---- module files ----

  predicate IsTop(stmt: Stmt) {
    stmt.place.Member? || stmt.place.TopLevel?
  }

  /** The specification fits the source. */
  predicate Fits(mod: Module, src: Source) {
    && Tagged(src.lines) && MovedOnce(src.lines, PlacesOf(mod))
    && StartsFresh(src.prologue) && (forall s :: s in Parse(src.prologue) ==> IsTop(s))
  }

  lemma FitsParts(mod: Module, src: Source)
    requires Fits(mod, src)
    ensures MovedOnce(src.lines, MethodPlaces(mod.methods)) && MovedOnce(src.lines, MemberPlaces(mod.members))
  {
    MovedOnceParts(src.lines, MethodPlaces(mod.methods), MemberPlaces(mod.members));
  }

  lemma MovedOnceParts(lines: seq<Line>, a: seq<Place>, b: seq<Place>)
    requires MovedOnce(lines, a + b)
    ensures MovedOnce(lines, a) && MovedOnce(lines, b)
  {
    assert forall i :: 0 <= i < |a| ==> (a + b)[i] == a[i];
    assert forall i :: 0 <= i < |b| ==> (a + b)[|a| + i] == b[i];
  }

  function TopStmts(mod: Module, src: Source): seq<Stmt> {
    [Stmt(TopLevel, [mod.doc], []), Stmt(TopLevel, [FutureLine().text], [])]
      + Parse(src.prologue) + StmtsAt(Parse(src.lines), MemberPlaces(mod.members))
  }

  lemma TopLinesStatements(mod: Module, src: Source)
    requires Fits(mod, src)
    ensures Parse(TopLines(mod, src)) == TopStmts(mod, src)
    ensures forall s :: s in TopStmts(mod, src) ==> IsTop(s)
  {
    FitsParts(mod, src);
    var doc, future := Code(mod.doc, TopLevel, true, []), FutureLine();
    var first := [doc, Blank, future, Blank];
    FourLines(doc, future);
    JoinedStatements(src.lines, MemberPlaces(mod.members));
    ParseThree(first, src.prologue, Joined(src.lines, MemberPlaces(mod.members)));
    StmtsAtMembers(Parse(src.lines), MemberPlaces(mod.members));
  }

  lemma FourLines(a: Line, b: Line)
    requires Opens(a) && Opens(b)
    ensures Parse([a, Blank, b, Blank]) == [Stmt(a.place, [a.text], a.nested), Stmt(b.place, [b.text], b.nested)]
  {
    assert [a, Blank, b, Blank][..3] == [a, Blank, b] && [a, Blank, b][..2] == [a, Blank] && [a, Blank][..1] == [a]
        && [a][..0] == [];
    assert Parse([a]) == [Stmt(a.place, [a.text], a.nested)];
    assert Parse([a, Blank]) == Parse([a]);
  }

  lemma FourMoreLines(a: Line, b: Line)
    requires Opens(a) && Opens(b)
    ensures Parse([Blank, a, b, Blank]) == [Stmt(a.place, [a.text], a.nested), Stmt(b.place, [b.text], b.nested)]
    ensures StartsFresh([Blank, a, b, Blank])
  {
    assert [Blank, a, b, Blank][..3] == [Blank, a, b] && [Blank, a, b][..2] == [Blank, a] && [Blank, a][..1] == [Blank]
        && [Blank][..0] == [];
    assert Parse([Blank]) == [];
    assert Parse([Blank, a]) == [Stmt(a.place, [a.text], a.nested)];
    assert [Blank, a, b, Blank][1..][0] == a;
  }

  function MixinBody(mod: Module, src: Source, guarded: bool): seq<Stmt> {
    [Stmt(Unbound, [mod.doc], [])] + Parse(SeamLines(mod, src, guarded))
      + StmtsAt(Parse(src.lines), MethodPlaces(mod.methods))
  }

  function MixinHead(mixin: string): Stmt {
    Stmt(Head(mixin, []), [MixinHeadLine(mixin).text], [])
  }

  lemma SeamIsFresh(mod: Module, src: Source, guarded: bool)
    ensures StartsFresh(SeamLines(mod, src, guarded))
    ensures forall s :: s in Parse(SeamLines(mod, src, guarded)) ==> InClass(s.place)
  {
    if guarded {
      GuardedSeam(mod, src);
    } else {
      UnguardedSeam(mod, src);
    }
  }

  lemma MixinLinesStatements(mod: Module, src: Source, guarded: bool)
    requires Fits(mod, src) && mod.mixin.Some?
    ensures Parse(MixinLines(mod, src, guarded)) == [MixinHead(mod.mixin.value)] + MixinBody(mod, src, guarded)
    ensures StartsFresh(MixinLines(mod, src, guarded))
    ensures forall s :: s in MixinBody(mod, src, guarded) ==> InClass(s.place)
  {
    FitsParts(mod, src);
    var head, doc, methods := MixinHeadLine(mod.mixin.value), Code(mod.doc, Unbound, true, []), MethodPlaces(mod.methods);
    FourMoreLines(head, doc);
    SeamIsFresh(mod, src, guarded);
    JoinedStatements(src.lines, methods);
    ParseThree([Blank, head, doc, Blank], SeamLines(mod, src, guarded), Joined(src.lines, methods));
    Regroup(MixinHead(mod.mixin.value), Stmt(Unbound, [mod.doc], []), Parse(SeamLines(mod, src, guarded)),
            StmtsAt(Parse(src.lines), methods));
    StmtsAtMembers(Parse(src.lines), methods);
  }

  lemma Regroup<T>(x: T, y: T, a: seq<T>, b: seq<T>)
    ensures [x, y] + a + b == [x] + ([y] + a + b)
  {
  }

  lemma ModuleStatements(mod: Module, src: Source, guarded: bool)
    requires Fits(mod, src)
    ensures Parse(ModuleFile(mod, src, guarded).lines) ==
            TopStmts(mod, src) +
            if mod.mixin.Some? then [MixinHead(mod.mixin.value)] + MixinBody(mod, src, guarded) else []
  {
    TidyKeepsStatements(ModuleLines(mod, src, guarded));
    TopLinesStatements(mod, src);
    if mod.mixin.Some? {
      MixinLinesStatements(mod, src, guarded);
      ParseAppend(TopLines(mod, src), MixinLines(mod, src, guarded));
    } else {
      assert TopLines(mod, src) + [] == TopLines(mod, src);
    }
  }

  // ---- class bodies ----

  lemma {:induction false} NoBodyInTop(stmts: seq<Stmt>, cls: string)
    requires forall s :: s in stmts ==> IsTop(s)
    ensures ClassBody(stmts, cls) == []
  {
    if stmts != [] {
      NoBodyInTop(stmts[..|stmts| - 1], cls);
      assert IsTop(stmts[|stmts| - 1]);
    }
  }

  lemma AppendLast<T>(a: seq<T>, b: seq<T>)
    requires b != []
    ensures a + b == (a + b[..|b| - 1]) + [b[|b| - 1]]
  {
  }

  lemma {:induction false} BodyGoesOn(before: seq<Stmt>, body: seq<Stmt>, c: string, cls: string)
    requires Current(before) == Some(c) && forall s :: s in body ==> InClass(s.place)
    ensures ClassBody(before + body, cls) == ClassBody(before, cls) + if cls == c then body else []
    ensures Current(before + body) == Some(c)
  {
    if body == [] {
      assert before + body == before;
    } else {
      var init, last := body[..|body| - 1], body[|body| - 1];
      BodyGoesOn(before, init, c, cls);
      AppendLast(before, body);
      ClassBodyLast(before + init, last, cls);
      AppendLast(ClassBody(before, cls), body);
    }
  }

  lemma BodyAfterHead(top: seq<Stmt>, head: Stmt, body: seq<Stmt>, cls: string)
    requires (forall s :: s in top ==> IsTop(s)) && head.place.Head? && forall s :: s in body ==> InClass(s.place)
    ensures ClassBody(top + ([head] + body), cls) == if cls == head.place.cls then body else []
  {
    NoBodyInTop(top, cls);
    ClassBodyLast(top, head, cls);
    BodyGoesOn(top + [head], body, head.place.cls, cls);
    AppendAssociative(top, [head], body);
  }

  /** A module file defines its mixin and no other class. */
  lemma ModuleBodies(mod: Module, src: Source, guarded: bool, cls: string)
    requires Fits(mod, src)
    ensures ClassBody(Parse(ModuleFile(mod, src, guarded).lines), cls) ==
            if mod.mixin == Some(cls) then MixinBody(mod, src, guarded) else []
  {
    ModuleStatements(mod, src, guarded);
    TopLinesStatements(mod, src);
    if mod.mixin.Some? {
      MixinLinesStatements(mod, src, guarded);
      BodyAfterHead(TopStmts(mod, src), MixinHead(mod.mixin.value), MixinBody(mod, src, guarded), cls);
    } else {
      assert TopStmts(mod, src) + [] == TopStmts(mod, src);
      NoBodyInTop(TopStmts(mod, src), cls);
    }
  }

  // ---- the core file ----

  /** Every indented statement belongs to the one class that is split. */
  predicate WellPlaced(stmts: seq<Stmt>, cls: string) {
    stmts == [] ||
    var init, last := stmts[..|stmts| - 1], stmts[|stmts| - 1];
    && WellPlaced(init, cls)
    && (InClass(last.place) ==> Current(init) == Some(cls))
    && (last.place.Head? ==> last.place.cls == cls)
  }

  function Stays(moved: seq<Place>): Stmt -> bool {
    (stmt: Stmt) => stmt.place !in moved
  }

  lemma RewriteStep(before: seq<Stmt>, stmt: Stmt, moved: seq<Place>, head: Stmt, c: string)
    requires head.place.Head?
    ensures
      var after := before + Rewrite(stmt, moved, head);
      if stmt.place in moved then after == before
      else if stmt.place.Head? then ClassBody(after, c) == ClassBody(before, c) && Current(after) == Some(head.place.cls)
      else if InClass(stmt.place) then
        && Current(after) == Current(before)
        && ClassBody(after, c) == ClassBody(before, c) + if Current(before) == Some(c) then [stmt] else []
      else ClassBody(after, c) == ClassBody(before, c) && Current(after) == None
  {
    if stmt.place !in moved {
      ClassBodyLast(before, if stmt.place.Head? then head else stmt, c);
    }
  }

  /** The class goes on wherever it did, and there is no other class. */
  lemma {:induction false} RewrittenCurrent(stmts: seq<Stmt>, moved: seq<Place>, head: Stmt, cls: string)
    requires WellPlaced(stmts, cls) && head.place.Head? && head.place.cls == cls
    requires forall p :: p in moved ==> !p.Head?
    ensures Current(stmts) == Some(cls) ==> Current(Rewritten(stmts, moved, head)) == Some(cls)
    ensures Current(Rewritten(stmts, moved, head)) in {None, Some(cls)}
  {
    if stmts != [] {
      var init, last := stmts[..|stmts| - 1], stmts[|stmts| - 1];
      RewrittenCurrent(init, moved, head, cls);
      RewriteStep(Rewritten(init, moved, head), last, moved, head, cls);
    }
  }

  lemma {:induction false} RewrittenBody(stmts: seq<Stmt>, moved: seq<Place>, head: Stmt, cls: string)
    requires WellPlaced(stmts, cls) && head.place.Head? && head.place.cls == cls
    requires forall p :: p in moved ==> !p.Head?
    ensures ClassBody(Rewritten(stmts, moved, head), cls) == Filter(ClassBody(stmts, cls), Stays(moved))
  {
    if stmts != [] {
      var init, last := stmts[..|stmts| - 1], stmts[|stmts| - 1];
      RewrittenBody(init, moved, head, cls);
      RewrittenCurrent(init, moved, head, cls);
      RewriteStep(Rewritten(init, moved, head), last, moved, head, cls);
      StayingBodyLast(stmts, moved, cls);
    }
  }

  lemma StayingBodyLast(stmts: seq<Stmt>, moved: seq<Place>, cls: string)
    requires stmts != []
    ensures
      var init, last := stmts[..|stmts| - 1], stmts[|stmts| - 1];
      Filter(ClassBody(stmts, cls), Stays(moved)) ==
      Filter(ClassBody(init, cls), Stays(moved)) +
      if InClass(last.place) && Current(init) == Some(cls) && last.place !in moved then [last] else []
  {
    var init, last := stmts[..|stmts| - 1], stmts[|stmts| - 1];
    FilterLast(ClassBody(init, cls), last, Stays(moved));
    assert ClassBody(init, cls) + [] == ClassBody(init, cls);
  }

  lemma {:induction false} NoOtherBody(stmts: seq<Stmt>, moved: seq<Place>, head: Stmt, cls: string, c: string)
    requires WellPlaced(stmts, cls) && head.place.Head? && head.place.cls == cls && c != cls
    requires forall p :: p in moved ==> !p.Head?
    ensures ClassBody(Rewritten(stmts, moved, head), c) == []
  {
    if stmts != [] {
      var init, last := stmts[..|stmts| - 1], stmts[|stmts| - 1];
      NoOtherBody(init, moved, head, cls, c);
      RewrittenCurrent(init, moved, head, cls);
      RewriteStep(Rewritten(init, moved, head), last, moved, head, c);
    }
  }

  lemma CoreStatements(spec: Spec, lines: seq<Line>, h: nat)
    requires Tagged(lines) && HeadIsSole(lines, h) && MovedOnce(lines, Moved(spec.modules))
    ensures
      var bases := NewBases(spec, lines[h].place.bases);
      var header := Parse(HeaderLines(spec.cls, bases));
      && |header| == 1 && header[0].place == Head(spec.cls, bases)
      && Parse(Tidy(CoreLines(spec, lines, h))) == Rewritten(Parse(lines), Moved(spec.modules), header[0])
  {
    var bases := NewBases(spec, lines[h].place.bases);
    HeaderParse(spec.cls, bases);
    TidyKeepsStatements(CoreLines(spec, lines, h));
    KeptStatements(lines, |lines|, Moved(spec.modules), h, HeaderLines(spec.cls, bases));
    TakeAll(lines);
  }
}
