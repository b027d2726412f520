/** Small classes whose split shows where scripts/god_class_split.py falls short. */
module SplitExamples {
  import opened Wrappers
  import opened Sequences
  import opened PythonText
  import opened Spans
  import opened CoreRewrite
  import opened ClassSplit
  import opened SplitFilesFacts
  import opened MixinLookup
  import opened SplitVerify
  import opened SplitReport

  // ---- one-line statements ----

  predicate AllOpen(lines: seq<Line>) {
    forall i :: 0 <= i < |lines| ==> Opens(lines[i])
  }

  function OneLine(line: Line): Stmt
    requires line.Code?
  {
    Stmt(line.place, [line.text], line.nested)
  }

  lemma {:induction false} ParseAllOpen(lines: seq<Line>)
    requires AllOpen(lines)
    ensures |Parse(lines)| == |lines| && Tagged(lines)
    ensures forall i :: 0 <= i < |lines| ==> Parse(lines)[i] == OneLine(lines[i])
  {
    if lines != [] {
      ParseAllOpen(lines[..|lines| - 1]);
    }
  }

  lemma SoleWhenAllOpen(lines: seq<Line>, place: Place, f: nat)
    requires AllOpen(lines) && f < |lines| && lines[f].place == place
    requires forall g :: 0 <= g < |lines| && lines[g].place == place ==> g == f
    ensures FindLast(lines, place) == Some(f) && IsSoleOpener(lines, f)
  {
  }

  // ---- the class Foo with a method `a`, and two more statements ----

  const HEAD := Code("class Foo:", Head("Foo", []), true, [])
  const METHOD_A := Code("    def a(self): ...", Method("a"), true, [])
  const METHOD_B := Code("    def b(self): ...", Method("b"), true, [])
  const GETTER := Code("    def p(self): ...", Method("p"), true, [])
  const SETTER := Code("    def p(self, value): ...", Method("p"), true, [])
  const LOG := Stmt(Method("log"), ["    def log(self): ..."], [])
  const LOG_MIXIN := Code("class LogMixin: ...", Member("LogMixin"), true, [Nested("LogMixin", LOG)])

  function SourceOf(x: Line, y: Line): Source {
    Source([HEAD, METHOD_A, x, y], map[], [])
  }

  function MoveTo(mixin: Option<string>, methods: seq<string>): Spec {
    Spec("Foo", "_foo.py", [Module("_bar.py", "bar", mixin, methods, [])])
  }

  /** A statement that may follow: another method of the class, or a top-level member last. */
  predicate MayFollow(x: Line, y: Line) {
    && Opens(x) && Opens(y) && x.place.Method? && x.place != Method("a") && y.place != Method("a")
    && (y.place.Method? || (y.place.Member? && y.place.name != "BarMixin"))
  }

  lemma SourceStatements(x: Line, y: Line)
    requires MayFollow(x, y)
    ensures
      var src := SourceOf(x, y);
      && Parse(src.lines) == [OneLine(HEAD), OneLine(METHOD_A), OneLine(x), OneLine(y)]
      && Tagged(src.lines) && HeadIsSole(src.lines, 0) && WellPlaced(Parse(src.lines), "Foo")
  {
    var src := SourceOf(x, y);
    ParseAllOpen(src.lines);
    var s0, s1, s2, s3 := OneLine(HEAD), OneLine(METHOD_A), OneLine(x), OneLine(y);
    assert Parse(src.lines) == (([] + [s0]) + [s1] + [s2]) + [s3];
    PlacedNext([], s0, "Foo");
    PlacedNext([] + [s0], s1, "Foo");
    PlacedNext([] + [s0] + [s1], s2, "Foo");
    PlacedNext([] + [s0] + [s1] + [s2], s3, "Foo");
  }

  lemma PlacedNext(stmts: seq<Stmt>, stmt: Stmt, cls: string)
    requires WellPlaced(stmts, cls) && (InClass(stmt.place) ==> Current(stmts) == Some(cls))
    requires stmt.place.Head? ==> stmt.place.cls == cls
    ensures WellPlaced(stmts + [stmt], cls)
    ensures stmt.place.Head? || InClass(stmt.place) ==> Current(stmts + [stmt]) == Some(cls)
  {
    assert (stmts + [stmt])[..|stmts|] == stmts;
  }

  lemma OneModule(mixin: Option<string>, methods: seq<string>)
    ensures
      var spec := MoveTo(mixin, methods);
      && Moved(spec.modules) == MethodPlaces(methods)
      && Mixins(spec.modules) == (if mixin.Some? then [mixin.value] else [])
      && FilesApart(spec)
  {
    var spec := MoveTo(mixin, methods);
    assert spec.modules[..0] == [];
    assert MemberPlaces([]) == [];
    assert spec.modules[0].file[1] != spec.coreFile[1];
  }

  lemma MoveFits(src: Source, mixin: Option<string>, methods: seq<string>)
    requires src.prologue == [] && Tagged(src.lines) && MovedOnce(src.lines, MethodPlaces(methods))
    ensures forall mod :: mod in MoveTo(mixin, methods).modules ==> Fits(mod, src)
  {
    assert MemberPlaces([]) == [] && Parse([]) == [];
    assert PlacesOf(MoveTo(mixin, methods).modules[0]) == MethodPlaces(methods);
  }

  lemma MoveApart(mixin: Option<string>, methods: seq<string>)
    requires mixin.Some? ==> mixin.value == "BarMixin"
    ensures MixinsApart(MoveTo(mixin, methods), []) && MovesApart(MoveTo(mixin, methods))
  {
    OneModule(mixin, methods);
    assert "BarMixin"[0] != "Foo"[0];
  }

  lemma FileNames()
    ensures !IsInit("_foo.py") && !IsInit("_bar.py")
  {
    assert "__init__.py"[1] == '_';
    assert "_foo.py"[1] == 'f';
    assert "_bar.py"[1] == 'b';
  }

  lemma MoveNames(x: Line, y: Line, mixin: Option<string>, methods: seq<string>)
    requires MayFollow(x, y) && (mixin.Some? ==> mixin.value == "BarMixin")
    ensures NamesApart(MoveTo(mixin, methods), SourceOf(x, y))
  {
    SourceStatements(x, y);
    FileNames();
    assert Parse([]) == [];
  }

  /** The specification is well-formed, whatever the other statements are. */
  lemma MoveIsOk(x: Line, y: Line, mixin: Option<string>, methods: seq<string>)
    requires MayFollow(x, y) && (mixin.Some? ==> mixin.value == "BarMixin")
    requires MovedOnce(SourceOf(x, y).lines, MethodPlaces(methods))
    ensures
      var spec, src := MoveTo(mixin, methods), SourceOf(x, y);
      SpecOk(spec, src, 0) && FilesApart(spec) && NamesApart(spec, src)
  {
    SourceStatements(x, y);
    OneModule(mixin, methods);
    MoveFits(SourceOf(x, y), mixin, methods);
    MoveApart(mixin, methods);
    MoveNames(x, y, mixin, methods);
  }

  lemma MovesOnlyA(x: Line, y: Line)
    requires MayFollow(x, y)
    ensures MovedOnce(SourceOf(x, y).lines, MethodPlaces(["a"]))
  {
    var lines := SourceOf(x, y).lines;
    SoleWhenAllOpen(lines, Method("a"), 1);
    assert MethodPlaces(["a"]) == [Method("a")];
  }

  lemma AnyOrder(files: seq<File>)
    requires Distinct(files)
    ensures Arranged(files, files)
  {
  }

  // ---- the examples ----

  lemma MovesAll()
    ensures MovedOnce(SourceOf(METHOD_B, GETTER).lines, MethodPlaces(["a", "b", "p"]))
  {
    var lines := SourceOf(METHOD_B, GETTER).lines;
    SoleWhenAllOpen(lines, Method("a"), 1);
    SoleWhenAllOpen(lines, Method("b"), 2);
    SoleWhenAllOpen(lines, Method("p"), 3);
    assert forall i :: 0 <= i < 3 ==> MethodPlaces(["a", "b", "p"])[i] == [Method("a"), Method("b"), Method("p")][i];
  }

  lemma AllMove()
    ensures
      var spec, src := MoveTo(Some("BarMixin"), ["a", "b", "p"]), SourceOf(METHOD_B, GETTER);
      forall s :: s in Parse(src.lines) && InClass(s.place) ==> s.place in Moved(spec.modules)
  {
    SourceStatements(METHOD_B, GETTER);
    OneModule(Some("BarMixin"), ["a", "b", "p"]);
    var places := MethodPlaces(["a", "b", "p"]);
    assert places[0] == Method("a") && places[1] == Method("b") && places[2] == Method("p");
  }

  lemma EmptiedWhenAllMove(spec: Spec, src: Source, h: nat)
    requires SpecOk(spec, src, h) && FilesApart(spec)
    requires forall s :: s in Parse(src.lines) && InClass(s.place) ==> s.place in Moved(spec.modules)
    ensures BodyOf(SplitFiles(spec, src, h, true), spec.cls) == []
  {
    SplitFilesDiffer(spec, src, h);
    AnyOrder(SplitFiles(spec, src, h, true));
    CoreIsEmptiedExactly(spec, src, h, SplitFiles(spec, src, h, true));
  }

  /** Moving all three methods of a class leaves it without a body. */
  lemma EmptiedClass()
    ensures
      var spec, src := MoveTo(Some("BarMixin"), ["a", "b", "p"]), SourceOf(METHOD_B, GETTER);
      SpecOk(spec, src, 0) && BodyOf(SplitFiles(spec, src, 0, true), "Foo") == []
  {
    MovesAll();
    MoveIsOk(METHOD_B, GETTER, Some("BarMixin"), ["a", "b", "p"]);
    AllMove();
    EmptiedWhenAllMove(MoveTo(Some("BarMixin"), ["a", "b", "p"]), SourceOf(METHOD_B, GETTER), 0);
  }

  /** A report on the split that moves `a` alone. */
  lemma ReportOnMove(x: Line, y: Line, name: string)
    requires MayFollow(x, y)
    ensures
      var spec, src := MoveTo(Some("BarMixin"), ["a"]), SourceOf(x, y);
      && SpecOk(spec, src, 0)
      && (!AcceptableName(spec, src, name) ==> !Verbatim("Foo", Parse(src.lines), SplitFiles(spec, src, 0, true)))
  {
    var spec, src := MoveTo(Some("BarMixin"), ["a"]), SourceOf(x, y);
    MovesOnlyA(x, y);
    MoveIsOk(x, y, Some("BarMixin"), ["a"]);
    SplitFilesDiffer(spec, src, 0);
    AnyOrder(SplitFiles(spec, src, 0, true));
    VerifierAcceptsExactly(spec, src, 0, SplitFiles(spec, src, 0, true));
  }

  /** A property with a setter is reported as a mismatch although neither moves. */
  lemma SetterIsMismatch()
    ensures
      var spec, src := MoveTo(Some("BarMixin"), ["a"]), SourceOf(GETTER, SETTER);
      SpecOk(spec, src, 0) && !Verbatim("Foo", Parse(src.lines), SplitFiles(spec, src, 0, true))
  {
    ReportOnMove(GETTER, SETTER, "p");
    SetterIsNotAcceptable();
  }

  lemma SetterIsNotAcceptable()
    ensures !AcceptableName(MoveTo(Some("BarMixin"), ["a"]), SourceOf(GETTER, SETTER), "p")
  {
    SourceStatements(GETTER, SETTER);
    TwoOfThem(OneLine(HEAD), OneLine(METHOD_A), OneLine(GETTER), OneLine(SETTER), Method("p"));
    assert !DefinedAtMostOnce(Parse(SourceOf(GETTER, SETTER).lines), "p");
    assert "p" !in ["a"];
  }

  lemma TwoOfThem(a: Stmt, b: Stmt, c: Stmt, d: Stmt, place: Place)
    requires a.place != place && b.place != place && c.place == place && d.place == place
    ensures Filter([a, b, c, d], At(place)) == [c, d]
  {
    assert [a, b, c, d] == ([] + [a] + [b] + [c]) + [d];
    FilterLast([] + [a] + [b] + [c], d, At(place));
    FilterLast([] + [a] + [b], c, At(place));
    FilterLast([] + [a], b, At(place));
    FilterLast([], a, At(place));
  }

  /** Another class whose name ends in "Mixin" is reported as a mismatch, although the split leaves it alone. */
  lemma OtherMixinIsMismatch()
    ensures
      var spec, src := MoveTo(Some("BarMixin"), ["a"]), SourceOf(METHOD_B, LOG_MIXIN);
      SpecOk(spec, src, 0) && !Verbatim("Foo", Parse(src.lines), SplitFiles(spec, src, 0, true))
  {
    var spec, src := MoveTo(Some("BarMixin"), ["a"]), SourceOf(METHOD_B, LOG_MIXIN);
    ReportOnMove(METHOD_B, LOG_MIXIN, "log");
    OtherMixinIsSeen();
    assert !IsUnseen(spec, "log");
  }

  lemma OtherMixinIsSeen()
    ensures OtherDefs(MoveTo(Some("BarMixin"), ["a"]), SourceOf(METHOD_B, LOG_MIXIN), "log") != []
  {
    var spec, src := MoveTo(Some("BarMixin"), ["a"]), SourceOf(METHOD_B, LOG_MIXIN);
    SourceStatements(METHOD_B, LOG_MIXIN);
    OneModule(Some("BarMixin"), ["a"]);
    LogIsSeen();
    LastIsSeen(spec, src, [OneLine(HEAD), OneLine(METHOD_A), OneLine(METHOD_B)], OneLine(LOG_MIXIN), "log");
  }

  lemma LastIsSeen(spec: Spec, src: Source, init: seq<Stmt>, last: Stmt, name: string)
    requires Parse(src.lines) == init + [last] && Remains(Moved(spec.modules))(last)
    requires NestedNamed([last], spec.cls, name) != []
    ensures OtherDefs(spec, src, name) != []
  {
    FilterLast(init, last, Remains(Moved(spec.modules)));
    NestedNamedAppend(Filter(init, Remains(Moved(spec.modules))), [last], spec.cls, name);
  }

  lemma LogIsSeen()
    ensures NestedNamed([OneLine(LOG_MIXIN)], "Foo", "log") != []
  {
    var stmt := OneLine(LOG_MIXIN);
    assert "LogMixin"[3..] == "Mixin" && IsScanned("LogMixin", "Foo");
    assert stmt.nested[..0] == [] && ScannedNested(stmt.nested, "Foo") == [LOG];
    assert [stmt][..0] == [] && NestedMethods([stmt], "Foo") == [LOG];
    assert LOG in [LOG];
  }

  // ---- a copy hides a loss ----

  const COPY_MIXIN := Code("class LogMixin: ...", Member("LogMixin"), true, [Nested("LogMixin", OneLine(METHOD_A))])

  lemma CopyIsSeen(name: string)
    ensures OtherDefs(MoveTo(None, ["a"]), SourceOf(METHOD_B, COPY_MIXIN), name) ==
            if name == "a" then [OneLine(METHOD_A)] else []
  {
    var spec, src := MoveTo(None, ["a"]), SourceOf(METHOD_B, COPY_MIXIN);
    SourceStatements(METHOD_B, COPY_MIXIN);
    OneModule(None, ["a"]);
    NothingWithoutMixin(spec, src, name);
    OnlyLastIsSeen(spec, src, [OneLine(HEAD), OneLine(METHOD_A), OneLine(METHOD_B)], OneLine(COPY_MIXIN), name);
    CopyMethods(name);
  }

  lemma OnlyLastIsSeen(spec: Spec, src: Source, init: seq<Stmt>, last: Stmt, name: string)
    requires Parse(src.lines) == init + [last] && Remains(Moved(spec.modules))(last)
    requires (forall s :: s in init ==> s.nested == []) && ModulesOthers(spec.modules, src, spec.cls, name) == []
    ensures OtherDefs(spec, src, name) == NestedNamed([last], spec.cls, name)
  {
    var before := Filter(init, Remains(Moved(spec.modules)));
    FilterLast(init, last, Remains(Moved(spec.modules)));
    FilterMembers(init, Remains(Moved(spec.modules)));
    NoneNested(before, spec.cls);
    NestedNamedAppend(before, [last], spec.cls, name);
  }

  lemma CopyMethods(name: string)
    ensures NestedNamed([OneLine(COPY_MIXIN)], "Foo", name) == if name == "a" then [OneLine(METHOD_A)] else []
  {
    var stmt := OneLine(COPY_MIXIN);
    assert "LogMixin"[3..] == "Mixin" && IsScanned("LogMixin", "Foo");
    assert stmt.nested[..0] == [] && ScannedNested(stmt.nested, "Foo") == [OneLine(METHOD_A)];
    assert [stmt][..0] == [] && NestedMethods([stmt], "Foo") == [OneLine(METHOD_A)];
    assert [OneLine(METHOD_A)] == [] + [OneLine(METHOD_A)];
    FilterLast([], OneLine(METHOD_A), At(Method(name)));
  }

  /** A module without a mixin, members or a prologue writes no statement of the source. */
  lemma NothingWithoutMixin(spec: Spec, src: Source, name: string)
    requires |spec.modules| == 1 && spec.modules[0].mixin == None && spec.modules[0].members == [] && src.prologue == []
    ensures ModulesOthers(spec.modules, src, spec.cls, name) == []
  {
    assert spec.modules[..0] == [] && MemberPlaces([]) == [];
    assert Parse([]) == [] && StmtsAt(Parse(src.lines), []) == [] && NestedMethods([], spec.cls) == [];
  }

  lemma CopyIsAcceptable(name: string)
    ensures AcceptableName(MoveTo(None, ["a"]), SourceOf(METHOD_B, COPY_MIXIN), name)
  {
    CopyIsSeen(name);
    if name == "a" {
      LostIsUnseen();
    } else {
      OthersAreOnce(name);
    }
  }

  lemma LostIsUnseen()
    ensures IsUnseen(MoveTo(None, ["a"]), "a") && OneLine(METHOD_A) in Parse(SourceOf(METHOD_B, COPY_MIXIN).lines)
  {
    var mod := MoveTo(None, ["a"]).modules[0];
    assert mod in MoveTo(None, ["a"]).modules && "a" in mod.methods && !HasScannedMixin(mod, "Foo");
    SourceStatements(METHOD_B, COPY_MIXIN);
    assert Parse(SourceOf(METHOD_B, COPY_MIXIN).lines)[1] == OneLine(METHOD_A);
  }

  lemma OthersAreOnce(name: string)
    requires name != "a"
    ensures OwnOnce(MoveTo(None, ["a"]), SourceOf(METHOD_B, COPY_MIXIN), name)
  {
    SourceStatements(METHOD_B, COPY_MIXIN);
    AtMostOne(OneLine(HEAD), OneLine(METHOD_A), OneLine(METHOD_B), OneLine(COPY_MIXIN), name);
  }

  lemma AtMostOne(a: Stmt, b: Stmt, c: Stmt, d: Stmt, name: string)
    requires a.place != Method(name) && b.place != Method(name) && d.place != Method(name)
    ensures DefinedAtMostOnce([a, b, c, d], name)
  {
    assert [a, b, c, d] == ([] + [a] + [b] + [c]) + [d];
    FilterLast([] + [a] + [b] + [c], d, At(Method(name)));
    FilterLast([] + [a] + [b], c, At(Method(name)));
    FilterLast([] + [a], b, At(Method(name)));
    FilterLast([], a, At(Method(name)));
  }

  /** A method that the split loses is not missed when another class with the suffix holds a copy of it: the report is
      VERBATIM, and the class does not have the method any more. */
  lemma CopyHidesLoss()
    ensures
      var spec, src := MoveTo(None, ["a"]), SourceOf(METHOD_B, COPY_MIXIN);
      var files := SplitFiles(spec, src, 0, true);
      && SpecOk(spec, src, 0) && Verbatim("Foo", Parse(src.lines), files)
      && Lookup(Original(src), "Foo", "a").Here? && Lookup(files, "Foo", "a") == InBases([])
  {
    var spec, src := MoveTo(None, ["a"]), SourceOf(METHOD_B, COPY_MIXIN);
    MovesOnlyA(METHOD_B, COPY_MIXIN);
    MoveIsOk(METHOD_B, COPY_MIXIN, None, ["a"]);
    CopyIsAccepted(spec, src);
    LossIsReal(spec, src);
  }

  lemma CopyIsAccepted(spec: Spec, src: Source)
    requires spec == MoveTo(None, ["a"]) && src == SourceOf(METHOD_B, COPY_MIXIN)
    requires SpecOk(spec, src, 0) && FilesApart(spec) && NamesApart(spec, src)
    ensures Verbatim("Foo", Parse(src.lines), SplitFiles(spec, src, 0, true))
  {
    var files := SplitFiles(spec, src, 0, true);
    SplitFilesDiffer(spec, src, 0);
    AnyOrder(files);
    forall name: string
      ensures AcceptableName(spec, src, name)
    {
      CopyIsAcceptable(name);
    }
    VerifierAcceptsExactly(spec, src, 0, files);
  }

  lemma LossIsReal(spec: Spec, src: Source)
    requires spec == MoveTo(None, ["a"]) && src == SourceOf(METHOD_B, COPY_MIXIN)
    requires SpecOk(spec, src, 0) && FilesApart(spec)
    ensures Lookup(Original(src), "Foo", "a").Here? && Lookup(SplitFiles(spec, src, 0, true), "Foo", "a") == InBases([])
  {
    var files := SplitFiles(spec, src, 0, true);
    SplitFilesDiffer(spec, src, 0);
    AnyOrder(files);
    var mod := spec.modules[0];
    assert mod in spec.modules && "a" in mod.methods;
    ModuleMovesName(spec, mod, "a");
    BoundWithoutAttribute(spec, src, 0, "a");
    LookupBefore(spec, src, 0, "a");
    NoAttributeHere(spec, src);
    assert Homeless(spec, "a");
    LookupAfterSplit(spec, src, 0, true, files, "a");
  }

  lemma NoAttributeHere(spec: Spec, src: Source)
    requires spec == MoveTo(None, ["a"]) && src == SourceOf(METHOD_B, COPY_MIXIN) && SpecOk(spec, src, 0)
    ensures LastAttribute(ClassBody(Parse(src.lines), "Foo"), "a").None?
  {
    var body := ClassBody(Parse(src.lines), "Foo");
    SourceStatements(METHOD_B, COPY_MIXIN);
    FilterMembers(body, Not(At(Method("a"))));
    var found := LastAttribute(body, "a");
    if found.Some? {
      BodyHoldsAll(Parse(src.lines), "Foo", found.value);
    }
  }
}
