/** Which splits the verifier reports as VERBATIM (`do_split` and `do_verify` in scripts/god_class_split.py). The
    verifier scans every class of the right name wherever it stands, so the methods of other classes count too. */
module SplitReport {
  import opened Wrappers
  import opened Sequences
  import opened PythonText
  import opened Spans
  import opened CoreRewrite
  import opened ClassSplit
  import opened SplitFilesFacts
  import opened MixinLookup
  import opened SplitVerify

  // ---- gathering in any order ----

  lemma {:induction false} GatherAppend<T>(a: seq<File>, b: seq<File>, g: File -> seq<T>)
    ensures Gather(a + b, g) == Gather(a, g) + Gather(b, g)
  {
    if b == [] {
      assert a + b == a;
    } else {
      var init, last := b[..|b| - 1], b[|b| - 1];
      GatherAppend(a, init, g);
      assert (a + b)[..|a + b| - 1] == a + init;
      AppendAssociative(Gather(a, g), Gather(init, g), g(last));
    }
  }

  lemma GatherRemove<T>(files: seq<File>, j: nat, g: File -> seq<T>)
    requires j < |files|
    ensures multiset(Gather(files, g)) == multiset(Gather(files[..j] + files[j + 1..], g)) + multiset(g(files[j]))
  {
    var a, b := files[..j], files[j + 1..];
    RemoveAt(files, j);
    GatherAppend(a, [files[j]] + b, g);
    GatherAppend([files[j]], b, g);
    GatherAppend(a, b, g);
    GatherOne(files[j], g);
    MiddleOut(Gather(a, g), g(files[j]), Gather(b, g));
  }

  lemma MiddleOut<T>(a: seq<T>, b: seq<T>, c: seq<T>)
    ensures multiset(a + (b + c)) == multiset(a + c) + multiset(b)
  {
  }

  lemma GatherOne<T>(file: File, g: File -> seq<T>)
    ensures Gather([file], g) == g(file)
  {
    assert [file][..0] == [];
  }

  lemma {:induction false} GatherPermuted<T>(a: seq<File>, b: seq<File>, g: File -> seq<T>)
    requires multiset(a) == multiset(b)
    ensures multiset(Gather(a, g)) == multiset(Gather(b, g))
  {
    assert |a| == |multiset(a)| && |b| == |multiset(b)|;
    if a != [] {
      assert a[0] in multiset(b);
      var j :| 0 <= j < |b| && b[j] == a[0];
      RemoveAt(a, 0);
      RemoveAt(b, j);
      GatherRemove(a, 0, g);
      GatherRemove(b, j, g);
      GatherPermuted(a[..0] + a[1..], b[..j] + b[j + 1..], g);
    }
  }

  lemma {:induction false} ModuleFileNames(modules: seq<Module>, src: Source)
    ensures |ModuleFiles(modules, src, true)| == |modules|
    ensures forall i :: 0 <= i < |modules| ==> ModuleFiles(modules, src, true)[i].name == modules[i].file
  {
    if modules != [] {
      ModuleFileNames(modules[..|modules| - 1], src);
    }
  }

  lemma SameFiles(spec: Spec, src: Source, h: nat, files: seq<File>)
    requires SpecOk(spec, src, h) && FilesApart(spec) && Arranged(files, SplitFiles(spec, src, h, true))
    ensures multiset(files) == multiset(SplitFiles(spec, src, h, true))
  {
    SplitFilesDiffer(spec, src, h);
    DistinctMultisets(files, SplitFiles(spec, src, h, true));
  }

  lemma SplitFilesDiffer(spec: Spec, src: Source, h: nat)
    requires h < |src.lines| && Opens(src.lines[h]) && src.lines[h].place.Head? && FilesApart(spec)
    ensures Distinct(SplitFiles(spec, src, h, true))
  {
    var written := SplitFiles(spec, src, h, true);
    ModuleFileNames(spec.modules, src);
    forall i, j | 0 <= i < j < |written|
      ensures written[i].name != written[j].name
    {
      assert spec.modules[i] in spec.modules;
    }
  }

  lemma DistinctMultisets<T>(a: seq<T>, b: seq<T>)
    requires Distinct(a) && Distinct(b) && forall x :: x in a <==> x in b
    ensures multiset(a) == multiset(b)
  {
    forall x
      ensures multiset(a)[x] == multiset(b)[x]
    {
      if x in a {
        DistinctOccurOnce(a, x);
        DistinctOccurOnce(b, x);
      }
    }
  }

  // ---- definitions beside and inside ----

  function NestedIn(cls: string, name: string): File -> seq<Stmt> {
    (file: File) => NestedNamed(Parse(file.lines), cls, name)
  }

  function NestedNamed(stmts: seq<Stmt>, cls: string, name: string): seq<Stmt> {
    Filter(NestedMethods(stmts, cls), At(Method(name)))
  }

  function NestedOf(files: seq<File>, cls: string, name: string): seq<Stmt> {
    Gather(files, NestedIn(cls, name))
  }

  lemma {:induction false} DefsSplit(files: seq<File>, cls: string, name: string)
    ensures multiset(DefsOf(files, cls, name)) == multiset(OwnOf(files, cls, name)) + multiset(NestedOf(files, cls, name))
  {
    if files != [] {
      var init, last := files[..|files| - 1], files[|files| - 1];
      DefsSplit(init, cls, name);
      FilterAppend(OwnMethods(Parse(last.lines), cls), NestedMethods(Parse(last.lines), cls), At(Method(name)));
      assert DefsIn(cls, name)(last) == OwnIn(cls, name)(last) + NestedIn(cls, name)(last);
    }
  }

  /** A method is the same when its own definition is and no other class defines it, or when its own definition is
      not seen and the one other definition is a copy of it. */
  lemma SameMethodSplits(before: seq<Stmt>, own: seq<Stmt>, nested: seq<Stmt>, all: seq<Stmt>)
    requires multiset(all) == multiset(own) + multiset(nested)
    ensures SameMethod(before, all) <==> (nested == [] && SameMethod(before, own)) || IsCopied(before, own, nested)
  {
    assert |all| == |multiset(all)| == |own| + |nested|;
    if |all| == 1 {
      assert all == [all[0]];
      if nested == [] {
        assert own == [own[0]] && own[0] in multiset(all);
      } else {
        assert nested == [nested[0]] && nested[0] in multiset(all);
      }
    }
  }

  /** The method is gone, and one other definition is a copy of it. */
  predicate IsCopied(before: seq<Stmt>, own: seq<Stmt>, others: seq<Stmt>) {
    own == [] && before != [] && |others| == 1 && others[0] == before[|before| - 1]
  }

  lemma {:induction false} NestedAppend(a: seq<Stmt>, b: seq<Stmt>, cls: string)
    ensures NestedMethods(a + b, cls) == NestedMethods(a, cls) + NestedMethods(b, cls)
  {
    if b == [] {
      assert a + b == a;
    } else {
      var init, last := b[..|b| - 1], b[|b| - 1];
      assert (a + b)[..|a + b| - 1] == a + init;
      NestedAppend(a, init, cls);
      AppendAssociative(NestedMethods(a, cls), NestedMethods(init, cls), ScannedNested(last.nested, cls));
    }
  }

  lemma NestedNamedAppend(a: seq<Stmt>, b: seq<Stmt>, cls: string, name: string)
    ensures NestedNamed(a + b, cls, name) == NestedNamed(a, cls, name) + NestedNamed(b, cls, name)
  {
    NestedAppend(a, b, cls);
    FilterAppend(NestedMethods(a, cls), NestedMethods(b, cls), At(Method(name)));
  }

  lemma {:induction false} NoneNested(stmts: seq<Stmt>, cls: string)
    requires forall s :: s in stmts ==> s.nested == []
    ensures NestedMethods(stmts, cls) == []
  {
    if stmts != [] {
      NoneNested(stmts[..|stmts| - 1], cls);
      assert stmts[|stmts| - 1] in stmts;
    }
  }

  // ---- the other classes of a split ----

  function Remains(moved: seq<Place>): Stmt -> bool {
    (stmt: Stmt) => stmt.place !in moved && !stmt.place.Head?
  }

  /** What the other scanned classes in a module's file define under a name. */
  function ModuleOthers(mod: Module, src: Source, cls: string, name: string): seq<Stmt> {
    NestedNamed(Parse(src.prologue), cls, name)
      + NestedNamed(StmtsAt(Parse(src.lines), MemberPlaces(mod.members)), cls, name)
      + if mod.mixin.Some? then NestedNamed(StmtsAt(Parse(src.lines), MethodPlaces(mod.methods)), cls, name) else []
  }

  function ModulesOthers(modules: seq<Module>, src: Source, cls: string, name: string): seq<Stmt> {
    if modules == [] then []
    else
      ModulesOthers(modules[..|modules| - 1], src, cls, name) + ModuleOthers(modules[|modules| - 1], src, cls, name)
  }

  /** What classes other than the class and its mixins define under a name, as long as the walk collects it: the
      classes inside the statements that stay, that move, and that the prologue copies. */
  function OtherDefs(spec: Spec, src: Source, name: string): seq<Stmt> {
    ModulesOthers(spec.modules, src, spec.cls, name)
      + NestedNamed(Filter(Parse(src.lines), Remains(Moved(spec.modules))), spec.cls, name)
  }

  lemma {:induction false} RewrittenNested(stmts: seq<Stmt>, moved: seq<Place>, head: Stmt, cls: string)
    requires head.nested == []
    ensures NestedMethods(Rewritten(stmts, moved, head), cls) == NestedMethods(Filter(stmts, Remains(moved)), cls)
  {
    if stmts != [] {
      var init, last := stmts[..|stmts| - 1], stmts[|stmts| - 1];
      RewrittenNested(init, moved, head, cls);
      assert stmts == init + [last];
      FilterLast(init, last, Remains(moved));
      NestedAppend(Rewritten(init, moved, head), Rewrite(last, moved, head), cls);
      NestedAppend(Filter(init, Remains(moved)), [last], cls);
      RewriteNested(last, moved, head, cls);
    }
  }

  lemma RewriteNested(stmt: Stmt, moved: seq<Place>, head: Stmt, cls: string)
    requires head.nested == []
    ensures NestedMethods(Rewrite(stmt, moved, head), cls) == if Remains(moved)(stmt) then NestedMethods([stmt], cls) else []
  {
    NoneNested([head], cls);
  }

  lemma HeaderIsPlain(cls: string, bases: seq<string>)
    ensures |Parse(HeaderLines(cls, bases))| == 1 && Parse(HeaderLines(cls, bases))[0].nested == []
  {
    var header := HeaderLines(cls, bases);
    HeaderParse(cls, bases);
    forall i | 0 <= i < |header|
      ensures header[i].Code? && header[i].nested == []
    {
    }
    ParsePlain(header);
    assert Parse(header)[0] in Parse(header);
  }

  lemma CoreNested(spec: Spec, src: Source, h: nat, name: string)
    requires SpecOk(spec, src, h)
    ensures NestedIn(spec.cls, name)(CoreFile(spec, src, h)) ==
            NestedNamed(Filter(Parse(src.lines), Remains(Moved(spec.modules))), spec.cls, name)
  {
    var bases := NewBases(spec, src.lines[h].place.bases);
    ModuleMoves(spec, src, h);
    CoreStatements(spec, src.lines, h);
    HeaderIsPlain(spec.cls, bases);
    RewrittenNested(Parse(src.lines), Moved(spec.modules), Parse(HeaderLines(spec.cls, bases))[0], spec.cls);
  }

  lemma TopNested(mod: Module, src: Source, cls: string, name: string)
    ensures NestedNamed(TopStmts(mod, src), cls, name) ==
            NestedNamed(Parse(src.prologue), cls, name)
            + NestedNamed(StmtsAt(Parse(src.lines), MemberPlaces(mod.members)), cls, name)
  {
    var first := [Stmt(TopLevel, [mod.doc], []), Stmt(TopLevel, [FutureLine().text], [])];
    var members := StmtsAt(Parse(src.lines), MemberPlaces(mod.members));
    NoneNested(first, cls);
    NestedNamedAppend(first, Parse(src.prologue), cls, name);
    NestedNamedAppend(first + Parse(src.prologue), members, cls, name);
    assert [] + NestedNamed(Parse(src.prologue), cls, name) == NestedNamed(Parse(src.prologue), cls, name);
  }

  lemma ModuleNested(mod: Module, src: Source, cls: string, name: string)
    requires Fits(mod, src)
    ensures NestedIn(cls, name)(ModuleFile(mod, src, true)) == ModuleOthers(mod, src, cls, name)
  {
    var top := TopStmts(mod, src);
    ModuleStatements(mod, src, true);
    TopNested(mod, src, cls, name);
    if mod.mixin.Some? {
      MixinNested(mod, src, cls, name);
      NestedNamedAppend(top, [MixinHead(mod.mixin.value)] + MixinBody(mod, src, true), cls, name);
    } else {
      assert top + [] == top;
      assert NestedNamed(top, cls, name) + [] == NestedNamed(top, cls, name);
    }
  }

  lemma MixinNested(mod: Module, src: Source, cls: string, name: string)
    requires Fits(mod, src) && mod.mixin.Some?
    ensures NestedNamed([MixinHead(mod.mixin.value)] + MixinBody(mod, src, true), cls, name) ==
            NestedNamed(StmtsAt(Parse(src.lines), MethodPlaces(mod.methods)), cls, name)
  {
    var head, doc, seam := MixinHead(mod.mixin.value), Stmt(Unbound, [mod.doc], []), Parse(SeamLines(mod, src, true));
    var methods := StmtsAt(Parse(src.lines), MethodPlaces(mod.methods));
    GuardedSeam(mod, src);
    NoneNested([head, doc] + seam, cls);
    Regroup(head, doc, seam, methods);
    NestedNamedAppend([head, doc] + seam, methods, cls, name);
  }

  lemma {:induction false} ModuleFilesNested(modules: seq<Module>, src: Source, cls: string, name: string)
    requires forall mod :: mod in modules ==> Fits(mod, src)
    ensures NestedOf(ModuleFiles(modules, src, true), cls, name) == ModulesOthers(modules, src, cls, name)
  {
    if modules != [] {
      var init, last := modules[..|modules| - 1], modules[|modules| - 1];
      assert modules == init + [last];
      assert last in modules;
      ModuleFilesNested(init, src, cls, name);
      ModuleNested(last, src, cls, name);
      GatherAppend(ModuleFiles(init, src, true), [ModuleFile(last, src, true)], NestedIn(cls, name));
      GatherOne(ModuleFile(last, src, true), NestedIn(cls, name));
    }
  }

  /** The other classes define the same methods after the split, whatever order the files are in. */
  lemma OthersAreWritten(spec: Spec, src: Source, h: nat, files: seq<File>, name: string)
    requires SpecOk(spec, src, h) && FilesApart(spec) && Arranged(files, SplitFiles(spec, src, h, true))
    ensures multiset(NestedOf(files, spec.cls, name)) == multiset(OtherDefs(spec, src, name))
  {
    var g, core := NestedIn(spec.cls, name), CoreFile(spec, src, h);
    SameFiles(spec, src, h, files);
    GatherPermuted(files, SplitFiles(spec, src, h, true), g);
    ModuleFilesNested(spec.modules, src, spec.cls, name);
    CoreNested(spec, src, h, name);
    GatherAppend(ModuleFiles(spec.modules, src, true), [core], g);
    GatherOne(core, g);
  }

  // ---- what the report turns on ----

  /** The class's own definition is seen once: the class defines the name at most once, and the module that the name
      goes to, if it moves, lists it once and has a mixin that is scanned. */
  predicate OwnOnce(spec: Spec, src: Source, name: string) {
    && DefinedAtMostOnce(Parse(src.lines), name)
    && (forall mod :: mod in spec.modules && name in mod.methods ==>
          HasScannedMixin(mod, spec.cls) && multiset(mod.methods)[name] == 1)
  }

  /** The name goes to a module whose methods the walk does not see. */
  predicate IsUnseen(spec: Spec, name: string) {
    exists mod :: mod in spec.modules && name in mod.methods && !HasScannedMixin(mod, spec.cls)
  }

  /** Nobody else defines the name and its own definition is seen once; or its own definition is not seen, and one
      other scanned class happens to hold a copy of it. */
  predicate AcceptableName(spec: Spec, src: Source, name: string) {
    var others := OtherDefs(spec, src, name);
    || (others == [] && OwnOnce(spec, src, name))
    || (|others| == 1 && IsUnseen(spec, name) && others[0] in Parse(src.lines))
  }

  ghost predicate Acceptable(spec: Spec, src: Source) {
    forall name: string :: AcceptableName(spec, src, name)
  }

  lemma ListedMoves(spec: Spec, name: string)
    ensures forall mod :: mod in spec.modules && name in mod.methods ==> Method(name) in Moved(spec.modules)
  {
    forall mod | mod in spec.modules && name in mod.methods
      ensures Method(name) in Moved(spec.modules)
    {
      ModuleMovesName(spec, mod, name);
    }
  }

  lemma OnlyOwner(spec: Spec, src: Source, h: nat, mod: Module, name: string)
    requires SpecOk(spec, src, h) && mod in spec.modules && name in mod.methods
    ensures forall other :: other in spec.modules && name in other.methods ==> other == mod
  {
    PlacesFacts(mod);
    forall other | other in spec.modules && name in other.methods
      ensures other == mod
    {
      PlacesFacts(other);
    }
  }

  lemma OwnMatches(spec: Spec, src: Source, h: nat, files: seq<File>, name: string)
    requires SpecOk(spec, src, h) && Arranged(files, SplitFiles(spec, src, h, true))
    ensures SameMethod(MethodDefs(Parse(src.lines), spec.cls, name), OwnOf(files, spec.cls, name)) <==> OwnOnce(spec, src, name)
  {
    if Method(name) in Moved(spec.modules) {
      var mod := MovedOwner(spec, name);
      MovedMethodIsSame(spec, src, h, files, mod, name);
      OnlyOwner(spec, src, h, mod, name);
    } else {
      StayingMethodIsSame(spec, src, h, files, name);
      ListedMoves(spec, name);
    }
  }

  /** A method that was there is not seen any more, and it was one statement. */
  predicate LeavesUnseen(before: seq<Stmt>, own: seq<Stmt>, stmts: seq<Stmt>, name: string, unseen: bool) {
    && (own == [] && before != [] <==> unseen)
    && (unseen ==> |before| == 1 && before[0] in stmts && before[0].place == Method(name)
                   && forall s :: s in stmts && s.place == Method(name) ==> s == before[0])
  }

  lemma OwnIsUnseen(spec: Spec, src: Source, h: nat, files: seq<File>, name: string)
    requires SpecOk(spec, src, h) && Arranged(files, SplitFiles(spec, src, h, true))
    ensures LeavesUnseen(MethodDefs(Parse(src.lines), spec.cls, name), OwnOf(files, spec.cls, name), Parse(src.lines), name,
                         IsUnseen(spec, name))
  {
    MethodDefsAll(Parse(src.lines), spec.cls, name);
    if Method(name) in Moved(spec.modules) {
      var mod := MovedOwner(spec, name);
      OwnOfMoved(spec, src, h, files, mod, name);
      UnseenByOwner(spec, src, h, mod, name);
      SoleIsUnseen(Parse(src.lines), OwnOf(files, spec.cls, name), name);
    } else {
      StayingMethodDefs(spec, src, h, files, name);
      ListedMoves(spec, name);
    }
  }

  lemma SoleIsUnseen(stmts: seq<Stmt>, own: seq<Stmt>, name: string)
    requires |Filter(stmts, At(Method(name)))| == 1
    ensures LeavesUnseen(Filter(stmts, At(Method(name))), own, stmts, name, own == [])
  {
    var before := Filter(stmts, At(Method(name)));
    FilterMembers(stmts, At(Method(name)));
    assert before[0] in before && before == [before[0]];
  }

  lemma UnseenByOwner(spec: Spec, src: Source, h: nat, mod: Module, name: string)
    requires SpecOk(spec, src, h) && mod in spec.modules && name in mod.methods
    ensures IsUnseen(spec, name) <==> !HasScannedMixin(mod, spec.cls)
    ensures |Filter(Parse(src.lines), At(Method(name)))| == 1
  {
    OnlyOwner(spec, src, h, mod, name);
    ModuleStatementIsSole(mod, src, name);
  }

  lemma OwnOfMoved(spec: Spec, src: Source, h: nat, files: seq<File>, mod: Module, name: string)
    requires SpecOk(spec, src, h) && Arranged(files, SplitFiles(spec, src, h, true))
    requires mod in spec.modules && name in mod.methods
    ensures OwnOf(files, spec.cls, name) == [] <==> !HasScannedMixin(mod, spec.cls)
  {
    MovedMethodDefs(spec, src, h, files, mod, name);
    ModuleDefs(mod, src, spec.cls, name);
  }

  lemma MatchesInParts(spec: Spec, src: Source, h: nat, files: seq<File>, name: string)
    requires SpecOk(spec, src, h) && FilesApart(spec) && Arranged(files, SplitFiles(spec, src, h, true))
    ensures
      var before, own := MethodDefs(Parse(src.lines), spec.cls, name), OwnOf(files, spec.cls, name);
      var others := OtherDefs(spec, src, name);
      SameMethod(before, DefsOf(files, spec.cls, name)) <==>
      (others == [] && SameMethod(before, own)) || IsCopied(before, own, others)
  {
    DefsSplit(files, spec.cls, name);
    OthersAreWritten(spec, src, h, files, name);
    SameMethodSplits(MethodDefs(Parse(src.lines), spec.cls, name), OwnOf(files, spec.cls, name),
                     OtherDefs(spec, src, name), DefsOf(files, spec.cls, name));
  }

  lemma CopyStandsIn(before: seq<Stmt>, own: seq<Stmt>, others: seq<Stmt>, stmts: seq<Stmt>, name: string, unseen: bool)
    requires forall s :: s in others ==> s.place == Method(name)
    requires LeavesUnseen(before, own, stmts, name, unseen)
    ensures IsCopied(before, own, others) <==> |others| == 1 && unseen && others[0] in stmts
  {
    if |others| == 1 {
      assert others[0] in others;
    }
  }

  lemma NameMatchesExactly(spec: Spec, src: Source, h: nat, files: seq<File>, name: string)
    requires SpecOk(spec, src, h) && FilesApart(spec) && Arranged(files, SplitFiles(spec, src, h, true))
    ensures SameMethod(MethodDefs(Parse(src.lines), spec.cls, name), DefsOf(files, spec.cls, name)) <==>
            AcceptableName(spec, src, name)
  {
    var before, own := MethodDefs(Parse(src.lines), spec.cls, name), OwnOf(files, spec.cls, name);
    MatchesInParts(spec, src, h, files, name);
    OwnMatches(spec, src, h, files, name);
    OwnIsUnseen(spec, src, h, files, name);
    OthersAreNamed(spec, src, name);
    CopyStandsIn(before, own, OtherDefs(spec, src, name), Parse(src.lines), name, IsUnseen(spec, name));
  }

  lemma {:induction false} ModulesOthersAreNamed(modules: seq<Module>, src: Source, cls: string, name: string)
    ensures forall s :: s in ModulesOthers(modules, src, cls, name) ==> s.place == Method(name)
  {
    if modules != [] {
      var last := modules[|modules| - 1];
      ModulesOthersAreNamed(modules[..|modules| - 1], src, cls, name);
      NestedAreNamed(Parse(src.prologue), cls, name);
      NestedAreNamed(StmtsAt(Parse(src.lines), MemberPlaces(last.members)), cls, name);
      NestedAreNamed(StmtsAt(Parse(src.lines), MethodPlaces(last.methods)), cls, name);
    }
  }

  lemma NestedAreNamed(stmts: seq<Stmt>, cls: string, name: string)
    ensures forall s :: s in NestedNamed(stmts, cls, name) ==> s.place == Method(name)
  {
    FilterMembers(NestedMethods(stmts, cls), At(Method(name)));
  }

  lemma OthersAreNamed(spec: Spec, src: Source, name: string)
    ensures forall s :: s in OtherDefs(spec, src, name) ==> s.place == Method(name)
  {
    ModulesOthersAreNamed(spec.modules, src, spec.cls, name);
    NestedAreNamed(Filter(Parse(src.lines), Remains(Moved(spec.modules))), spec.cls, name);
  }

  // ---- the theorem ----

  /** For every well-formed specification, and whatever order the files are read in, the report on the split is
      VERBATIM exactly when every name is acceptable. */
  lemma VerifierAcceptsExactly(spec: Spec, src: Source, h: nat, files: seq<File>)
    requires SpecOk(spec, src, h) && FilesApart(spec) && Arranged(files, SplitFiles(spec, src, h, true)) && NamesApart(spec, src)
    ensures Verbatim(spec.cls, Parse(src.lines), files) <==> Acceptable(spec, src)
  {
    forall name: string
      ensures SameMethod(MethodDefs(Parse(src.lines), spec.cls, name), DefsOf(files, spec.cls, name)) <==>
              AcceptableName(spec, src, name)
    {
      NameMatchesExactly(spec, src, h, files, name);
    }
    forall name: string | name != spec.cls
      ensures SameTop(Filter(Parse(src.lines), BindsTop(name)), TopOf(files, name))
    {
      TopsMatchAlways(spec, src, h, files, name);
    }
  }

  /** Every method-bearing module has a mixin whose name ends in "Mixin". */
  predicate EveryMixinIsScanned(spec: Spec) {
    forall mod :: mod in spec.modules && mod.methods != [] ==> HasScannedMixin(mod, spec.cls)
  }

  /** No other class of the source that the walk sees defines a method. */
  ghost predicate NoOtherDefs(spec: Spec, src: Source) {
    forall name: string :: OtherDefs(spec, src, name) == []
  }

  /** Every method-bearing module has a scanned mixin and lists each method once, the class defines no method twice (as
      a property with a setter does), and no other scanned class defines a method. */
  ghost predicate IsPlain(spec: Spec, src: Source) {
    && EveryMixinIsScanned(spec) && NoOtherDefs(spec, src)
    && (forall mod :: mod in spec.modules ==> Distinct(mod.methods))
    && (forall name: string :: DefinedAtMostOnce(Parse(src.lines), name))
  }

  /** That is what acceptable means, unless a mixin escapes the walk and another class is caught in it as well. */
  lemma AcceptableInPlainCases(spec: Spec, src: Source)
    requires EveryMixinIsScanned(spec) || NoOtherDefs(spec, src)
    ensures Acceptable(spec, src) <==> IsPlain(spec, src)
  {
    if Acceptable(spec, src) {
      PlainWhenAcceptable(spec, src);
    }
    if IsPlain(spec, src) {
      forall name: string
        ensures AcceptableName(spec, src, name)
      {
        PlainIsAcceptable(spec, src, name);
      }
    }
  }

  lemma PlainIsAcceptable(spec: Spec, src: Source, name: string)
    requires IsPlain(spec, src)
    ensures AcceptableName(spec, src, name)
  {
    assert DefinedAtMostOnce(Parse(src.lines), name) && OtherDefs(spec, src, name) == [];
    forall mod | mod in spec.modules && name in mod.methods
      ensures HasScannedMixin(mod, spec.cls) && multiset(mod.methods)[name] == 1
    {
      DistinctOccurOnce(mod.methods, name);
    }
  }

  lemma UnseenIsNotScanned(spec: Spec, name: string)
    ensures IsUnseen(spec, name) ==> !EveryMixinIsScanned(spec)
  {
    if IsUnseen(spec, name) {
      var mod :| mod in spec.modules && name in mod.methods && !HasScannedMixin(mod, spec.cls);
      assert mod.methods != [];
    }
  }

  lemma PlainWhenAcceptable(spec: Spec, src: Source)
    requires EveryMixinIsScanned(spec) || NoOtherDefs(spec, src)
    requires Acceptable(spec, src)
    ensures IsPlain(spec, src)
  {
    forall name: string
      ensures OtherDefs(spec, src, name) == [] && OwnOnce(spec, src, name)
    {
      assert AcceptableName(spec, src, name);
      UnseenIsNotScanned(spec, name);
    }
    forall mod | mod in spec.modules
      ensures Distinct(mod.methods) && (mod.methods != [] ==> HasScannedMixin(mod, spec.cls))
    {
      forall name | name in mod.methods
        ensures multiset(mod.methods)[name] == 1
      {
        assert OwnOnce(spec, src, name);
      }
      OccurOnceDistinct(mod.methods);
      if mod.methods != [] {
        assert OwnOnce(spec, src, mod.methods[0]);
      }
    }
    forall name: string
      ensures DefinedAtMostOnce(Parse(src.lines), name)
    {
      assert OwnOnce(spec, src, name);
    }
  }
}
