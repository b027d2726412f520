/** Looking up a name on a class before and after it is split (scripts/god_class_split.py): the class's own body, then
    its bases in order, where a mixin is a base whose body is among the files. */
module MixinLookup {
  import opened Wrappers
  import opened Sequences
  import opened PythonText
  import opened Spans
  import opened CoreRewrite
  import opened ClassSplit
  import opened SplitFilesFacts

  // ---- gathering from files ----

  function Gather<T>(files: seq<File>, g: File -> seq<T>): seq<T> {
    if files == [] then [] else Gather(files[..|files| - 1], g) + g(files[|files| - 1])
  }

  lemma {:induction false} GatherNone<T>(files: seq<File>, g: File -> seq<T>)
    requires forall f :: f in files ==> g(f) == []
    ensures Gather(files, g) == []
  {
    if files != [] {
      GatherNone(files[..|files| - 1], g);
    }
  }

  lemma {:induction false} GatherSole<T>(files: seq<File>, g: File -> seq<T>, owner: File)
    requires Distinct(files) && owner in files && forall f :: f in files && f != owner ==> g(f) == []
    ensures Gather(files, g) == g(owner)
  {
    var init, last := files[..|files| - 1], files[|files| - 1];
    assert files == init + [last];
    if last == owner {
      GatherNone(init, g);
    } else {
      GatherSole(init, g, owner);
    }
  }

  // ---- lookup ----

  function BodyIn(cls: string): File -> seq<Stmt> {
    (file: File) => ClassBody(Parse(file.lines), cls)
  }

  function IsHeadOf(cls: string): Stmt -> bool {
    (stmt: Stmt) => stmt.place.Head? && stmt.place.cls == cls
  }

  function HeadsIn(cls: string): File -> seq<Stmt> {
    (file: File) => Filter(Parse(file.lines), IsHeadOf(cls))
  }

  function BodyOf(files: seq<File>, cls: string): seq<Stmt> {
    Gather(files, BodyIn(cls))
  }

  predicate Defined(files: seq<File>, cls: string) {
    Gather(files, HeadsIn(cls)) != []
  }

  function BasesOf(files: seq<File>, cls: string): seq<string> {
    var heads := Gather(files, HeadsIn(cls));
    if heads != [] && heads[|heads| - 1].place.Head? then heads[|heads| - 1].place.bases else []
  }

  /** The statement that binds the name, or the bases outside the files that are left to search. */
  datatype Found = Here(stmt: Stmt) | InBases(bases: seq<string>)

  function Search(files: seq<File>, bases: seq<string>, name: string): Found {
    if bases == [] || !Defined(files, bases[0]) then InBases(bases)
    else
      var bound := Binding(BodyOf(files, bases[0]), name);
      if bound.Some? then Here(bound.value) else Search(files, bases[1..], name)
  }

  function Lookup(files: seq<File>, cls: string, name: string): Found {
    var bound := Binding(BodyOf(files, cls), name);
    if bound.Some? then Here(bound.value) else Search(files, BasesOf(files, cls), name)
  }

  // ---- well-formed specifications ----

  /** Every method-bearing module has a mixin. */
  predicate EveryMethodHasMixin(spec: Spec) {
    forall mod :: mod in spec.modules && mod.methods != [] ==> mod.mixin.Some?
  }

  /** A mixin belongs to one module and is not named like the class or one of its bases. */
  predicate MixinsApart(spec: Spec, bases: seq<string>) {
    && (forall a, b :: a in spec.modules && b in spec.modules && a.mixin.Some? && a.mixin == b.mixin ==> a == b)
    && spec.cls !in Mixins(spec.modules)
    && (forall b :: b in bases ==> b != spec.cls && b !in Mixins(spec.modules))
  }

  /** A moved name goes to one module. */
  predicate MovesApart(spec: Spec) {
    forall a, b, p :: a in spec.modules && b in spec.modules && p in PlacesOf(a) && p in PlacesOf(b) ==> a == b
  }

  /** Every file is written once. */
  predicate FilesApart(spec: Spec) {
    && (forall i, j :: 0 <= i < j < |spec.modules| ==> spec.modules[i].file != spec.modules[j].file)
    && (forall mod :: mod in spec.modules ==> mod.file != spec.coreFile)
  }

  predicate SpecOk(spec: Spec, src: Source, h: nat) {
    && Tagged(src.lines) && HeadIsSole(src.lines, h) && src.lines[h].place.cls == spec.cls
    && WellPlaced(Parse(src.lines), spec.cls)
    && (forall mod :: mod in spec.modules ==> Fits(mod, src))
    && MixinsApart(spec, src.lines[h].place.bases)
    && MovesApart(spec)
  }

  /** The same files in any order. */
  ghost predicate Arranged(files: seq<File>, written: seq<File>) {
    Distinct(files) && forall f :: f in files <==> f in written
  }

  lemma ModuleMoves(spec: Spec, src: Source, h: nat)
    requires SpecOk(spec, src, h)
    ensures MovedOnce(src.lines, Moved(spec.modules))
    ensures forall p :: p in Moved(spec.modules) ==> p.Method? || p.Member?
  {
    var moved := Moved(spec.modules);
    MovedMembers(spec.modules);
    MovedNames(spec.modules);
    forall i | 0 <= i < |moved|
      ensures !moved[i].Head? && FindLast(src.lines, moved[i]).Some? && IsSoleOpener(src.lines, FindLast(src.lines, moved[i]).value)
    {
      assert moved[i] in moved;
      var mod :| mod in spec.modules && moved[i] in PlacesOf(mod);
      assert Fits(mod, src);
      var j :| 0 <= j < |PlacesOf(mod)| && PlacesOf(mod)[j] == moved[i];
    }
  }

  lemma {:induction false} ModuleFilesMembers(modules: seq<Module>, src: Source, guarded: bool)
    ensures forall f :: f in ModuleFiles(modules, src, guarded) ==> exists mod :: mod in modules && f == ModuleFile(mod, src, guarded)
    ensures forall mod :: mod in modules ==> ModuleFile(mod, src, guarded) in ModuleFiles(modules, src, guarded)
  {
    if modules != [] {
      var init, last := modules[..|modules| - 1], modules[|modules| - 1];
      ModuleFilesMembers(init, src, guarded);
      assert modules == init + [last];
    }
  }

  function CoreFile(spec: Spec, src: Source, h: nat): File
    requires h < |src.lines| && Opens(src.lines[h]) && src.lines[h].place.Head?
  {
    File(spec.coreFile, Tidy(CoreLines(spec, src.lines, h)))
  }

  /** Every file is a module's or the core's. */
  lemma WrittenFiles(spec: Spec, src: Source, h: nat, guarded: bool, files: seq<File>)
    requires SpecOk(spec, src, h) && Arranged(files, SplitFiles(spec, src, h, guarded))
    ensures CoreFile(spec, src, h) in files
    ensures forall mod :: mod in spec.modules ==> ModuleFile(mod, src, guarded) in files
    ensures forall f :: f in files && f != CoreFile(spec, src, h) ==>
              exists mod :: mod in spec.modules && f == ModuleFile(mod, src, guarded)
  {
    ModuleFilesMembers(spec.modules, src, guarded);
  }

  // ---- class heads ----

  lemma {:induction false} OpenedIsParsed(lines: seq<Line>, k: nat)
    requires k < |lines| && Opens(lines[k])
    ensures exists s :: s in Parse(lines) && s.place == lines[k].place
  {
    var init, last := lines[..|lines| - 1], lines[|lines| - 1];
    if k < |lines| - 1 {
      OpenedIsParsed(init, k);
      var s :| s in Parse(init) && s.place == lines[k].place;
      var stmts := Parse(init);
      var i :| 0 <= i < |stmts| && stmts[i] == s;
      assert Parse(lines)[i].place == s.place;
    } else {
      assert Parse(lines)[|Parse(lines)| - 1].place == last.place;
    }
  }

  lemma SourceHeads(lines: seq<Line>, h: nat)
    requires Tagged(lines) && HeadIsSole(lines, h)
    ensures forall s :: s in Parse(lines) && s.place.Head? ==> s.place == lines[h].place
    ensures exists s :: s in Parse(lines) && s.place == lines[h].place
  {
    OpenedIsParsed(lines, h);
    ParsePlaces(lines);
    forall s | s in Parse(lines) && s.place.Head?
      ensures s.place == lines[h].place
    {
      var k :| 0 <= k < |lines| && lines[k].Code? && lines[k].place == s.place;
      HeaderHoldsHead(lines, h, k);
      UnbrokenPlace(lines, h, k);
    }
  }

  lemma {:induction false} RewrittenMembers(stmts: seq<Stmt>, moved: seq<Place>, head: Stmt, s: Stmt)
    ensures s in Rewritten(stmts, moved, head) <==>
            (s in stmts && s.place !in moved && !s.place.Head?) ||
            (s == head && exists t :: t in stmts && t.place.Head? && t.place !in moved)
  {
    if stmts != [] {
      var init, last := stmts[..|stmts| - 1], stmts[|stmts| - 1];
      assert stmts == init + [last];
      RewrittenMembers(init, moved, head, s);
    }
  }

  lemma RewrittenHeads(stmts: seq<Stmt>, moved: seq<Place>, head: Stmt, c: string)
    requires head.place.Head? && exists t :: t in stmts && t.place.Head? && t.place !in moved
    ensures
      var heads := Filter(Rewritten(stmts, moved, head), IsHeadOf(c));
      if c != head.place.cls then heads == [] else heads != [] && forall s :: s in heads ==> s == head
  {
    var core := Rewritten(stmts, moved, head);
    FilterMembers(core, IsHeadOf(c));
    forall s | s in Filter(core, IsHeadOf(c))
      ensures s == head
    {
      RewrittenMembers(stmts, moved, head, s);
    }
    RewrittenMembers(stmts, moved, head, head);
    if c == head.place.cls {
      assert head in Filter(core, IsHeadOf(c));
    } else {
      forall s | s in core
        ensures !IsHeadOf(c)(s)
      {
        RewrittenMembers(stmts, moved, head, s);
      }
      FilterNone(core, IsHeadOf(c));
    }
  }

  lemma CoreHeads(spec: Spec, src: Source, h: nat, c: string)
    requires SpecOk(spec, src, h)
    ensures
      var heads := HeadsIn(c)(CoreFile(spec, src, h));
      if c != spec.cls then heads == []
      else heads != [] && forall s :: s in heads ==> s.place == Head(c, NewBases(spec, src.lines[h].place.bases))
  {
    ModuleMoves(spec, src, h);
    CoreStatements(spec, src.lines, h);
    SourceHeads(src.lines, h);
    var head := Parse(HeaderLines(spec.cls, NewBases(spec, src.lines[h].place.bases)))[0];
    RewrittenHeads(Parse(src.lines), Moved(spec.modules), head, c);
  }

  lemma ModuleHeads(mod: Module, src: Source, guarded: bool, c: string)
    requires Fits(mod, src)
    ensures HeadsIn(c)(ModuleFile(mod, src, guarded)) == if mod.mixin == Some(c) then [MixinHead(c)] else []
  {
    var top, body := TopStmts(mod, src), MixinBody(mod, src, guarded);
    ModuleStatements(mod, src, guarded);
    TopLinesStatements(mod, src);
    FilterNone(top, IsHeadOf(c));
    if mod.mixin.Some? {
      MixinLinesStatements(mod, src, guarded);
      FilterNone(body, IsHeadOf(c));
      FilterAppend(top, [MixinHead(mod.mixin.value)] + body, IsHeadOf(c));
      FilterAppend([MixinHead(mod.mixin.value)], body, IsHeadOf(c));
    } else {
      assert top + [] == top;
    }
  }

  // ---- the classes of the split ----

  lemma HostHeads(spec: Spec, src: Source, h: nat, guarded: bool, files: seq<File>)
    requires SpecOk(spec, src, h) && Arranged(files, SplitFiles(spec, src, h, guarded))
    ensures BasesOf(files, spec.cls) == NewBases(spec, src.lines[h].place.bases)
  {
    var core := CoreFile(spec, src, h);
    WrittenFiles(spec, src, h, guarded, files);
    MixinMembers(spec.modules);
    CoreHeads(spec, src, h, spec.cls);
    forall f | f in files && f != core
      ensures HeadsIn(spec.cls)(f) == []
    {
      var mod :| mod in spec.modules && f == ModuleFile(mod, src, guarded);
      ModuleHeads(mod, src, guarded, spec.cls);
    }
    GatherSole(files, HeadsIn(spec.cls), core);
    var heads := HeadsIn(spec.cls)(core);
    assert heads[|heads| - 1] in heads;
  }

  lemma CoreBodies(spec: Spec, src: Source, h: nat, c: string)
    requires SpecOk(spec, src, h)
    ensures BodyIn(c)(CoreFile(spec, src, h)) ==
            if c == spec.cls then Filter(ClassBody(Parse(src.lines), c), Stays(Moved(spec.modules))) else []
  {
    var stmts, moved := Parse(src.lines), Moved(spec.modules);
    ModuleMoves(spec, src, h);
    CoreStatements(spec, src.lines, h);
    var head := Parse(HeaderLines(spec.cls, NewBases(spec, src.lines[h].place.bases)))[0];
    if c == spec.cls {
      RewrittenBody(stmts, moved, head, c);
    } else {
      NoOtherBody(stmts, moved, head, spec.cls, c);
    }
  }

  /** The class keeps the statements that do not move. */
  lemma HostBody(spec: Spec, src: Source, h: nat, guarded: bool, files: seq<File>)
    requires SpecOk(spec, src, h) && Arranged(files, SplitFiles(spec, src, h, guarded))
    ensures BodyOf(files, spec.cls) == Filter(ClassBody(Parse(src.lines), spec.cls), Stays(Moved(spec.modules)))
  {
    var core := CoreFile(spec, src, h);
    WrittenFiles(spec, src, h, guarded, files);
    MixinMembers(spec.modules);
    CoreBodies(spec, src, h, spec.cls);
    forall f | f in files && f != core
      ensures BodyIn(spec.cls)(f) == []
    {
      var mod :| mod in spec.modules && f == ModuleFile(mod, src, guarded);
      ModuleBodies(mod, src, guarded, spec.cls);
    }
    GatherSole(files, BodyIn(spec.cls), core);
  }

  /** A mixin is defined in its module's file and nowhere else. */
  lemma MixinDefined(spec: Spec, src: Source, h: nat, guarded: bool, files: seq<File>, mod: Module)
    requires SpecOk(spec, src, h) && Arranged(files, SplitFiles(spec, src, h, guarded))
    requires mod in spec.modules && mod.mixin.Some?
    ensures Defined(files, mod.mixin.value)
    ensures BodyOf(files, mod.mixin.value) == MixinBody(mod, src, guarded)
  {
    var c, owner := mod.mixin.value, ModuleFile(mod, src, guarded);
    WrittenFiles(spec, src, h, guarded, files);
    MixinMembers(spec.modules);
    forall f | f in files && f != owner
      ensures BodyIn(c)(f) == [] && HeadsIn(c)(f) == []
    {
      if f == CoreFile(spec, src, h) {
        CoreBodies(spec, src, h, c);
        CoreHeads(spec, src, h, c);
      } else {
        var other :| other in spec.modules && f == ModuleFile(other, src, guarded);
        ModuleBodies(other, src, guarded, c);
        ModuleHeads(other, src, guarded, c);
      }
    }
    ModuleBodies(mod, src, guarded, c);
    ModuleHeads(mod, src, guarded, c);
    GatherSole(files, BodyIn(c), owner);
    GatherSole(files, HeadsIn(c), owner);
  }

  lemma BaseIsOutside(spec: Spec, src: Source, h: nat, guarded: bool, files: seq<File>, base: string)
    requires SpecOk(spec, src, h) && Arranged(files, SplitFiles(spec, src, h, guarded))
    requires base in src.lines[h].place.bases
    ensures !Defined(files, base)
  {
    WrittenFiles(spec, src, h, guarded, files);
    MixinMembers(spec.modules);
    forall f | f in files
      ensures HeadsIn(base)(f) == []
    {
      if f == CoreFile(spec, src, h) {
        CoreHeads(spec, src, h, base);
      } else {
        var mod :| mod in spec.modules && f == ModuleFile(mod, src, guarded);
        ModuleHeads(mod, src, guarded, base);
      }
    }
    GatherNone(files, HeadsIn(base));
  }

  // ---- bindings ----

  lemma {:induction false} BodyHoldsAll(stmts: seq<Stmt>, cls: string, s: Stmt)
    requires WellPlaced(stmts, cls)
    ensures s in ClassBody(stmts, cls) <==> s in stmts && InClass(s.place)
  {
    if stmts != [] {
      var init, last := stmts[..|stmts| - 1], stmts[|stmts| - 1];
      assert stmts == init + [last];
      BodyHoldsAll(init, cls, s);
    }
  }

  lemma {:induction false} BindingFiltered(body: seq<Stmt>, p: Stmt -> bool, name: string)
    requires forall s :: s in body && Binds(s, name) ==> p(s)
    ensures Binding(Filter(body, p), name) == Binding(body, name)
  {
    if body != [] {
      var init, last := body[..|body| - 1], body[|body| - 1];
      assert body == init + [last];
      BindingFiltered(init, p, name);
      FilterLast(init, last, p);
      if p(last) {
        assert (Filter(init, p) + [last])[..|Filter(init, p)|] == Filter(init, p);
      }
    }
  }

  /** The source's last definition of a method. */
  function LastMethod(stmts: seq<Stmt>, name: string): Option<Stmt> {
    var defs := Filter(stmts, At(Method(name)));
    if defs == [] then None else Some(defs[|defs| - 1])
  }

  /** A moved method is one statement of the source. */
  lemma MovedIsSole(spec: Spec, src: Source, h: nat, name: string) returns (stmt: Stmt)
    requires SpecOk(spec, src, h) && Method(name) in Moved(spec.modules)
    ensures stmt in Parse(src.lines) && stmt.place == Method(name) && LastMethod(Parse(src.lines), name) == Some(stmt)
    ensures forall s :: s in Parse(src.lines) && s.place == Method(name) ==> s == stmt
  {
    var stmts, place, moved := Parse(src.lines), Method(name), Moved(spec.modules);
    ModuleMoves(spec, src, h);
    var i :| 0 <= i < |moved| && moved[i] == place;
    stmt := SoleStatement(src.lines, FindLast(src.lines, place).value);
    LastIsSole(stmts, name, stmt);
  }

  lemma LastIsSole(stmts: seq<Stmt>, name: string, stmt: Stmt)
    requires stmt in stmts && stmt.place == Method(name)
    requires forall s :: s in stmts && s.place == Method(name) ==> s == stmt
    ensures LastMethod(stmts, name) == Some(stmt)
  {
    var defs := Filter(stmts, At(Method(name)));
    FilterMembers(stmts, At(Method(name)));
    assert stmt in defs && defs[|defs| - 1] in defs;
  }

  /** A class attribute of the name, the last one there is. */
  function LastAttribute(body: seq<Stmt>, name: string): Option<Stmt> {
    Binding(Filter(body, Not(At(Method(name)))), name)
  }

  /** What a mixin binds a name to: the moved statement, or a stub that is not under the guard. */
  lemma MixinBinding(spec: Spec, src: Source, h: nat, guarded: bool, mod: Module, name: string)
    requires SpecOk(spec, src, h) && mod in spec.modules && mod.mixin.Some?
    ensures
      Binding(MixinBody(mod, src, guarded), name) ==
      if name in mod.methods then LastMethod(Parse(src.lines), name)
      else if !guarded && name in ForeignMethods(mod, src) then Some(StubStmt(name))
      else None
  {
    var body := MixinBody(mod, src, guarded);
    MixinBinders(mod, src, guarded, name);
    ForeignIsNotOwned(mod, src);
    if name in mod.methods {
      ModuleMovesName(spec, mod, name);
      var stmt := MovedIsSole(spec, src, h, name);
      BindingIs(body, name, Some(stmt));
    } else if !guarded && name in ForeignMethods(mod, src) {
      BindingIs(body, name, Some(StubStmt(name)));
    } else {
      BindingIs(body, name, None);
    }
  }

  lemma ModuleMovesName(spec: Spec, mod: Module, name: string)
    requires mod in spec.modules && name in mod.methods
    ensures Method(name) in Moved(spec.modules)
  {
    PlacesFacts(mod);
    MovedMembers(spec.modules);
  }

  lemma BindingIs(body: seq<Stmt>, name: string, bound: Option<Stmt>)
    requires bound.Some? ==> bound.value in body && Binds(bound.value, name)
    requires forall s :: s in body && Binds(s, name) ==> bound == Some(s)
    ensures Binding(body, name) == bound
  {
    var found := Binding(body, name);
  }

  lemma MixinBinders(mod: Module, src: Source, guarded: bool, name: string)
    requires Fits(mod, src)
    ensures forall s :: s in MixinBody(mod, src, guarded) && Binds(s, name) ==>
              || (name in mod.methods && s in Parse(src.lines) && s.place == Method(name))
              || (!guarded && name in ForeignMethods(mod, src) && s == StubStmt(name))
    ensures name in mod.methods ==>
              forall s :: s in Parse(src.lines) && s.place == Method(name) ==> s in MixinBody(mod, src, guarded)
    ensures !guarded && name in ForeignMethods(mod, src) ==> StubStmt(name) in MixinBody(mod, src, guarded)
  {
    StmtsAtMembers(Parse(src.lines), MethodPlaces(mod.methods));
    if guarded {
      GuardedSeam(mod, src);
    } else {
      UnguardedSeam(mod, src);
    }
  }

  // ---- searching the mixins ----

  function FirstBound(files: seq<File>, classes: seq<string>, name: string): Option<Stmt> {
    if classes == [] then None
    else
      var bound := Binding(BodyOf(files, classes[0]), name);
      if bound.Some? then bound else FirstBound(files, classes[1..], name)
  }

  lemma {:induction false} SearchMixins(files: seq<File>, mixins: seq<string>, bases: seq<string>, name: string)
    requires (forall m :: m in mixins ==> Defined(files, m)) && (bases != [] ==> !Defined(files, bases[0]))
    ensures Search(files, mixins + bases, name) ==
            var bound := FirstBound(files, mixins, name); if bound.Some? then Here(bound.value) else InBases(bases)
  {
    if mixins == [] {
      assert mixins + bases == bases;
    } else {
      assert (mixins + bases)[1..] == mixins[1..] + bases && (mixins + bases)[0] == mixins[0];
      SearchMixins(files, mixins[1..], bases, name);
    }
  }

  /** The first mixin in line that has the name at all only declares it. */
  predicate StubFirst(spec: Spec, src: Source, mixins: seq<string>, name: string) {
    mixins != [] && !Provides(spec, mixins[0], name)
    && (Declares(spec, src, mixins[0], name) || StubFirst(spec, src, mixins[1..], name))
  }

  predicate Provides(spec: Spec, mixin: string, name: string) {
    exists mod :: mod in spec.modules && mod.mixin == Some(mixin) && name in mod.methods
  }

  predicate Declares(spec: Spec, src: Source, mixin: string, name: string) {
    exists mod :: mod in spec.modules && mod.mixin == Some(mixin) && name in ForeignMethods(mod, src)
  }

  lemma BoundIn(spec: Spec, src: Source, h: nat, guarded: bool, files: seq<File>, mixin: string, name: string)
    requires SpecOk(spec, src, h) && Arranged(files, SplitFiles(spec, src, h, guarded)) && mixin in Mixins(spec.modules)
    ensures Defined(files, mixin)
    ensures
      Binding(BodyOf(files, mixin), name) ==
      if Provides(spec, mixin, name) then LastMethod(Parse(src.lines), name)
      else if !guarded && Declares(spec, src, mixin, name) then Some(StubStmt(name))
      else None
  {
    MixinMembers(spec.modules);
    var mod :| mod in spec.modules && mod.mixin == Some(mixin);
    MixinDefined(spec, src, h, guarded, files, mod);
    MixinBinding(spec, src, h, guarded, mod, name);
  }

  predicate ProvidedIn(spec: Spec, mixins: seq<string>, name: string) {
    exists m :: m in mixins && Provides(spec, m, name)
  }

  lemma ProvidedInNext(spec: Spec, mixins: seq<string>, name: string)
    requires mixins != []
    ensures ProvidedIn(spec, mixins, name) <==> Provides(spec, mixins[0], name) || ProvidedIn(spec, mixins[1..], name)
  {
    assert mixins == [mixins[0]] + mixins[1..];
  }

  lemma {:induction false} FirstBoundFacts(
    spec: Spec, src: Source, h: nat, guarded: bool, files: seq<File>, mixins: seq<string>, name: string)
    requires SpecOk(spec, src, h) && Arranged(files, SplitFiles(spec, src, h, guarded))
    requires forall m :: m in mixins ==> m in Mixins(spec.modules)
    requires ProvidedIn(spec, mixins, name) ==> Method(name) in Moved(spec.modules)
    ensures
      FirstBound(files, mixins, name) ==
      if !guarded && StubFirst(spec, src, mixins, name) then Some(StubStmt(name))
      else if ProvidedIn(spec, mixins, name) then LastMethod(Parse(src.lines), name)
      else None
  {
    if mixins != [] {
      var first, rest := mixins[0], mixins[1..];
      ProvidedInNext(spec, mixins, name);
      BoundIn(spec, src, h, guarded, files, first, name);
      FirstBoundFacts(spec, src, h, guarded, files, rest, name);
      if Provides(spec, first, name) {
        var stmt := MovedIsSole(spec, src, h, name);
      }
    }
  }

  /** The name goes to a module without a mixin, which writes no methods. */
  predicate Homeless(spec: Spec, name: string) {
    exists mod :: mod in spec.modules && mod.mixin == None && name in mod.methods
  }

  /** Some mixin provides a name exactly when the name moves to a module that has one. */
  lemma MovedIsProvided(spec: Spec, src: Source, h: nat, name: string)
    requires SpecOk(spec, src, h)
    ensures ProvidedIn(spec, SortedNames(Mixins(spec.modules)), name) <==>
            Method(name) in Moved(spec.modules) && !Homeless(spec, name)
    ensures forall m :: m in SortedNames(Mixins(spec.modules)) <==> m in Mixins(spec.modules)
  {
    var mixins := SortedNames(Mixins(spec.modules));
    SortedMembers(Mixins(spec.modules));
    MixinMembers(spec.modules);
    MovedMembers(spec.modules);
    if ProvidedIn(spec, mixins, name) {
      var m :| m in mixins && Provides(spec, m, name);
      var mod :| mod in spec.modules && mod.mixin == Some(m) && name in mod.methods;
      PlacesFacts(mod);
      if Homeless(spec, name) {
        var other :| other in spec.modules && other.mixin == None && name in other.methods;
        PlacesFacts(other);
      }
    }
    if Method(name) in Moved(spec.modules) && !Homeless(spec, name) {
      var mod :| mod in spec.modules && Method(name) in PlacesOf(mod);
      PlacesFacts(mod);
      assert Provides(spec, mod.mixin.value, name) && mod.mixin.value in mixins;
    }
  }

  // ---- the theorem ----

  function Original(src: Source): seq<File> {
    [File("", src.lines)]
  }

  lemma OriginalHeads(src: Source, h: nat, c: string)
    requires Tagged(src.lines) && HeadIsSole(src.lines, h)
    ensures Defined(Original(src), c) <==> c == src.lines[h].place.cls
    ensures c == src.lines[h].place.cls ==> BasesOf(Original(src), c) == src.lines[h].place.bases
  {
    var stmts := Parse(src.lines);
    var heads := Filter(stmts, IsHeadOf(c));
    GatherSole(Original(src), HeadsIn(c), File("", src.lines));
    SourceHeads(src.lines, h);
    FilterMembers(stmts, IsHeadOf(c));
    var s :| s in stmts && s.place == src.lines[h].place;
    if c == src.lines[h].place.cls {
      assert s in heads && heads[|heads| - 1] in heads;
    } else {
      FilterNone(stmts, IsHeadOf(c));
    }
  }

  lemma LookupBefore(spec: Spec, src: Source, h: nat, name: string)
    requires SpecOk(spec, src, h)
    ensures
      var bound := Binding(ClassBody(Parse(src.lines), spec.cls), name);
      Lookup(Original(src), spec.cls, name) == if bound.Some? then Here(bound.value) else InBases(src.lines[h].place.bases)
  {
    var bases := src.lines[h].place.bases;
    GatherSole(Original(src), BodyIn(spec.cls), File("", src.lines));
    OriginalHeads(src, h, spec.cls);
    if bases != [] {
      OriginalHeads(src, h, bases[0]);
    }
  }

  /** The class itself still binds what did not move: of a moved name, a class attribute if there is one. */
  lemma OwnBinding(spec: Spec, src: Source, h: nat, guarded: bool, files: seq<File>, name: string)
    requires SpecOk(spec, src, h) && Arranged(files, SplitFiles(spec, src, h, guarded))
    ensures
      var body := ClassBody(Parse(src.lines), spec.cls);
      Binding(BodyOf(files, spec.cls), name) ==
      if Method(name) in Moved(spec.modules) then LastAttribute(body, name) else Binding(body, name)
  {
    var body, moved := ClassBody(Parse(src.lines), spec.cls), Moved(spec.modules);
    HostBody(spec, src, h, guarded, files);
    ModuleMoves(spec, src, h);
    BindingWithoutMoved(body, moved, name);
  }

  lemma BindingWithoutMoved(body: seq<Stmt>, moved: seq<Place>, name: string)
    requires Attribute(name) !in moved
    ensures Binding(Filter(body, Stays(moved)), name) ==
            if Method(name) in moved then LastAttribute(body, name) else Binding(body, name)
  {
    if Method(name) in moved {
      var kept, rest := Filter(body, Stays(moved)), Filter(body, Not(At(Method(name))));
      FilterTwice(body, Not(At(Method(name))), Stays(moved));
      FilterAgree(body, Stays(moved), And(Not(At(Method(name))), Stays(moved)));
      FilterMembers(body, Not(At(Method(name))));
      BindingFiltered(rest, Stays(moved), name);
    } else {
      BindingFiltered(body, Stays(moved), name);
    }
  }

  /** Without a class attribute of the name, a moved method is what the name was bound to. */
  lemma BoundWithoutAttribute(spec: Spec, src: Source, h: nat, name: string)
    requires SpecOk(spec, src, h) && Method(name) in Moved(spec.modules)
    ensures
      var body := ClassBody(Parse(src.lines), spec.cls);
      && Binding(body, name).Some?
      && (LastAttribute(body, name).None? ==> Binding(body, name) == LastMethod(Parse(src.lines), name))
  {
    var stmts, body := Parse(src.lines), ClassBody(Parse(src.lines), spec.cls);
    var stmt := MovedIsSole(spec, src, h, name);
    BodyHoldsAll(stmts, spec.cls, stmt);
    assert Binds(stmt, name);
    var bound := Binding(body, name);
    BodyHoldsAll(stmts, spec.cls, bound.value);
    FilterMembers(body, Not(At(Method(name))));
    if LastAttribute(body, name).None? {
      assert bound.value.place == Method(name);
    }
  }

  /** Only methods of the class get stubs. */
  lemma {:induction false} NoStubForStrangers(spec: Spec, src: Source, mixins: seq<string>, name: string)
    requires WellPlaced(Parse(src.lines), spec.cls)
    requires Binding(ClassBody(Parse(src.lines), spec.cls), name).None?
    ensures !StubFirst(spec, src, mixins, name)
  {
    if mixins != [] {
      NoStubForStrangers(spec, src, mixins[1..], name);
      if Declares(spec, src, mixins[0], name) {
        var mod :| mod in spec.modules && mod.mixin == Some(mixins[0]) && name in ForeignMethods(mod, src);
        FilterMembers(Foreign(mod, src.uses), IsMethodOf(src.lines));
        OpenedIsParsed(src.lines, FindLast(src.lines, Method(name)).value);
        var s :| s in Parse(src.lines) && s.place == Method(name);
        BodyHoldsAll(Parse(src.lines), spec.cls, s);
        assert Binds(s, name);
        assert false;
      }
    }
  }

  /** Looking up any name on the split class gives what it gave before. Three things would change that: a class
      attribute with the name of a moved method, which is left in the class and wins; stubs outside a `TYPE_CHECKING`
      guard, exactly for the moved names whose first mixin in line merely declares them; and a module without a mixin,
      whose methods are lost. */
  lemma LookupAfterSplit(spec: Spec, src: Source, h: nat, guarded: bool, files: seq<File>, name: string)
    requires SpecOk(spec, src, h) && Arranged(files, SplitFiles(spec, src, h, guarded))
    ensures
      var attribute := LastAttribute(ClassBody(Parse(src.lines), spec.cls), name);
      Lookup(files, spec.cls, name) ==
      if Method(name) !in Moved(spec.modules) then Lookup(Original(src), spec.cls, name)
      else if attribute.Some? then Here(attribute.value)
      else if !guarded && StubFirst(spec, src, SortedNames(Mixins(spec.modules)), name) then Here(StubStmt(name))
      else if Homeless(spec, name) then InBases(src.lines[h].place.bases)
      else Lookup(Original(src), spec.cls, name)
  {
    LookupBefore(spec, src, h, name);
    OwnBinding(spec, src, h, guarded, files, name);
    SearchAfterSplit(spec, src, h, guarded, files, name);
    if Method(name) in Moved(spec.modules) {
      BoundWithoutAttribute(spec, src, h, name);
    } else if Binding(ClassBody(Parse(src.lines), spec.cls), name).None? {
      NoStubForStrangers(spec, src, SortedNames(Mixins(spec.modules)), name);
    }
  }

  /** What the mixins give for a name that the class does not bind. */
  lemma SearchAfterSplit(spec: Spec, src: Source, h: nat, guarded: bool, files: seq<File>, name: string)
    requires SpecOk(spec, src, h) && Arranged(files, SplitFiles(spec, src, h, guarded))
    ensures
      var moves := Method(name) in Moved(spec.modules);
      && (moves ==> LastMethod(Parse(src.lines), name).Some?)
      && Search(files, BasesOf(files, spec.cls), name) ==
         if !guarded && StubFirst(spec, src, SortedNames(Mixins(spec.modules)), name) then Here(StubStmt(name))
         else if moves && !Homeless(spec, name) then Here(LastMethod(Parse(src.lines), name).value)
         else InBases(src.lines[h].place.bases)
  {
    var mixins, bases := SortedNames(Mixins(spec.modules)), src.lines[h].place.bases;
    HostHeads(spec, src, h, guarded, files);
    MovedIsProvided(spec, src, h, name);
    FirstBoundFacts(spec, src, h, guarded, files, mixins, name);
    forall m | m in mixins
      ensures Defined(files, m)
    {
      BoundIn(spec, src, h, guarded, files, m, name);
    }
    if bases != [] {
      BaseIsOutside(spec, src, h, guarded, files, bases[0]);
    }
    SearchMixins(files, mixins, bases, name);
    if Method(name) in Moved(spec.modules) {
      var stmt := MovedIsSole(spec, src, h, name);
    }
  }

  /** The name is looked up as before although it moves: it goes to a mixin and no class attribute has it, or a class
      attribute that has it stands below the method and was what it was bound to anyway. */
  predicate MovesSafely(spec: Spec, src: Source, name: string) {
    var body := ClassBody(Parse(src.lines), spec.cls);
    if LastAttribute(body, name).Some? then Binding(body, name) == LastAttribute(body, name) else !Homeless(spec, name)
  }

  /** With the guard, which the splitter always writes, lookup is preserved for every name exactly when every moved name
      moves safely. */
  lemma LookupPreserved(spec: Spec, src: Source, h: nat, files: seq<File>)
    requires SpecOk(spec, src, h) && FilesApart(spec) && Arranged(files, SplitFiles(spec, src, h, true))
    ensures (forall name :: Method(name) in Moved(spec.modules) ==> MovesSafely(spec, src, name)) <==>
            forall name :: Lookup(files, spec.cls, name) == Lookup(Original(src), spec.cls, name)
  {
    forall name
      ensures Lookup(files, spec.cls, name) == Lookup(Original(src), spec.cls, name) <==>
              (Method(name) in Moved(spec.modules) ==> MovesSafely(spec, src, name))
    {
      LookupAfterSplit(spec, src, h, true, files, name);
      LookupBefore(spec, src, h, name);
      if Method(name) in Moved(spec.modules) {
        BoundWithoutAttribute(spec, src, h, name);
      }
    }
  }

  /** Without class attributes of moved names that says: every method-bearing module has a mixin. */
  lemma EveryMoveIsSafe(spec: Spec, src: Source)
    requires forall s :: s in ClassBody(Parse(src.lines), spec.cls) && s.place.Attribute? ==>
               Method(s.place.name) !in Moved(spec.modules)
    ensures (forall name :: Method(name) in Moved(spec.modules) ==> MovesSafely(spec, src, name)) <==>
            EveryMethodHasMixin(spec)
  {
    forall name | Method(name) in Moved(spec.modules)
      ensures MovesSafely(spec, src, name) <==> !Homeless(spec, name)
    {
      FilterMembers(ClassBody(Parse(src.lines), spec.cls), Not(At(Method(name))));
    }
    if mod :| mod in spec.modules && mod.methods != [] && mod.mixin == None {
      var name := mod.methods[0];
      ModuleMovesName(spec, mod, name);
      assert Homeless(spec, name);
    }
  }

  /** A class whose every body statement moves is left without a body, which Python does not accept. */
  lemma CoreIsEmptiedExactly(spec: Spec, src: Source, h: nat, files: seq<File>)
    requires SpecOk(spec, src, h) && Arranged(files, SplitFiles(spec, src, h, true))
    ensures BodyOf(files, spec.cls) == [] <==>
            forall s :: s in Parse(src.lines) && InClass(s.place) ==> s.place in Moved(spec.modules)
  {
    var body, moved := ClassBody(Parse(src.lines), spec.cls), Moved(spec.modules);
    HostBody(spec, src, h, true, files);
    FilterMembers(body, Stays(moved));
    forall s
      ensures s in body <==> s in Parse(src.lines) && InClass(s.place)
    {
      BodyHoldsAll(Parse(src.lines), spec.cls, s);
    }
    if BodyOf(files, spec.cls) == [] {
      forall s | s in Parse(src.lines) && InClass(s.place)
        ensures s.place in moved
      {
        assert s in body && s !in Filter(body, Stays(moved));
      }
    } else {
      var s := BodyOf(files, spec.cls)[0];
      assert s in Filter(body, Stays(moved));
    }
  }
}
