/** Comparing a class with its split (`do_verify` in scripts/god_class_split.py): every method defined once and
    unchanged, every other top-level member unchanged. */
module SplitVerify {
  import opened Wrappers
  import opened Sequences
  import opened PythonText
  import opened Spans
  import opened CoreRewrite
  import opened ClassSplit
  import opened SplitFilesFacts
  import opened MixinLookup

  // ---- what is compared ----

  const SUFFIX := "Mixin"

  predicate IsScanned(name: string, cls: string) {
    name == cls || (|name| >= |SUFFIX| && name[|name| - |SUFFIX|..] == SUFFIX)
  }

  /** The class itself, and every class whose name ends in the suffix. */
  lemma ScannedExactly(name: string, cls: string)
    ensures IsScanned(name, cls) <==> name == cls || exists stem :: name == stem + "Mixin"
  {
    if IsScanned(name, cls) && name != cls {
      assert name == name[..|name| - |SUFFIX|] + "Mixin";
    }
    if stem :| name == stem + "Mixin" {
      assert name[|name| - 5..] == "Mixin";
    }
  }

  /** The methods of the class and of the mixins beside it. */
  function OwnMethods(stmts: seq<Stmt>, cls: string): seq<Stmt> {
    if stmts == [] then []
    else
      var init, last := stmts[..|stmts| - 1], stmts[|stmts| - 1];
      var current := Current(init);
      OwnMethods(init, cls)
        + if last.place.Method? && current.Some? && IsScanned(current.value, cls) then [last] else []
  }

  function ScannedNested(nested: seq<Nested>, cls: string): seq<Stmt> {
    if nested == [] then []
    else
      var last := nested[|nested| - 1];
      ScannedNested(nested[..|nested| - 1], cls)
        + if last.def.place.Method? && IsScanned(last.cls, cls) then [last.def] else []
  }

  /** The methods of the scanned classes inside statements, at any depth. */
  function NestedMethods(stmts: seq<Stmt>, cls: string): seq<Stmt> {
    if stmts == [] then []
    else NestedMethods(stmts[..|stmts| - 1], cls) + ScannedNested(stmts[|stmts| - 1].nested, cls)
  }

  /** Every method that the walk over the tree collects. The walk visits classes by depth, and the report does not
      depend on the order of definitions of one name. */
  function Scanned(stmts: seq<Stmt>, cls: string): seq<Stmt> {
    OwnMethods(stmts, cls) + NestedMethods(stmts, cls)
  }

  function DefsIn(cls: string, name: string): File -> seq<Stmt> {
    (file: File) => Filter(Scanned(Parse(file.lines), cls), At(Method(name)))
  }

  function DefsOf(files: seq<File>, cls: string, name: string): seq<Stmt> {
    Gather(files, DefsIn(cls, name))
  }

  function BindsTop(name: string): Stmt -> bool {
    (stmt: Stmt) => stmt.place == Member(name) || (stmt.place.Head? && stmt.place.cls == name)
  }

  predicate IsInit(name: string) {
    name == "__init__.py"
  }

  /** Top-level definitions of a name; a package's `__init__.py` does not count. */
  function TopIn(name: string): File -> seq<Stmt> {
    (file: File) => if IsInit(file.name) then [] else Filter(Parse(file.lines), BindsTop(name))
  }

  function TopOf(files: seq<File>, name: string): seq<Stmt> {
    Gather(files, TopIn(name))
  }

  function MethodDefs(stmts: seq<Stmt>, cls: string, name: string): seq<Stmt> {
    Filter(ClassBody(stmts, cls), At(Method(name)))
  }

  /** One method: there both times or neither, defined once, and as it last was. */
  predicate SameMethod(before: seq<Stmt>, after: seq<Stmt>) {
    (before == [] <==> after == []) && |after| <= 1 && (before != [] && after != [] ==> after[0] == before[|before| - 1])
  }

  predicate SameTop(before: seq<Stmt>, after: seq<Stmt>) {
    before != [] ==> after != [] && after[|after| - 1] == before[|before| - 1]
  }

  ghost predicate Verbatim(cls: string, stmts: seq<Stmt>, files: seq<File>) {
    && (forall name: string :: SameMethod(MethodDefs(stmts, cls, name), DefsOf(files, cls, name)))
    && (forall name: string :: name != cls ==> SameTop(Filter(stmts, BindsTop(name)), TopOf(files, name)))
  }

  /** The statement defines the name at the top level. */
  predicate DefinesTop(stmt: Stmt, name: string) {
    match stmt.place
    case Member(n) => n == name
    case Head(c, _) => c == name
    case _ => false
  }

  lemma {:induction false} LastOfTop(stmts: seq<Stmt>, name: string, k: nat)
    requires k < |stmts| && DefinesTop(stmts[k], name)
    requires forall j :: k < j < |stmts| ==> !DefinesTop(stmts[j], name)
    ensures
      var tops := Filter(stmts, BindsTop(name));
      tops != [] && tops[|tops| - 1] == stmts[k]
  {
    var init, last := stmts[..|stmts| - 1], stmts[|stmts| - 1];
    assert stmts == init + [last];
    FilterLast(init, last, BindsTop(name));
    if k < |init| {
      LastOfTop(init, name, k);
    }
  }

  lemma {:induction false} TopIsInFile(files: seq<File>, name: string, stmt: Stmt)
    requires stmt in TopOf(files, name)
    ensures exists file :: file in files && file.name != "__init__.py" && stmt in Parse(file.lines)
  {
    var init, last := files[..|files| - 1], files[|files| - 1];
    if stmt in TopOf(init, name) {
      TopIsInFile(init, name, stmt);
    } else {
      FilterMembers(Parse(last.lines), BindsTop(name));
      assert last in files;
    }
  }

  /** A verbatim split keeps the last top-level definition of every name but the class, in a file that is not the
      package's `__init__.py`. */
  lemma TopsSurvive(cls: string, stmts: seq<Stmt>, files: seq<File>, name: string, k: nat)
    requires Verbatim(cls, stmts, files) && name != cls && k < |stmts| && DefinesTop(stmts[k], name)
    requires forall j :: k < j < |stmts| ==> !DefinesTop(stmts[j], name)
    ensures exists file :: file in files && file.name != "__init__.py" && stmts[k] in Parse(file.lines)
  {
    LastOfTop(stmts, name, k);
    var after := TopOf(files, name);
    assert SameTop(Filter(stmts, BindsTop(name)), after);
    TopIsInFile(files, name, after[|after| - 1]);
  }

  // ---- the scan ----

  /** The definitions so far, by name. */
  ghost predicate Collects(found: map<string, seq<Stmt>>, files: seq<File>, cls: string, rest: seq<Stmt>) {
    forall name: string :: CollectsName(found, name, DefsOf(files, cls, name) + Filter(rest, At(Method(name))))
  }

  predicate CollectsName(found: map<string, seq<Stmt>>, name: string, defs: seq<Stmt>) {
    (name in found <==> defs != []) && (name in found ==> found[name] == defs)
  }

  lemma CollectsNext(found: map<string, seq<Stmt>>, files: seq<File>, cls: string, rest: seq<Stmt>, stmt: Stmt)
    requires Collects(found, files, cls, rest) && stmt.place.Method?
    ensures
      var name := stmt.place.name;
      Collects(found[name := (if name in found then found[name] else []) + [stmt]], files, cls, rest + [stmt])
  {
    var added := stmt.place.name;
    var next := found[added := (if added in found then found[added] else []) + [stmt]];
    forall name: string
      ensures CollectsName(next, name, DefsOf(files, cls, name) + Filter(rest + [stmt], At(Method(name))))
    {
      var before := DefsOf(files, cls, name);
      assert CollectsName(found, name, before + Filter(rest, At(Method(name))));
      FilterLast(rest, stmt, At(Method(name)));
      if name == added {
        AppendAssociative(before, Filter(rest, At(Method(name))), [stmt]);
      }
    }
  }

  lemma CollectsFile(found: map<string, seq<Stmt>>, files: seq<File>, file: File, cls: string)
    requires Collects(found, files, cls, Scanned(Parse(file.lines), cls))
    ensures Collects(found, files + [file], cls, [])
  {
    forall name: string
      ensures CollectsName(found, name, DefsOf(files + [file], cls, name) + Filter([], At(Method(name))))
    {
      assert (files + [file])[..|files|] == files;
      assert CollectsName(found, name, DefsOf(files, cls, name) + DefsIn(cls, name)(file));
      assert DefsOf(files + [file], cls, name) + [] == DefsOf(files + [file], cls, name);
    }
  }

  lemma {:induction false} OwnMethodsAreMethods(stmts: seq<Stmt>, cls: string)
    ensures forall s :: s in OwnMethods(stmts, cls) ==> s.place.Method?
  {
    if stmts != [] {
      OwnMethodsAreMethods(stmts[..|stmts| - 1], cls);
    }
  }

  lemma {:induction false} ScannedNestedAreMethods(nested: seq<Nested>, cls: string)
    ensures forall s :: s in ScannedNested(nested, cls) ==> s.place.Method?
  {
    if nested != [] {
      ScannedNestedAreMethods(nested[..|nested| - 1], cls);
    }
  }

  lemma {:induction false} NestedMethodsAreMethods(stmts: seq<Stmt>, cls: string)
    ensures forall s :: s in NestedMethods(stmts, cls) ==> s.place.Method?
  {
    if stmts != [] {
      NestedMethodsAreMethods(stmts[..|stmts| - 1], cls);
      ScannedNestedAreMethods(stmts[|stmts| - 1].nested, cls);
    }
  }

  lemma ScannedAreMethods(stmts: seq<Stmt>, cls: string)
    ensures forall s :: s in Scanned(stmts, cls) ==> s.place.Method?
  {
    OwnMethodsAreMethods(stmts, cls);
    NestedMethodsAreMethods(stmts, cls);
  }

  method CollectMethods(files: seq<File>, cls: string) returns (found: map<string, seq<Stmt>>)
    ensures forall name: string :: CollectsName(found, name, DefsOf(files, cls, name))
  {
    found := map[];
    for i := 0 to |files|
      invariant Collects(found, files[..i], cls, [])
    {
      var defs := Scanned(Parse(files[i].lines), cls);
      ScannedAreMethods(Parse(files[i].lines), cls);
      for j := 0 to |defs|
        invariant Collects(found, files[..i], cls, defs[..j])
      {
        var name := defs[j].place.name;
        CollectsNext(found, files[..i], cls, defs[..j], defs[j]);
        TakeNext(defs, j);
        found := found[name := (if name in found then found[name] else []) + [defs[j]]];
      }
      TakeAll(defs);
      CollectsFile(found, files[..i], files[i], cls);
      TakeNext(files, i);
    }
    TakeAll(files);
    forall name: string
      ensures CollectsName(found, name, DefsOf(files, cls, name))
    {
      assert CollectsName(found, name, DefsOf(files, cls, name) + Filter([], At(Method(name))));
      assert DefsOf(files, cls, name) + [] == DefsOf(files, cls, name);
    }
  }

  // ---- the comparison ----

  /** The map holds the last of a name's definitions. */
  predicate Latest(m: map<string, Stmt>, name: string, defs: seq<Stmt>) {
    (name in m <==> defs != []) && (name in m && defs != [] ==> m[name] == defs[|defs| - 1])
  }

  lemma LatestAppend(m: map<string, Stmt>, k: map<string, Stmt>, name: string, a: seq<Stmt>, b: seq<Stmt>)
    requires Latest(m, name, a) && Latest(k, name, b)
    ensures Latest(m + k, name, a + b)
  {
  }

  method MethodDumps(body: seq<Stmt>) returns (dumps: map<string, Stmt>)
    ensures forall name: string :: Latest(dumps, name, Filter(body, At(Method(name))))
  {
    dumps := map[];
    for i := 0 to |body|
      invariant forall name: string :: Latest(dumps, name, Filter(body[..i], At(Method(name))))
    {
      TakeNext(body, i);
      forall name: string
        ensures Filter(body[..i + 1], At(Method(name))) ==
                Filter(body[..i], At(Method(name))) + if body[i].place == Method(name) then [body[i]] else []
      {
        FilterLast(body[..i], body[i], At(Method(name)));
      }
      if body[i].place.Method? {
        dumps := dumps[body[i].place.name := body[i]];
      }
    }
    TakeAll(body);
  }

  method TopLevelDumps(stmts: seq<Stmt>) returns (dumps: map<string, Stmt>)
    ensures forall name: string :: Latest(dumps, name, Filter(stmts, BindsTop(name)))
  {
    dumps := map[];
    for i := 0 to |stmts|
      invariant forall name: string :: Latest(dumps, name, Filter(stmts[..i], BindsTop(name)))
    {
      var next := dumps;
      if stmts[i].place.Member? {
        next := dumps[stmts[i].place.name := stmts[i]];
      } else if stmts[i].place.Head? {
        next := dumps[stmts[i].place.cls := stmts[i]];
      }
      TakeNext(stmts, i);
      forall name: string
        ensures Latest(next, name, Filter(stmts[..i + 1], BindsTop(name)))
      {
        FilterLast(stmts[..i], stmts[i], BindsTop(name));
        assert Latest(dumps, name, Filter(stmts[..i], BindsTop(name)));
      }
      dumps := next;
    }
    TakeAll(stmts);
  }

  method TopLevelOfFiles(files: seq<File>) returns (dumps: map<string, Stmt>)
    ensures forall name: string :: Latest(dumps, name, TopOf(files, name))
  {
    dumps := map[];
    for i := 0 to |files|
      invariant forall name: string :: Latest(dumps, name, TopOf(files[..i], name))
    {
      var added: map<string, Stmt> := map[];
      if !IsInit(files[i].name) {
        added := TopLevelDumps(Parse(files[i].lines));
      }
      var next, upTo := dumps + added, files[..i + 1];
      forall name: string
        ensures Latest(next, name, TopOf(upTo, name))
      {
        assert upTo[..i] == files[..i];
        assert Latest(added, name, TopIn(name)(files[i]));
        LatestAppend(dumps, added, name, TopOf(files[..i], name), TopIn(name)(files[i]));
      }
      dumps := next;
    }
    TakeAll(files);
  }

  /** Reports that the split is verbatim exactly when it is. */
  method Verify(cls: string, lines: seq<Line>, files: seq<File>) returns (r: Result<bool, SplitError>)
    ensures r.Err? <==> FindHead(lines, cls).None?
    ensures r.Err? ==> r.error == ClassNotFound
    ensures r.Ok? ==> (r.value <==> Verbatim(cls, Parse(lines), files))
  {
    if FindHead(lines, cls).None? {
      return Err(ClassNotFound);
    }
    var stmts := Parse(lines);
    var before := MethodDumps(ClassBody(stmts, cls));
    var found := CollectMethods(files, cls);
    var beforeTop := TopLevelDumps(stmts);
    var afterTop := TopLevelOfFiles(files);
    var methods := MethodsMatch(cls, stmts, files, before, found);
    var tops := TopsMatch(cls, stmts, files, beforeTop, afterTop);
    r := Ok(methods && tops);
  }

  method MethodsMatch(cls: string, stmts: seq<Stmt>, files: seq<File>, before: map<string, Stmt>,
                      found: map<string, seq<Stmt>>) returns (ok: bool)
    requires forall name: string :: Latest(before, name, MethodDefs(stmts, cls, name))
    requires forall name: string :: CollectsName(found, name, DefsOf(files, cls, name))
    ensures ok <==> forall name: string :: SameMethod(MethodDefs(stmts, cls, name), DefsOf(files, cls, name))
  {
    var missing := set name | name in before && name !in found;
    var extra := set name | name in found && name !in before;
    forall name | name in found
      ensures found[name] != []
    {
      assert CollectsName(found, name, DefsOf(files, cls, name));
    }
    var changed := set name | name in before && name in found && before[name] != found[name][0];
    var duplicate := set name | name in found && |found[name]| > 1;
    ok := missing == {} && extra == {} && changed == {} && duplicate == {};
    forall name: string
      ensures SameMethod(MethodDefs(stmts, cls, name), DefsOf(files, cls, name)) <==>
              name !in missing && name !in extra && name !in changed && name !in duplicate
    {
      assert Latest(before, name, MethodDefs(stmts, cls, name));
      assert CollectsName(found, name, DefsOf(files, cls, name));
    }
    if !ok {
      var name :| name in missing + extra + changed + duplicate;
      assert !SameMethod(MethodDefs(stmts, cls, name), DefsOf(files, cls, name));
    }
  }

  method TopsMatch(cls: string, stmts: seq<Stmt>, files: seq<File>, before: map<string, Stmt>, after: map<string, Stmt>)
    returns (ok: bool)
    requires forall name: string :: Latest(before, name, Filter(stmts, BindsTop(name)))
    requires forall name: string :: Latest(after, name, TopOf(files, name))
    ensures ok <==> forall name: string :: name != cls ==> SameTop(Filter(stmts, BindsTop(name)), TopOf(files, name))
  {
    var missing := set name | name in before && name != cls && name !in after;
    var changed := set name | name in before && name != cls && name in after && before[name] != after[name];
    ok := missing == {} && changed == {};
    forall name: string | name != cls
      ensures SameTop(Filter(stmts, BindsTop(name)), TopOf(files, name)) <==> name !in missing && name !in changed
    {
      assert Latest(before, name, Filter(stmts, BindsTop(name)));
      assert Latest(after, name, TopOf(files, name));
    }
    if !ok {
      var name :| name in missing + changed;
      assert !SameTop(Filter(stmts, BindsTop(name)), TopOf(files, name));
    }
  }

  // ---- what the class and its mixins define after a split ----

  function OwnIn(cls: string, name: string): File -> seq<Stmt> {
    (file: File) => Filter(OwnMethods(Parse(file.lines), cls), At(Method(name)))
  }

  function OwnOf(files: seq<File>, cls: string, name: string): seq<Stmt> {
    Gather(files, OwnIn(cls, name))
  }

  function IsMethod(): Stmt -> bool {
    (stmt: Stmt) => stmt.place.Method?
  }

  predicate OnlyClass(stmts: seq<Stmt>, c: string) {
    forall s :: s in stmts && s.place.Head? ==> s.place.cls == c
  }

  lemma {:induction false} OwnMethodsOfBody(stmts: seq<Stmt>, cls: string, c: string)
    requires OnlyClass(stmts, c)
    ensures OwnMethods(stmts, cls) == if IsScanned(c, cls) then Filter(ClassBody(stmts, c), IsMethod()) else []
    ensures Current(stmts) in {None, Some(c)}
  {
    if stmts != [] {
      var init, last := stmts[..|stmts| - 1], stmts[|stmts| - 1];
      assert stmts == init + [last];
      OwnMethodsOfBody(init, cls, c);
      assert last in stmts;
      FilterLast(ClassBody(init, c), last, IsMethod());
      assert ClassBody(init, c) + [] == ClassBody(init, c);
    }
  }

  /** The definitions of a method in a file with one class. */
  lemma OwnInBody(file: File, cls: string, c: string, name: string)
    requires OnlyClass(Parse(file.lines), c)
    ensures OwnIn(cls, name)(file) ==
            if IsScanned(c, cls) then Filter(ClassBody(Parse(file.lines), c), At(Method(name))) else []
  {
    OwnMethodsOfBody(Parse(file.lines), cls, c);
    FilterNested(ClassBody(Parse(file.lines), c), IsMethod(), At(Method(name)));
  }

  lemma {:induction false} FilterNested<T(!new)>(s: seq<T>, p: T -> bool, q: T -> bool)
    requires forall x :: q(x) ==> p(x)
    ensures Filter(Filter(s, p), q) == Filter(s, q)
  {
    if s != [] {
      FilterNested(s[1..], p, q);
    }
  }

  lemma CoreDefs(spec: Spec, src: Source, h: nat, name: string)
    requires SpecOk(spec, src, h)
    ensures OwnIn(spec.cls, name)(CoreFile(spec, src, h)) ==
            if Method(name) in Moved(spec.modules) then [] else MethodDefs(Parse(src.lines), spec.cls, name)
  {
    var core, moved := CoreFile(spec, src, h), Moved(spec.modules);
    var body := ClassBody(Parse(src.lines), spec.cls);
    assert OnlyClass(Parse(core.lines), spec.cls) by {
      forall s | s in Parse(core.lines) && s.place.Head?
        ensures s.place.cls == spec.cls
      {
        CoreHeads(spec, src, h, s.place.cls);
        FilterMembers(Parse(core.lines), IsHeadOf(s.place.cls));
      }
    }
    OwnInBody(core, spec.cls, spec.cls, name);
    CoreBodies(spec, src, h, spec.cls);
    StayingDefs(body, moved, name);
  }

  lemma {:induction false} StayingDefs(body: seq<Stmt>, moved: seq<Place>, name: string)
    ensures Filter(Filter(body, Stays(moved)), At(Method(name))) ==
            if Method(name) in moved then [] else Filter(body, At(Method(name)))
  {
    if body != [] {
      StayingDefs(body[1..], moved, name);
    }
  }

  lemma ModuleIsOneClass(mod: Module, src: Source, c: string)
    requires Fits(mod, src) && (mod.mixin.Some? ==> mod.mixin.value == c)
    ensures OnlyClass(Parse(ModuleFile(mod, src, true).lines), c)
  {
    var stmts := Parse(ModuleFile(mod, src, true).lines);
    forall s | s in stmts && s.place.Head?
      ensures s.place.cls == c
    {
      ModuleHeads(mod, src, true, s.place.cls);
      FilterMembers(stmts, IsHeadOf(s.place.cls));
    }
  }

  lemma {:induction false} StmtsAtCount(stmts: seq<Stmt>, names: seq<string>, name: string)
    requires name in names ==> |Filter(stmts, At(Method(name)))| == 1
    ensures |Filter(StmtsAt(stmts, MethodPlaces(names)), At(Method(name)))| == multiset(names)[name]
  {
    if names != [] {
      var init, last := names[..|names| - 1], names[|names| - 1];
      assert names == init + [last];
      MultisetLast(init, last, name);
      StmtsAtCount(stmts, init, name);
      StmtsAtNext(stmts, names, name);
    }
  }

  lemma StmtsAtNext(stmts: seq<Stmt>, names: seq<string>, name: string)
    requires names != []
    ensures
      var init, last := names[..|names| - 1], names[|names| - 1];
      |Filter(StmtsAt(stmts, MethodPlaces(names)), At(Method(name)))| ==
      |Filter(StmtsAt(stmts, MethodPlaces(init)), At(Method(name)))|
      + if last == name then |Filter(stmts, At(Method(name)))| else 0
  {
    var places, last := MethodPlaces(names), names[|names| - 1];
    assert places[..|places| - 1] == MethodPlaces(names[..|names| - 1]);
    FilterAppend(StmtsAt(stmts, places[..|places| - 1]), Filter(stmts, At(Method(last))), At(Method(name)));
    FilterOther(stmts, Method(last), Method(name));
  }

  lemma {:induction false} FilterOther(stmts: seq<Stmt>, p: Place, q: Place)
    ensures Filter(Filter(stmts, At(p)), At(q)) == if p == q then Filter(stmts, At(p)) else []
  {
    if stmts != [] {
      FilterOther(stmts[1..], p, q);
    }
  }

  lemma ModuleStatementIsSole(mod: Module, src: Source, name: string)
    requires Fits(mod, src) && name in mod.methods
    ensures |Filter(Parse(src.lines), At(Method(name)))| == 1
  {
    FitsParts(mod, src);
    var i :| 0 <= i < |mod.methods| && mod.methods[i] == name;
    var place := MethodPlaces(mod.methods)[i];
    ChunkIsStatement(src.lines, FindLast(src.lines, place).value);
  }

  /** How often a module's mixin defines a name: once for each time it lists the name. */
  lemma MixinDefs(mod: Module, src: Source, name: string)
    requires Fits(mod, src) && mod.mixin.Some?
    ensures |Filter(MixinBody(mod, src, true), At(Method(name)))| == multiset(mod.methods)[name]
  {
    var seam := Parse(SeamLines(mod, src, true));
    var doc, methods := [Stmt(Unbound, [mod.doc], [])], StmtsAt(Parse(src.lines), MethodPlaces(mod.methods));
    GuardedSeam(mod, src);
    FilterNone(seam, At(Method(name)));
    FilterAppend(doc, seam, At(Method(name)));
    FilterAppend(doc + seam, methods, At(Method(name)));
    if name in mod.methods {
      ModuleStatementIsSole(mod, src, name);
    }
    StmtsAtCount(Parse(src.lines), mod.methods, name);
  }

  lemma ModuleDefs(mod: Module, src: Source, cls: string, name: string)
    requires Fits(mod, src)
    ensures |OwnIn(cls, name)(ModuleFile(mod, src, true))| ==
            if mod.mixin.Some? && IsScanned(mod.mixin.value, cls) then multiset(mod.methods)[name] else 0
    ensures forall s :: s in OwnIn(cls, name)(ModuleFile(mod, src, true)) ==> s in Parse(src.lines) && s.place == Method(name)
  {
    var c := if mod.mixin.Some? then mod.mixin.value else "";
    var file := ModuleFile(mod, src, true);
    ModuleIsOneClass(mod, src, c);
    OwnInBody(file, cls, c, name);
    ModuleBodies(mod, src, true, c);
    if mod.mixin.Some? {
      MixinDefs(mod, src, name);
      MixinBinders(mod, src, true, name);
      FilterMembers(MixinBody(mod, src, true), At(Method(name)));
    }
  }

  lemma {:induction false} MethodDefsAll(stmts: seq<Stmt>, cls: string, name: string)
    requires WellPlaced(stmts, cls)
    ensures MethodDefs(stmts, cls, name) == Filter(stmts, At(Method(name)))
  {
    if stmts != [] {
      var init, last := stmts[..|stmts| - 1], stmts[|stmts| - 1];
      assert stmts == init + [last];
      MethodDefsAll(init, cls, name);
      FilterLast(init, last, At(Method(name)));
      FilterLast(ClassBody(init, cls), last, At(Method(name)));
      assert ClassBody(init, cls) + [] == ClassBody(init, cls);
    }
  }

  lemma NotListedNotDefined(mod: Module, src: Source, cls: string, name: string)
    requires Fits(mod, src) && name !in mod.methods
    ensures OwnIn(cls, name)(ModuleFile(mod, src, true)) == []
  {
    ModuleDefs(mod, src, cls, name);
  }

  /** A name that stays is defined where it was. */
  lemma StayingMethodDefs(spec: Spec, src: Source, h: nat, files: seq<File>, name: string)
    requires SpecOk(spec, src, h) && Arranged(files, SplitFiles(spec, src, h, true))
    requires Method(name) !in Moved(spec.modules)
    ensures OwnOf(files, spec.cls, name) == MethodDefs(Parse(src.lines), spec.cls, name)
  {
    var core := CoreFile(spec, src, h);
    WrittenFiles(spec, src, h, true, files);
    CoreDefs(spec, src, h, name);
    forall f | f in files && f != core
      ensures OwnIn(spec.cls, name)(f) == []
    {
      var mod :| mod in spec.modules && f == ModuleFile(mod, src, true);
      if name in mod.methods {
        ModuleMovesName(spec, mod, name);
      }
      NotListedNotDefined(mod, src, spec.cls, name);
    }
    GatherSole(files, OwnIn(spec.cls, name), core);
  }

  /** A name that moves is defined in its own module's file only. */
  lemma MovedMethodDefs(spec: Spec, src: Source, h: nat, files: seq<File>, mod: Module, name: string)
    requires SpecOk(spec, src, h) && Arranged(files, SplitFiles(spec, src, h, true))
    requires mod in spec.modules && name in mod.methods
    ensures OwnOf(files, spec.cls, name) == OwnIn(spec.cls, name)(ModuleFile(mod, src, true))
  {
    var owner := ModuleFile(mod, src, true);
    WrittenFiles(spec, src, h, true, files);
    ModuleMovesName(spec, mod, name);
    CoreDefs(spec, src, h, name);
    forall f | f in files && f != owner
      ensures OwnIn(spec.cls, name)(f) == []
    {
      if f != CoreFile(spec, src, h) {
        var other :| other in spec.modules && f == ModuleFile(other, src, true);
        PlacesFacts(mod);
        PlacesFacts(other);
        NotListedNotDefined(other, src, spec.cls, name);
      }
    }
    GatherSole(files, OwnIn(spec.cls, name), owner);
  }

  predicate HasScannedMixin(mod: Module, cls: string) {
    mod.mixin.Some? && IsScanned(mod.mixin.value, cls)
  }

  lemma MovedMethodIsSame(spec: Spec, src: Source, h: nat, files: seq<File>, mod: Module, name: string)
    requires SpecOk(spec, src, h) && Arranged(files, SplitFiles(spec, src, h, true))
    requires mod in spec.modules && name in mod.methods
    ensures SameMethod(MethodDefs(Parse(src.lines), spec.cls, name), OwnOf(files, spec.cls, name)) <==>
            HasScannedMixin(mod, spec.cls) && multiset(mod.methods)[name] == 1
    ensures |Filter(Parse(src.lines), At(Method(name)))| == 1
  {
    var stmts := Parse(src.lines);
    MovedMethodDefs(spec, src, h, files, mod, name);
    ModuleDefs(mod, src, spec.cls, name);
    ModuleStatementIsSole(mod, src, name);
    MethodDefsAll(stmts, spec.cls, name);
    FilterMembers(stmts, At(Method(name)));
    SameAsSole(Filter(stmts, At(Method(name))), OwnOf(files, spec.cls, name));
  }

  lemma SameAsSole(before: seq<Stmt>, after: seq<Stmt>)
    requires |before| == 1 && forall s :: s in after ==> s in before
    ensures SameMethod(before, after) <==> |after| == 1
  {
    if after != [] {
      assert after[0] in after;
    }
  }

  lemma MovedOwner(spec: Spec, name: string) returns (mod: Module)
    requires Method(name) in Moved(spec.modules)
    ensures mod in spec.modules && name in mod.methods
  {
    MovedMembers(spec.modules);
    mod :| mod in spec.modules && Method(name) in PlacesOf(mod);
    PlacesFacts(mod);
  }

  predicate DefinedAtMostOnce(stmts: seq<Stmt>, name: string) {
    |Filter(stmts, At(Method(name)))| <= 1
  }

  lemma StayingMethodIsSame(spec: Spec, src: Source, h: nat, files: seq<File>, name: string)
    requires SpecOk(spec, src, h) && Arranged(files, SplitFiles(spec, src, h, true))
    requires Method(name) !in Moved(spec.modules)
    ensures SameMethod(MethodDefs(Parse(src.lines), spec.cls, name), OwnOf(files, spec.cls, name)) <==>
            DefinedAtMostOnce(Parse(src.lines), name)
  {
    StayingMethodDefs(spec, src, h, files, name);
    MethodDefsAll(Parse(src.lines), spec.cls, name);
    SameAsItself(Filter(Parse(src.lines), At(Method(name))));
  }

  lemma SameAsItself(defs: seq<Stmt>)
    ensures SameMethod(defs, defs) <==> |defs| <= 1
  {
  }

  lemma MultisetLast<T>(init: seq<T>, last: T, x: T)
    ensures multiset(init + [last])[x] == multiset(init)[x] + if x == last then 1 else 0
  {
  }

  lemma {:induction false} DistinctOccurOnce<T>(s: seq<T>, x: T)
    requires Distinct(s) && x in s
    ensures multiset(s)[x] == 1
  {
    var init, last := s[..|s| - 1], s[|s| - 1];
    assert s == init + [last];
    MultisetLast(init, last, x);
    if x in init {
      DistinctOccurOnce(init, x);
    }
  }

  lemma {:induction false} OccurOnceDistinct<T>(s: seq<T>)
    requires forall x :: x in s ==> multiset(s)[x] == 1
    ensures Distinct(s)
  {
    if s != [] {
      var init, last := s[..|s| - 1], s[|s| - 1];
      assert s == init + [last];
      forall x | x in init
        ensures multiset(init)[x] == 1 && x != last
      {
        MultisetLast(init, last, x);
        assert multiset(init)[x] >= 1;
      }
      OccurOnceDistinct(init);
      forall i | 0 <= i < |init|
        ensures s[i] != last
      {
        assert init[i] in init;
      }
    }
  }

  // ---- top-level members ----

  /** The other names keep out of each other's way: no mixin is named like a member, no file is the package's
      `__init__.py`, and the members in the prologue are copies. */
  predicate NamesApart(spec: Spec, src: Source) {
    && (forall mod :: mod in spec.modules ==> !IsInit(mod.file)) && !IsInit(spec.coreFile)
    && (forall mod, s :: mod in spec.modules && mod.mixin.Some? && s in Parse(src.lines) ==> s.place != Member(mod.mixin.value))
    && CopiesOnly(src)
  }

  predicate CopiesOnly(src: Source) {
    forall s :: s in Parse(src.prologue) && s.place.Member? ==> IsLastMember(Parse(src.lines), s)
  }

  predicate IsLastMember(stmts: seq<Stmt>, s: Stmt) {
    s.place.Member? &&
    var defs := Filter(stmts, BindsTop(s.place.name));
    defs != [] && defs[|defs| - 1] == s
  }

  lemma {:induction false} GatherEndsIn<T>(files: seq<File>, g: File -> seq<T>, x: T)
    requires forall f :: f in files ==> EndsIn(g(f), x)
    ensures EndsIn(Gather(files, g), x)
    ensures Gather(files, g) == [] <==> forall f :: f in files ==> g(f) == []
  {
    if files != [] {
      var init, last := files[..|files| - 1], files[|files| - 1];
      assert files == init + [last];
      GatherEndsIn(init, g, x);
    }
  }

  lemma GatherEndsWith<T>(files: seq<File>, g: File -> seq<T>, x: T, file: File)
    requires (forall f :: f in files ==> EndsIn(g(f), x)) && file in files && g(file) != []
    ensures Gather(files, g) != [] && Gather(files, g)[|Gather(files, g)| - 1] == x
  {
    GatherEndsIn(files, g, x);
  }

  lemma {:induction false} RewrittenTops(stmts: seq<Stmt>, moved: seq<Place>, head: Stmt, cls: string, name: string)
    requires WellPlaced(stmts, cls) && head.place.Head? && head.place.cls == cls && name != cls
    ensures Filter(Rewritten(stmts, moved, head), BindsTop(name)) ==
            if Member(name) in moved then [] else Filter(stmts, BindsTop(name))
  {
    if stmts != [] {
      var init, last := stmts[..|stmts| - 1], stmts[|stmts| - 1];
      assert stmts == init + [last];
      RewrittenTops(init, moved, head, cls, name);
      FilterLast(init, last, BindsTop(name));
      FilterAppend(Rewritten(init, moved, head), Rewrite(last, moved, head), BindsTop(name));
      RewriteTops(last, moved, head, name);
    }
  }

  lemma RewriteTops(stmt: Stmt, moved: seq<Place>, head: Stmt, name: string)
    requires head.place.Head? && head.place.cls != name && (stmt.place.Head? ==> stmt.place.cls != name)
    ensures Filter(Rewrite(stmt, moved, head), BindsTop(name)) ==
            if stmt.place == Member(name) && Member(name) !in moved then [stmt] else []
  {
  }

  lemma CoreTops(spec: Spec, src: Source, h: nat, name: string)
    requires SpecOk(spec, src, h) && NamesApart(spec, src) && name != spec.cls
    ensures TopIn(name)(CoreFile(spec, src, h)) ==
            if Member(name) in Moved(spec.modules) then [] else Filter(Parse(src.lines), BindsTop(name))
  {
    ModuleMoves(spec, src, h);
    CoreStatements(spec, src.lines, h);
    var head := Parse(HeaderLines(spec.cls, NewBases(spec, src.lines[h].place.bases)))[0];
    RewrittenTops(Parse(src.lines), Moved(spec.modules), head, spec.cls, name);
  }

  /** Apart from the class, only members bind top-level names. */
  lemma TopsAreMembers(src: Source, h: nat, name: string)
    requires Tagged(src.lines) && HeadIsSole(src.lines, h) && name != src.lines[h].place.cls
    ensures Filter(Parse(src.lines), BindsTop(name)) == Filter(Parse(src.lines), At(Member(name)))
  {
    SourceHeads(src.lines, h);
    FilterAgree(Parse(src.lines), BindsTop(name), At(Member(name)));
  }

  lemma InParts<T>(x: T, a: seq<T>, b: seq<T>, c: seq<T>, d: seq<T>)
    requires x in a + b + c + d
    ensures x in a || x in b || x in c || x in d
  {
  }

  lemma MixinBindsOnlyItself(mod: Module, src: Source, name: string)
    requires Fits(mod, src) && mod.mixin.Some? && mod.mixin.value != name
    ensures forall s :: s in [MixinHead(mod.mixin.value)] + MixinBody(mod, src, true) ==> !BindsTop(name)(s)
  {
    MixinLinesStatements(mod, src, true);
    forall s | s in [MixinHead(mod.mixin.value)] + MixinBody(mod, src, true)
      ensures !BindsTop(name)(s)
    {
      assert s == MixinHead(mod.mixin.value) || s in MixinBody(mod, src, true);
    }
  }

  lemma BoundOutsideMixin(mod: Module, src: Source, name: string, s: Stmt)
    requires Fits(mod, src) && mod.mixin != Some(name)
    requires s in Parse(ModuleFile(mod, src, true).lines) && BindsTop(name)(s)
    ensures s in Parse(src.prologue) || s in StmtsAt(Parse(src.lines), MemberPlaces(mod.members))
  {
    var first := [Stmt(TopLevel, [mod.doc], []), Stmt(TopLevel, [FutureLine().text], [])];
    var members := StmtsAt(Parse(src.lines), MemberPlaces(mod.members));
    var mixin := if mod.mixin.Some? then [MixinHead(mod.mixin.value)] + MixinBody(mod, src, true) else [];
    ModuleStatements(mod, src, true);
    if mod.mixin.Some? {
      MixinBindsOnlyItself(mod, src, name);
    }
    InParts(s, first, Parse(src.prologue), members, mixin);
  }

  lemma ModuleTopIs(mod: Module, src: Source, name: string, x: Stmt, s: Stmt)
    requires Fits(mod, src) && CopiesOnly(src) && mod.mixin != Some(name)
    requires x.place == Member(name) && x in Parse(src.lines) && IsLastMember(Parse(src.lines), x)
    requires s in Parse(ModuleFile(mod, src, true).lines) && BindsTop(name)(s)
    ensures s == x
  {
    var stmts, places := Parse(src.lines), MemberPlaces(mod.members);
    BoundOutsideMixin(mod, src, name, s);
    StmtAtMember(stmts, places, s);
    if s in StmtsAt(stmts, places) {
      MemberIsSole(mod, src, s, x);
    } else {
      assert IsTop(s);
    }
  }

  lemma ModuleTopsEndWith(mod: Module, src: Source, name: string, x: Stmt)
    requires Fits(mod, src) && CopiesOnly(src) && mod.mixin != Some(name)
    requires x.place == Member(name) && x in Parse(src.lines) && IsLastMember(Parse(src.lines), x)
    ensures EndsIn(TopIn(name)(ModuleFile(mod, src, true)), x)
  {
    var file := ModuleFile(mod, src, true);
    var tops := TopIn(name)(file);
    if tops != [] {
      FilterMembers(Parse(file.lines), BindsTop(name));
      assert tops[|tops| - 1] in tops;
      ModuleTopIs(mod, src, name, x, tops[|tops| - 1]);
    }
  }

  lemma ModuleTopIsThere(mod: Module, src: Source, name: string, x: Stmt)
    requires Fits(mod, src) && x.place == Member(name) && x in Parse(src.lines) && name in mod.members
    ensures x in Parse(ModuleFile(mod, src, true).lines)
  {
    var i :| 0 <= i < |mod.members| && mod.members[i] == name;
    assert MemberPlaces(mod.members)[i] == x.place;
    StmtAtMember(Parse(src.lines), MemberPlaces(mod.members), x);
    ModuleStatements(mod, src, true);
  }

  lemma MemberIsSole(mod: Module, src: Source, s: Stmt, t: Stmt)
    requires Fits(mod, src) && s in Parse(src.lines) && t in Parse(src.lines) && s.place == t.place
    requires s.place in MemberPlaces(mod.members)
    ensures s == t
  {
    FitsParts(mod, src);
    var places := MemberPlaces(mod.members);
    var i :| 0 <= i < |places| && places[i] == s.place;
    var sole := SoleStatement(src.lines, FindLast(src.lines, places[i]).value);
  }

  lemma FileTopsEndWith(spec: Spec, src: Source, h: nat, f: File, name: string, x: Stmt)
    requires SpecOk(spec, src, h) && NamesApart(spec, src) && name != spec.cls
    requires x.place == Member(name) && x in Parse(src.lines) && IsLastMember(Parse(src.lines), x)
    requires f == CoreFile(spec, src, h) || exists mod :: mod in spec.modules && f == ModuleFile(mod, src, true)
    ensures EndsIn(TopIn(name)(f), x)
  {
    if f == CoreFile(spec, src, h) {
      CoreTops(spec, src, h, name);
    } else {
      var mod :| mod in spec.modules && f == ModuleFile(mod, src, true);
      ModuleTopsEndWith(mod, src, name, x);
    }
  }

  lemma SomeFileHas(spec: Spec, src: Source, h: nat, name: string, x: Stmt) returns (f: File)
    requires SpecOk(spec, src, h) && NamesApart(spec, src) && name != spec.cls
    requires x.place == Member(name) && x in Parse(src.lines)
    ensures f == CoreFile(spec, src, h) || exists mod :: mod in spec.modules && f == ModuleFile(mod, src, true)
    ensures TopIn(name)(f) != []
  {
    if Member(name) in Moved(spec.modules) {
      MovedMembers(spec.modules);
      var mod :| mod in spec.modules && Member(name) in PlacesOf(mod);
      PlacesFacts(mod);
      f := ModuleFile(mod, src, true);
      ModuleTopIsThere(mod, src, name, x);
      FilterMembers(Parse(f.lines), BindsTop(name));
    } else {
      f := CoreFile(spec, src, h);
      CoreTops(spec, src, h, name);
      FilterMembers(Parse(src.lines), BindsTop(name));
    }
  }

  predicate EndsIn<T(==)>(s: seq<T>, x: T) {
    s == [] || s[|s| - 1] == x
  }

  lemma TopsEndWith(spec: Spec, src: Source, h: nat, files: seq<File>, name: string, x: Stmt)
    requires SpecOk(spec, src, h) && Arranged(files, SplitFiles(spec, src, h, true)) && NamesApart(spec, src)
    requires name != spec.cls && x.place == Member(name) && x in Parse(src.lines) && IsLastMember(Parse(src.lines), x)
    ensures SameTop(Filter(Parse(src.lines), BindsTop(name)), TopOf(files, name))
  {
    WrittenFiles(spec, src, h, true, files);
    forall f | f in files
      ensures EndsIn(TopIn(name)(f), x)
    {
      FileTopsEndWith(spec, src, h, f, name, x);
    }
    var f := SomeFileHas(spec, src, h, name, x);
    GatherEndsWith(files, TopIn(name), x, f);
  }

  lemma TopsMatchAlways(spec: Spec, src: Source, h: nat, files: seq<File>, name: string)
    requires SpecOk(spec, src, h) && Arranged(files, SplitFiles(spec, src, h, true)) && NamesApart(spec, src)
    requires name != spec.cls
    ensures SameTop(Filter(Parse(src.lines), BindsTop(name)), TopOf(files, name))
  {
    if Filter(Parse(src.lines), BindsTop(name)) != [] {
      var x := LastMember(src, h, name);
      TopsEndWith(spec, src, h, files, name, x);
    }
  }

  lemma LastMember(src: Source, h: nat, name: string) returns (x: Stmt)
    requires Tagged(src.lines) && HeadIsSole(src.lines, h) && name != src.lines[h].place.cls
    requires Filter(Parse(src.lines), BindsTop(name)) != []
    ensures x.place == Member(name) && x in Parse(src.lines) && IsLastMember(Parse(src.lines), x)
  {
    TopsAreMembers(src, h, name);
    var tops := Filter(Parse(src.lines), At(Member(name)));
    FilterMembers(Parse(src.lines), At(Member(name)));
    x := tops[|tops| - 1];
    assert x in tops;
  }
}
