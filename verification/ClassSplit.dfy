/** Splitting a class into mixins (`do_split` in scripts/god_class_split.py). */
module ClassSplit {
  import opened Wrappers
  import opened Sequences
  import opened StableSort
  import opened PythonText
  import opened Banners
  import opened Spans
  import opened CoreRewrite

  // ---- the specification ----

  datatype Module = Module(
    file: string, doc: string, mixin: Option<string>, methods: seq<string>, members: seq<string>)

  datatype Spec = Spec(cls: string, coreFile: string, modules: seq<Module>)

  datatype File = File(name: string, lines: seq<Line>)

  /** What the splitter reads besides the specification. The names that each method reaches through `self`, and the
      import prologue with the logger line, are taken as given. */
  datatype Source = Source(lines: seq<Line>, uses: map<string, seq<string>>, prologue: seq<Line>)

  function MethodPlaces(names: seq<string>): (places: seq<Place>)
    ensures |places| == |names| && forall i :: 0 <= i < |names| ==> places[i] == Method(names[i])
  {
    if names == [] then [] else MethodPlaces(names[..|names| - 1]) + [Method(names[|names| - 1])]
  }

  function MemberPlaces(names: seq<string>): (places: seq<Place>)
    ensures |places| == |names| && forall i :: 0 <= i < |names| ==> places[i] == Member(names[i])
  {
    if names == [] then [] else MemberPlaces(names[..|names| - 1]) + [Member(names[|names| - 1])]
  }

  function PlacesOf(mod: Module): seq<Place> {
    MethodPlaces(mod.methods) + MemberPlaces(mod.members)
  }

  lemma PlacesFacts(mod: Module)
    ensures forall n :: Method(n) in PlacesOf(mod) <==> n in mod.methods
    ensures forall n :: Member(n) in PlacesOf(mod) <==> n in mod.members
    ensures forall p :: p in PlacesOf(mod) ==> p.Method? || p.Member?
  {
    assert forall i :: 0 <= i < |mod.methods| ==> PlacesOf(mod)[i] == Method(mod.methods[i]);
    assert forall i :: 0 <= i < |mod.members| ==> PlacesOf(mod)[|mod.methods| + i] == Member(mod.members[i]);
  }

  function Moved(modules: seq<Module>): seq<Place> {
    if modules == [] then [] else Moved(modules[..|modules| - 1]) + PlacesOf(modules[|modules| - 1])
  }

  lemma {:induction false} MovedMembers(modules: seq<Module>)
    ensures forall p :: p in Moved(modules) <==> exists mod :: mod in modules && p in PlacesOf(mod)
  {
    if modules != [] {
      var init, last := modules[..|modules| - 1], modules[|modules| - 1];
      MovedMembers(init);
      assert modules == init + [last];
      forall p
        ensures p in Moved(modules) <==> exists mod :: mod in modules && p in PlacesOf(mod)
      {
        assert p in Moved(modules) <==> p in Moved(init) || p in PlacesOf(last);
        assert (exists mod :: mod in modules && p in PlacesOf(mod)) <==>
               (exists mod :: mod in init && p in PlacesOf(mod)) || p in PlacesOf(last);
      }
    }
  }

  function Mixins(modules: seq<Module>): seq<string> {
    if modules == [] then []
    else
      var last := modules[|modules| - 1];
      Mixins(modules[..|modules| - 1]) + if last.mixin.Some? then [last.mixin.value] else []
  }

  lemma {:induction false} MixinMembers(modules: seq<Module>)
    ensures forall m :: m in Mixins(modules) <==> exists mod :: mod in modules && mod.mixin == Some(m)
  {
    if modules != [] {
      var init, last := modules[..|modules| - 1], modules[|modules| - 1];
      MixinMembers(init);
      assert modules == init + [last];
      forall m
        ensures m in Mixins(modules) <==> exists mod :: mod in modules && mod.mixin == Some(m)
      {
        assert m in Mixins(modules) <==> m in Mixins(init) || last.mixin == Some(m);
        assert (exists mod :: mod in modules && mod.mixin == Some(m)) <==>
               (exists mod :: mod in init && mod.mixin == Some(m)) || last.mixin == Some(m);
      }
    }
  }

  // ---- sorting names ----

  predicate Before(a: string, b: string) {
    b != "" && (a == "" || a[0] < b[0] || (a[0] == b[0] && Before(a[1..], b[1..])))
  }

  function ByName(): (string, string) -> bool {
    (a: string, b: string) => Before(a, b)
  }

  function SortedNames(names: seq<string>): seq<string> {
    Sort(names, ByName())
  }

  lemma {:induction false} SortedMembers(names: seq<string>)
    ensures multiset(SortedNames(names)) == multiset(names)
    ensures forall n :: n in SortedNames(names) <==> n in names
  {
    if names != [] {
      SortedMembers(names[1..]);
      InsertMembers(names[0], SortedNames(names[1..]), ByName());
      assert names == [names[0]] + names[1..];
    }
    forall n
      ensures n in SortedNames(names) <==> n in names
    {
      assert n in multiset(SortedNames(names)) <==> n in multiset(names);
    }
  }

  // ---- the collaborator seams ----

  function Used(names: seq<string>, uses: map<string, seq<string>>): seq<string> {
    if names == [] then []
    else
      var last := names[|names| - 1];
      Used(names[..|names| - 1], uses) + if last in uses then uses[last] else []
  }

  function NotOwned(owned: seq<string>): string -> bool {
    (name: string) => name !in owned
  }

  function IsMethodOf(lines: seq<Line>): string -> bool {
    (name: string) => FindLast(lines, Method(name)).Some?
  }

  /** The names that a module's methods use and the module does not provide, in order. */
  function Foreign(mod: Module, uses: map<string, seq<string>>): seq<string> {
    SortedNames(Dedup(Filter(Used(mod.methods, uses), NotOwned(mod.methods))))
  }

  function ForeignMethods(mod: Module, src: Source): seq<string> {
    Filter(Foreign(mod, src.uses), IsMethodOf(src.lines))
  }

  function ForeignAttributes(mod: Module, src: Source): seq<string> {
    Filter(Foreign(mod, src.uses), Not(IsMethodOf(src.lines)))
  }

  lemma ForeignIsNotOwned(mod: Module, src: Source)
    ensures forall n :: n in ForeignMethods(mod, src) ==> n !in mod.methods
  {
    var used := Filter(Used(mod.methods, src.uses), NotOwned(mod.methods));
    FilterMembers(Used(mod.methods, src.uses), NotOwned(mod.methods));
    DedupFacts(used);
    SortedMembers(Dedup(used));
    FilterMembers(Foreign(mod, src.uses), IsMethodOf(src.lines));
  }

  function AttributeLines(names: seq<string>): seq<Line> {
    if names == [] then []
    else AttributeLines(names[..|names| - 1]) + [Code("    " + names[|names| - 1] + ": object", Unbound, true, [])]
  }

  /** The statement that a stub of a method would be, if it ran. */
  function StubText(name: string): string {
    "    def " + name + "(self): ..."
  }

  /** Declarations of methods that another module provides. Under the guard they belong to one `if` statement, which
      binds nothing when it runs; without it each would be a definition of its own. */
  function StubLines(names: seq<string>, guarded: bool): seq<Line> {
    if names == [] then []
    else
      var last := names[|names| - 1];
      StubLines(names[..|names| - 1], guarded) +
      [Blank, if guarded then Code(StubText(last), Unbound, false, []) else Code(StubText(last), Method(last), true, [])]
  }

  function GuardLine(): Line {
    Code("    if TYPE_CHECKING:", Unbound, true, [])
  }

  function DeclarationLines(methods: seq<string>, guarded: bool): seq<Line> {
    if methods == [] then []
    else (if guarded then [Blank, GuardLine()] else [Blank]) + StubLines(methods, guarded)
  }

  function SeamLines(mod: Module, src: Source, guarded: bool): seq<Line> {
    var attributes, methods := ForeignAttributes(mod, src), ForeignMethods(mod, src);
    if attributes == [] && methods == [] then []
    else [Comment("    # Collaborator seams")] + AttributeLines(attributes) + DeclarationLines(methods, guarded) + [Blank]
  }

  // ---- the files ----

  function ChunkAt(lines: seq<Line>, place: Place): seq<Line> {
    var f := FindLast(lines, place);
    if f.Some? then Chunk(lines, f.value) else []
  }

  function Joined(lines: seq<Line>, places: seq<Place>): seq<Line> {
    if places == [] then []
    else
      var init := places[..|places| - 1];
      Joined(lines, init) + (if init == [] then [] else [Blank]) + ChunkAt(lines, places[|places| - 1])
  }

  function FutureLine(): Line {
    Code("from __future__ import annotations", TopLevel, true, [])
  }

  function TopLines(mod: Module, src: Source): seq<Line> {
    [Code(mod.doc, TopLevel, true, []), Blank, FutureLine(), Blank]
      + src.prologue + Joined(src.lines, MemberPlaces(mod.members))
  }

  function MixinHeadLine(mixin: string): Line {
    Code("class " + mixin + ":", Head(mixin, []), true, [])
  }

  function MixinLines(mod: Module, src: Source, guarded: bool): seq<Line>
    requires mod.mixin.Some?
  {
    [Blank, MixinHeadLine(mod.mixin.value), Code(mod.doc, Unbound, true, []), Blank]
      + SeamLines(mod, src, guarded) + Joined(src.lines, MethodPlaces(mod.methods))
  }

  function ModuleLines(mod: Module, src: Source, guarded: bool): seq<Line> {
    TopLines(mod, src) + if mod.mixin.Some? then MixinLines(mod, src, guarded) else []
  }

  function TrimEnd(lines: seq<Line>): seq<Line> {
    if lines != [] && lines[|lines| - 1].Blank? then TrimEnd(lines[..|lines| - 1]) else lines
  }

  function Tidy(lines: seq<Line>): seq<Line> {
    TrimEnd(Drop(lines, false))
  }

  lemma {:induction false} TrimEndKeepsStatements(lines: seq<Line>)
    ensures Parse(TrimEnd(lines)) == Parse(lines)
  {
    if lines != [] && lines[|lines| - 1].Blank? {
      TrimEndKeepsStatements(lines[..|lines| - 1]);
    }
  }

  lemma TidyKeepsStatements(lines: seq<Line>)
    ensures Parse(Tidy(lines)) == Parse(lines)
  {
    DropKeepsStatements(lines);
    TrimEndKeepsStatements(Drop(lines, false));
  }

  function ModuleFile(mod: Module, src: Source, guarded: bool): File {
    File(mod.file, Tidy(ModuleLines(mod, src, guarded)))
  }

  /** The mixins in name order, then the bases that the class had. */
  function NewBases(spec: Spec, bases: seq<string>): seq<string> {
    SortedNames(Mixins(spec.modules)) + bases
  }

  function CoreLines(spec: Spec, lines: seq<Line>, h: nat): seq<Line>
    requires h < |lines| && Opens(lines[h]) && lines[h].place.Head?
  {
    Kept(lines, |lines|, Moved(spec.modules), h, HeaderLines(spec.cls, NewBases(spec, lines[h].place.bases)))
  }

  function ModuleFiles(modules: seq<Module>, src: Source, guarded: bool): seq<File> {
    if modules == [] then []
    else ModuleFiles(modules[..|modules| - 1], src, guarded) + [ModuleFile(modules[|modules| - 1], src, guarded)]
  }

  function SplitFiles(spec: Spec, src: Source, h: nat, guarded: bool): seq<File>
    requires h < |src.lines| && Opens(src.lines[h]) && src.lines[h].place.Head?
  {
    ModuleFiles(spec.modules, src, guarded) + [File(spec.coreFile, Tidy(CoreLines(spec, src.lines, h)))]
  }

  // ---- the splitter ----

  datatype SplitError = ClassNotFound | NotFound(place: Place)

  predicate AllFound(lines: seq<Line>, places: seq<Place>) {
    forall i :: 0 <= i < |places| ==> FindLast(lines, places[i]).Some?
  }

  predicate IsFirstMissing(lines: seq<Line>, places: seq<Place>, error: SplitError) {
    exists i :: 0 <= i < |places| && error == NotFound(places[i]) && FindLast(lines, places[i]).None?
                && AllFound(lines, places[..i])
  }

  function LineRange(start: nat, end: nat): (r: set<nat>)
    ensures forall k :: k in r <==> start <= k < end
  {
    if end <= start then {} else LineRange(start, end - 1) + {end - 1}
  }

  /** Looks up every statement that moves and gathers the lines of their spans. */
  method CollectDrop(lines: seq<Line>, modules: seq<Module>) returns (r: Result<set<nat>, SplitError>)
    ensures r.Ok? <==> AllFound(lines, Moved(modules))
    ensures r.Ok? ==> forall k :: 0 <= k < |lines| ==> (k in r.value <==> InDrop(lines, Moved(modules), k))
    ensures r.Err? ==> IsFirstMissing(lines, Moved(modules), r.error)
  {
    var drop: set<nat> := {};
    var places := Moved(modules);
    for i := 0 to |places|
      invariant AllFound(lines, places[..i])
      invariant forall k :: 0 <= k < |lines| ==> (k in drop <==> InDrop(lines, places[..i], k))
    {
      var f := FindLast(lines, places[i]);
      if f.None? {
        return Err(NotFound(places[i]));
      }
      drop := drop + LineRange(BlockStart(lines, f.value), End(lines, f.value));
      forall k: nat | k < |lines|
        ensures k in drop <==> InDrop(lines, places[..i + 1], k)
      {
        InDropNext(lines, places, i, k);
      }
      TakeNext(places, i);
    }
    TakeAll(places);
    r := Ok(drop);
  }

  lemma InDropNext(lines: seq<Line>, places: seq<Place>, i: nat, k: int)
    requires i < |places|
    ensures InDrop(lines, places[..i + 1], k) <==> InDrop(lines, places[..i], k) || InSpanOf(lines, places[i], k)
  {
    var longer, shorter := places[..i + 1], places[..i];
    assert forall j :: 0 <= j < i ==> longer[j] == shorter[j];
    assert longer[i] == places[i];
    if InDrop(lines, shorter, k) {
      var j :| 0 <= j < |shorter| && InSpanOf(lines, shorter[j], k);
      assert InSpanOf(lines, longer[j], k);
    }
    if InSpanOf(lines, places[i], k) {
      assert InSpanOf(lines, longer[i], k);
    }
    if InDrop(lines, longer, k) {
      var j :| 0 <= j < |longer| && InSpanOf(lines, longer[j], k);
      assert j < i ==> InSpanOf(lines, shorter[j], k);
    }
  }

  lemma MovedNames(modules: seq<Module>)
    ensures forall p :: p in Moved(modules) ==> p.Method? || p.Member?
  {
    MovedMembers(modules);
    forall p | p in Moved(modules)
      ensures p.Method? || p.Member?
    {
      var mod :| mod in modules && p in PlacesOf(mod);
      PlacesFacts(mod);
    }
  }

  method WriteModules(modules: seq<Module>, src: Source) returns (files: seq<File>)
    ensures files == ModuleFiles(modules, src, true)
  {
    files := [];
    for i := 0 to |modules|
      invariant files == ModuleFiles(modules[..i], src, true)
    {
      var left := DropOrphanBanners(ModuleLines(modules[i], src, true));
      assert modules[..i + 1][..i] == modules[..i];
      files := files + [File(modules[i].file, TrimEnd(left))];
    }
    TakeAll(modules);
  }

  /** Writes one file for each module and the core file. */
  method Split(spec: Spec, src: Source) returns (r: Result<seq<File>, SplitError>)
    ensures r.Ok? <==> FindHead(src.lines, spec.cls).Some? && AllFound(src.lines, Moved(spec.modules))
    ensures r.Ok? ==> r.value == SplitFiles(spec, src, FindHead(src.lines, spec.cls).value, true)
    ensures r.Err? ==> if FindHead(src.lines, spec.cls).None? then r.error == ClassNotFound
                       else IsFirstMissing(src.lines, Moved(spec.modules), r.error)
  {
    var h := FindHead(src.lines, spec.cls);
    if h.None? {
      return Err(ClassNotFound);
    }
    var drop := CollectDrop(src.lines, spec.modules);
    if drop.Err? {
      return Err(drop.error);
    }
    var files := WriteModules(spec.modules, src);
    var header := HeaderLines(spec.cls, NewBases(spec, src.lines[h.value].place.bases));
    var kept := KeepLines(src.lines, drop.value, Moved(spec.modules), h.value, header);
    var left := DropOrphanBanners(kept);
    r := Ok(files + [File(spec.coreFile, TrimEnd(left))]);
  }
}
