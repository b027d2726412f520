/** What a module declares of its collaborators (`_seam_block` in scripts/god_class_split.py): every name that its methods
    use and that it does not provide, once, in name order, under the heading it belongs to; and the order of the class's
    new bases. */
module Seams {
  import opened Wrappers
  import opened Sequences
  import opened StableSort
  import opened PythonText
  import opened Banners
  import opened Spans
  import opened ClassSplit

  // ---- name order ----

  /** The names agree up to n, and there `a` ends or has the smaller character. */
  predicate ComesFirstAt(a: string, b: string, n: int) {
    0 <= n <= |a| && n < |b| && a[..n] == b[..n] && (n == |a| || a[n] < b[n])
  }

  lemma FirstAgrees(a: string, b: string, n: nat)
    requires ComesFirstAt(a, b, n)
    ensures n > 0 ==> a != "" && a[0] == b[0]
  {
    assert n > 0 ==> a[..n][0] == b[..n][0];
  }

  lemma {:induction false} BeforeExactly(a: string, b: string)
    ensures Before(a, b) <==> exists n :: ComesFirstAt(a, b, n)
  {
    if a == "" || b == "" || a[0] != b[0] {
      if Before(a, b) {
        assert ComesFirstAt(a, b, 0);
      }
      if n :| ComesFirstAt(a, b, n) {
        FirstAgrees(a, b, n);
      }
    } else {
      BeforeExactly(a[1..], b[1..]);
      if n :| ComesFirstAt(a[1..], b[1..], n) {
        assert a[..n + 1] == [a[0]] + a[1..][..n] && b[..n + 1] == [b[0]] + b[1..][..n];
        assert ComesFirstAt(a, b, n + 1);
      }
      if n :| ComesFirstAt(a, b, n) {
        assert a[1..][..n - 1] == a[..n][1..] && b[1..][..n - 1] == b[..n][1..];
        assert ComesFirstAt(a[1..], b[1..], n - 1);
      }
    }
  }

  lemma {:induction false} BeforeOneWay(a: string, b: string)
    ensures !(Before(a, b) && Before(b, a))
    ensures a != b ==> Before(a, b) || Before(b, a)
  {
    if a != "" && b != "" && a[0] == b[0] {
      BeforeOneWay(a[1..], b[1..]);
      assert a[1..] == b[1..] ==> a == [a[0]] + a[1..] && b == [b[0]] + b[1..];
    }
  }

  lemma {:induction false} BeforeTransitive(a: string, b: string, c: string)
    requires Before(a, b) && Before(b, c)
    ensures Before(a, c)
  {
    if a != "" && a[0] == b[0] && b[0] == c[0] {
      BeforeTransitive(a[1..], b[1..], c[1..]);
    }
  }

  lemma NamesAreOrdered()
    ensures StrictWeakOrder(ByName())
  {
    forall x, y
      ensures !(Before(x, y) && Before(y, x))
      ensures x != y ==> Before(x, y) || Before(y, x)
    {
      BeforeOneWay(x, y);
    }
    forall x, y, z | !Before(y, x) && !Before(z, y)
      ensures !Before(z, x)
    {
      if x != y && y != z {
        BeforeTransitive(x, y, z);
      }
    }
  }

  ghost predicate Increases(names: seq<string>) {
    forall i, j :: 0 <= i < j < |names| ==> Before(names[i], names[j])
  }

  /** Sorting distinct names puts each strictly before the next. */
  lemma SortedIncreases(names: seq<string>)
    requires Distinct(names)
    ensures Increases(SortedNames(names))
  {
    NamesAreOrdered();
    SortSorted(names, ByName());
    var sorted := SortedNames(names);
    DistinctPermutation(names, sorted);
    forall i, j | 0 <= i < j < |sorted|
      ensures Before(sorted[i], sorted[j])
    {
      BeforeOneWay(sorted[i], sorted[j]);
    }
  }

  /** The new bases are the mixins in name order and then the bases that the class had. */
  lemma NewBasesInOrder(spec: Spec, bases: seq<string>)
    ensures
      var all, n := NewBases(spec, bases), |Mixins(spec.modules)|;
      && |all| == n + |bases| && all[n..] == bases && multiset(all[..n]) == multiset(Mixins(spec.modules))
      && forall i, j :: 0 <= i < j < n ==> all[i] == all[j] || Before(all[i], all[j])
  {
    var mixins, sorted := Mixins(spec.modules), SortedNames(Mixins(spec.modules));
    NamesAreOrdered();
    SortSorted(mixins, ByName());
    assert |multiset(sorted)| == |multiset(mixins)|;
    assert NewBases(spec, bases)[..|sorted|] == sorted;
    forall i, j | 0 <= i < j < |sorted|
      ensures sorted[i] == sorted[j] || Before(sorted[i], sorted[j])
    {
      BeforeOneWay(sorted[i], sorted[j]);
    }
  }

  lemma DistinctPermutation(a: seq<string>, b: seq<string>)
    requires Distinct(a) && multiset(a) == multiset(b)
    ensures Distinct(b)
  {
    DistinctCardinality(a);
    var members := set x | x in a;
    assert |a| == |multiset(a)| == |multiset(b)| == |b|;
    forall x
      ensures x in a <==> x in b
    {
      assert x in multiset(a) <==> x in multiset(b);
    }
    assert members == set x | x in b;
    CardinalityDistinct(b);
  }

  lemma {:induction false} CardinalityDistinct(s: seq<string>)
    ensures |set x | x in s| <= |s|
    ensures |set x | x in s| == |s| ==> Distinct(s)
  {
    if s != [] {
      var init, last := s[..|s| - 1], s[|s| - 1];
      CardinalityDistinct(init);
      assert s == init + [last];
      assert (set x | x in s) == (set x | x in init) + {last};
      if last in init {
        assert (set x | x in s) == (set x | x in init);
      }
    }
  }

  // ---- which names are declared ----

  /** One of the module's methods uses the name, and the module does not provide it. */
  ghost predicate IsForeign(mod: Module, uses: map<string, seq<string>>, name: string) {
    name !in mod.methods && exists m :: m in mod.methods && m in uses && name in uses[m]
  }

  ghost predicate IsMethodName(lines: seq<Line>, name: string) {
    exists k :: 0 <= k < |lines| && Opens(lines[k]) && lines[k].place == Method(name)
  }

  lemma {:induction false} UsedMembers(names: seq<string>, uses: map<string, seq<string>>, name: string)
    ensures name in Used(names, uses) <==> exists m :: m in names && m in uses && name in uses[m]
  {
    if names != [] {
      UsedMembers(names[..|names| - 1], uses, name);
      assert names == names[..|names| - 1] + [names[|names| - 1]];
    }
  }

  lemma ForeignMembers(mod: Module, uses: map<string, seq<string>>, name: string)
    ensures name in Foreign(mod, uses) <==> IsForeign(mod, uses, name)
    ensures Increases(Foreign(mod, uses))
  {
    var used := Used(mod.methods, uses);
    var foreign := Filter(used, NotOwned(mod.methods));
    UsedMembers(mod.methods, uses, name);
    FilterMembers(used, NotOwned(mod.methods));
    DedupFacts(foreign);
    SortedMembers(Dedup(foreign));
    SortedIncreases(Dedup(foreign));
  }

  lemma {:induction false} FilterIncreases(names: seq<string>, p: string -> bool)
    requires Increases(names)
    ensures Increases(Filter(names, p))
  {
    if names != [] {
      FilterIncreases(names[1..], p);
      FilterMembers(names[1..], p);
      var rest := Filter(names[1..], p);
      forall j | 0 <= j < |rest|
        ensures Before(names[0], rest[j])
      {
        assert rest[j] in names[1..];
      }
      assert Filter(names, p) == (if p(names[0]) then [names[0]] else []) + rest;
    }
  }

  /** A foreign name is declared as a method exactly when the class defines a method of that name, and as an attribute
      otherwise; each list is in name order without repetition. */
  lemma SeamsExactly(mod: Module, src: Source, name: string)
    ensures name in ForeignMethods(mod, src) <==> IsForeign(mod, src.uses, name) && IsMethodName(src.lines, name)
    ensures name in ForeignAttributes(mod, src) <==> IsForeign(mod, src.uses, name) && !IsMethodName(src.lines, name)
    ensures Increases(ForeignMethods(mod, src)) && Increases(ForeignAttributes(mod, src))
  {
    var foreign := Foreign(mod, src.uses);
    ForeignMembers(mod, src.uses, name);
    FilterMembers(foreign, IsMethodOf(src.lines));
    FilterMembers(foreign, Not(IsMethodOf(src.lines)));
    FilterIncreases(foreign, IsMethodOf(src.lines));
    FilterIncreases(foreign, Not(IsMethodOf(src.lines)));
    assert IsMethodOf(src.lines)(name) <==> IsMethodName(src.lines, name);
  }

  // ---- where the declarations stand ----

  lemma {:induction false} AttributeDeclared(names: seq<string>, name: string)
    requires name in names
    ensures Code("    " + name + ": object", Unbound, true, []) in AttributeLines(names)
  {
    if name != names[|names| - 1] {
      AttributeDeclared(names[..|names| - 1], name);
    }
  }

  lemma {:induction false} StubDeclared(names: seq<string>, name: string)
    requires name in names
    ensures Code(StubText(name), Unbound, false, []) in StubLines(names, true)
  {
    if name != names[|names| - 1] {
      StubDeclared(names[..|names| - 1], name);
    }
  }

  lemma CodeLineIsKept(lines: seq<Line>, line: Line)
    requires line in lines && line.Code?
    ensures line in Tidy(lines)
  {
    FilterMembers(lines, IsCode());
    CodeLinesKept(lines, false);
    FilterMembers(Drop(lines, false), IsCode());
    TrimKeepsCode(Drop(lines, false), line);
  }

  lemma {:induction false} TrimKeepsCode(lines: seq<Line>, line: Line)
    requires line in lines && line.Code?
    ensures line in TrimEnd(lines)
  {
    if lines[|lines| - 1].Blank? {
      TrimKeepsCode(lines[..|lines| - 1], line);
    }
  }

  lemma SeamIsInModule(mod: Module, src: Source, line: Line)
    requires mod.mixin.Some? && line in SeamLines(mod, src, true) && line.Code?
    ensures line in ModuleFile(mod, src, true).lines
  {
    assert line in MixinLines(mod, src, true);
    CodeLineIsKept(ModuleLines(mod, src, true), line);
  }

  /** So the file of a module with a mixin declares every foreign name of its methods, methods under the type-checking
      guard. */
  lemma ForeignIsDeclared(mod: Module, src: Source, name: string)
    requires mod.mixin.Some? && IsForeign(mod, src.uses, name)
    ensures
      var file := ModuleFile(mod, src, true).lines;
      if IsMethodName(src.lines, name)
      then && Code("    def " + name + "(self): ...", Unbound, false, []) in file
           && Code("    if TYPE_CHECKING:", Unbound, true, []) in file
      else Code("    " + name + ": object", Unbound, true, []) in file
  {
    SeamsExactly(mod, src, name);
    if IsMethodName(src.lines, name) {
      StubDeclared(ForeignMethods(mod, src), name);
      SeamIsInModule(mod, src, Code(StubText(name), Unbound, false, []));
      SeamIsInModule(mod, src, GuardLine());
    } else {
      AttributeDeclared(ForeignAttributes(mod, src), name);
      SeamIsInModule(mod, src, Code("    " + name + ": object", Unbound, true, []));
    }
  }
}
