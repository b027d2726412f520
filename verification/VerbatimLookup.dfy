/** What the VERBATIM report is worth (`do_verify` in scripts/god_class_split.py): for any files at all, not just those
    that the splitter wrote. */
module VerbatimLookup {
  import opened Wrappers
  import opened Sequences
  import opened PythonText
  import opened Spans
  import opened ClassSplit
  import opened MixinLookup
  import opened SplitVerify
  import opened SplitReport

  lemma {:induction false} GatherMember<T>(files: seq<File>, g: File -> seq<T>, x: T)
    ensures x in Gather(files, g) <==> exists f :: f in files && x in g(f)
  {
    if files != [] {
      var init, last := files[..|files| - 1], files[|files| - 1];
      GatherMember(init, g, x);
      assert files == init + [last];
    }
  }

  lemma {:induction false} BodyIsScanned(stmts: seq<Stmt>, cls: string, c: string, s: Stmt)
    requires s in ClassBody(stmts, c) && s.place.Method? && IsScanned(c, cls)
    ensures s in OwnMethods(stmts, cls)
  {
    var init, last := stmts[..|stmts| - 1], stmts[|stmts| - 1];
    if s in ClassBody(init, c) {
      BodyIsScanned(init, cls, c, s);
    }
  }

  lemma {:induction false} OwnIsInBody(stmts: seq<Stmt>, cls: string, s: Stmt) returns (c: string)
    requires s in OwnMethods(stmts, cls)
    ensures IsScanned(c, cls) && s in ClassBody(stmts, c)
  {
    var init, last := stmts[..|stmts| - 1], stmts[|stmts| - 1];
    if s in OwnMethods(init, cls) {
      c := OwnIsInBody(init, cls, s);
    } else {
      c := Current(init).value;
    }
  }

  lemma BodyIsInDefs(files: seq<File>, cls: string, c: string, name: string, s: Stmt)
    requires s in BodyOf(files, c) && s.place == Method(name) && IsScanned(c, cls)
    ensures s in DefsOf(files, cls, name)
  {
    GatherMember(files, BodyIn(c), s);
    var f :| f in files && s in BodyIn(c)(f);
    BodyIsScanned(Parse(f.lines), cls, c, s);
    FilterMembers(Scanned(Parse(f.lines), cls), At(Method(name)));
    assert s in DefsIn(cls, name)(f);
    GatherMember(files, DefsIn(cls, name), s);
  }

  /** A definition that is not inside a statement is in the body of a scanned class. */
  lemma DefIsInBody(files: seq<File>, cls: string, name: string, s: Stmt) returns (c: string)
    requires s in DefsOf(files, cls, name) && NestedOf(files, cls, name) == []
    ensures IsScanned(c, cls) && s in BodyOf(files, c) && s.place == Method(name)
  {
    DefsSplit(files, cls, name);
    assert s in multiset(DefsOf(files, cls, name)) && s in OwnOf(files, cls, name);
    GatherMember(files, OwnIn(cls, name), s);
    var f :| f in files && s in OwnIn(cls, name)(f);
    FilterMembers(OwnMethods(Parse(f.lines), cls), At(Method(name)));
    c := OwnIsInBody(Parse(f.lines), cls, s);
    assert s in BodyIn(c)(f);
    GatherMember(files, BodyIn(c), s);
  }

  ghost predicate NoAttribute(body: seq<Stmt>, name: string) {
    forall s :: s in body ==> s.place != Attribute(name)
  }

  lemma {:induction false} BindingIsLastMethod(body: seq<Stmt>, name: string)
    requires NoAttribute(body, name)
    ensures
      var defs := Filter(body, At(Method(name)));
      Binding(body, name) == if defs == [] then None else Some(defs[|defs| - 1])
  {
    if body != [] {
      var init, last := body[..|body| - 1], body[|body| - 1];
      assert body == init + [last];
      BindingIsLastMethod(init, name);
      FilterLast(init, last, At(Method(name)));
    }
  }

  // ---- reaching every definition ----

  /** The mixins come first among the bases, every one of them is scanned, and every scanned class that has a body is
      the class itself or one of them. */
  ghost predicate Reaches(files: seq<File>, cls: string, mixins: seq<string>, rest: seq<string>) {
    && BasesOf(files, cls) == mixins + rest && (rest != [] ==> !Defined(files, rest[0]))
    && (forall m :: m in mixins ==> Defined(files, m) && IsScanned(m, cls))
    && (forall c :: IsScanned(c, cls) && BodyOf(files, c) != [] ==> c == cls || c in mixins)
  }

  /** No class attribute gets in the way of the name. */
  ghost predicate Unhidden(files: seq<File>, cls: string, mixins: seq<string>, name: string) {
    && NoAttribute(BodyOf(files, cls), name)
    && (forall m :: m in mixins ==> NoAttribute(BodyOf(files, m), name))
  }

  /** A scanned class binds the name to its one definition or not at all. */
  lemma ScannedBinding(files: seq<File>, cls: string, c: string, name: string)
    requires IsScanned(c, cls) && NoAttribute(BodyOf(files, c), name) && |DefsOf(files, cls, name)| <= 1
    ensures
      var bound := Binding(BodyOf(files, c), name);
      && (bound.Some? ==> DefsOf(files, cls, name) == [bound.value])
      && (forall s :: s in DefsOf(files, cls, name) && s in BodyOf(files, c) && s.place == Method(name) ==> bound == Some(s))
  {
    var bound, defs := Binding(BodyOf(files, c), name), DefsOf(files, cls, name);
    if bound.Some? {
      BodyIsInDefs(files, cls, c, name, bound.value);
      assert defs == [defs[0]];
    }
    forall s | s in defs && s in BodyOf(files, c) && s.place == Method(name)
      ensures bound == Some(s)
    {
      assert Binds(s, name);
    }
  }

  lemma {:induction false} FirstBoundIs(files: seq<File>, classes: seq<string>, name: string, x: Option<Stmt>)
    requires forall m :: m in classes ==> Binding(BodyOf(files, m), name) in {None, x}
    ensures FirstBound(files, classes, name) in {None, x}
    ensures (exists m :: m in classes && Binding(BodyOf(files, m), name) == x) ==> FirstBound(files, classes, name) == x
  {
    if classes != [] {
      FirstBoundIs(files, classes[1..], name, x);
    }
  }

  /** VERBATIM means that each method is defined once, in a scanned class, as it was. So if the class reaches every
      scanned class, none of them hidden inside a statement with a method of that name, and no attribute hides the
      name, looking it up gives what it gave before, or the same fall-through to the bases outside. */
  lemma VerbatimPreservesLookup(
    cls: string, stmts: seq<Stmt>, files: seq<File>, mixins: seq<string>, rest: seq<string>, name: string)
    requires Verbatim(cls, stmts, files) && Reaches(files, cls, mixins, rest) && NestedOf(files, cls, name) == []
    requires NoAttribute(ClassBody(stmts, cls), name) && Unhidden(files, cls, mixins, name)
    ensures
      var bound := Binding(ClassBody(stmts, cls), name);
      Lookup(files, cls, name) == if bound.Some? then Here(bound.value) else InBases(rest)
  {
    var defs := DefsOf(files, cls, name);
    var x := if defs == [] then None else Some(defs[0]);
    assert SameMethod(MethodDefs(stmts, cls, name), defs);
    BindingIsLastMethod(ClassBody(stmts, cls), name);
    assert Binding(ClassBody(stmts, cls), name) == x;
    ScannedBinding(files, cls, cls, name);
    forall m | m in mixins
      ensures Binding(BodyOf(files, m), name) in {None, x}
    {
      ScannedBinding(files, cls, m, name);
    }
    FirstBoundIs(files, mixins, name, x);
    SearchMixins(files, mixins, rest, name);
    if defs != [] {
      assert defs[0] in defs;
      var c := DefIsInBody(files, cls, name, defs[0]);
      ScannedBinding(files, cls, c, name);
    }
  }

  // ---- what it does not cover ----

  /** Anything but a class attribute that holds no class itself. */
  function NotAttribute(): Stmt -> bool {
    (stmt: Stmt) => !stmt.place.Attribute? || stmt.nested != []
  }

  lemma OwnMethodsLast(stmts: seq<Stmt>, stmt: Stmt, cls: string)
    ensures OwnMethods(stmts + [stmt], cls) ==
            OwnMethods(stmts, cls) +
            if stmt.place.Method? && Current(stmts).Some? && IsScanned(Current(stmts).value, cls) then [stmt] else []
  {
    assert (stmts + [stmt])[..|stmts|] == stmts;
  }

  lemma {:induction false} AttributesDoNotEndClasses(stmts: seq<Stmt>)
    ensures Current(Filter(stmts, NotAttribute())) == Current(stmts)
  {
    if stmts != [] {
      var init, last := stmts[..|stmts| - 1], stmts[|stmts| - 1];
      AttributesDoNotEndClasses(init);
      assert stmts == init + [last];
      FilterLast(init, last, NotAttribute());
      ClassBodyLast(Filter(init, NotAttribute()), last, "");
    }
  }

  lemma {:induction false} AttributesAreNotScanned(stmts: seq<Stmt>, cls: string)
    ensures OwnMethods(Filter(stmts, NotAttribute()), cls) == OwnMethods(stmts, cls)
  {
    if stmts != [] {
      var init, last := stmts[..|stmts| - 1], stmts[|stmts| - 1];
      AttributesAreNotScanned(init, cls);
      AttributesDoNotEndClasses(init);
      assert stmts == init + [last];
      FilterLast(init, last, NotAttribute());
      OwnMethodsLast(Filter(init, NotAttribute()), last, cls);
    }
  }

  lemma {:induction false} AttributesHoldNoClass(stmts: seq<Stmt>, cls: string)
    ensures NestedMethods(Filter(stmts, NotAttribute()), cls) == NestedMethods(stmts, cls)
  {
    if stmts != [] {
      var init, last := stmts[..|stmts| - 1], stmts[|stmts| - 1];
      AttributesHoldNoClass(init, cls);
      assert stmts == init + [last];
      FilterLast(init, last, NotAttribute());
      NestedAppend(Filter(init, NotAttribute()), [last], cls);
      NestedAppend(init, [last], cls);
      if !NotAttribute()(last) {
        NoneNested([last], cls);
      }
    }
  }

  lemma {:induction false} AttributesAreNotTop(stmts: seq<Stmt>, name: string)
    ensures Filter(Filter(stmts, NotAttribute()), BindsTop(name)) == Filter(stmts, BindsTop(name))
  {
    if stmts != [] {
      AttributesAreNotTop(stmts[1..], name);
    }
  }

  /** The same files but for class attributes. */
  predicate SameButAttributes(a: seq<File>, b: seq<File>) {
    |a| == |b| && forall i :: 0 <= i < |a| ==>
      && a[i].name == b[i].name
      && Filter(Parse(a[i].lines), NotAttribute()) == Filter(Parse(b[i].lines), NotAttribute())
  }

  lemma {:induction false} GatherAgree<T>(a: seq<File>, b: seq<File>, g: File -> seq<T>)
    requires |a| == |b| && forall i :: 0 <= i < |a| ==> g(a[i]) == g(b[i])
    ensures Gather(a, g) == Gather(b, g)
  {
    if a != [] {
      GatherAgree(a[..|a| - 1], b[..|b| - 1], g);
    }
  }

  /** Class attributes, other than classes inside the class, are not compared: adding, changing or losing any of them leaves the report as it is. */
  lemma AttributesAreNotCompared(cls: string, stmts: seq<Stmt>, a: seq<File>, b: seq<File>)
    requires SameButAttributes(a, b)
    ensures Verbatim(cls, stmts, a) <==> Verbatim(cls, stmts, b)
  {
    forall name: string
      ensures DefsOf(a, cls, name) == DefsOf(b, cls, name) && TopOf(a, name) == TopOf(b, name)
    {
      forall i | 0 <= i < |a|
        ensures DefsIn(cls, name)(a[i]) == DefsIn(cls, name)(b[i]) && TopIn(name)(a[i]) == TopIn(name)(b[i])
      {
        AttributesAreNotScanned(Parse(a[i].lines), cls);
        AttributesAreNotScanned(Parse(b[i].lines), cls);
        AttributesHoldNoClass(Parse(a[i].lines), cls);
        AttributesHoldNoClass(Parse(b[i].lines), cls);
        AttributesAreNotTop(Parse(a[i].lines), name);
        AttributesAreNotTop(Parse(b[i].lines), name);
      }
      GatherAgree(a, b, DefsIn(cls, name));
      GatherAgree(a, b, TopIn(name));
    }
  }
}
