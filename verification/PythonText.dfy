/** Python source as a sequence of classified lines, and the statements that the lines make up. Tokenising and
    parsing are taken as given: every code line knows the statement it belongs to. */
module PythonText {
  import opened Wrappers
  import opened Sequences

  /** Where a statement stands and what it binds. A top-level class other than the one being split is a `Member`,
      held as one statement that knows the methods of its classes. `Unbound` is class-body text that binds nothing when it runs: a docstring, a bare
      annotation, a block under `if TYPE_CHECKING:`. */
  datatype Place =
    | Head(cls: string, bases: seq<string>)
    | Member(name: string)
    | TopLevel
    | Method(name: string)
    | Attribute(name: string)
    | Unbound

  /** A code line, which opens its statement or continues it, or a line that holds nothing but a comment, or a blank
      one. */
  datatype Line = Comment(text: string) | Blank | Code(text: string, place: Place, opens: bool, nested: seq<Nested>)

  /** A statement; its code lines stand for its syntax tree. It may hold classes of its own at any depth: a class
      statement does, and so may a function or a conditional. */
  datatype Stmt = Stmt(place: Place, texts: seq<string>, nested: seq<Nested>)

  /** A method of a class inside a statement. */
  datatype Nested = Nested(cls: string, def: Stmt)

  predicate InClass(place: Place) {
    place.Method? || place.Attribute? || place.Unbound?
  }

  function IsCode(): Line -> bool {
    (line: Line) => line.Code?
  }

  // ---- statements ----

  function ParseNext(stmts: seq<Stmt>, line: Line): seq<Stmt> {
    if !line.Code? then stmts
    else if line.opens || stmts == [] then stmts + [Stmt(line.place, [line.text], line.nested)]
    else
      var last := stmts[|stmts| - 1];
      stmts[..|stmts| - 1] + [last.(texts := last.texts + [line.text], nested := last.nested + line.nested)]
  }

  function Parse(lines: seq<Line>): seq<Stmt> {
    if lines == [] then [] else ParseNext(Parse(lines[..|lines| - 1]), lines[|lines| - 1])
  }

  lemma ParseLast(lines: seq<Line>, line: Line)
    ensures Parse(lines + [line]) == ParseNext(Parse(lines), line)
  {
    assert (lines + [line])[..|lines|] == lines;
  }

  /** Only code lines matter. */
  lemma {:induction false} ParseIgnoresComments(lines: seq<Line>)
    ensures Parse(Filter(lines, IsCode())) == Parse(lines)
  {
    if lines != [] {
      var init, last := lines[..|lines| - 1], lines[|lines| - 1];
      ParseIgnoresComments(init);
      assert lines == init + [last];
      FilterLast(init, last, IsCode());
      ParseLast(Filter(init, IsCode()), last);
    }
  }

  /** The first code line, if there is one, opens a statement. */
  predicate StartsFresh(lines: seq<Line>) {
    lines == [] || if lines[0].Code? then lines[0].opens else StartsFresh(lines[1..])
  }

  lemma {:induction false} StartsFreshTake(lines: seq<Line>, n: nat)
    requires StartsFresh(lines) && n <= |lines|
    ensures StartsFresh(lines[..n])
  {
    if n > 0 && !lines[0].Code? {
      StartsFreshTake(lines[1..], n - 1);
      assert lines[..n][1..] == lines[1..][..n - 1];
    }
  }

  lemma {:induction false} ParseEmptyOnlyWithoutCode(lines: seq<Line>)
    ensures Parse(lines) == [] <==> forall i :: 0 <= i < |lines| ==> !lines[i].Code?
  {
    if lines != [] {
      ParseEmptyOnlyWithoutCode(lines[..|lines| - 1]);
      if lines[|lines| - 1].Code? {
        assert Parse(lines) != [];
      } else {
        assert forall i :: 0 <= i < |lines| - 1 ==> lines[..|lines| - 1][i] == lines[i];
      }
    }
  }

  lemma {:induction false} FreshAfterNoCode(lines: seq<Line>, i: nat)
    requires StartsFresh(lines) && i < |lines| && lines[i].Code? && forall k :: 0 <= k < i ==> !lines[k].Code?
    ensures lines[i].opens
  {
    if i > 0 {
      FreshAfterNoCode(lines[1..], i - 1);
    }
  }

  lemma {:induction false} ParseAppend(a: seq<Line>, b: seq<Line>)
    requires StartsFresh(b)
    ensures Parse(a + b) == Parse(a) + Parse(b)
  {
    if b == [] {
      assert a + b == a;
    } else {
      var init, last := b[..|b| - 1], b[|b| - 1];
      StartsFreshTake(b, |b| - 1);
      ParseAppend(a, init);
      assert a + b == (a + init) + [last];
      ParseLast(a + init, last);
      if last.Code? && Parse(init) == [] {
        ParseEmptyOnlyWithoutCode(init);
        assert forall k :: 0 <= k < |b| - 1 ==> b[k] == init[k];
        FreshAfterNoCode(b, |b| - 1);
      }
      ParseNextAppend(Parse(a), Parse(init), last);
    }
  }

  lemma ParseNextAppend(a: seq<Stmt>, b: seq<Stmt>, line: Line)
    requires line.Code? && b == [] ==> line.opens
    ensures ParseNext(a + b, line) == a + ParseNext(b, line)
  {
    if line.Code? && !line.opens {
      assert (a + b)[..|a + b| - 1] == a + b[..|b| - 1];
    }
  }

  // ---- classes ----

  /** The class whose body the next indented statement belongs to. */
  function Current(stmts: seq<Stmt>): Option<string> {
    if stmts == [] then None
    else
      var place := stmts[|stmts| - 1].place;
      if place.Head? then Some(place.cls) else if InClass(place) then Current(stmts[..|stmts| - 1]) else None
  }

  function ClassBody(stmts: seq<Stmt>, cls: string): seq<Stmt> {
    if stmts == [] then []
    else
      var init, last := stmts[..|stmts| - 1], stmts[|stmts| - 1];
      ClassBody(init, cls) + if InClass(last.place) && Current(init) == Some(cls) then [last] else []
  }

  lemma ClassBodyLast(stmts: seq<Stmt>, stmt: Stmt, cls: string)
    ensures Current(stmts + [stmt]) ==
            if stmt.place.Head? then Some(stmt.place.cls) else if InClass(stmt.place) then Current(stmts) else None
    ensures ClassBody(stmts + [stmt], cls) ==
            ClassBody(stmts, cls) + if InClass(stmt.place) && Current(stmts) == Some(cls) then [stmt] else []
  {
    assert (stmts + [stmt])[..|stmts|] == stmts;
  }

  predicate Binds(stmt: Stmt, name: string) {
    stmt.place == Method(name) || stmt.place == Attribute(name)
  }

  /** What a class body binds a name to: its last statement for that name. */
  function Binding(body: seq<Stmt>, name: string): (stmt: Option<Stmt>)
    ensures stmt.Some? ==> stmt.value in body && Binds(stmt.value, name)
    ensures stmt.None? ==> forall s :: s in body ==> !Binds(s, name)
  {
    if body == [] then None
    else if Binds(body[|body| - 1], name) then Some(body[|body| - 1])
    else Binding(body[..|body| - 1], name)
  }
}
