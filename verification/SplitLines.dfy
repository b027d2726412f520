/** Where the lines of a split class go (scripts/god_class_split.py): comments included, each moved statement takes its
    block along, and the core keeps the rest. */
module SplitLines {
  import opened Wrappers
  import opened Sequences
  import opened PythonText
  import opened Banners
  import opened Spans
  import opened CoreRewrite
  import opened ClassSplit
  import opened SplitFilesFacts
  import opened MixinLookup

  // ---- what the banner pass does to a part of a file ----

  /** The lines occur in a row. */
  ghost predicate Occurs(part: seq<Line>, file: seq<Line>) {
    exists p :: IsAt(part, file, p)
  }

  predicate IsAt(part: seq<Line>, file: seq<Line>, p: int) {
    0 <= p && p + |part| <= |file| && file[p..p + |part|] == part
  }

  lemma OccursBetween(pre: seq<Line>, part: seq<Line>, post: seq<Line>)
    ensures Occurs(part, pre + part + post)
  {
    assert IsAt(part, pre + part + post, |pre|);
  }

  lemma {:induction false} DropAfter(a: seq<Line>, b: seq<Line>, follows: bool) returns (pre: seq<Line>, flag: bool)
    ensures Drop(a + b, follows) == pre + Drop(b, flag)
  {
    if a == [] {
      assert a + b == b;
      pre, flag := [], follows;
    } else {
      var banner := InBanner(a[0], follows);
      assert (a + b)[0] == a[0] && (a + b)[1..] == a[1..] + b;
      var rest, g := DropAfter(a[1..], b, banner);
      var first := if banner && OrphanAhead(a + b) then [] else [a[0]];
      pre, flag := first + rest, g;
      AppendAssociative(first, rest, Drop(b, g));
    }
  }

  /** Whether a run ends in code shows before the code line is passed. */
  lemma {:induction false} AheadIsLocal(x: seq<Line>, q: seq<Line>)
    requires x != [] && x[|x| - 1].Code?
    ensures StopAhead(x + q) == StopAhead(x) && OrphanAhead(x + q) == OrphanAhead(x)
  {
    assert (x + q)[0] == x[0] && (x + q)[1..] == x[1..] + q;
    if |x| > 1 {
      AheadIsLocal(x[1..], q);
    }
  }

  lemma {:induction false} DropIsLocal(x: seq<Line>, q: seq<Line>, follows: bool)
    requires x != [] && x[|x| - 1].Code?
    ensures Drop(x + q, follows) == Drop(x, follows) + Drop(q, false)
  {
    var banner := InBanner(x[0], follows);
    AheadIsLocal(x, q);
    assert (x + q)[0] == x[0] && (x + q)[1..] == x[1..] + q;
    var first := if banner && OrphanAhead(x) then [] else [x[0]];
    if |x| == 1 {
      assert x[1..] == [] && x[1..] + q == q;
      assert Drop(x, follows) == [x[0]];
    } else {
      DropIsLocal(x[1..], q, banner);
      AppendAssociative(first, Drop(x[1..], banner), Drop(q, false));
    }
  }

  lemma FollowsOnlyBlank(x: seq<Line>, follows: bool)
    requires x != [] && !x[0].Blank?
    ensures Drop(x, follows) == Drop(x, false)
  {
  }

  lemma {:induction false} DropEndsInCode(x: seq<Line>, follows: bool)
    requires x != [] && x[|x| - 1].Code?
    ensures Drop(x, follows) != [] && Drop(x, follows)[|Drop(x, follows)| - 1].Code?
  {
    if |x| > 1 {
      DropEndsInCode(x[1..], InBanner(x[0], follows));
    }
  }

  lemma {:induction false} TrimKeeps(a: seq<Line>, q: seq<Line>) returns (rest: seq<Line>)
    requires a != [] && !a[|a| - 1].Blank?
    ensures TrimEnd(a + q) == a + rest
  {
    if q == [] {
      assert a + q == a;
      rest := [];
    } else if q[|q| - 1].Blank? {
      assert (a + q)[..|a + q| - 1] == a + q[..|q| - 1];
      rest := TrimKeeps(a, q[..|q| - 1]);
    } else {
      rest := q;
    }
  }

  /** A part that starts with a comment or code and ends with code is tidied on its own. */
  lemma PartIsTidied(pre: seq<Line>, x: seq<Line>, post: seq<Line>)
    requires x != [] && !x[0].Blank? && x[|x| - 1].Code?
    ensures Occurs(Drop(x, false), Tidy(pre + x + post))
  {
    AppendAssociative(pre, x, post);
    var before, flag := DropAfter(pre, x + post, false);
    assert (x + post)[0] == x[0];
    FollowsOnlyBlank(x + post, flag);
    DropIsLocal(x, post, false);
    var part, after := Drop(x, false), Drop(post, false);
    DropEndsInCode(x, false);
    AppendAssociative(before, part, after);
    var rest := TrimKeeps(before + part, after);
    OccursBetween(before, part, rest);
  }

  lemma {:induction false} AttachedIsKept(x: seq<Line>, follows: bool)
    requires x != [] && x[|x| - 1].Code? && forall k :: 0 <= k < |x| - 1 ==> x[k].Comment?
    ensures Drop(x, follows) == x && !OrphanAhead(x)
  {
    if |x| == 1 {
      assert x[1..] == [];
    } else {
      AttachedIsKept(x[1..], true);
    }
  }

  // ---- blocks ----

  /** The block of the statement opened at f: the comment lines directly above it, and its own lines to its last code
      line. */
  predicate IsBlockOf(lines: seq<Line>, f: int, s: int, e: int) {
    && 0 <= s <= f < e <= |lines| && Opens(lines[f])
    && (forall k :: s <= k < f ==> lines[k].Comment?) && (s > 0 ==> !lines[s - 1].Comment?)
    && (forall k :: f < k < e ==> !Opens(lines[k])) && lines[e - 1].Code?
    && (forall k :: e <= k < |lines| && lines[k].Code? ==> exists m :: e <= m <= k && Opens(lines[m]))
  }

  lemma BlockIsSpan(lines: seq<Line>, f: nat, s: nat, e: nat)
    requires IsBlockOf(lines, f, s, e)
    ensures s == BlockStart(lines, f) && e == End(lines, f)
  {
    EndFacts(lines, f);
    var start, end := BlockStart(lines, f), End(lines, f);
    assert start > s ==> start - 1 >= s;
    assert Unbroken(lines, f, e - 1) && Unbroken(lines, f, end - 1);
  }

  lemma SpanIsBlock(lines: seq<Line>, f: nat)
    requires f < |lines| && Opens(lines[f])
    ensures IsBlockOf(lines, f, BlockStart(lines, f), End(lines, f))
  {
    EndFacts(lines, f);
    var s, e := BlockStart(lines, f), End(lines, f);
    assert Unbroken(lines, f, e - 1);
    forall k | e <= k < |lines| && lines[k].Code?
      ensures exists m :: e <= m <= k && Opens(lines[m])
    {
      assert !Unbroken(lines, f, k);
      var m :| f < m <= k && Opens(lines[m]);
    }
  }

  /** No line is in two blocks. */
  lemma BlocksAreDisjoint(lines: seq<Line>, f: nat, s: nat, e: nat, g: nat, t: nat, d: nat, k: nat)
    requires IsBlockOf(lines, f, s, e) && IsBlockOf(lines, g, t, d) && s <= k < e && t <= k < d
    ensures f == g
  {
    if f < g {
      BlockEndsBefore(lines, f, s, e, g, t, d);
    } else if g < f {
      BlockEndsBefore(lines, g, t, d, f, s, e);
    }
  }

  lemma BlockEndsBefore(lines: seq<Line>, f: nat, s: nat, e: nat, g: nat, t: nat, d: nat)
    requires IsBlockOf(lines, f, s, e) && IsBlockOf(lines, g, t, d) && f < g
    ensures e <= t
  {
    assert e <= g;
    assert lines[e - 1].Code?;
  }

  // ---- the module files ----

  lemma {:induction false} JoinedHolds(lines: seq<Line>, places: seq<Place>, place: Place)
    returns (pre: seq<Line>, post: seq<Line>)
    requires place in places
    ensures Joined(lines, places) == pre + ChunkAt(lines, place) + post
  {
    var init, last := places[..|places| - 1], places[|places| - 1];
    var gap := if init == [] then [] else [Blank];
    if last == place {
      pre, post := Joined(lines, init) + gap, [];
      assert pre + ChunkAt(lines, place) + [] == pre + ChunkAt(lines, place);
    } else {
      var a, b := JoinedHolds(lines, init, place);
      pre, post := a, (b + gap) + ChunkAt(lines, last);
      WithTail(a, ChunkAt(lines, place), b, gap);
      WithTail(a, ChunkAt(lines, place), b + gap, ChunkAt(lines, last));
    }
  }

  /** The module writes the statement: it is one of its members, or one of its methods and it has a mixin. */
  predicate Writes(mod: Module, place: Place) {
    place in MemberPlaces(mod.members) || (place in MethodPlaces(mod.methods) && mod.mixin.Some?)
  }

  lemma TopHolds(mod: Module, src: Source, place: Place) returns (pre: seq<Line>, post: seq<Line>)
    requires place in MemberPlaces(mod.members)
    ensures TopLines(mod, src) == pre + ChunkAt(src.lines, place) + post
  {
    var first := [Code(mod.doc, TopLevel, true, []), Blank, FutureLine(), Blank] + src.prologue;
    var a, b := JoinedHolds(src.lines, MemberPlaces(mod.members), place);
    pre, post := first + a, b;
    Within(first, a, ChunkAt(src.lines, place), b);
  }

  lemma MixinHolds(mod: Module, src: Source, place: Place) returns (pre: seq<Line>, post: seq<Line>)
    requires mod.mixin.Some? && place in MethodPlaces(mod.methods)
    ensures MixinLines(mod, src, true) == pre + ChunkAt(src.lines, place) + post
  {
    var head := [Blank, MixinHeadLine(mod.mixin.value), Code(mod.doc, Unbound, true, []), Blank] + SeamLines(mod, src, true);
    var a, b := JoinedHolds(src.lines, MethodPlaces(mod.methods), place);
    pre, post := head + a, b;
    Within(head, a, ChunkAt(src.lines, place), b);
  }

  lemma Within(first: seq<Line>, a: seq<Line>, chunk: seq<Line>, b: seq<Line>)
    ensures first + (a + chunk + b) == (first + a) + chunk + b
  {
  }

  lemma WithTail(a: seq<Line>, chunk: seq<Line>, b: seq<Line>, tail: seq<Line>)
    ensures (a + chunk + b) + tail == a + chunk + (b + tail)
  {
  }

  lemma ModuleHolds(mod: Module, src: Source, place: Place) returns (pre: seq<Line>, post: seq<Line>)
    requires Writes(mod, place)
    ensures ModuleLines(mod, src, true) == pre + ChunkAt(src.lines, place) + post
  {
    if place in MemberPlaces(mod.members) {
      var tail := if mod.mixin.Some? then MixinLines(mod, src, true) else [];
      var a, b := TopHolds(mod, src, place);
      pre, post := a, b + tail;
      WithTail(a, ChunkAt(src.lines, place), b, tail);
    } else {
      var a, b := MixinHolds(mod, src, place);
      pre, post := TopLines(mod, src) + a, b;
      Within(TopLines(mod, src), a, ChunkAt(src.lines, place), b);
    }
  }

  lemma OpenerOfPlace(mod: Module, src: Source, place: Place, f: nat)
    requires Fits(mod, src) && place in PlacesOf(mod) && f < |src.lines| && Opens(src.lines[f]) && src.lines[f].place == place
    ensures FindLast(src.lines, place) == Some(f)
  {
    var i :| 0 <= i < |PlacesOf(mod)| && PlacesOf(mod)[i] == place;
    assert IsSoleOpener(src.lines, FindLast(src.lines, PlacesOf(mod)[i]).value);
  }

  lemma WritesIsListed(mod: Module, place: Place)
    requires Writes(mod, place)
    ensures place in PlacesOf(mod)
  {
  }

  /** A moved statement's block stands in its module's file, tidied by the banner pass and by nothing else. */
  lemma MovedBlockIsWritten(mod: Module, src: Source, place: Place, f: nat, s: nat, e: nat)
    requires Fits(mod, src) && Writes(mod, place)
    requires IsBlockOf(src.lines, f, s, e) && src.lines[f].place == place
    ensures Occurs(Drop(src.lines[s..e], false), ModuleFile(mod, src, true).lines)
  {
    var pre, post := ModuleHolds(mod, src, place);
    ChunkIsBlock(mod, src, place, f, s, e);
    BlockTidiedIn(ModuleLines(mod, src, true), pre, src.lines, f, s, e, post);
  }

  lemma BlockTidiedIn(file: seq<Line>, pre: seq<Line>, lines: seq<Line>, f: nat, s: nat, e: nat, post: seq<Line>)
    requires IsBlockOf(lines, f, s, e) && file == pre + lines[s..e] + post
    ensures Occurs(Drop(lines[s..e], false), Tidy(file))
  {
    BlockEnds(lines, f, s, e);
    TidiedIn(file, pre, lines[s..e], post);
  }

  lemma BlockEnds(lines: seq<Line>, f: nat, s: nat, e: nat)
    requires IsBlockOf(lines, f, s, e)
    ensures lines[s..e] != [] && !lines[s..e][0].Blank? && lines[s..e][|lines[s..e]| - 1].Code?
  {
  }

  lemma TidiedIn(lines: seq<Line>, pre: seq<Line>, x: seq<Line>, post: seq<Line>)
    requires lines == pre + x + post && x != [] && !x[0].Blank? && x[|x| - 1].Code?
    ensures Occurs(Drop(x, false), Tidy(lines))
  {
    PartIsTidied(pre, x, post);
  }

  lemma ChunkIsBlock(mod: Module, src: Source, place: Place, f: nat, s: nat, e: nat)
    requires Fits(mod, src) && Writes(mod, place)
    requires IsBlockOf(src.lines, f, s, e) && src.lines[f].place == place
    ensures ChunkAt(src.lines, place) == src.lines[s..e]
  {
    WritesIsListed(mod, place);
    OpenerOfPlace(mod, src, place, f);
    BlockIsSpan(src.lines, f, s, e);
  }

  // ---- verbatim, or tidied ----

  lemma {:induction false} BlanksBehind(y: seq<Line>, n: nat)
    ensures StopAhead(y) ==> StopAhead(y + seq(n, _ => Blank))
    ensures OrphanAhead(y) ==> OrphanAhead(y + seq(n, _ => Blank))
    decreases |y|, n
  {
    var z := y + seq(n, _ => Blank);
    if y == [] {
      if n > 0 {
        BlanksBehind([], n - 1);
        assert z[1..] == [] + seq(n - 1, _ => Blank) && z[0] == Blank;
      }
    } else {
      assert z[0] == y[0] && z[1..] == y[1..] + seq(n, _ => Blank);
      BlanksBehind(y[1..], n);
    }
  }

  lemma {:induction false} TrimIsPrefix(x: seq<Line>) returns (n: nat)
    ensures x == TrimEnd(x) + seq(n, _ => Blank)
  {
    if x != [] && x[|x| - 1].Blank? {
      var m := TrimIsPrefix(x[..|x| - 1]);
      n := m + 1;
      assert seq(n, _ => Blank) == seq(m, _ => Blank) + [Blank];
      assert x == x[..|x| - 1] + [Blank];
    } else {
      n := 0;
    }
  }

  lemma TidyHasNoOrphans(lines: seq<Line>)
    ensures NoOrphans(Tidy(lines))
  {
    var x := Drop(lines, false);
    NoOrphansLeft(lines, false);
    var n := TrimIsPrefix(x);
    var y := TrimEnd(x);
    forall i | 0 <= i < |y| && y[i].Comment?
      ensures !OrphanAhead(y[i..])
    {
      BlanksBehind(y[i..], n);
      assert x[i..] == y[i..] + seq(n, _ => Blank) && x[i] == y[i];
    }
  }

  /** A part that ends with code has no orphaned banner when the file has none. */
  lemma PartHasNoOrphans(part: seq<Line>, file: seq<Line>)
    requires Occurs(part, file) && NoOrphans(file) && part != [] && part[|part| - 1].Code?
    ensures NoOrphans(part)
  {
    var p :| IsAt(part, file, p);
    forall i | 0 <= i < |part| && part[i].Comment?
      ensures !OrphanAhead(part[i..])
    {
      assert file[p + i] == file[p..p + |part|][i];
      assert file[p + i..] == part[i..] + file[p + |part|..];
      AheadIsLocal(part[i..], file[p + |part|..]);
    }
  }

  /** The block is there word for word exactly when it holds no orphaned banner itself: of a comment that is followed,
      past blank lines, by another one, nothing is left, even inside a method. */
  lemma MovedBlockIsVerbatimExactly(mod: Module, src: Source, place: Place, f: nat, s: nat, e: nat)
    requires Fits(mod, src) && Writes(mod, place)
    requires IsBlockOf(src.lines, f, s, e) && src.lines[f].place == place
    ensures Occurs(src.lines[s..e], ModuleFile(mod, src, true).lines) <==> NoOrphans(src.lines[s..e])
  {
    MovedBlockIsWritten(mod, src, place, f, s, e);
    BlockEnds(src.lines, f, s, e);
    VerbatimExactly(src.lines[s..e], ModuleLines(mod, src, true));
  }

  lemma VerbatimExactly(block: seq<Line>, lines: seq<Line>)
    requires block != [] && block[|block| - 1].Code? && Occurs(Drop(block, false), Tidy(lines))
    ensures Occurs(block, Tidy(lines)) <==> NoOrphans(block)
  {
    if NoOrphans(block) {
      DropIdempotent(block);
    }
    if Occurs(block, Tidy(lines)) {
      TidyHasNoOrphans(lines);
      PartHasNoOrphans(block, Tidy(lines));
    }
  }

  // ---- comments go with the code below them ----

  /** A comment run directly above a code line, and that line. */
  predicate IsAttached(lines: seq<Line>, r: int, c: int) {
    0 <= r <= c < |lines| && lines[c].Code? && forall k :: r <= k < c ==> lines[k].Comment?
  }

  lemma AttachedPart(lines: seq<Line>, r: nat, c: nat)
    requires IsAttached(lines, r, c)
    ensures
      var x := lines[r..c + 1];
      x != [] && !x[0].Blank? && x[|x| - 1].Code? && Drop(x, false) == x
  {
    AttachedIsKept(lines[r..c + 1], false);
  }

  /** A run above a line of a block is in the block. */
  lemma AttachedInBlock(lines: seq<Line>, r: nat, c: nat, f: nat, s: nat, e: nat)
    requires IsAttached(lines, r, c) && IsBlockOf(lines, f, s, e) && f <= c < e
    ensures s <= r
  {
  }

  lemma SliceIn(lines: seq<Line>, s: nat, e: nat, r: nat, d: nat, pre: seq<Line>, post: seq<Line>)
    requires s <= r <= d <= e <= |lines|
    ensures pre + lines[s..e] + post == (pre + lines[s..r]) + lines[r..d] + (lines[d..e] + post)
  {
    assert lines[s..e] == lines[s..r] + lines[r..d] + lines[d..e];
  }

  lemma CodeIsInItsBlock(lines: seq<Line>, f: nat, c: nat)
    requires Tagged(lines) && IsSoleOpener(lines, f) && c < |lines| && lines[c].Code? && lines[c].place == lines[f].place
    ensures BlockStart(lines, f) <= f <= c < End(lines, f)
  {
    SpanHoldsStatement(lines, f, c);
    EndFacts(lines, f);
    TaggedAt(lines, c);
    var g := OpenerExists(lines, c);
  }

  /** Comments above a line of a moved statement stand above it in the module's file. */
  lemma CommentsMove(mod: Module, src: Source, r: nat, c: nat)
    requires Fits(mod, src) && IsAttached(src.lines, r, c) && Writes(mod, src.lines[c].place)
    ensures Occurs(src.lines[r..c + 1], ModuleFile(mod, src, true).lines)
  {
    var pre, post := ModuleHolds(mod, src, src.lines[c].place);
    WritesIsListed(mod, src.lines[c].place);
    var a, b := RunInChunk(src.lines, PlacesOf(mod), r, c, pre, post);
    AttachedPart(src.lines, r, c);
    TidiedIn(ModuleLines(mod, src, true), a, src.lines[r..c + 1], b);
  }

  lemma RunInChunk(lines: seq<Line>, moved: seq<Place>, r: nat, c: nat, pre: seq<Line>, post: seq<Line>)
    returns (a: seq<Line>, b: seq<Line>)
    requires Tagged(lines) && MovedOnce(lines, moved) && IsAttached(lines, r, c) && lines[c].place in moved
    ensures pre + ChunkAt(lines, lines[c].place) + post == a + lines[r..c + 1] + b
  {
    var i :| 0 <= i < |moved| && moved[i] == lines[c].place;
    var f := FindLast(lines, moved[i]).value;
    CodeIsInItsBlock(lines, f, c);
    SpanIsBlock(lines, f);
    var s, e := BlockStart(lines, f), End(lines, f);
    AttachedInBlock(lines, r, c, f, s, e);
    SliceIn(lines, s, e, r, c + 1, pre, post);
    a, b := pre + lines[s..r], lines[c + 1..e] + post;
  }

  // ---- the core file ----

  /** The line is in the block of a statement that moves. */
  ghost predicate InMovedBlock(lines: seq<Line>, moved: seq<Place>, k: int) {
    exists f, s, e :: IsBlockOf(lines, f, s, e) && lines[f].place in moved && s <= k < e
  }

  lemma DropIsMovedBlocks(lines: seq<Line>, moved: seq<Place>, k: nat)
    requires MovedOnce(lines, moved)
    ensures InDrop(lines, moved, k) <==> InMovedBlock(lines, moved, k)
  {
    if InDrop(lines, moved, k) {
      var i :| 0 <= i < |moved| && InSpanOf(lines, moved[i], k);
      var f := FindLast(lines, moved[i]).value;
      SpanIsBlock(lines, f);
      assert IsBlockOf(lines, f, BlockStart(lines, f), End(lines, f)) && lines[f].place in moved;
    }
    if InMovedBlock(lines, moved, k) {
      var f, s, e :| IsBlockOf(lines, f, s, e) && lines[f].place in moved && s <= k < e;
      var i :| 0 <= i < |moved| && moved[i] == lines[f].place;
      assert IsSoleOpener(lines, FindLast(lines, moved[i]).value);
      BlockIsSpan(lines, f, s, e);
      assert InSpanOf(lines, moved[i], k);
    }
  }

  /** The lines from `from` up to `to` that are in no moved block. */
  ghost function Outside(lines: seq<Line>, moved: seq<Place>, from: nat, to: nat): seq<Line>
    requires to <= |lines|
  {
    if to <= from then []
    else Outside(lines, moved, from, to - 1) + if InMovedBlock(lines, moved, to - 1) then [] else [lines[to - 1]]
  }

  /** The class header ends at b, where the block of the first statement of its body starts. */
  predicate HeaderEndsAt(lines: seq<Line>, h: int, b: int) {
    0 <= h < b <= |lines| && !lines[b - 1].Comment? &&
    exists o :: b <= o <= |lines| && (o < |lines| ==> Opens(lines[o]))
                && (forall k :: h < k < o ==> !Opens(lines[k])) && (forall k :: b <= k < o ==> lines[k].Comment?)
  }

  lemma HeaderEndIs(lines: seq<Line>, h: nat, b: nat)
    requires h < |lines| && Opens(lines[h]) && HeaderEndsAt(lines, h, b)
    ensures b == HeaderEnd(lines, h)
  {
    var o :| b <= o <= |lines| && (o < |lines| ==> Opens(lines[o]))
             && (forall k :: h < k < o ==> !Opens(lines[k])) && (forall k :: b <= k < o ==> lines[k].Comment?);
    assert o == NextOpener(lines, h + 1);
  }

  lemma KeptAtIs(lines: seq<Line>, k: nat, moved: seq<Place>, h: nat, header: seq<Line>)
    requires Tagged(lines) && HeadIsSole(lines, h) && MovedOnce(lines, moved) && k < |lines|
    ensures
      KeptAt(lines, k, moved, h, header) ==
      if k == h then header
      else if h < k < HeaderEnd(lines, h) || InMovedBlock(lines, moved, k) then [] else [lines[k]]
  {
    DropIsMovedBlocks(lines, moved, k);
    if k == h {
      DropHoldsMoved(lines, moved, h);
    }
  }

  ghost function OutsideAt(lines: seq<Line>, moved: seq<Place>, h: nat, header: seq<Line>, n: nat): seq<Line>
    requires n <= |lines| && h < |lines| && Opens(lines[h])
  {
    if n <= h then Outside(lines, moved, 0, n)
    else (Outside(lines, moved, 0, h) + header) + Outside(lines, moved, HeaderEnd(lines, h), n)
  }

  lemma OutsideNext(lines: seq<Line>, moved: seq<Place>, h: nat, header: seq<Line>, k: nat, added: seq<Line>)
    requires k < |lines| && h < |lines| && Opens(lines[h])
    requires added == if k == h then header
                      else if h < k < HeaderEnd(lines, h) || InMovedBlock(lines, moved, k) then [] else [lines[k]]
    ensures OutsideAt(lines, moved, h, header, k) + added == OutsideAt(lines, moved, h, header, k + 1)
  {
    var front, b := Outside(lines, moved, 0, h) + header, HeaderEnd(lines, h);
    if k == h || h < k < b {
      assert Outside(lines, moved, b, k + 1) == [];
      assert front + [] == front;
    } else if h < k {
      AppendAssociative(front, Outside(lines, moved, b, k), added);
    }
  }

  lemma {:induction false} KeptIsTheRest(lines: seq<Line>, n: nat, moved: seq<Place>, h: nat, header: seq<Line>)
    requires Tagged(lines) && HeadIsSole(lines, h) && MovedOnce(lines, moved) && n <= |lines|
    ensures Kept(lines, n, moved, h, header) == OutsideAt(lines, moved, h, header, n)
  {
    if n > 0 {
      KeptIsTheRest(lines, n - 1, moved, h, header);
      KeptAtIs(lines, n - 1, moved, h, header);
      OutsideNext(lines, moved, h, header, n - 1, KeptAt(lines, n - 1, moved, h, header));
    }
  }

  /** The core is the source line for line, comments and blank lines included, without the blocks that move and with the
      class header replaced; the banner pass and the trimming come after. */
  lemma CoreIsTheRest(spec: Spec, src: Source, h: nat, b: nat)
    requires SpecOk(spec, src, h) && HeaderEndsAt(src.lines, h, b)
    ensures
      var lines, moved := src.lines, Moved(spec.modules);
      CoreFile(spec, src, h).lines ==
      Tidy(Outside(lines, moved, 0, h) + HeaderLines(spec.cls, NewBases(spec, lines[h].place.bases))
           + Outside(lines, moved, b, |lines|))
  {
    ModuleMoves(spec, src, h);
    HeaderEndIs(src.lines, h, b);
    KeptIsTheRest(src.lines, |src.lines|, Moved(spec.modules), h,
                  HeaderLines(spec.cls, NewBases(spec, src.lines[h].place.bases)));
  }

  lemma {:induction false} KeptGrows(lines: seq<Line>, m: nat, n: nat, moved: seq<Place>, h: nat, header: seq<Line>)
    returns (rest: seq<Line>)
    requires m <= n <= |lines| && h < |lines| && Opens(lines[h])
    ensures Kept(lines, n, moved, h, header) == Kept(lines, m, moved, h, header) + rest
  {
    if n == m {
      rest := [];
    } else {
      var r := KeptGrows(lines, m, n - 1, moved, h, header);
      rest := r + KeptAt(lines, n - 1, moved, h, header);
    }
  }

  /** The line is written as it is. */
  predicate IsWritten(lines: seq<Line>, k: nat, moved: seq<Place>, h: nat, header: seq<Line>)
    requires k < |lines| && h < |lines| && Opens(lines[h])
  {
    KeptAt(lines, k, moved, h, header) == [lines[k]]
  }

  predicate AddsLine(g: nat -> seq<Line>, lines: seq<Line>, k: nat) {
    k < |lines| && g(k + 1) == g(k) + [lines[k]]
  }

  /** Adding line after line adds the run. */
  lemma {:induction false} RunOfLines(g: nat -> seq<Line>, lines: seq<Line>, r: nat, n: nat)
    requires r <= n <= |lines| && forall k: nat :: r <= k < n ==> AddsLine(g, lines, k)
    ensures g(n) == g(r) + lines[r..n]
  {
    if r < n {
      RunOfLines(g, lines, r, n - 1);
      assert AddsLine(g, lines, n - 1);
      SliceNext(g(r), lines, r, n - 1);
    } else {
      assert lines[r..n] == [];
    }
  }

  lemma KeptRun(lines: seq<Line>, r: nat, n: nat, moved: seq<Place>, h: nat, header: seq<Line>)
    requires r <= n <= |lines| && h < |lines| && Opens(lines[h])
    requires forall k :: r <= k < n ==> IsWritten(lines, k, moved, h, header)
    ensures Kept(lines, n, moved, h, header) == Kept(lines, r, moved, h, header) + lines[r..n]
  {
    var g := (k: nat) => if k <= |lines| then Kept(lines, k, moved, h, header) else [];
    forall k: nat | r <= k < n
      ensures AddsLine(g, lines, k)
    {
      KeptNext(lines, k, moved, h, header);
    }
    RunOfLines(g, lines, r, n);
  }

  lemma KeptNext(lines: seq<Line>, k: nat, moved: seq<Place>, h: nat, header: seq<Line>)
    requires k < |lines| && h < |lines| && Opens(lines[h]) && IsWritten(lines, k, moved, h, header)
    ensures Kept(lines, k + 1, moved, h, header) == Kept(lines, k, moved, h, header) + [lines[k]]
  {
  }

  lemma SliceNext(pre: seq<Line>, lines: seq<Line>, r: nat, n: nat)
    requires r <= n < |lines|
    ensures (pre + lines[r..n]) + [lines[n]] == pre + lines[r..n + 1]
  {
  }

  /** If a comment is in a moved block, so is the code that it is attached to. */
  lemma BlockReaches(lines: seq<Line>, moved: seq<Place>, r: nat, c: nat, k: nat)
    requires IsAttached(lines, r, c) && r <= k <= c
    ensures InMovedBlock(lines, moved, k) ==> InMovedBlock(lines, moved, c)
  {
  }

  /** A comment above a line that stays is not dropped. */
  lemma AttachedStays(lines: seq<Line>, moved: seq<Place>, h: nat, r: nat, c: nat, k: nat)
    requires Tagged(lines) && MovedOnce(lines, moved)
    requires IsAttached(lines, r, c) && r <= k <= c && lines[c].place !in moved
    ensures !InDrop(lines, moved, k)
  {
    DropHoldsMoved(lines, moved, c);
    DropIsMovedBlocks(lines, moved, k);
    DropIsMovedBlocks(lines, moved, c);
    BlockReaches(lines, moved, r, c, k);
  }

  lemma AttachedIsOutsideHeader(lines: seq<Line>, h: nat, r: nat, c: nat, k: nat)
    requires Tagged(lines) && HeadIsSole(lines, h)
    requires IsAttached(lines, r, c) && r <= k <= c && !lines[c].place.Head?
    ensures k != h && !(h < k < HeaderEnd(lines, h))
  {
    HeaderHoldsHead(lines, h, c);
  }

  lemma AttachedIsWritten(lines: seq<Line>, moved: seq<Place>, h: nat, header: seq<Line>, r: nat, c: nat, k: nat)
    requires Tagged(lines) && HeadIsSole(lines, h) && MovedOnce(lines, moved)
    requires IsAttached(lines, r, c) && r <= k <= c && lines[c].place !in moved && !lines[c].place.Head?
    ensures IsWritten(lines, k, moved, h, header)
  {
    AttachedStays(lines, moved, h, r, c, k);
    AttachedIsOutsideHeader(lines, h, r, c, k);
  }

  lemma KeptHolds(lines: seq<Line>, moved: seq<Place>, h: nat, header: seq<Line>, r: nat, c: nat)
    returns (pre: seq<Line>, post: seq<Line>)
    requires Tagged(lines) && HeadIsSole(lines, h) && MovedOnce(lines, moved)
    requires IsAttached(lines, r, c) && lines[c].place !in moved && !lines[c].place.Head?
    ensures Kept(lines, |lines|, moved, h, header) == pre + lines[r..c + 1] + post
  {
    forall k | r <= k < c + 1
      ensures IsWritten(lines, k, moved, h, header)
    {
      AttachedIsWritten(lines, moved, h, header, r, c, k);
    }
    KeptRun(lines, r, c + 1, moved, h, header);
    pre := Kept(lines, r, moved, h, header);
    post := KeptGrows(lines, c + 1, |lines|, moved, h, header);
  }

  /** Comments above a line that stays stand above it in the core file. */
  lemma CommentsStay(spec: Spec, src: Source, h: nat, r: nat, c: nat)
    requires SpecOk(spec, src, h) && IsAttached(src.lines, r, c)
    requires src.lines[c].place !in Moved(spec.modules) && !src.lines[c].place.Head?
    ensures Occurs(src.lines[r..c + 1], CoreFile(spec, src, h).lines)
  {
    ModuleMoves(spec, src, h);
    var header := HeaderLines(spec.cls, NewBases(spec, src.lines[h].place.bases));
    var pre, post := KeptHolds(src.lines, Moved(spec.modules), h, header, r, c);
    AttachedPart(src.lines, r, c);
    TidiedIn(CoreLines(spec, src.lines, h), pre, src.lines[r..c + 1], post);
  }

  lemma AboveHeader(lines: seq<Line>, moved: seq<Place>, h: nat, header: seq<Line>, r: nat)
    returns (pre: seq<Line>, post: seq<Line>)
    requires Tagged(lines) && HeadIsSole(lines, h) && MovedOnce(lines, moved) && IsAttached(lines, r, h)
    requires header != []
    ensures Kept(lines, |lines|, moved, h, header) == pre + (lines[r..h] + [header[0]]) + post
  {
    assert lines[h].place !in moved;
    forall k | r <= k < h
      ensures IsWritten(lines, k, moved, h, header)
    {
      AttachedStays(lines, moved, h, r, h, k);
    }
    AttachedStays(lines, moved, h, r, h, h);
    KeptRun(lines, r, h, moved, h, header);
    var rest := KeptGrows(lines, h + 1, |lines|, moved, h, header);
    pre, post := Kept(lines, r, moved, h, header), header[1..] + rest;
    HeaderParts(pre, lines[r..h], header, rest);
  }

  lemma HeaderParts(pre: seq<Line>, run: seq<Line>, header: seq<Line>, rest: seq<Line>)
    requires header != []
    ensures ((pre + run) + header) + rest == pre + (run + [header[0]]) + (header[1..] + rest)
  {
    assert header == [header[0]] + header[1..];
  }

  /** Comments above the class stand above its new header. */
  lemma CommentsAboveClass(spec: Spec, src: Source, h: nat, r: nat)
    requires SpecOk(spec, src, h) && IsAttached(src.lines, r, h)
    ensures
      var header := HeaderLines(spec.cls, NewBases(spec, src.lines[h].place.bases));
      Occurs(src.lines[r..h] + [header[0]], CoreFile(spec, src, h).lines)
  {
    ModuleMoves(spec, src, h);
    var header := HeaderLines(spec.cls, NewBases(spec, src.lines[h].place.bases));
    var pre, post := AboveHeader(src.lines, Moved(spec.modules), h, header, r);
    var x := src.lines[r..h] + [header[0]];
    AttachedIsKept(x, false);
    TidiedIn(CoreLines(spec, src.lines, h), pre, x, post);
  }

  /** Comments above a line outside the class header go to one file: the core when the line stays, and otherwise that of
      the one module that its statement is listed for, as long as the module writes it. */
  lemma CommentsHaveOneFile(spec: Spec, src: Source, h: nat, r: nat, c: nat)
    requires SpecOk(spec, src, h) && IsAttached(src.lines, r, c) && !src.lines[c].place.Head?
    ensures
      var run, place := src.lines[r..c + 1], src.lines[c].place;
      if place !in Moved(spec.modules) then Occurs(run, CoreFile(spec, src, h).lines)
      else exists mod :: IsOwner(spec, mod, place) && (Writes(mod, place) ==> Occurs(run, ModuleFile(mod, src, true).lines))
  {
    var place := src.lines[c].place;
    if place !in Moved(spec.modules) {
      CommentsStay(spec, src, h, r, c);
    } else {
      var mod := OwnerOf(spec, place);
      if Writes(mod, place) {
        CommentsMove(mod, src, r, c);
      }
    }
  }

  /** The one module that lists the statement. */
  ghost predicate IsOwner(spec: Spec, mod: Module, place: Place) {
    && mod in spec.modules && place in PlacesOf(mod)
    && forall other :: other in spec.modules && place in PlacesOf(other) ==> other == mod
  }

  lemma OwnerOf(spec: Spec, place: Place) returns (mod: Module)
    requires MovesApart(spec) && place in Moved(spec.modules)
    ensures IsOwner(spec, mod, place)
  {
    MovedMembers(spec.modules);
    mod :| mod in spec.modules && place in PlacesOf(mod);
  }
}
