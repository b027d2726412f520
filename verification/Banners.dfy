/** Dropping comment banners whose section has moved away (`_drop_orphan_banners` in scripts/god_class_split.py). */
module Banners {
  import opened Sequences
  import opened PythonText

  /** Past blank lines comes a comment or the end of the file. */
  predicate StopAhead(lines: seq<Line>) {
    lines == [] || lines[0].Comment? || (lines[0].Blank? && StopAhead(lines[1..]))
  }

  /** Past the rest of a comment run, and the blank lines after it, comes another run or the end of the file. */
  predicate OrphanAhead(lines: seq<Line>) {
    lines == [] ||
    if lines[0].Comment? then OrphanAhead(lines[1..]) else lines[0].Blank? && StopAhead(lines[1..])
  }

  /** No comment run is followed, past blank lines, by another comment run or by the end of the file. */
  predicate NoOrphans(lines: seq<Line>) {
    forall i :: 0 <= i < |lines| && lines[i].Comment? ==> !OrphanAhead(lines[i..])
  }

  /** A comment, or a blank line that follows one with only blank lines between. */
  predicate InBanner(line: Line, follows: bool) {
    line.Comment? || (line.Blank? && follows)
  }

  /** The lines without orphaned banners and the blank lines after them; `follows` says whether the line before the
      first belongs to a banner. */
  function Drop(lines: seq<Line>, follows: bool): seq<Line> {
    if lines == [] then []
    else
      var banner := InBanner(lines[0], follows);
      (if banner && OrphanAhead(lines) then [] else [lines[0]]) + Drop(lines[1..], banner)
  }

  // ---- what dropping keeps and removes ----

  lemma {:induction false} CodeLinesKept(lines: seq<Line>, follows: bool)
    ensures Filter(Drop(lines, follows), IsCode()) == Filter(lines, IsCode())
  {
    if lines != [] {
      var banner := InBanner(lines[0], follows);
      CodeLinesKept(lines[1..], banner);
      FilterAppend(if banner && OrphanAhead(lines) then [] else [lines[0]], Drop(lines[1..], banner), IsCode());
      FilterAppend([lines[0]], lines[1..], IsCode());
      assert [lines[0]] + lines[1..] == lines;
    }
  }

  lemma {:induction false} StopStays(lines: seq<Line>, follows: bool)
    requires !StopAhead(lines)
    ensures !StopAhead(Drop(lines, follows))
  {
    if lines[0].Blank? {
      StopStays(lines[1..], InBanner(lines[0], follows));
      DropHead(lines, follows);
    }
  }

  lemma DropHead(lines: seq<Line>, follows: bool)
    requires lines != [] && !(InBanner(lines[0], follows) && OrphanAhead(lines))
    ensures
      var banner := InBanner(lines[0], follows);
      && Drop(lines, follows)[0] == lines[0]
      && Drop(lines, follows)[1..] == Drop(lines[1..], banner)
  {
  }

  /** A banner that introduces code still introduces it. */
  lemma {:induction false} IntroductionStays(lines: seq<Line>, follows: bool)
    requires !OrphanAhead(lines)
    ensures !OrphanAhead(Drop(lines, follows))
  {
    DropHead(lines, follows);
    var banner := InBanner(lines[0], follows);
    if lines[0].Comment? {
      IntroductionStays(lines[1..], banner);
    } else if lines[0].Blank? {
      StopStays(lines[1..], banner);
    }
  }

  lemma NoOrphansCons(line: Line, lines: seq<Line>)
    requires NoOrphans(lines) && (line.Comment? ==> !OrphanAhead([line] + lines))
    ensures NoOrphans([line] + lines)
  {
    var all := [line] + lines;
    forall i | 0 <= i < |all| && all[i].Comment?
      ensures !OrphanAhead(all[i..])
    {
      if i == 0 {
        assert all[0..] == all;
      } else {
        assert all[i..] == lines[i - 1..] && lines[i - 1] == all[i];
      }
    }
  }

  lemma {:induction false} NoOrphansLeft(lines: seq<Line>, follows: bool)
    ensures NoOrphans(Drop(lines, follows))
  {
    if lines != [] {
      var banner := InBanner(lines[0], follows);
      var rest := Drop(lines[1..], banner);
      NoOrphansLeft(lines[1..], banner);
      if banner && OrphanAhead(lines) {
        assert Drop(lines, follows) == rest;
      } else {
        if lines[0].Comment? {
          IntroductionStays(lines, follows);
        }
        NoOrphansCons(lines[0], rest);
      }
    }
  }

  lemma {:induction false} NothingToDrop(lines: seq<Line>, follows: bool)
    requires NoOrphans(lines) && (follows ==> !OrphanAhead(lines) || lines == [])
    ensures Drop(lines, follows) == lines
  {
    if lines != [] {
      var banner := InBanner(lines[0], follows);
      assert lines[0..] == lines;
      forall i | 0 <= i < |lines| - 1 && lines[1..][i].Comment?
        ensures !OrphanAhead(lines[1..][i..])
      {
        assert lines[1..][i..] == lines[i + 1..];
      }
      if banner {
        assert !OrphanAhead(lines);
        BannerGoesOn(lines);
      }
      NothingToDrop(lines[1..], banner);
    }
  }

  lemma BannerGoesOn(lines: seq<Line>)
    requires lines != [] && !OrphanAhead(lines) && !lines[0].Code?
    ensures lines[1..] != []
    ensures !OrphanAhead(lines[1..])
  {
    if lines[0].Blank? {
      assert !StopAhead(lines[1..]);
    }
  }

  /** Dropping changes nothing exactly when there is no orphaned banner, so a second pass changes nothing. */
  lemma DropIdempotent(lines: seq<Line>)
    ensures Drop(lines, false) == lines <==> NoOrphans(lines)
    ensures Drop(Drop(lines, false), false) == Drop(lines, false)
  {
    NoOrphansLeft(lines, false);
    NothingToDrop(Drop(lines, false), false);
    if NoOrphans(lines) {
      NothingToDrop(lines, false);
    }
  }

  /** The statements stay as they were. */
  lemma DropKeepsStatements(lines: seq<Line>)
    ensures Parse(Drop(lines, false)) == Parse(lines)
  {
    CodeLinesKept(lines, false);
    ParseIgnoresComments(lines);
    ParseIgnoresComments(Drop(lines, false));
  }

  // ---- the loop ----

  /** Line k belongs to a banner. */
  predicate Bannered(lines: seq<Line>, k: int)
    requires -1 <= k < |lines|
    decreases k + 1
  {
    k >= 0 && InBanner(lines[k], Bannered(lines, k - 1))
  }

  /** The line is a comment, or only blank lines separate it from the comment at c above it. */
  predicate IsBelowComment(lines: seq<Line>, c: int, k: int) {
    0 <= c <= k < |lines| && lines[c].Comment? && forall j :: c < j <= k ==> lines[j].Blank?
  }

  lemma {:induction false} BanneredExactly(lines: seq<Line>, k: nat)
    requires k < |lines|
    ensures Bannered(lines, k) <==> exists c :: IsBelowComment(lines, c, k)
  {
    if lines[k].Comment? {
      assert IsBelowComment(lines, k, k);
    } else if k > 0 {
      var above := k - 1;
      BanneredExactly(lines, above);
      if c :| IsBelowComment(lines, c, above) {
        assert lines[k].Blank? ==> IsBelowComment(lines, c, k);
      }
      if c :| IsBelowComment(lines, c, k) {
        assert IsBelowComment(lines, c, above);
      }
    }
  }

  /** From line k on: blank lines up to m, and then the end of the file or a comment. */
  predicate StopsAt(lines: seq<Line>, k: int, m: int) {
    0 <= k <= m <= |lines| && (forall j :: k <= j < m ==> lines[j].Blank?) && (m < |lines| ==> lines[m].Comment?)
  }

  /** From line k on: comments up to e, blank lines up to m, and then the end of the file or another comment. */
  predicate LeadsNowhere(lines: seq<Line>, k: int, e: int, m: int) {
    && 0 <= k <= e <= |lines| && (forall j :: k <= j < e ==> lines[j].Comment?)
    && StopsAt(lines, e, m) && (m < |lines| ==> e < m)
  }

  lemma {:induction false} StopExactly(lines: seq<Line>, k: nat)
    requires k <= |lines|
    ensures StopAhead(lines[k..]) <==> exists m :: StopsAt(lines, k, m)
    decreases |lines| - k
  {
    if k == |lines| || lines[k].Comment? {
      assert StopsAt(lines, k, k);
    } else if lines[k].Blank? {
      var next := k + 1;
      StopExactly(lines, next);
      assert lines[k..][1..] == lines[next..];
      if m :| StopsAt(lines, next, m) {
        assert StopsAt(lines, k, m);
      }
      if m :| StopsAt(lines, k, m) {
        assert StopsAt(lines, next, m);
      }
    }
  }

  /** Which lines go: comments that lead nowhere, and the blank lines below them. */
  lemma {:induction false} OrphanExactly(lines: seq<Line>, k: nat)
    requires k <= |lines|
    ensures OrphanAhead(lines[k..]) <==> exists e, m :: LeadsNowhere(lines, k, e, m)
    decreases |lines| - k
  {
    if k == |lines| {
      assert LeadsNowhere(lines, k, k, k);
    } else {
      var next := k + 1;
      assert lines[k..][1..] == lines[next..] && lines[k..][0] == lines[k];
      if lines[k].Comment? {
        OrphanExactly(lines, next);
        if e, m :| LeadsNowhere(lines, next, e, m) {
          assert LeadsNowhere(lines, k, e, m);
        }
        if e, m :| LeadsNowhere(lines, k, e, m) {
          assert LeadsNowhere(lines, next, e, m);
        }
      } else if lines[k].Blank? {
        StopExactly(lines, next);
        if m :| StopsAt(lines, next, m) {
          assert LeadsNowhere(lines, k, k, m);
        }
        if e, m :| LeadsNowhere(lines, k, e, m) {
          assert e == k && StopsAt(lines, next, m);
        }
      }
    }
  }

  predicate Orphaned(lines: seq<Line>, k: int)
    requires 0 <= k < |lines|
  {
    Bannered(lines, k) && OrphanAhead(lines[k..])
  }

  function Select(lines: seq<Line>, keep: seq<bool>): seq<Line>
    requires |lines| == |keep|
  {
    if lines == [] then [] else (if keep[0] then [lines[0]] else []) + Select(lines[1..], keep[1..])
  }

  lemma {:induction false} SelectIsDrop(lines: seq<Line>, keep: seq<bool>, n: nat)
    requires |keep| == |lines| && n <= |lines|
    requires forall k :: 0 <= k < |lines| ==> keep[k] == !Orphaned(lines, k)
    ensures Select(lines[n..], keep[n..]) == Drop(lines[n..], Bannered(lines, n - 1))
    decreases |lines| - n
  {
    if n < |lines| {
      SelectIsDrop(lines, keep, n + 1);
      assert lines[n..][1..] == lines[n + 1..] && keep[n..][1..] == keep[n + 1..];
      assert Bannered(lines, n) == InBanner(lines[n], Bannered(lines, n - 1));
      assert keep[n..][0] == keep[n] == !Orphaned(lines, n);
    }
  }

  lemma {:induction false} RunAhead(lines: seq<Line>, start: nat, i: nat, j: nat)
    requires start < i <= j <= |lines|
    requires forall k :: start <= k < i ==> lines[k].Comment?
    requires i < |lines| ==> !lines[i].Comment?
    requires forall k :: i <= k < j ==> lines[k].Blank?
    requires j < |lines| ==> !lines[j].Blank?
    ensures forall k :: start <= k < j ==> Bannered(lines, k)
    ensures forall k :: start <= k < j ==> (OrphanAhead(lines[k..]) <==> j == |lines| || lines[j].Comment?)
  {
    var stop := j == |lines| || lines[j].Comment?;
    BannerRun(lines, start, j);
    forall k | start <= k < j
      ensures OrphanAhead(lines[k..]) == stop
    {
      AheadAt(lines, k, if k <= i then i else k, j);
    }
  }

  lemma {:induction false} BannerRun(lines: seq<Line>, start: nat, j: nat)
    requires start < j <= |lines| && lines[start].Comment?
    requires forall k :: start <= k < j ==> !lines[k].Code?
    ensures forall k :: start <= k < j ==> Bannered(lines, k)
  {
    if start + 1 < j {
      BannerRun(lines, start, j - 1);
      assert Bannered(lines, j - 2) && !lines[j - 1].Code?;
    }
  }

  lemma {:induction false} BlankAhead(lines: seq<Line>, k: nat, j: nat)
    requires k <= j <= |lines| && forall m :: k <= m < j ==> lines[m].Blank?
    requires j < |lines| ==> !lines[j].Blank?
    ensures StopAhead(lines[k..]) <==> j == |lines| || lines[j].Comment?
    decreases j - k
  {
    if k < j {
      BlankAhead(lines, k + 1, j);
      assert lines[k..][1..] == lines[k + 1..];
    }
  }

  lemma {:induction false} AheadAt(lines: seq<Line>, k: nat, i: nat, j: nat)
    requires k <= i <= j <= |lines| && k < j
    requires forall m :: k <= m < i ==> lines[m].Comment?
    requires i < |lines| ==> !lines[i].Comment?
    requires forall m :: i <= m < j ==> lines[m].Blank?
    requires j < |lines| ==> !lines[j].Blank?
    ensures OrphanAhead(lines[k..]) <==> j == |lines| || lines[j].Comment?
    decreases i - k
  {
    assert lines[k..][1..] == lines[k + 1..];
    if k < i && k + 1 < j {
      AheadAt(lines, k + 1, i, j);
    } else if k == i {
      BlankAhead(lines, k + 1, j);
    }
  }

  /** A blank line after a line that stays, and is no comment, stays too. */
  lemma BlankStays(lines: seq<Line>, k: nat)
    requires k + 1 < |lines| && !lines[k].Comment? && lines[k + 1].Blank? && !Orphaned(lines, k)
    ensures !Orphaned(lines, k + 1)
  {
    assert lines[k..][1..] == lines[k + 1..];
    assert Bannered(lines, k + 1) == InBanner(lines[k + 1], Bannered(lines, k));
  }

  /** Takes the marks off the orphaned banners in one pass. */
  method MarkOrphans(lines: seq<Line>, keep: array<bool>)
    requires keep.Length == |lines| && forall k :: 0 <= k < |lines| ==> keep[k]
    modifies keep
    ensures forall k :: 0 <= k < |lines| ==> keep[k] == !Orphaned(lines, k)
  {
    var i := 0;
    ghost var dropped := 0;
    while i < |lines|
      invariant 0 <= i <= |lines| && dropped <= |lines|
      invariant forall k :: 0 <= k < i ==> keep[k] == !Orphaned(lines, k)
      invariant forall k :: i <= k < dropped ==> lines[k].Blank? && !keep[k] && Orphaned(lines, k)
      invariant forall k :: i <= k < |lines| && dropped <= k ==> keep[k]
      invariant 0 < dropped < |lines| ==> !lines[dropped].Blank?
      invariant dropped <= i < |lines| && lines[i].Blank? ==> !Orphaned(lines, i)
    {
      if !lines[i].Comment? {
        if dropped <= i && i + 1 < |lines| && lines[i + 1].Blank? {
          BlankStays(lines, i);
        }
        i := i + 1;
      } else {
        var start := i;
        while i < |lines| && lines[i].Comment?
          invariant start <= i <= |lines| && forall k :: start <= k < i ==> lines[k].Comment?
        {
          i := i + 1;
        }
        var j := i;
        while j < |lines| && lines[j].Blank?
          invariant i <= j <= |lines| && forall k :: i <= k < j ==> lines[k].Blank?
        {
          j := j + 1;
        }
        RunAhead(lines, start, i, j);
        if j >= |lines| || lines[j].Comment? {
          label Marking:
          for k := start to j
            invariant forall m :: 0 <= m < |lines| ==> keep[m] == (old@Marking(keep[m]) && !(start <= m < k))
          {
            keep[k] := false;
          }
          dropped := j;
        }
      }
    }
  }

  method DropOrphanBanners(lines: seq<Line>) returns (left: seq<Line>)
    ensures left == Drop(lines, false)
  {
    var keep := new bool[|lines|](_ => true);
    MarkOrphans(lines, keep);
    SelectIsDrop(lines, keep[..], 0);
    assert lines[0..] == lines && keep[..][0..] == keep[..];
    left := [];
    for k := 0 to |lines|
      invariant left + Select(lines[k..], keep[k..]) == Select(lines, keep[..])
    {
      assert lines[k..][1..] == lines[k + 1..] && keep[k..][1..] == keep[k + 1..];
      if keep[k] {
        left := left + [lines[k]];
      }
    }
  }
}
