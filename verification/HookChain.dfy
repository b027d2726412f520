/** Splicing a marker block into a user's git hook and taking it out again
    (scripts/merge_assets.py, `_chain_block`, `chain_hooks` and the block removal of `clean_assets`). */
module HookChain {
  import opened Wrappers
  import opened Text

  // ---- where a pattern occurs ----

  predicate OccursAt(p: string, s: string, i: int) {
    0 <= i && i + |p| <= |s| && s[i..i + |p|] == p
  }

  predicate NotBefore(p: string, s: string, n: int) {
    forall i :: 0 <= i < n ==> !OccursAt(p, s, i)
  }

  /** The first place at or after `from` where `p` occurs in `s`, or -1. */
  function FindFrom(p: string, s: string, from: nat): (r: int)
    requires from <= |s| + 1
    ensures r == -1 || from <= r
    ensures r != -1 ==> OccursAt(p, s, r) && forall i :: from <= i < r ==> !OccursAt(p, s, i)
    ensures r == -1 ==> forall i :: from <= i ==> !OccursAt(p, s, i)
    decreases |s| + 1 - from
  {
    if from + |p| > |s| then -1
    else if OccursAt(p, s, from) then from
    else FindFrom(p, s, from + 1)
  }

  function Find(p: string, s: string): int {
    FindFrom(p, s, 0)
  }

  predicate Contains(p: string, s: string) {
    Find(p, s) != -1
  }

  lemma FindIs(p: string, s: string, i: int)
    requires OccursAt(p, s, i) && NotBefore(p, s, i)
    ensures Find(p, s) == i
  {
    var r := Find(p, s);
    assert r != -1;
    assert OccursAt(p, s, r);
  }

  /** Two texts that agree up to `n` have the same occurrences ending there. */
  lemma OccursInCommonPrefix(p: string, s: string, t: string, n: nat, i: int)
    requires n <= |s| && n <= |t| && s[..n] == t[..n] && i + |p| <= n
    ensures OccursAt(p, s, i) <==> OccursAt(p, t, i)
  {
    if 0 <= i {
      assert s[i..i + |p|] == s[..n][i..i + |p|];
      assert t[i..i + |p|] == t[..n][i..i + |p|];
    }
  }

  /** So the two have the same first occurrence, when one of them has it early enough. */
  lemma CommonOccurrences(p: string, s: string, t: string, n: nat)
    requires n <= |s| && n <= |t| && s[..n] == t[..n]
    ensures forall i :: 0 <= i && i + |p| <= n ==> (OccursAt(p, s, i) <==> OccursAt(p, t, i))
  {
    forall i | 0 <= i && i + |p| <= n
      ensures OccursAt(p, s, i) <==> OccursAt(p, t, i)
    {
      OccursInCommonPrefix(p, s, t, n, i);
    }
  }

  /** Occurrences inside a part are occurrences in the part. */
  lemma OccursInPart(p: string, s: string, u: string, at: nat, i: nat)
    requires at + |u| <= |s| && s[at..at + |u|] == u && i + |p| <= |u|
    ensures OccursAt(p, s, at + i) <==> OccursAt(p, u, i)
  {
    var inS, inU := s[at + i..at + i + |p|], u[i..i + |p|];
    forall k | 0 <= k < |p|
      ensures inS[k] == inU[k]
    {
      assert s[at..at + |u|][i + k] == s[at + (i + k)];
    }
    assert inS == inU;
  }

  /** An occurrence that covers position `k` has the character at `k` in it. */
  lemma OccurrenceCovers(p: string, s: string, i: int, k: int)
    requires OccursAt(p, s, i) && i <= k < i + |p|
    ensures p[k - i] == s[k]
  {
    assert s[i..i + |p|][k - i] == s[k];
  }

  // ---- the markers and the block ----

  const CHAIN_START := "# --- HydraFlow hook chain (do not edit) ---"
  const CHAIN_END := "# --- End HydraFlow hook chain ---"

  const OPENING := CHAIN_START + "\nif [ -x \"$(dirname \"$0\")/hf-"
  const MIDDLE := "\" ]; then\n  \"$(dirname \"$0\")/hf-"
  const CLOSING := "\" || exit $?\nfi\n" + CHAIN_END

  function ChainBlock(hook: string): string {
    OPENING + hook + MIDDLE + hook + CLOSING
  }

  lemma MarkerFacts()
    ensures CHAIN_START[0] == '#' && CHAIN_END[0] == '#' && CHAIN_START[6] != CHAIN_END[6]
    ensures forall k :: 1 <= k < |CHAIN_START| ==> CHAIN_START[k] != '#'
    ensures forall k :: 1 <= k < |CHAIN_END| ==> CHAIN_END[k] != '#'
    ensures forall k :: 0 <= k < |CHAIN_START| ==> CHAIN_START[k] != '\n'
    ensures forall k :: 0 <= k < |CHAIN_END| ==> CHAIN_END[k] != '\n' && CHAIN_END[k] != '"'
  {
    assert CHAIN_START[0] == '#';
    assert CHAIN_END[0] == '#';
    assert CHAIN_START[6] == 'H';
    assert CHAIN_END[6] == 'E';
  }

  lemma PartFacts()
    ensures forall k :: 1 <= k < |OPENING| ==> OPENING[k] != '#'
    ensures forall k :: 0 <= k < |MIDDLE| ==> MIDDLE[k] != '#'
    ensures forall k :: 0 <= k < |CLOSING| - |CHAIN_END| ==> CLOSING[k] != '#'
    ensures MIDDLE[0] == '"' && CLOSING[0] == '"'
    ensures |OPENING| > |CHAIN_START| && OPENING[..|CHAIN_START|] == CHAIN_START
    ensures |CLOSING| > |CHAIN_END| && CLOSING[|CLOSING| - |CHAIN_END|..] == CHAIN_END
  {
  }

  /** Texts like the block's, whatever they are: `#` starts both markers and occurs nowhere else, quotes enclose the
      hook's name, and the markers differ before either ends. */
  predicate Framed(opening: string, middle: string, closing: string, start: string, end: string) {
    && 6 < |start| < |opening| && opening[..|start|] == start && 6 < |end| < |closing|
    && closing[|closing| - |end|..] == end
    && end[0] == '#' && start[6] != end[6] && (forall k :: 0 <= k < |end| ==> end[k] != '"')
    && (forall k :: 1 <= k < |opening| ==> opening[k] != '#')
    && 0 < |middle| && middle[0] == '"' && (forall k :: 0 <= k < |middle| ==> middle[k] != '#')
    && closing[0] == '"' && (forall k :: 0 <= k < |closing| - |end| ==> closing[k] != '#')
  }

  lemma BlockParts(opening: string, middle: string, closing: string, hook: string)
    ensures
      var b, o, m, n := opening + hook + middle + hook + closing, |opening|, |middle|, |hook|;
      && |b| == o + n + m + n + |closing|
      && b[..o] == opening && b[o..o + n] == hook && b[o + n..o + n + m] == middle
      && b[o + n + m..o + n + m + n] == hook && b[o + n + m + n..] == closing
  {
  }

  lemma NoEarlierEnd(opening: string, middle: string, closing: string, start: string, end: string, hook: string, i: nat)
    requires Framed(opening, middle, closing, start, end) && !Contains(end, hook)
    requires i < |opening + hook + middle + hook + closing| - |end|
    ensures !OccursAt(end, opening + hook + middle + hook + closing, i)
  {
    BlockParts(opening, middle, closing, hook);
    var b := opening + hook + middle + hook + closing;
    var o, m, n := |opening|, |middle|, |hook|;
    if i == 0 {
      assert b[6] == b[..o][6] == opening[..|start|][6];
      if OccursAt(end, b, 0) {
        OccurrenceCovers(end, b, 0, 6);
      }
    } else if i < o {
      assert b[i] == b[..o][i];
      NoMarkerHere(b, end, i);
    } else if i < o + n {
      assert b[o + n] == b[o + n..o + n + m][0];
      NoMarkerInName(b, end, hook, o, i);
    } else if i < o + n + m {
      assert b[i] == b[o + n..o + n + m][i - o - n];
      NoMarkerHere(b, end, i);
    } else if i < o + n + m + n {
      assert b[o + n + m + n] == b[o + n + m + n..][0];
      NoMarkerInName(b, end, hook, o + n + m, i);
    } else {
      assert b[i] == b[o + n + m + n..][i - o - n - m - n];
      NoMarkerHere(b, end, i);
    }
  }

  lemma FramedShape(opening: string, middle: string, closing: string, start: string, end: string, hook: string)
    requires Framed(opening, middle, closing, start, end)
    ensures
      var b := opening + hook + middle + hook + closing;
      && |b| > |start| + |end| && b[..|start|] == start && OccursAt(end, b, |b| - |end|)
      && (NotBefore(end, b, |b| - |end|) <==> !Contains(end, hook))
  {
    var b := opening + hook + middle + hook + closing;
    BlockParts(opening, middle, closing, hook);
    assert b[..|start|] == b[..|opening|][..|start|];
    assert b[|b| - |end|..] == b[|b| - |closing|..][|closing| - |end|..];
    if Contains(end, hook) {
      OccursInPart(end, b, hook, |opening|, Find(end, hook));
      assert |opening| + Find(end, hook) < |b| - |end|;
    } else {
      forall i | 0 <= i < |b| - |end|
        ensures !OccursAt(end, b, i)
      {
        NoEarlierEnd(opening, middle, closing, start, end, hook, i);
      }
    }
  }

  /** The block starts with the start marker, ends with the end marker, and holds no earlier end marker exactly when
      the hook's name does not. */
  lemma BlockShape(hook: string)
    ensures
      var b := ChainBlock(hook);
      && |b| > |CHAIN_START| + |CHAIN_END| && b[..|CHAIN_START|] == CHAIN_START
      && OccursAt(CHAIN_END, b, |b| - |CHAIN_END|)
      && (NotBefore(CHAIN_END, b, |b| - |CHAIN_END|) <==> !Contains(CHAIN_END, hook))
  {
    MarkerFacts();
    PartFacts();
    FramedShape(OPENING, MIDDLE, CLOSING, CHAIN_START, CHAIN_END, hook);
  }

  lemma NoMarkerHere(b: string, end: string, i: nat)
    requires end != [] && end[0] == '#' && i < |b| && b[i] != '#'
    ensures !OccursAt(end, b, i)
  {
    if OccursAt(end, b, i) {
      OccurrenceCovers(end, b, i, i);
    }
  }

  lemma NoMarkerInName(b: string, end: string, hook: string, at: nat, i: nat)
    requires !Contains(end, hook) && forall k :: 0 <= k < |end| ==> end[k] != '"'
    requires at <= i < at + |hook| < |b| && b[at..at + |hook|] == hook && b[at + |hook|] == '"'
    ensures !OccursAt(end, b, i)
  {
    if OccursAt(end, b, i) {
      if i + |end| <= at + |hook| {
        OccursInPart(end, b, hook, at, i - at);
      } else {
        OccurrenceCovers(end, b, i, at + |hook|);
      }
    }
  }

  // ---- chaining and cleaning one hook ----

  /** `content.index(CHAIN_END)` of a text without the end marker. */
  datatype ChainError = MarkerMissing

  /** Where the text after the block begins: past the end marker and one newline. */
  function TailStart(content: string): (n: nat)
    requires Contains(CHAIN_END, content)
    ensures n <= |content|
  {
    var end := Find(CHAIN_END, content) + |CHAIN_END|;
    if end < |content| && content[end] == '\n' then end + 1 else end
  }

  function WithNewline(content: string): string {
    if content != [] && content[|content| - 1] == '\n' then content else content + "\n"
  }

  function Chain(content: string, block: string): Result<string, ChainError> {
    if Contains(CHAIN_START, content) then
      if !Contains(CHAIN_END, content) then Err(MarkerMissing)
      else Ok(content[..Find(CHAIN_START, content)] + block + "\n" + content[TailStart(content)..])
    else Ok(WithNewline(content) + block + "\n")
  }

  /** The cleaned text; `None` when nothing but whitespace is left and the file is removed. */
  function Clean(content: string): Result<Option<string>, ChainError> {
    if !Contains(CHAIN_START, content) then Ok(Some(content))
    else if !Contains(CHAIN_END, content) then Err(MarkerMissing)
    else Ok(Kept(content[..Find(CHAIN_START, content)] + content[TailStart(content)..]))
  }

  function Kept(content: string): Option<string> {
    if IsBlank(content) then None else Some(content)
  }

  /** The text already holds an end marker with no start marker before it. */
  predicate EndComesFirst(content: string) {
    Contains(CHAIN_END, content) &&
    (!Contains(CHAIN_START, content) || Find(CHAIN_END, content) < Find(CHAIN_START, content))
  }

  // ---- what the markers look like in a spliced text ----

  /** A text of the form pre + block + newline + post. */
  function Spliced(pre: string, block: string, post: string): string {
    pre + block + "\n" + post
  }

  lemma SpliceParts(pre: string, block: string, post: string)
    ensures
      var r := Spliced(pre, block, post);
      && r[..|pre|] == pre && r[|pre|..|pre| + |block|] == block && r[|pre| + |block|] == '\n'
      && r[|pre| + |block| + 1..] == post && |r| == |pre| + |block| + 1 + |post|
  {
  }

  /** No marker straddles the place where a line ends and the block begins. */
  lemma NoStraddle(p: string, pre: string, rest: string, i: int)
    requires p == CHAIN_START || p == CHAIN_END
    requires pre != [] && pre[|pre| - 1] == '\n' && 0 <= i < |pre|
    requires !OccursAt(p, pre, i)
    ensures !OccursAt(p, pre + rest, i)
  {
    MarkerFacts();
    var s := pre + rest;
    if i + |p| <= |pre| {
      OccursInCommonPrefix(p, pre, s, |pre|, i);
    } else if OccursAt(p, s, i) {
      OccurrenceCovers(p, s, i, |pre| - 1);
    }
  }

  lemma NewlineAddsNoMarker(p: string, t: string)
    requires p == CHAIN_START || p == CHAIN_END
    ensures forall i :: OccursAt(p, WithNewline(t), i) <==> OccursAt(p, t, i)
  {
    MarkerFacts();
    var c := WithNewline(t);
    forall i
      ensures OccursAt(p, c, i) <==> OccursAt(p, t, i)
    {
      if i + |p| <= |t| {
        OccursInCommonPrefix(p, t, c, |t|, i);
      } else if OccursAt(p, c, i) {
        OccurrenceCovers(p, c, i, |t|);
      }
    }
  }

  /** The first end marker of a spliced text is the block's own, when the text before it has none. */
  lemma EndOfSplice(pre: string, hook: string, post: string)
    requires !Contains(CHAIN_END, hook)
    requires
      var b := ChainBlock(hook);
      forall i :: 0 <= i < |pre| ==> !OccursAt(CHAIN_END, Spliced(pre, b, post), i)
    ensures
      var b := ChainBlock(hook);
      var r := Spliced(pre, b, post);
      Find(CHAIN_END, r) == |pre| + |b| - |CHAIN_END| && TailStart(r) == |pre| + |b| + 1
  {
    BlockShape(hook);
    EndOfPart(pre, ChainBlock(hook), post);
  }

  lemma EndOfPart(pre: string, b: string, post: string)
    requires |b| >= |CHAIN_END|
    requires OccursAt(CHAIN_END, b, |b| - |CHAIN_END|) && NotBefore(CHAIN_END, b, |b| - |CHAIN_END|)
    requires forall i :: 0 <= i < |pre| ==> !OccursAt(CHAIN_END, Spliced(pre, b, post), i)
    ensures
      var r := Spliced(pre, b, post);
      Contains(CHAIN_END, r) && Find(CHAIN_END, r) == |pre| + |b| - |CHAIN_END| && TailStart(r) == |pre| + |b| + 1
  {
    var r := Spliced(pre, b, post);
    SpliceParts(pre, b, post);
    var e := |pre| + |b| - |CHAIN_END|;
    OccursInPart(CHAIN_END, r, b, |pre|, |b| - |CHAIN_END|);
    forall i | |pre| <= i < e
      ensures !OccursAt(CHAIN_END, r, i)
    {
      OccursInPart(CHAIN_END, r, b, |pre|, i - |pre|);
    }
    FindIs(CHAIN_END, r, e);
  }

  lemma StartOfSplice(pre: string, hook: string, post: string)
    requires
      var b := ChainBlock(hook);
      NotBefore(CHAIN_START, Spliced(pre, b, post), |pre|)
    ensures Find(CHAIN_START, Spliced(pre, ChainBlock(hook), post)) == |pre|
  {
    var b := ChainBlock(hook);
    var r := Spliced(pre, b, post);
    BlockShape(hook);
    SpliceParts(pre, b, post);
    assert r[|pre|..|pre| + |CHAIN_START|] == b[..|CHAIN_START|];
    FindIs(CHAIN_START, r, |pre|);
  }

  // ---- first chaining ----

  lemma FreshSplice(t: string, hook: string)
    requires !Contains(CHAIN_START, t)
    ensures
      var b := ChainBlock(hook);
      var r := Spliced(WithNewline(t), b, []);
      && Chain(t, b) == Ok(r)
      && Find(CHAIN_START, r) == |WithNewline(t)|
      && (forall i :: 0 <= i < |WithNewline(t)| ==> (OccursAt(CHAIN_END, r, i) <==> OccursAt(CHAIN_END, t, i)))
  {
    var b, c := ChainBlock(hook), WithNewline(t);
    var r := Spliced(c, b, []);
    assert r == c + (b + "\n") && r == c + b + "\n";
    NewlineAddsNoMarker(CHAIN_START, t);
    NewlineAddsNoMarker(CHAIN_END, t);
    forall i | 0 <= i < |c|
      ensures !OccursAt(CHAIN_START, r, i)
      ensures OccursAt(CHAIN_END, r, i) <==> OccursAt(CHAIN_END, t, i)
    {
      NoStraddle(CHAIN_START, c, b + "\n", i);
      if OccursAt(CHAIN_END, c, i) {
        OccursInCommonPrefix(CHAIN_END, c, r, |c|, i);
      } else {
        NoStraddle(CHAIN_END, c, b + "\n", i);
      }
    }
    StartOfSplice(c, hook, []);
  }

  /** On a hook with no marker text, cleaning undoes chaining up to the newline it appended, and chaining again
      changes nothing. */
  lemma FreshChainIsUndone(t: string, hook: string)
    requires !Contains(CHAIN_START, t) && !Contains(CHAIN_END, t) && !Contains(CHAIN_END, hook)
    ensures
      var r := Chain(t, ChainBlock(hook));
      && r.Ok? && Clean(r.value) == Ok(Kept(WithNewline(t)))
      && Chain(r.value, ChainBlock(hook)) == r
  {
    var b, c := ChainBlock(hook), WithNewline(t);
    var r := Spliced(c, b, []);
    FreshSplice(t, hook);
    EndOfSplice(c, hook, []);
    SpliceParts(c, b, []);
    assert r[..|c|] + r[TailStart(r)..] == c;
  }

  /** So a hook comes back as it was if it ended with a newline, with one added if it did not, and not at all if it held
      nothing but whitespace. */
  lemma FreshChainLeaves(t: string, hook: string)
    requires !Contains(CHAIN_START, t) && !Contains(CHAIN_END, t) && !Contains(CHAIN_END, hook)
    ensures
      var r := Chain(t, ChainBlock(hook));
      && r.Ok?
      && Clean(r.value) == Ok(if forall k :: 0 <= k < |t| ==> IsSpace(t[k]) then None
                              else if t[|t| - 1] == '\n' then Some(t) else Some(t + "\n"))
  {
    FreshChainIsUndone(t, hook);
    if k :| 0 <= k < |t| && !IsSpace(t[k]) {
      assert WithNewline(t)[k] == t[k];
    }
  }

  // ---- chaining again ----

  /** Replacing what follows the first start marker by a block leaves that marker the first, and the end markers
      before it. */
  lemma Respliced(t: string, b: string, post: string, start: string, end: string)
    requires |end| <= |start| <= |b| && b[..|start|] == start && Contains(start, t)
    ensures
      var s := Find(start, t);
      var r := Spliced(t[..s], b, post);
      && Find(start, r) == s
      && (forall i :: 0 <= i < s ==> (OccursAt(end, r, i) <==> OccursAt(end, t, i)))
  {
    var s := Find(start, t);
    var r := Spliced(t[..s], b, post);
    AgreesThroughMarker(t, s, b, post, start);
    CommonOccurrences(start, t, r, s + |start|);
    CommonOccurrences(end, t, r, s + |start|);
    assert t[s..s + |start|] == start;
    OccursInCommonPrefix(start, t, r, s + |start|, s);
    FindIs(start, r, s);
  }

  lemma MarkerLengths()
    ensures 0 < |CHAIN_END| < |CHAIN_START|
  {
  }

  /** With the start marker first, the text splits into what is before the block, the block, and what follows. */
  lemma ResplicedText(t: string, hook: string)
    requires Contains(CHAIN_START, t) && Contains(CHAIN_END, t) && !EndComesFirst(t)
    ensures
      var b, s := ChainBlock(hook), Find(CHAIN_START, t);
      var r := Spliced(t[..s], b, t[TailStart(t)..]);
      && Chain(t, b) == Ok(r) && Find(CHAIN_START, r) == s
      && (!Contains(CHAIN_END, hook) ==> Contains(CHAIN_END, r) && TailStart(r) == s + |b| + 1)
  {
    var b, s := ChainBlock(hook), Find(CHAIN_START, t);
    BlockShape(hook);
    MarkerLengths();
    MarkersDiffer(t, s);
    Respliced(t, b, t[TailStart(t)..], CHAIN_START, CHAIN_END);
    if !Contains(CHAIN_END, hook) {
      EndOfSplice(t[..s], hook, t[TailStart(t)..]);
    }
  }

  lemma MarkersDiffer(t: string, i: int)
    requires OccursAt(CHAIN_START, t, i)
    ensures !OccursAt(CHAIN_END, t, i)
  {
    MarkerFacts();
    if OccursAt(CHAIN_END, t, i) {
      OccurrenceCovers(CHAIN_START, t, i, i + 6);
      OccurrenceCovers(CHAIN_END, t, i, i + 6);
    }
  }

  /** Replacing what follows a start marker by a block keeps the text through that marker. */
  lemma AgreesThroughMarker(t: string, s: nat, b: string, post: string, start: string)
    requires OccursAt(start, t, s) && |b| >= |start| && b[..|start|] == start
    ensures
      var r := Spliced(t[..s], b, post);
      s + |start| <= |r| && t[..s + |start|] == r[..s + |start|]
  {
    var r := Spliced(t[..s], b, post);
    var n := |start|;
    assert t[..s + n] == t[..s] + t[s..s + n];
    assert r[..s + n] == t[..s] + b[..n];
  }

  /** Re-chaining replaces only the block: it is stable, and cleaning it is cleaning the original. */
  lemma RechainReplacesBlock(t: string, hook: string)
    requires Contains(CHAIN_START, t) && Contains(CHAIN_END, t) && !EndComesFirst(t) && !Contains(CHAIN_END, hook)
    ensures
      var r := Chain(t, ChainBlock(hook));
      && r.Ok? && Clean(r.value) == Clean(t) && Chain(r.value, ChainBlock(hook)) == r
  {
    var b, s := ChainBlock(hook), Find(CHAIN_START, t);
    var post := t[TailStart(t)..];
    ResplicedText(t, hook);
    SpliceParts(t[..s], b, post);
  }

  // ---- a text whose end marker comes first is not stable ----

  /** The first end marker ends before the first start marker begins. */
  lemma EndBeforeStart(t: string)
    requires Contains(CHAIN_START, t) && Contains(CHAIN_END, t) && Find(CHAIN_END, t) < Find(CHAIN_START, t)
    ensures TailStart(t) <= Find(CHAIN_START, t)
  {
    MarkerFacts();
    var s, e := Find(CHAIN_START, t), Find(CHAIN_END, t);
    OccurrenceCovers(CHAIN_START, t, s, s);
    if e + |CHAIN_END| > s {
      OccurrenceCovers(CHAIN_END, t, e, s);
    }
  }

  lemma EndFirstGrows(t: string, block: string)
    requires Contains(CHAIN_START, t) && Contains(CHAIN_END, t) && Find(CHAIN_END, t) < Find(CHAIN_START, t)
    ensures Chain(t, block).Ok? && |Chain(t, block).value| > |t|
  {
    EndBeforeStart(t);
  }

  lemma EndStaysFirstInBlock(t: string, hook: string)
    requires Contains(CHAIN_START, t) && EndComesFirst(t)
    ensures
      var r := Chain(t, ChainBlock(hook));
      && r.Ok? && Contains(CHAIN_START, r.value) && Contains(CHAIN_END, r.value)
      && Find(CHAIN_END, r.value) == Find(CHAIN_END, t) < Find(CHAIN_START, r.value)
  {
    var s, e, post := Find(CHAIN_START, t), Find(CHAIN_END, t), t[TailStart(t)..];
    BlockShape(hook);
    MarkerLengths();
    Respliced(t, ChainBlock(hook), post, CHAIN_START, CHAIN_END);
    FirstOfSame(CHAIN_END, t, Spliced(t[..s], ChainBlock(hook), post), s);
  }

  lemma FirstOfSame(p: string, t: string, r: string, n: nat)
    requires Contains(p, t) && Find(p, t) < n && forall i :: 0 <= i < n ==> (OccursAt(p, r, i) <==> OccursAt(p, t, i))
    ensures Contains(p, r) && Find(p, r) == Find(p, t)
  {
    FindIs(p, r, Find(p, t));
  }

  /** Chaining a text whose end marker comes first gives a text with both markers in that same order. */
  lemma EndStaysFirst(t: string, hook: string)
    requires EndComesFirst(t)
    ensures
      var r := Chain(t, ChainBlock(hook));
      && r.Ok? && Contains(CHAIN_START, r.value) && Contains(CHAIN_END, r.value)
      && Find(CHAIN_END, r.value) == Find(CHAIN_END, t) < Find(CHAIN_START, r.value)
  {
    if Contains(CHAIN_START, t) {
      EndStaysFirstInBlock(t, hook);
    } else {
      var c := WithNewline(t);
      FreshSplice(t, hook);
      BlockShape(hook);
      assert Find(CHAIN_END, t) < |c|;
      FindIs(CHAIN_END, Spliced(c, ChainBlock(hook), []), Find(CHAIN_END, t));
    }
  }

  // ---- nor is a block whose hook name holds the end marker ----

  lemma EndsInside(pre: string, b: string, post: string, end: string)
    requires 0 < |end| <= |b| && OccursAt(end, b, |b| - |end|) && !NotBefore(end, b, |b| - |end|)
    ensures
      var r := Spliced(pre, b, post);
      && Contains(end, r) && Find(end, r) + |end| < |pre| + |b|
      && |pre| + |b| <= |r| && r[|pre| + |b| - 1] == end[|end| - 1]
  {
    var r := Spliced(pre, b, post);
    SpliceParts(pre, b, post);
    var i :| 0 <= i < |b| - |end| && OccursAt(end, b, i);
    OccursInPart(end, r, b, |pre|, i);
    OccursInPart(end, r, b, |pre|, |b| - |end|);
    OccurrenceCovers(end, r, |pre| + |b| - |end|, |pre| + |b| - 1);
  }

  /** The first end marker ends inside the block. */
  lemma NameEndsBlock(pre: string, hook: string, post: string)
    requires Contains(CHAIN_END, hook)
    ensures
      var b := ChainBlock(hook);
      var r := Spliced(pre, b, post);
      && Contains(CHAIN_END, r) && TailStart(r) < |pre| + |b| && r[|pre| + |b| - 1] == '-'
  {
    BlockShape(hook);
    EndsInside(pre, ChainBlock(hook), post, CHAIN_END);
    LastOfEnd();
    TailBefore(Spliced(pre, ChainBlock(hook), post), |pre| + |ChainBlock(hook)|);
  }

  lemma LastOfEnd()
    ensures 0 < |CHAIN_END| && CHAIN_END[|CHAIN_END| - 1] == '-'
  {
  }

  lemma TailBefore(r: string, n: nat)
    requires Contains(CHAIN_END, r) && Find(CHAIN_END, r) + |CHAIN_END| < n <= |r| && r[n - 1] != '\n'
    ensures TailStart(r) < n
  {
  }

  lemma NameGrows(pre: string, hook: string, post: string)
    requires Contains(CHAIN_END, hook) && Find(CHAIN_START, Spliced(pre, ChainBlock(hook), post)) == |pre|
    ensures
      var r := Spliced(pre, ChainBlock(hook), post);
      Chain(r, ChainBlock(hook)).Ok? && |Chain(r, ChainBlock(hook)).value| > |r|
  {
    NameEndsBlock(pre, hook, post);
    SpliceParts(pre, ChainBlock(hook), post);
  }

  // ---- exactly when ----

  /** Chaining fails exactly on a start marker without an end marker. Where it does not fail, it is idempotent exactly
      when neither an end marker comes first in the text nor the hook's name holds one. */
  lemma ChainIdempotentExactly(t: string, hook: string)
    ensures
      var once := Chain(t, ChainBlock(hook));
      && (once.Err? <==> Contains(CHAIN_START, t) && !Contains(CHAIN_END, t))
      && (once.Ok? ==>
            (Chain(once.value, ChainBlock(hook)) == once <==> !EndComesFirst(t) && !Contains(CHAIN_END, hook)))
  {
    if EndComesFirst(t) {
      EndStaysFirst(t, hook);
      EndFirstGrows(Chain(t, ChainBlock(hook)).value, ChainBlock(hook));
    } else if Chain(t, ChainBlock(hook)).Ok? && Contains(CHAIN_START, t) {
      ResplicedText(t, hook);
      if Contains(CHAIN_END, hook) {
        NameGrows(t[..Find(CHAIN_START, t)], hook, t[TailStart(t)..]);
      } else {
        RechainReplacesBlock(t, hook);
      }
    } else if Chain(t, ChainBlock(hook)).Ok? {
      FreshSplice(t, hook);
      if Contains(CHAIN_END, hook) {
        NameGrows(WithNewline(t), hook, []);
      } else {
        FreshChainIsUndone(t, hook);
      }
    }
  }

  /** The end marker alone in a hook: every merge makes the hook longer. */
  lemma EndMarkerAloneGrows()
    ensures
      var block := ChainBlock("pre-commit");
      var once := Chain(CHAIN_END, block);
      once.Ok? && Chain(once.value, block).Ok? && Chain(once.value, block).value != once.value
  {
    FindIs(CHAIN_END, CHAIN_END, 0);
    assert !Contains(CHAIN_START, CHAIN_END);
    EndStaysFirst(CHAIN_END, "pre-commit");
    EndFirstGrows(Chain(CHAIN_END, ChainBlock("pre-commit")).value, ChainBlock("pre-commit"));
  }

  /** Cleaning a freshly chained hook gives the hook back, up to one newline, exactly when neither the hook nor its name
      holds an end marker. */
  lemma CleanUndoesChainExactly(t: string, hook: string)
    requires !Contains(CHAIN_START, t)
    ensures Clean(Chain(t, ChainBlock(hook)).value) == Ok(Kept(WithNewline(t))) <==>
            !Contains(CHAIN_END, t) && !Contains(CHAIN_END, hook)
  {
    if Contains(CHAIN_END, t) {
      FreshSplice(t, hook);
      EndStaysFirst(t, hook);
      MarkerIsNotBlank(t);
      CleanLeavesMore(Chain(t, ChainBlock(hook)).value);
    } else if Contains(CHAIN_END, hook) {
      FreshSplice(t, hook);
      CleanLeavesBlock(WithNewline(t), hook);
    } else {
      FreshChainIsUndone(t, hook);
    }
  }

  lemma CleanLeavesBlock(c: string, hook: string)
    requires Contains(CHAIN_END, hook) && Find(CHAIN_START, Spliced(c, ChainBlock(hook), [])) == |c|
    ensures
      var r := Clean(Spliced(c, ChainBlock(hook), []));
      r.Ok? && r.value.Some? && |r.value.value| > |c|
  {
    var b := ChainBlock(hook);
    var r := Spliced(c, b, []);
    NameEndsBlock(c, hook, []);
    SpliceParts(c, b, []);
    var kept := r[..|c|] + r[TailStart(r)..];
    assert kept[|c| + (|c| + |b| - 1 - TailStart(r))] == r[|c| + |b| - 1];
  }

  lemma MarkerIsNotBlank(t: string)
    requires Contains(CHAIN_END, t)
    ensures !IsBlank(WithNewline(t))
  {
    MarkerFacts();
    var e := Find(CHAIN_END, t);
    OccurrenceCovers(CHAIN_END, t, e, e);
    assert WithNewline(t)[e] == '#';
  }

  /** Cleaning a text whose end marker comes first repeats text instead of removing it. */
  lemma CleanLeavesMore(r: string)
    requires Contains(CHAIN_START, r) && Contains(CHAIN_END, r) && Find(CHAIN_END, r) < Find(CHAIN_START, r)
    ensures
      var kept := Clean(r).value;
      kept.Some? ==> |kept.value| > Find(CHAIN_START, r)
  {
    EndBeforeStart(r);
  }

  // ---- the hooks directory ----

  const SHEBANG := "#!/bin/bash\n"
  const HOOK_NAMES := ["pre-commit", "pre-push"]

  /** A shipped hook file. */
  datatype Hook = Hook(name: string, body: string)

  type Files = map<string, string>

  /** Installs `hf-<name>` and chains it; the flag is false when the marker search fails. */
  function ChainOne(files: Files, h: Hook): (Files, bool) {
    var block := ChainBlock(h.name);
    var copied := files["hf-" + h.name := h.body];
    if h.name !in copied then (copied[h.name := SHEBANG + block + "\n"], true)
    else
      var r := Chain(copied[h.name], block);
      if r.Ok? then (copied[h.name := r.value], true) else (copied, false)
  }

  function ChainAll(files: Files, hooks: seq<Hook>): (Files, bool) {
    if hooks == [] then (files, true)
    else
      var r := ChainAll(files, hooks[..|hooks| - 1]);
      if r.1 then ChainOne(r.0, hooks[|hooks| - 1]) else r
  }

  function CleanOne(files: Files, name: string): (Files, bool) {
    if name !in files then (files, true)
    else
      var r := Clean(files[name]);
      if r.Err? then (files, false)
      else if r.value.Some? then (files[name := r.value.value], true) else (files - {name}, true)
  }

  function CleanAll(files: Files, names: seq<string>): (Files, bool) {
    if names == [] then (files, true)
    else
      var r := CleanAll(files, names[..|names| - 1]);
      if r.1 then CleanOne(r.0, names[|names| - 1]) else r
  }

  class HookDir {
    var files: Files

    constructor (files: Files)
      ensures this.files == files
    {
      this.files := files;
    }

    method ChainHooks(hooks: seq<Hook>) returns (ok: bool)
      modifies this
      ensures (files, ok) == ChainAll(old(files), hooks)
    {
      for i := 0 to |hooks|
        invariant (files, true) == ChainAll(old(files), hooks[..i])
      {
        var name, block := hooks[i].name, ChainBlock(hooks[i].name);
        assert hooks[..i + 1][..i] == hooks[..i];
        files := files["hf-" + name := hooks[i].body];
        if name !in files {
          files := files[name := SHEBANG + block + "\n"];
        } else {
          var content := files[name];
          if Contains(CHAIN_START, content) {
            if !Contains(CHAIN_END, content) {
              FailedPrefix(old(files), hooks, i);
              return false;
            }
            var start, tail := Find(CHAIN_START, content), TailStart(content);
            content := content[..start] + block + "\n" + content[tail..];
          } else {
            content := WithNewline(content) + block + "\n";
          }
          files := files[name := content];
        }
      }
      assert hooks[..|hooks|] == hooks;
      ok := true;
    }

    method CleanHooks() returns (ok: bool)
      modifies this
      ensures (files, ok) == CleanAll(old(files), HOOK_NAMES)
    {
      for i := 0 to |HOOK_NAMES|
        invariant (files, true) == CleanAll(old(files), HOOK_NAMES[..i])
      {
        var name := HOOK_NAMES[i];
        assert HOOK_NAMES[..i + 1][..i] == HOOK_NAMES[..i];
        if name in files {
          var r := Clean(files[name]);
          if r.Err? {
            FailedClean(old(files), HOOK_NAMES, i);
            return false;
          }
          files := if r.value.Some? then files[name := r.value.value] else files - {name};
        }
      }
      assert HOOK_NAMES[..|HOOK_NAMES|] == HOOK_NAMES;
      ok := true;
    }
  }

  /** Nothing after a failed hook is touched. */
  lemma {:induction false} FailedPrefix(files: Files, hooks: seq<Hook>, i: nat)
    requires i < |hooks| && !ChainAll(files, hooks[..i + 1]).1
    ensures ChainAll(files, hooks) == ChainAll(files, hooks[..i + 1])
  {
    if i + 1 == |hooks| {
      assert hooks[..i + 1] == hooks;
    } else {
      var init := hooks[..|hooks| - 1];
      assert init[..i + 1] == hooks[..i + 1];
      FailedPrefix(files, init, i);
    }
  }

  lemma {:induction false} FailedClean(files: Files, names: seq<string>, i: nat)
    requires i < |names| && !CleanAll(files, names[..i + 1]).1
    ensures CleanAll(files, names) == CleanAll(files, names[..i + 1])
  {
    if i + 1 == |names| {
      assert names[..i + 1] == names;
    } else {
      var init := names[..|names| - 1];
      assert init[..i + 1] == names[..i + 1];
      FailedClean(files, init, i);
    }
  }

  /** A hook that did not exist before is not removed by cleaning: its first line stays behind. */
  lemma DispatcherLeavesItsFirstLine(hook: string)
    requires !Contains(CHAIN_END, hook)
    ensures Clean(SHEBANG + ChainBlock(hook) + "\n") == Ok(Some(SHEBANG))
  {
    MarkerFacts();
    assert |SHEBANG| == 12 && SHEBANG[11] == '\n' && SHEBANG[0] == '#';
    assert WithNewline(SHEBANG) == SHEBANG;
    FreshChainIsUndone(SHEBANG, hook);
    assert !IsBlank(SHEBANG);
  }
}
