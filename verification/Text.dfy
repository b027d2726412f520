/** String facts the other modules share: Python's whitespace and `strip`, decimal rendering,
    and where a pattern can occur in a spliced text. */
module Text {

  /** The characters `str.strip` removes. */
  predicate IsSpace(c: char) {
    || c == ' ' || '\t' <= c <= '\r' || '\U{1C}' <= c <= '\U{1F}' || c == '\U{85}' || c == '\U{A0}'
    || c == '\U{1680}' || '\U{2000}' <= c <= '\U{200A}' || c == '\U{2028}' || c == '\U{2029}'
    || c == '\U{202F}' || c == '\U{205F}' || c == '\U{3000}'
  }

  predicate IsBlank(s: string) {
    forall i :: 0 <= i < |s| ==> IsSpace(s[i])
  }

  /** No whitespace at either end. */
  predicate IsTrimmed(s: string) {
    s == [] || (!IsSpace(s[0]) && !IsSpace(s[|s| - 1]))
  }

  function StripLeft(s: string): string {
    if s != [] && IsSpace(s[0]) then StripLeft(s[1..]) else s
  }

  function StripRight(s: string): string {
    if s != [] && IsSpace(s[|s| - 1]) then StripRight(s[..|s| - 1]) else s
  }

  function Strip(s: string): string {
    StripRight(StripLeft(s))
  }

  lemma {:induction false} StripLeftSplits(s: string) returns (pre: string)
    ensures s == pre + StripLeft(s) && IsBlank(pre)
    ensures StripLeft(s) != [] ==> !IsSpace(StripLeft(s)[0])
  {
    if s != [] && IsSpace(s[0]) {
      var p := StripLeftSplits(s[1..]);
      pre := [s[0]] + p;
    } else {
      pre := [];
    }
  }

  lemma {:induction false} StripRightSplits(s: string) returns (post: string)
    ensures s == StripRight(s) + post && IsBlank(post)
    ensures StripRight(s) != [] ==> !IsSpace(StripRight(s)[|StripRight(s)| - 1])
  {
    if s != [] && IsSpace(s[|s| - 1]) {
      var p := StripRightSplits(s[..|s| - 1]);
      post := p + [s[|s| - 1]];
    } else {
      post := [];
    }
  }

  /** Stripping removes blank ends and nothing else, and what is left is trimmed. */
  lemma StripSplits(s: string) returns (pre: string, post: string)
    ensures s == pre + Strip(s) + post
    ensures IsBlank(pre) && IsBlank(post) && IsTrimmed(Strip(s))
  {
    pre := StripLeftSplits(s);
    post := StripRightSplits(StripLeft(s));
    if Strip(s) != [] {
      assert StripLeft(s)[0] == Strip(s)[0];
    }
  }

  lemma StripTrimmed(s: string)
    requires IsTrimmed(s)
    ensures Strip(s) == s
  {
  }

  lemma {:induction false} StripLeftBlank(pre: string, s: string)
    requires IsBlank(pre)
    ensures StripLeft(pre + s) == StripLeft(s)
  {
    if pre == [] {
      assert pre + s == s;
    } else {
      assert (pre + s)[1..] == pre[1..] + s;
      StripLeftBlank(pre[1..], s);
    }
  }

  /** Stripping cannot pass a character that is not a space. */
  lemma StripReaches(s: string, i: nat)
    requires i < |s| && !IsSpace(s[0]) && !IsSpace(s[i])
    ensures i < |Strip(s)|
  {
    var post := StripRightSplits(s);
    forall k | |Strip(s)| <= k < |s|
      ensures IsSpace(s[k])
    {
      assert s[k] == post[k - |Strip(s)|];
    }
  }

  // ---- decimal rendering ----

  const DIGITS: string := "0123456789"

  function Decimal(n: nat): string {
    if n < 10 then [DIGITS[n]] else Decimal(n / 10) + [DIGITS[n % 10]]
  }

  function Signed(n: int): string {
    if n < 0 then "-" + Decimal(-n) else Decimal(n)
  }

  lemma {:induction false} DecimalInjective(m: nat, n: nat)
    requires Decimal(m) == Decimal(n)
    ensures m == n
  {
    if m >= 10 && n >= 10 {
      var a, b := Decimal(m / 10), Decimal(n / 10);
      assert a == Decimal(m)[..|Decimal(m)| - 1];
      assert b == Decimal(n)[..|Decimal(n)| - 1];
      DecimalInjective(m / 10, n / 10);
      assert Decimal(m)[|Decimal(m)| - 1] == DIGITS[m % 10];
      assert Decimal(n)[|Decimal(n)| - 1] == DIGITS[n % 10];
      DigitsDistinct(m % 10, n % 10);
    } else {
      DecimalNonempty(m / 10);
      DecimalNonempty(n / 10);
      assert m < 10 && n < 10;
      assert Decimal(m)[0] == Decimal(n)[0];
      DigitsDistinct(m, n);
    }
  }

  lemma DigitsDistinct(i: nat, j: nat)
    requires i < 10 && j < 10 && DIGITS[i] == DIGITS[j]
    ensures i == j
  {
  }

  lemma DecimalNonempty(n: nat)
    ensures |Decimal(n)| >= 1
    ensures Decimal(n)[0] != '-'
  {
  }

  lemma LastDigit(n: nat)
    ensures |Decimal(n)| >= 1 && '0' <= Decimal(n)[|Decimal(n)| - 1] <= '9'
  {
    assert Decimal(n)[|Decimal(n)| - 1] == DIGITS[n % 10];
  }

  lemma SignedInjective(m: int, n: int)
    requires Signed(m) == Signed(n)
    ensures m == n
  {
    DecimalNonempty(if m < 0 then -m else m);
    DecimalNonempty(if n < 0 then -n else n);
    assert Signed(m)[0] == Signed(n)[0];
    if m < 0 {
      assert Signed(m)[1..] == Decimal(-m) && Signed(n)[1..] == Decimal(-n);
      DecimalInjective(-m, -n);
    } else {
      DecimalInjective(m, n);
    }
  }

  // ---- case ----

  /** Lower case, as far as ASCII words can tell: only the ASCII capitals, the dotted capital I and the
      Kelvin sign have a lower-case form with ASCII letters in it. */
  function LowerChar(c: char): string {
    if 'A' <= c <= 'Z' then [c + 32 as char]
    else if c == '\U{130}' then ['i', '\U{307}']
    else if c == '\U{212A}' then ['k']
    else [c]
  }

  function Lower(s: string): string {
    if s == [] then [] else LowerChar(s[0]) + Lower(s[1..])
  }
}
