/** The string primitives the widget relies on: `String.prototype.trim`,
    `toLowerCase` (ASCII letters only), `String.prototype.includes`, and the
    decimal rendering of a line number in a template literal. */
module Text {

  /** The code points `trim` strips: the WhiteSpace and LineTerminator
      productions of the ECMAScript language specification (ECMA-262). */
  predicate IsWhitespace(c: char) {
    || c == '\t' || c == '\n' || c == '\U{000B}' || c == '\U{000C}' || c == '\r'
    || c == ' ' || c == '\U{00A0}' || c == '\U{1680}'
    || ('\U{2000}' <= c <= '\U{200A}')
    || c == '\U{2028}' || c == '\U{2029}' || c == '\U{202F}' || c == '\U{205F}'
    || c == '\U{3000}' || c == '\U{FEFF}'
  }

  predicate AllWhitespace(s: string) {
    forall i :: 0 <= i < |s| ==> IsWhitespace(s[i])
  }

  /** No white space at either end. */
  predicate IsTrimmed(s: string) {
    s == [] || (!IsWhitespace(s[0]) && !IsWhitespace(s[|s| - 1]))
  }

  /** Number of white-space characters at the front of `s`. */
  function LeadingSpace(s: string): (k: nat)
    ensures k <= |s|
    ensures forall i :: 0 <= i < k ==> IsWhitespace(s[i])
    ensures k < |s| ==> !IsWhitespace(s[k])
    decreases |s|
  {
    if s == [] || !IsWhitespace(s[0]) then 0 else 1 + LeadingSpace(s[1..])
  }

  /** Number of white-space characters at the back of `s`. */
  function TrailingSpace(s: string): (k: nat)
    ensures k <= |s|
    ensures forall i :: |s| - k <= i < |s| ==> IsWhitespace(s[i])
    ensures k < |s| ==> !IsWhitespace(s[|s| - 1 - k])
    decreases |s|
  {
    if s == [] || !IsWhitespace(s[|s| - 1]) then 0 else 1 + TrailingSpace(s[..|s| - 1])
  }

  /** `s` is `core` with white space only before index `a` and after the
      occurrence of `core` there. */
  predicate PaddedAt(s: string, core: string, a: int) {
    OccursAt(core, s, a) && AllWhitespace(s[..a]) && AllWhitespace(s[a + |core|..])
  }

  /** `s.trim()`: the input with its white-space padding at both ends
      removed. */
  function Trim(s: string): (r: string)
    ensures |r| <= |s|
    ensures IsTrimmed(r)
    ensures r == [] <==> AllWhitespace(s)
    ensures forall c :: c in r ==> c in s
    ensures exists a :: PaddedAt(s, r, a)
  {
    var a := LeadingSpace(s);
    var rest := s[a..];
    var b := TrailingSpace(rest);
    assert rest != [] ==> !IsWhitespace(rest[0]);
    var r := rest[..|rest| - b];
    assert s[a..a + |r|] == r;
    assert s[a + |r|..] == rest[|rest| - b..];
    assert PaddedAt(s, r, a);
    r
  }

  /** Trim removes exactly the white-space padding around a trimmed core:
      this pins down its result for every input. */
  lemma TrimPadding(pre: string, core: string, post: string)
    requires AllWhitespace(pre) && AllWhitespace(post) && IsTrimmed(core)
    ensures Trim(pre + core + post) == core
  {
    var s := pre + core + post;
    if core == [] {
      assert AllWhitespace(s) by {
        forall i | 0 <= i < |s| ensures IsWhitespace(s[i]) {
          if i < |pre| { assert s[i] == pre[i]; } else { assert s[i] == post[i - |pre|]; }
        }
      }
    } else {
      LeadingOfPadded(pre, core, post);
      var rest := s[|pre|..];
      assert rest == core + post;
      TrailingOfPadded(core, post);
      assert rest[..|rest| - |post|] == core;
    }
  }

  lemma {:induction false} LeadingOfPadded(pre: string, core: string, post: string)
    requires AllWhitespace(pre) && core != [] && !IsWhitespace(core[0])
    ensures LeadingSpace(pre + core + post) == |pre|
    decreases |pre|
  {
    var s := pre + core + post;
    if pre == [] {
      assert s[0] == core[0];
    } else {
      assert s[0] == pre[0];
      assert s[1..] == pre[1..] + core + post;
      LeadingOfPadded(pre[1..], core, post);
    }
  }

  lemma {:induction false} TrailingOfPadded(core: string, post: string)
    requires AllWhitespace(post) && core != [] && !IsWhitespace(core[|core| - 1])
    ensures TrailingSpace(core + post) == |post|
    decreases |post|
  {
    var s := core + post;
    if post == [] {
      assert s == core;
    } else {
      assert s[|s| - 1] == post[|post| - 1];
      assert s[..|s| - 1] == core + post[..|post| - 1];
      TrailingOfPadded(core, post[..|post| - 1]);
    }
  }

  /** Trimming twice is trimming once. */
  lemma TrimIdempotent(s: string)
    ensures Trim(Trim(s)) == Trim(s)
  {
    var r := Trim(s);
    TrimPadding([], r, []);
    assert [] + r + [] == r;
  }

  /** `toLowerCase` restricted to the ASCII letters: `A`-`Z` become
      `a`-`z`, every other character is kept. */
  function LowerChar(c: char): (d: char)
    ensures !('A' <= d <= 'Z')
    ensures 'a' <= d <= 'z' <==> 'A' <= c <= 'Z' || 'a' <= c <= 'z'
    ensures 'A' <= c <= 'Z' ==> d as int == c as int - 'A' as int + 'a' as int
    ensures !('A' <= c <= 'Z') ==> d == c
  {
    if 'A' <= c <= 'Z' then (c as int + 32) as char else c
  }

  function Lower(s: string): (r: string)
    ensures |r| == |s|
    ensures forall i :: 0 <= i < |s| ==> r[i] == LowerChar(s[i])
  {
    seq(|s|, i requires 0 <= i < |s| => LowerChar(s[i]))
  }

  /** `q` occurs in `s` starting at index `i`. */
  predicate OccursAt(q: string, s: string, i: int) {
    0 <= i && i + |q| <= |s| && s[i..i + |q|] == q
  }

  /** `q` occurs in `s` as a contiguous block. */
  ghost predicate IsInfix(q: string, s: string) {
    exists i :: OccursAt(q, s, i)
  }

  lemma InfixStep(q: string, s: string)
    ensures IsInfix(q, s) <==>
      (|q| <= |s| && s[..|q|] == q) || (s != [] && IsInfix(q, s[1..]))
  {
    if IsInfix(q, s) {
      var i :| OccursAt(q, s, i);
      if i > 0 {
        assert s[1..][i - 1..i - 1 + |q|] == q;
        assert OccursAt(q, s[1..], i - 1);
      }
    }
    if s != [] && IsInfix(q, s[1..]) {
      var i :| OccursAt(q, s[1..], i);
      assert s[i + 1..i + 1 + |q|] == q;
      assert OccursAt(q, s, i + 1);
    }
    if |q| <= |s| && s[..|q|] == q {
      assert s[0..0 + |q|] == q;
      assert OccursAt(q, s, 0);
    }
  }

  /** `s.includes(q)`. */
  function Includes(s: string, q: string): (b: bool)
    ensures b <==> IsInfix(q, s)
    decreases |s|
  {
    InfixStep(q, s);
    if |q| <= |s| && s[..|q|] == q then true
    else if s == [] then false
    else Includes(s[1..], q)
  }

  function DigitChar(d: nat): (c: char)
    requires d < 10
    ensures '0' <= c <= '9'
  {
    (48 + d) as char
  }

  predicate IsDigits(s: string) {
    forall i :: 0 <= i < |s| ==> '0' <= s[i] <= '9'
  }

  /** The number a string of decimal digits denotes. */
  function DigitsValue(s: string): nat
    requires IsDigits(s)
    decreases |s|
  {
    if s == [] then 0 else 10 * DigitsValue(s[..|s| - 1]) + (s[|s| - 1] as int - 48)
  }

  /** Decimal rendering of a natural number, as `${n}` produces it. */
  function NatToString(n: nat): (r: string)
    ensures r != [] && IsDigits(r)
    ensures r[0] == '0' ==> r == "0"
    ensures DigitsValue(r) == n
    decreases n
  {
    if n < 10 then [DigitChar(n)]
    else
      var p := NatToString(n / 10);
      var r := p + [DigitChar(n % 10)];
      assert r[..|r| - 1] == p;
      assert DigitsValue("0") == 0;
      assert r[0] == p[0];
      r
  }
}
