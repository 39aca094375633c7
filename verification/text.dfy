/** The Python `str` primitives the configuration code relies on: `strip()`, `isdigit()`,
    `str(int)`, `startswith`, the substring operator `in` and `splitlines()`. */
module Text {

  /** Python's `str.isspace` for one character: the whitespace `strip()` removes. */
  predicate IsSpace(c: char) {
    var n := c as int;
    || n == 0x20 || 0x09 <= n <= 0x0d || 0x1c <= n <= 0x1f
    || n == 0x85 || n == 0xa0 || n == 0x1680 || 0x2000 <= n <= 0x200a
    || n == 0x2028 || n == 0x2029 || n == 0x202f || n == 0x205f || n == 0x3000
  }

  /** `s.lstrip()`: what is left after dropping the leading whitespace. */
  function TrimLeft(s: string): (r: string)
    ensures |r| <= |s| && r == s[|s| - |r|..]
    ensures forall j :: 0 <= j < |s| - |r| ==> IsSpace(s[j])
    ensures r == [] || !IsSpace(r[0])
  {
    if |s| > 0 && IsSpace(s[0]) then TrimLeft(s[1..]) else s
  }

  /** `s.rstrip()`: what is left after dropping the trailing whitespace. */
  function TrimRight(s: string): (r: string)
    ensures |r| <= |s| && r == s[..|r|]
    ensures forall j :: |r| <= j < |s| ==> IsSpace(s[j])
    ensures r == [] || !IsSpace(r[|r| - 1])
  {
    if |s| > 0 && IsSpace(s[|s| - 1]) then TrimRight(s[..|s| - 1]) else s
  }

  /** No whitespace at either end: what `strip()` leaves. */
  predicate Stripped(s: string) {
    s == [] || (!IsSpace(s[0]) && !IsSpace(s[|s| - 1]))
  }

  /** `s.strip()`: `s` without its leading and trailing whitespace. The result occurs in `s`
      at some index with only whitespace before and after it, and has no whitespace at
      either end, which fixes it; it is empty exactly when `s` is whitespace only. */
  function Trim(s: string): (r: string)
    ensures |r| <= |s|
    ensures Stripped(r)
    ensures exists i :: AmidSpace(s, r, i)
    ensures r == [] <==> forall j :: 0 <= j < |s| ==> IsSpace(s[j])
  {
    TrimParts(s);
    TrimRight(TrimLeft(s))
  }

  /** `r` occurs in `s` at `i` with only whitespace before and after it. */
  predicate AmidSpace(s: string, r: string, i: int) {
    && OccursAt(s, r, i)
    && (forall j :: 0 <= j < i ==> IsSpace(s[j]))
    && (forall j :: i + |r| <= j < |s| ==> IsSpace(s[j]))
  }

  /** The facts behind `Trim`, about the right-trimmed left-trimmed text. */
  lemma {:induction false} TrimParts(s: string)
    ensures var r := TrimRight(TrimLeft(s));
            && Stripped(r)
            && AmidSpace(s, r, |s| - |TrimLeft(s)|)
            && (r == [] <==> forall j :: 0 <= j < |s| ==> IsSpace(s[j]))
  {
    var l := TrimLeft(s);
    var r := TrimRight(l);
    var i := |s| - |l|;
    TrimRightOccurs(s, i, l);
    TrimRightTail(s, i, l);
    assert AmidSpace(s, r, i);
    TrimEmpty(s);
  }

  /** Right-trimming the suffix `l` of `s` that starts at `i` leaves a text occurring at `i`. */
  lemma {:induction false} TrimRightOccurs(s: string, i: nat, l: string)
    requires i <= |s| && s[i..] == l
    ensures OccursAt(s, TrimRight(l), i)
  {
    var r := TrimRight(l);
    assert l[..|r|] == r;
    assert s[i..i + |r|] == l[..|r|];
  }

  /** What right-trimming drops from the suffix `l` of `s` that starts at `i` is whitespace. */
  lemma {:induction false} TrimRightTail(s: string, i: nat, l: string)
    requires i <= |s| && s[i..] == l
    ensures forall j :: i + |TrimRight(l)| <= j < |s| ==> IsSpace(s[j])
  {
    var r := TrimRight(l);
    forall j | i + |r| <= j < |s|
      ensures IsSpace(s[j])
    {
      assert s[j] == l[j - i];
    }
  }

  /** Stripping leaves nothing exactly when the text is whitespace only. */
  lemma {:induction false} TrimEmpty(s: string)
    ensures TrimRight(TrimLeft(s)) == [] <==> forall j :: 0 <= j < |s| ==> IsSpace(s[j])
  {
    var l := TrimLeft(s);
    var r := TrimRight(l);
    if r == [] {
      assert l == [];
    } else {
      assert l[0] == r[0];
      assert s[|s| - |l|] == l[0];
    }
  }

  /** Concatenation regrouped to the right. */
  lemma ConcatAssoc(a: string, b: string, c: string)
    ensures a + b + c == a + (b + c)
  {
  }

  /** Text that is already stripped is its own stripped form. */
  lemma {:induction false} TrimUnchanged(s: string)
    requires Stripped(s)
    ensures Trim(s) == s
  {
    assert TrimLeft(s) == s;
    assert TrimRight(s) == s;
  }

  predicate IsAsciiDigit(c: char) {
    '0' as int <= c as int <= '9' as int
  }

  /** `s.isdigit()`, restricted to the ASCII digits: non-empty and digits only. */
  predicate IsDigits(s: string) {
    |s| > 0 && forall i :: 0 <= i < |s| ==> IsAsciiDigit(s[i])
  }

  function DigitChar(d: nat): (c: char)
    requires d < 10
    ensures IsAsciiDigit(c) && (c as int) - ('0' as int) == d
  {
    (('0' as int) + d) as char
  }

  /** `str(n)` for a non-negative integer: its decimal digits, without leading zeros. */
  function NatStr(n: nat): (r: string)
    ensures IsDigits(r)
    ensures |r| > 1 ==> r[0] != '0'
  {
    if n < 10 then [DigitChar(n)] else NatStr(n / 10) + [DigitChar(n % 10)]
  }

  /** The number a digit string denotes; the inverse of `NatStr`. */
  function DigitsValue(s: string): nat
    requires forall i :: 0 <= i < |s| ==> IsAsciiDigit(s[i])
  {
    if |s| == 0 then 0
    else
      assert IsAsciiDigit(s[|s| - 1]);
      DigitsValue(s[..|s| - 1]) * 10 + ((s[|s| - 1] as int) - ('0' as int))
  }

  /** Reading back the decimal rendering of `n` gives `n`. */
  lemma {:induction false} NatStrRoundTrip(n: nat)
    ensures DigitsValue(NatStr(n)) == n
  {
    if n >= 10 {
      NatStrRoundTrip(n / 10);
      var s := NatStr(n);
      assert s[..|s| - 1] == NatStr(n / 10);
    }
  }

  /** Distinct numbers have distinct renderings, so `cam0`, `cam1`, ... never collide. */
  lemma NatStrInjective(a: nat, b: nat)
    requires NatStr(a) == NatStr(b)
    ensures a == b
  {
    NatStrRoundTrip(a);
    NatStrRoundTrip(b);
  }

  /** `str(i)` for any integer. */
  function IntStr(i: int): (r: string)
    ensures IsDigits(r) <==> i >= 0
    ensures i < 0 ==> r == "-" + NatStr(-i)
  {
    if i < 0 then
      var r := "-" + NatStr(-i);
      assert !IsAsciiDigit(r[0]);
      r
    else NatStr(i)
  }

  /** `s.startswith(p)`. */
  predicate StartsWith(s: string, p: string) {
    |p| <= |s| && s[..|p|] == p
  }

  /** `t` occurs in `s` starting at index `i`. */
  predicate OccursAt(s: string, t: string, i: int) {
    0 <= i <= |s| - |t| && s[i..i + |t|] == t
  }

  /** `t` occurs somewhere in `s`. */
  ghost predicate IsInfix(t: string, s: string) {
    exists i :: OccursAt(s, t, i)
  }

  /** Python's substring test `t in s`, scanning `s` from the left. */
  predicate Contains(s: string, t: string)
    decreases |s|
  {
    if |s| < |t| then false
    else s[..|t|] == t || (|s| > 0 && Contains(s[1..], t))
  }

  /** `Contains` agrees with the positional definition of an occurrence. */
  lemma {:induction false} ContainsIff(s: string, t: string)
    ensures Contains(s, t) <==> IsInfix(t, s)
    decreases |s|
  {
    if |s| >= |t| && s[..|t|] != t && |s| > 0 {
      ContainsIff(s[1..], t);
      if IsInfix(t, s) {
        var i :| OccursAt(s, t, i);
        assert i > 0;
        assert OccursAt(s[1..], t, i - 1);
      }
      if Contains(s[1..], t) {
        var i :| OccursAt(s[1..], t, i);
        assert OccursAt(s, t, i + 1);
      }
    } else if |s| >= |t| && s[..|t|] == t {
      assert OccursAt(s, t, 0);
    }
  }

  /** Text placed anywhere in a document is found in it. */
  lemma ContainsInfix(a: string, t: string, b: string)
    ensures Contains(a + t + b, t)
  {
    var s := a + t + b;
    assert OccursAt(s, t, |a|);
    ContainsIff(s, t);
  }

  /** An occurrence inside a piece of a document is an occurrence in the document. */
  lemma ContainsExtend(x: string, a: string, y: string, t: string)
    requires Contains(a, t)
    ensures Contains(x + a + y, t)
  {
    ContainsIff(a, t);
    var i :| OccursAt(a, t, i);
    assert OccursAt(x + a + y, t, |x| + i) by {
      assert (x + a + y)[|x| + i..|x| + i + |t|] == a[i..i + |t|];
    }
    ContainsIff(x + a + y, t);
  }

  /** Every text contains itself. */
  lemma ContainsSelf(t: string)
    ensures Contains(t, t)
  {
    assert [] + t + [] == t;
    ContainsInfix([], t, []);
  }

  /** Appending text keeps an occurrence. */
  lemma ContainsPrefix(a: string, y: string, t: string)
    requires Contains(a, t)
    ensures Contains(a + y, t)
  {
    assert [] + a + y == a + y;
    ContainsExtend([], a, y, t);
  }

  /** Prepending text keeps an occurrence. */
  lemma ContainsSuffix(x: string, a: string, t: string)
    requires Contains(a, t)
    ensures Contains(x + a, t)
  {
    assert x + a + [] == x + a;
    ContainsExtend(x, a, [], t);
  }

  /** The line boundaries of Python's `str.splitlines`. */
  predicate IsLineBreak(c: char) {
    var n := c as int;
    || 0x0a <= n <= 0x0d || 0x1c <= n <= 0x1e
    || n == 0x85 || n == 0x2028 || n == 0x2029
  }

  /** Index of the first line boundary at or after `from`, or `|s|` when there is none. */
  function FindBreak(s: string, from: nat): (r: nat)
    requires from <= |s|
    ensures from <= r <= |s|
    ensures r < |s| ==> IsLineBreak(s[r])
    ensures forall j :: from <= j < r ==> !IsLineBreak(s[j])
    decreases |s| - from
  {
    if from == |s| || IsLineBreak(s[from]) then from else FindBreak(s, from + 1)
  }

  /** Python's `s.splitlines()`: a final boundary does not open an empty last line,
      and `"\r\n"` counts as one boundary. No line holds a boundary character. */
  function SplitLines(s: string): (r: seq<string>)
    ensures forall k, j :: 0 <= k < |r| && 0 <= j < |r[k]| ==> !IsLineBreak(r[k][j])
    decreases |s|
  {
    if |s| == 0 then []
    else
      var k := FindBreak(s, 0);
      if k == |s| then [s]
      else
        var width := if s[k] == '\r' && k + 1 < |s| && s[k + 1] == '\n' then 2 else 1;
        [s[..k]] + SplitLines(s[k + width..])
  }

  /** No line boundary anywhere in `s`. */
  predicate NoBreak(s: string) {
    forall k :: 0 <= k < |s| ==> !IsLineBreak(s[k])
  }

  lemma {:induction false} NoBreakConcat(a: string, b: string)
    requires NoBreak(a) && NoBreak(b)
    ensures NoBreak(a + b)
  {
    forall k | 0 <= k < |a + b|
      ensures !IsLineBreak((a + b)[k])
    {
      if k >= |a| {
        assert (a + b)[k] == b[k - |a|];
      }
    }
  }

  /** A non-empty text without line boundaries is a single line. */
  lemma {:induction false} SplitLinesSingle(a: string)
    requires |a| > 0 && NoBreak(a)
    ensures SplitLines(a) == [a]
  {
    assert FindBreak(a, 0) == |a|;
  }

  /** The text up to the first boundary is the first line, and splitting resumes after the
      boundary; `"\r\n"` is one boundary. */
  lemma {:induction false} SplitLinesBreak(a: string, nl: string, b: string)
    requires NoBreak(a)
    requires nl == "\n" || nl == "\r\n"
    ensures SplitLines(a + nl + b) == [a] + SplitLines(b)
  {
    var s := a + nl + b;
    var k := FindBreak(s, 0);
    assert IsLineBreak(s[|a|]);
    assert k == |a|;
    assert s[..k] == a;
    assert s[k + |nl|..] == b;
  }
}
