/**
 * The JavaScript string operations the component relies on, with the
 * semantics of the language standard: the `\s` class and `trim`, `indexOf`,
 * `lastIndexOf`, `substring` (which clamps and swaps its arguments) and
 * `includes`. Strings are sequences of characters; every character these
 * operations test lies in the Basic Multilingual Plane, so the cut text is
 * the same whether it is counted in UTF-16 code units or Dafny characters.
 * The positions that `IndexOf` and `LastIndexOf` return are counted in
 * characters: after a character outside that plane, which takes two UTF-16
 * units, they are smaller than what JavaScript reports.
 */
module JsString {

  /** The characters matched by `\s` in a regular expression and removed by
    * `trim`: WhiteSpace and LineTerminator of the language standard. */
  predicate IsJsSpace(c: char) {
    || c == '\t' || c == '\n' || c == '\U{000B}' || c == '\U{000C}' || c == '\r'
    || c == ' ' || c == '\U{00A0}' || c == '\U{1680}'
    || ('\U{2000}' <= c <= '\U{200A}')
    || c == '\U{2028}' || c == '\U{2029}' || c == '\U{202F}' || c == '\U{205F}'
    || c == '\U{3000}' || c == '\U{FEFF}'
  }

  /** The longest suffix of `s` that does not start with white space: what
    * `trimStart` returns, and what a greedy `\s*` leaves unmatched. */
  function TrimStart(s: string): (r: string)
    ensures |r| <= |s| && r == s[|s| - |r|..]
    ensures r != [] ==> !IsJsSpace(r[0])
    decreases |s|
  {
    if s != [] && IsJsSpace(s[0]) then TrimStart(s[1..]) else s
  }

  /** What `TrimStart` removes is white space only. */
  lemma {:induction false} TrimStartRemovesSpace(s: string, i: int)
    requires 0 <= i < |s| - |TrimStart(s)|
    ensures IsJsSpace(s[i])
    decreases |s|
  {
    if i > 0 {
      TrimStartRemovesSpace(s[1..], i - 1);
    }
  }

  /** The longest prefix of `s` that does not end with white space. */
  function TrimEnd(s: string): (r: string)
    ensures |r| <= |s| && r == s[..|r|]
    ensures r != [] ==> !IsJsSpace(r[|r| - 1])
    decreases |s|
  {
    if s != [] && IsJsSpace(s[|s| - 1]) then TrimEnd(s[..|s| - 1]) else s
  }

  /** What `TrimEnd` removes is white space only. */
  lemma {:induction false} TrimEndRemovesSpace(s: string, i: int)
    requires |TrimEnd(s)| <= i < |s|
    ensures IsJsSpace(s[i])
    decreases |s|
  {
    if i < |s| - 1 {
      TrimEndRemovesSpace(s[..|s| - 1], i);
    }
  }

  /** `String.prototype.trim`: white space removed at both ends. */
  function Trim(s: string): (r: string)
    ensures exists k :: OccursAt(s, r, k)
    ensures r != [] ==> !IsJsSpace(r[0]) && !IsJsSpace(r[|r| - 1])
  {
    var t := TrimStart(s);
    var r := TrimEnd(t);
    assert OccursAt(s, r, |s| - |t|);
    r
  }

  /** Trimming only ever removes characters. */
  lemma TrimKeepsOnlyInput(s: string, c: char)
    requires c in TrimStart(s) || c in TrimEnd(s) || c in Trim(s)
    ensures c in s
  {
    var t := TrimStart(s);
    if c in t {
      assert t == s[|s| - |t|..];
    }
    var e := TrimEnd(s);
    if c in e {
      assert e == s[..|e|];
    }
    var r := TrimEnd(t);
    if c in r {
      assert r == t[..|r|];
      assert c in t;
      assert t == s[|s| - |t|..];
    }
  }

  /** `s.indexOf(c)` for a one-character search string: the first index of
    * `c`, or -1 when `c` does not occur. */
  function IndexOf(s: string, c: char): (r: int)
    ensures -1 <= r < |s|
    ensures r == -1 <==> c !in s
    ensures r >= 0 ==> s[r] == c && forall j :: 0 <= j < r ==> s[j] != c
    decreases |s|
  {
    if s == [] then -1
    else if s[0] == c then 0
    else
      var k := IndexOf(s[1..], c);
      if k == -1 then -1
      else k + 1
  }

  /** `s.lastIndexOf(c)` for a one-character search string: the last index of
    * `c`, or -1 when `c` does not occur. */
  function LastIndexOf(s: string, c: char): (r: int)
    ensures -1 <= r < |s|
    ensures r == -1 <==> c !in s
    ensures r >= 0 ==> s[r] == c && forall j :: r < j < |s| ==> s[j] != c
    decreases |s|
  {
    if s == [] then -1
    else if s[|s| - 1] == c then |s| - 1
    else LastIndexOf(s[..|s| - 1], c)
  }

  /** An argument of `substring` clamped to `0..length`. */
  function Clamp(i: int, length: nat): (r: nat)
    ensures r <= length
    ensures 0 <= i <= length ==> r == i
  {
    if i < 0 then 0 else if i > length then length else i
  }

  /** `s.substring(start, end)`: both arguments are clamped to the string,
    * and when the first is larger than the second the two are swapped. */
  function Substring(s: string, start: int, end: int): (r: string)
    ensures |r| <= |s|
    ensures 0 <= start <= end <= |s| ==> r == s[start..end]
    ensures 0 <= end <= start <= |s| ==> r == s[end..start]
  {
    var a := Clamp(start, |s|);
    var b := Clamp(end, |s|);
    if a <= b then s[a..b] else s[b..a]
  }

  /** `t` occurs in `s` starting at index `i`. */
  predicate OccursAt(s: string, t: string, i: int) {
    0 <= i && i + |t| <= |s| && s[i..i + |t|] == t
  }

  /** `s.includes(t)`. */
  function Includes(s: string, t: string): (r: bool)
    ensures r <==> exists i :: OccursAt(s, t, i)
    decreases |s|
  {
    if |s| < |t| then false
    else if s[..|t|] == t then
      assert OccursAt(s, t, 0);
      true
    else
      var r := Includes(s[1..], t);
      if r then
        var i :| OccursAt(s[1..], t, i);
        assert OccursAt(s, t, i + 1);
        true
      else
        assert forall i :: OccursAt(s, t, i) ==> i > 0 && OccursAt(s[1..], t, i - 1);
        false
  }

  /** The digit character for `d`. */
  function Digit(d: nat): (c: char)
    requires d < 10
    ensures '0' <= c <= '9' && c as int == 48 + d
  {
    (48 + d) as char
  }

  /** The number a run of decimal digits denotes, most significant first. */
  function DigitsValue(s: string): int
    decreases |s|
  {
    if s == [] then 0 else 10 * DigitsValue(s[..|s| - 1]) + (s[|s| - 1] as int - 48)
  }

  /** The decimal text of a non-negative integer, as template interpolation
    * writes an HTTP status number: digits without a leading zero that denote
    * `n` (so "0" alone for zero). */
  function DecimalString(n: nat): (r: string)
    ensures r != []
    ensures forall i :: 0 <= i < |r| ==> '0' <= r[i] <= '9'
    ensures DigitsValue(r) == n
    ensures n > 0 ==> r[0] != '0'
    ensures |r| > 1 ==> r[0] != '0'
  {
    if n < 10 then
      var r := [Digit(n)];
      assert r[..0] == [];
      r
    else
      var p := DecimalString(n / 10);
      var r := p + [Digit(n % 10)];
      assert r[..|r| - 1] == p;
      r
  }

  /** Prepending text that lacks the first character of `t` cannot create an
    * occurrence of `t`. */
  lemma NotIncludedAfterPrefix(a: string, b: string, t: string)
    requires t != [] && t[0] !in a
    requires !Includes(b, t)
    ensures !Includes(a + b, t)
  {
    forall i | OccursAt(a + b, t, i)
      ensures OccursAt(b, t, i - |a|)
    {
      assert (a + b)[i] == t[0];
      assert i >= |a|;
      assert (a + b)[i..i + |t|] == b[i - |a|..i - |a| + |t|];
    }
  }

  /** An occurrence of `c` with none before it is what `indexOf` finds. */
  lemma IndexOfAt(s: string, c: char, k: int)
    requires 0 <= k < |s| && s[k] == c
    requires forall j :: 0 <= j < k ==> s[j] != c
    ensures IndexOf(s, c) == k
  {
  }

  /** An occurrence of `c` with none after it is what `lastIndexOf` finds. */
  lemma LastIndexOfAt(s: string, c: char, k: int)
    requires 0 <= k < |s| && s[k] == c
    requires forall j :: k < j < |s| ==> s[j] != c
    ensures LastIndexOf(s, c) == k
  {
  }

  /** `t` cannot occur in `s` when its first character appears nowhere in
    * `s` at a position from which the rest of `t` would still fit. */
  lemma FirstCharAbsent(s: string, t: string)
    requires t != []
    requires |t| <= |s| && t[0] !in s[..|s| - |t| + 1]
    ensures !Includes(s, t)
  {
    forall i | 0 <= i <= |s| - |t|
      ensures !OccursAt(s, t, i)
    {
      assert s[..|s| - |t| + 1][i] == s[i] == s[i..i + |t|][0];
    }
  }

  /** Trimming white space in front of text that starts with a non-space
    * character only removes the leading part. */
  lemma {:induction false} TrimStartConcat(x: string, q: string)
    requires q != [] && !IsJsSpace(q[0])
    ensures TrimStart(x + q) == TrimStart(x) + q
    decreases |x|
  {
    if x == [] {
      assert x + q == q;
    } else {
      assert (x + q)[1..] == x[1..] + q;
      if IsJsSpace(x[0]) {
        TrimStartConcat(x[1..], q);
      }
    }
  }

  /** The mirror image of TrimStartConcat at the end of the text. */
  lemma {:induction false} TrimEndConcat(q: string, y: string)
    requires q != [] && !IsJsSpace(q[|q| - 1])
    ensures TrimEnd(q + y) == q + TrimEnd(y)
    decreases |y|
  {
    if y == [] {
      assert q + y == q;
    } else {
      assert (q + y)[..|q + y| - 1] == q + y[..|y| - 1];
      if IsJsSpace(y[|y| - 1]) {
        TrimEndConcat(q, y[..|y| - 1]);
      }
    }
  }

  /** Regrouping a concatenation of three strings. */
  lemma ConcatAssoc(a: string, b: string, c: string)
    ensures a + b + c == a + (b + c)
  {
  }

  /** `trim` around text that starts and ends with non-space characters keeps
    * that text whole and only shortens what surrounds it. */
  lemma TrimAround(x: string, p: string, y: string)
    requires p != [] && !IsJsSpace(p[0]) && !IsJsSpace(p[|p| - 1])
    ensures Trim(x + (p + y)) == TrimStart(x) + (p + TrimEnd(y))
  {
    var s := x + (p + y);
    var px := TrimStart(x);
    assert Trim(s) == TrimEnd(TrimStart(s));
    TrimStartConcat(x, p + y);
    ConcatAssoc(px, p, y);
    assert (px + p)[|px + p| - 1] == p[|p| - 1];
    TrimEndConcat(px + p, y);
    ConcatAssoc(px, p, TrimEnd(y));
  }
}
