/** The string primitives the task list relies on: JavaScript's
    `String.prototype.trim`, lower-casing and `String.prototype.includes`. */
module Text {

  /** The characters `trim` strips: the WhiteSpace and LineTerminator code
      points of ECMAScript (tab, vertical tab, form feed, space, no-break space,
      byte order mark, every Zs space separator, LF, CR, LS and PS). */
  predicate IsJsWhitespace(c: char)
  {
    c == '\t' || c == '\n' || c == '\U{B}' || c == '\U{C}' || c == '\r' || c == ' '
    || c == '\U{A0}' || c == '\U{1680}' || ('\U{2000}' <= c <= '\U{200A}')
    || c == '\U{2028}' || c == '\U{2029}' || c == '\U{202F}' || c == '\U{205F}'
    || c == '\U{3000}' || c == '\U{FEFF}'
  }

  /** Scanning forward from `i`: the first index that does not hold whitespace. */
  function SkipForward(s: string, i: nat): (k: nat)
    requires i <= |s|
    ensures i <= k <= |s|
    ensures forall j :: i <= j < k ==> IsJsWhitespace(s[j])
    ensures k < |s| ==> !IsJsWhitespace(s[k])
    decreases |s| - i
  {
    if i < |s| && IsJsWhitespace(s[i]) then SkipForward(s, i + 1) else i
  }

  /** Scanning backward from `j`, never below `lo`: the end of the last
      non-whitespace character above `lo`. */
  function SkipBackward(s: string, lo: nat, j: nat): (k: nat)
    requires lo <= j <= |s|
    ensures lo <= k <= j
    ensures forall m :: k <= m < j ==> IsJsWhitespace(s[m])
    ensures k > lo ==> !IsJsWhitespace(s[k - 1])
  {
    if j > lo && IsJsWhitespace(s[j - 1]) then SkipBackward(s, lo, j - 1) else j
  }

  /** `s.trim()`: the maximal infix of `s` that neither starts nor ends with
      whitespace, everything around it being whitespace. */
  function Trim(s: string): (r: string)
    ensures |r| <= |s|
    ensures r == [] || (!IsJsWhitespace(r[0]) && !IsJsWhitespace(r[|r| - 1]))
    ensures exists a :: 0 <= a <= |s| - |r| && IsTrimmedAt(s, a, r)
  {
    var a := SkipForward(s, 0);
    var b := SkipBackward(s, a, |s|);
    assert a < b ==> s[a..b][0] == s[a];
    assert a < b ==> s[a..b][b - a - 1] == s[b - 1];
    assert IsTrimmedAt(s, a, s[a..b]);
    s[a..b]
  }

  /** `r` sits at offset `a` of `s` with only whitespace before and after it. */
  predicate IsTrimmedAt(s: string, a: int, r: string)
  {
    0 <= a <= |s| - |r| && s[a..a + |r|] == r
    && (forall i :: 0 <= i < a ==> IsJsWhitespace(s[i]))
    && (forall i :: a + |r| <= i < |s| ==> IsJsWhitespace(s[i]))
  }

  /** Lower-casing of the ASCII upper-case letters; other characters are kept. */
  function LowerChar(c: char): char
  {
    if 'A' <= c <= 'Z' then (c as int - 'A' as int + 'a' as int) as char else c
  }

  function Lower(s: string): (r: string)
    ensures |r| == |s|
    ensures forall i :: 0 <= i < |s| ==> r[i] == LowerChar(s[i])
    ensures forall i :: 0 <= i < |r| ==> !('A' <= r[i] <= 'Z')
    ensures forall i :: 0 <= i < |s| && !('A' <= s[i] <= 'Z') ==> r[i] == s[i]
  {
    if |s| == 0 then [] else [LowerChar(s[0])] + Lower(s[1..])
  }

  /** `q` occurs in `t` starting at position `i`. */
  predicate OccursAt(q: string, t: string, i: int)
  {
    0 <= i <= |t| - |q| && t[i..i + |q|] == q
  }

  /** `t.includes(q)`. */
  predicate Includes(t: string, q: string)
  {
    exists i :: 0 <= i <= |t| - |q| && OccursAt(q, t, i)
  }

  /** The empty string occurs in every string, so an empty query filters nothing. */
  lemma IncludesEmpty(t: string)
    ensures Includes(t, [])
  {
    assert OccursAt([], t, 0);
  }

  /** The left-to-right scan `includes` performs: it tries every start
      position in turn and answers whether one of them matches. */
  method FindSubstring(t: string, q: string) returns (found: bool, at: int)
    ensures found <==> Includes(t, q)
    ensures found ==> OccursAt(q, t, at) && forall j :: 0 <= j < at ==> !OccursAt(q, t, j)
    ensures !found ==> at == -1
  {
    if |q| > |t| {
      return false, -1;
    }
    var i := 0;
    while i <= |t| - |q|
      invariant 0 <= i <= |t| - |q| + 1
      invariant forall j :: 0 <= j < i ==> !OccursAt(q, t, j)
    {
      if t[i..i + |q|] == q {
        assert OccursAt(q, t, i);
        return true, i;
      }
      i := i + 1;
    }
    return false, -1;
  }
}
