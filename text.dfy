/**
 * Character and string helpers shared by the refund tools and the chat host:
 * the whitespace set, ASCII letter case, and Python's `str.strip()`.
 *
 * Whitespace is the six ASCII characters space, tab, line feed, carriage
 * return, form feed and vertical tab. Python's `str.strip()` and regex `\s`
 * also accept the ASCII separators `\x1c` to `\x1f` and further Unicode
 * spaces; this model does not.
 */
module Text {

  predicate IsSpace(c: char) {
    c == ' ' || c == '\t' || c == '\n' || c == '\r' || c == '\U{C}' || c == '\U{B}'
  }

  predicate AllSpace(s: string) {
    forall i :: 0 <= i < |s| ==> IsSpace(s[i])
  }

  /** `s[i..j]` holds only whitespace (stated on positions, so callers need no slices). */
  predicate AllSpaceIn(s: string, i: int, j: int)
    requires 0 <= i <= j <= |s|
  {
    forall q :: i <= q < j ==> IsSpace(s[q])
  }

  predicate IsAsciiLower(c: char) { 'a' <= c <= 'z' }

  predicate IsAsciiUpper(c: char) { 'A' <= c <= 'Z' }

  function UpperChar(c: char): (u: char)
    ensures IsAsciiLower(c) ==> IsAsciiUpper(u) && u as int == c as int - 32
    ensures !IsAsciiLower(c) ==> u == c
  {
    if IsAsciiLower(c) then (c as int - 32) as char else c
  }

  function LowerChar(c: char): (l: char)
    ensures IsAsciiUpper(c) ==> IsAsciiLower(l) && l as int == c as int + 32
    ensures !IsAsciiUpper(c) ==> l == c
  {
    if IsAsciiUpper(c) then (c as int + 32) as char else c
  }

  /** Letter case never turns a character into whitespace or back. */
  lemma CaseKeepsSpace(c: char)
    ensures IsSpace(UpperChar(c)) <==> IsSpace(c)
    ensures IsSpace(LowerChar(c)) <==> IsSpace(c)
  {
  }

  /** `s.upper()` restricted to ASCII letters: each character is upper-cased in place. */
  function Upper(s: string): string {
    seq(|s|, i requires 0 <= i < |s| => UpperChar(s[i]))
  }

  /** The two strings agree letter by letter once both are upper-cased. */
  predicate EqualIgnoringCase(a: string, b: string) {
    |a| == |b| && forall i :: 0 <= i < |a| ==> UpperChar(a[i]) == UpperChar(b[i])
  }

  /** Upper-cased strings are equal exactly when they agree ignoring case. */
  lemma UpperEqual(a: string, b: string)
    ensures Upper(a) == Upper(b) <==> EqualIgnoringCase(a, b)
  {
    if Upper(a) == Upper(b) {
      assert |a| == |Upper(a)| == |Upper(b)| == |b|;
      forall i | 0 <= i < |a| ensures UpperChar(a[i]) == UpperChar(b[i]) {
        assert Upper(a)[i] == Upper(b)[i];
      }
    }
    if EqualIgnoringCase(a, b) {
      forall i | 0 <= i < |a| ensures Upper(a)[i] == Upper(b)[i] {
        assert UpperChar(a[i]) == UpperChar(b[i]);
      }
      assert Upper(a) == Upper(b);
    }
  }

  lemma UpperIdempotent(s: string)
    ensures Upper(Upper(s)) == Upper(s)
  {
  }

  lemma UpperAppend3(p: string, m: string, q: string)
    ensures Upper(p + m + q) == Upper(p) + Upper(m) + Upper(q)
  {
  }

  /**
   * The end of the run of whitespace that starts at `i`: everything from `i`
   * up to the result is whitespace, and the character at the result is not.
   */
  function SpaceRunEnd(s: string, i: nat): (j: nat)
    requires i <= |s|
    ensures i <= j <= |s| && AllSpaceIn(s, i, j)
    ensures j == |s| || !IsSpace(s[j])
    decreases |s| - i
  {
    if i < |s| && IsSpace(s[i]) then SpaceRunEnd(s, i + 1) else i
  }

  /**
   * The start of the run of whitespace that ends at `j`, looking no further
   * back than `lo`.
   */
  function SpaceRunStart(s: string, lo: nat, j: nat): (i: nat)
    requires lo <= j <= |s|
    ensures lo <= i <= j && AllSpaceIn(s, i, j)
    ensures i == lo || !IsSpace(s[i - 1])
    decreases j
  {
    if j > lo && IsSpace(s[j - 1]) then SpaceRunStart(s, lo, j - 1) else j
  }

  /** Any position with the two properties SpaceRunEnd promises is its result. */
  lemma SpaceRunEndUnique(s: string, i: nat, k: nat)
    requires i <= k <= |s| && AllSpaceIn(s, i, k)
    requires k == |s| || !IsSpace(s[k])
    ensures SpaceRunEnd(s, i) == k
  {
  }

  lemma SpaceRunStartUnique(s: string, lo: nat, j: nat, k: nat)
    requires lo <= k <= j <= |s| && AllSpaceIn(s, k, j)
    requires k == lo || !IsSpace(s[k - 1])
    ensures SpaceRunStart(s, lo, j) == k
  {
  }

  /**
   * `str.strip()`: the text between the leading and the trailing run of
   * whitespace. It neither starts nor ends with whitespace.
   */
  function Strip(s: string): (r: string)
    ensures |r| <= |s|
    ensures r == [] || (!IsSpace(r[0]) && !IsSpace(r[|r| - 1]))
  {
    var a := SpaceRunEnd(s, 0);
    s[a..SpaceRunStart(s, a, |s|)]
  }

  /** Splits `s` around its stripped part, naming the two whitespace ends. */
  lemma StripSplit(s: string) returns (p: string, q: string)
    ensures s == p + Strip(s) + q
    ensures AllSpace(p) && AllSpace(q)
  {
    var a := SpaceRunEnd(s, 0);
    var b := SpaceRunStart(s, a, |s|);
    p, q := s[..a], s[b..];
    assert s == s[..a] + s[a..b] + s[b..];
    assert forall k :: 0 <= k < |q| ==> q[k] == s[b + k];
  }

  /**
   * Strip is determined by its contract: whatever `m` is found between a
   * whitespace prefix and a whitespace suffix, and does not itself start or
   * end with whitespace, is what Strip returns.
   */
  lemma StripUnique(p: string, m: string, q: string)
    requires AllSpace(p) && AllSpace(q)
    requires m == [] || (!IsSpace(m[0]) && !IsSpace(m[|m| - 1]))
    ensures Strip(p + m + q) == m
  {
    var s := p + m + q;
    assert forall k :: 0 <= k < |p| ==> s[k] == p[k];
    assert forall k :: 0 <= k < |q| ==> s[|p| + |m| + k] == q[k];
    if m == [] {
      SpaceRunEndUnique(s, 0, |s|);
    } else {
      assert s[|p|] == m[0] && s[|p| + |m| - 1] == m[|m| - 1];
      SpaceRunEndUnique(s, 0, |p|);
      SpaceRunStartUnique(s, |p|, |s|, |p| + |m|);
      assert s[|p|..|p| + |m|] == m;
    }
  }

  lemma AllSpaceAppend(a: string, b: string)
    requires AllSpace(a) && AllSpace(b)
    ensures AllSpace(a + b)
  {
    assert forall i :: 0 <= i < |a + b| ==> (a + b)[i] == if i < |a| then a[i] else b[i - |a|];
  }

  lemma Regroup(a: string, b: string, c: string, d: string, e: string)
    ensures a + (b + c + d) + e == (a + b) + c + (d + e)
  {
  }

  /** Surrounding whitespace never changes what Strip returns. */
  lemma StripIgnoresPadding(p: string, s: string, q: string)
    requires AllSpace(p) && AllSpace(q)
    ensures Strip(p + s + q) == Strip(s)
  {
    var m := Strip(s);
    var p', q' := StripSplit(s);
    Regroup(p, p', m, q', q);
    AllSpaceAppend(p, p');
    AllSpaceAppend(q', q);
    StripUnique(p + p', m, q' + q);
  }

  lemma StripIdempotent(s: string)
    ensures Strip(Strip(s)) == Strip(s)
  {
    var m := Strip(s);
    assert [] + m + [] == m;
    StripUnique([], m, []);
  }

  lemma UpperKeepsSpacing(p: string, m: string, q: string)
    requires AllSpace(p) && AllSpace(q)
    requires m == [] || (!IsSpace(m[0]) && !IsSpace(m[|m| - 1]))
    ensures AllSpace(Upper(p)) && AllSpace(Upper(q))
    ensures Upper(m) == [] || (!IsSpace(Upper(m)[0]) && !IsSpace(Upper(m)[|m| - 1]))
  {
    forall c: char ensures IsSpace(UpperChar(c)) <==> IsSpace(c) {
      CaseKeepsSpace(c);
    }
  }

  /** Upper-casing and stripping commute, since case never touches whitespace. */
  lemma StripUpperCommute(s: string)
    ensures Upper(Strip(s)) == Strip(Upper(s))
  {
    var p, q := StripSplit(s);
    UpperAppend3(p, Strip(s), q);
    UpperKeepsSpacing(p, Strip(s), q);
    StripUnique(Upper(p), Upper(Strip(s)), Upper(q));
  }
}
