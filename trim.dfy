/** Trimming white space from both ends of a string, as Go's strings.TrimSpace
    does: a character is white space when unicode.IsSpace says so. Like Go's
    implementation, the trimmed string is found by two indices: where the
    leading white space ends and where the trailing white space begins. */
module Trim {

  /** The code points Go's unicode.IsSpace accepts: the Latin-1 spaces
      (tab, line feed, vertical tab, form feed, carriage return, space,
      next line, no-break space) and the other code points of Unicode's
      White_Space property. */
  predicate IsSpace(c: char) {
    || c == '\t' || c == '\n' || c == '\U{000B}' || c == '\U{000C}' || c == '\r' || c == ' '
    || c == '\U{0085}' || c == '\U{00A0}'
    || c == '\U{1680}'
    || ('\U{2000}' <= c <= '\U{200A}')
    || c == '\U{2028}' || c == '\U{2029}' || c == '\U{202F}' || c == '\U{205F}'
    || c == '\U{3000}'
  }

  predicate AllSpace(s: string) {
    forall i :: 0 <= i < |s| ==> IsSpace(s[i])
  }

  /** What trimming yields: the empty string, or one that neither starts nor
      ends with white space. */
  predicate Unpadded(t: string) {
    t == [] || (!IsSpace(t[0]) && !IsSpace(t[|t| - 1]))
  }

  /** The number of white-space characters at the start of `s`. */
  function LeadingSpaces(s: string): (n: nat)
    ensures n <= |s|
    ensures forall i :: 0 <= i < n ==> IsSpace(s[i])
    ensures n < |s| ==> !IsSpace(s[n])
  {
    if |s| > 0 && IsSpace(s[0]) then
      var m := LeadingSpaces(s[1..]);
      assert forall i :: 1 <= i <= m && i < |s| ==> s[i] == s[1..][i - 1];
      1 + m
    else
      0
  }

  /** The index at which the white space at the end of `s` begins. */
  function TrailingStart(s: string): (n: nat)
    ensures n <= |s|
    ensures forall i :: n <= i < |s| ==> IsSpace(s[i])
    ensures 0 < n ==> !IsSpace(s[n - 1])
  {
    if |s| > 0 && IsSpace(s[|s| - 1]) then
      var m := TrailingStart(s[..|s| - 1]);
      assert forall i :: 0 <= i < |s| - 1 ==> s[i] == s[..|s| - 1][i];
      m
    else
      |s|
  }

  /** The trimmed string is the slice of `s` left once the white space at
      both ends is gone, and it is unpadded. */
  function TrimSpace(s: string): (r: string)
    ensures exists a, b :: 0 <= a <= b <= |s| && r == s[a..b] && AllSpace(s[..a]) && AllSpace(s[b..])
    ensures Unpadded(r)
  {
    var a := LeadingSpaces(s);
    var b := if a == |s| then a else TrailingStart(s);
    assert a < |s| ==> !IsSpace(s[a]);
    assert a <= b;
    assert forall i :: 0 <= i < a ==> s[..a][i] == s[i];
    assert forall i :: b <= i < |s| ==> s[b..][i - b] == s[i];
    s[a..b]
  }

  /** Characterisation: a string made of white space, an unpadded core and
      white space trims to exactly that core. */
  lemma TrimSpaceUnique(p: string, t: string, q: string)
    requires AllSpace(p) && AllSpace(q) && Unpadded(t)
    ensures TrimSpace(p + t + q) == t
  {
    var s := p + t + q;
    forall i | 0 <= i < |p| ensures IsSpace(s[i]) {
      assert s[i] == p[i];
    }
    forall i | |p| + |t| <= i < |s| ensures IsSpace(s[i]) {
      assert s[i] == q[i - |p| - |t|];
    }
    var a := LeadingSpaces(s);
    if t == [] {
      assert a == |s|;
      assert s[a..a] == [];
    } else {
      assert s[|p|] == t[0];
      assert a == |p|;
      var b := TrailingStart(s);
      assert s[|p| + |t| - 1] == t[|t| - 1];
      assert b == |p| + |t|;
      assert s[a..b] == t;
    }
  }

  /** White space on either side of a string of white space is still all
      white space. */
  lemma AllSpaceConcat(x: string, y: string)
    requires AllSpace(x) && AllSpace(y)
    ensures AllSpace(x + y)
  {
    assert forall i :: |x| <= i < |x + y| ==> (x + y)[i] == y[i - |x|];
  }

  /** Only an all-white-space string trims to the empty string. */
  lemma TrimSpaceEmpty(s: string)
    ensures TrimSpace(s) == [] <==> AllSpace(s)
  {
    if AllSpace(s) {
      AllSpaceTrimsEmpty(s);
    }
    if TrimSpace(s) == [] {
      TrimsEmptyAllSpace(s);
    }
  }

  lemma AllSpaceTrimsEmpty(s: string)
    requires AllSpace(s)
    ensures TrimSpace(s) == []
  {
    var e: string := [];
    assert e + e + s == s;
    TrimSpaceUnique(e, e, s);
  }

  lemma TrimsEmptyAllSpace(s: string)
    requires TrimSpace(s) == []
    ensures AllSpace(s)
  {
    var x, y := TrimSpaceSplit(s);
    var e: string := [];
    assert x + e + y == x + y;
    AllSpaceConcat(x, y);
  }

  /** A string that neither starts nor ends with white space is left as it is. */
  lemma TrimSpaceUnpadded(s: string)
    requires Unpadded(s)
    ensures TrimSpace(s) == s
  {
    assert [] + s + [] == s;
    TrimSpaceUnique([], s, []);
  }

  /** Trimming twice trims no more than trimming once. */
  lemma TrimSpaceIdempotent(s: string)
    ensures TrimSpace(TrimSpace(s)) == TrimSpace(s)
  {
    TrimSpaceUnpadded(TrimSpace(s));
  }

  /** Every string is its trimmed form between two runs of white space. */
  lemma TrimSpaceSplit(s: string) returns (x: string, y: string)
    ensures AllSpace(x) && AllSpace(y) && s == x + TrimSpace(s) + y
  {
    var t := TrimSpace(s);
    var a, b :| 0 <= a <= b <= |s| && t == s[a..b] && AllSpace(s[..a]) && AllSpace(s[b..]);
    x, y := s[..a], s[b..];
    SliceJoin(s, a, b);
  }

  lemma Regroup(p: string, x: string, t: string, y: string, q: string)
    ensures p + (x + t + y) + q == (p + x) + t + (y + q)
  {
    assert p + (x + t + y) == (p + x) + t + y;
  }

  lemma SliceJoin(s: string, a: nat, b: nat)
    requires a <= b <= |s|
    ensures s == s[..a] + s[a..b] + s[b..]
  {
    assert s[..a] + s[a..b] == s[..b];
    assert s[..b] + s[b..] == s;
  }

  /** White space added at either end of a string does not change what it
      trims to: " foo " and "foo" trim alike. */
  lemma TrimSpacePadded(p: string, s: string, q: string)
    requires AllSpace(p) && AllSpace(q)
    ensures TrimSpace(p + s + q) == TrimSpace(s)
  {
    var x, y := TrimSpaceSplit(s);
    var t := TrimSpace(s);
    Regroup(p, x, t, y, q);
    AllSpaceConcat(p, x);
    AllSpaceConcat(y, q);
    TrimSpaceUnique(p + x, t, y + q);
  }
}
