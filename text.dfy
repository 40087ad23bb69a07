// The three Kotlin string operations the to-do state holder and its caller rely on:
// `isBlank()`, `trim()` and `contains(other, ignoreCase = true)`.
// Character classes are abstracted: "whitespace" is the four ASCII layout characters
// and case folding maps only the ASCII letters A-Z to a-z.

module Text {

  /** The characters `isBlank()` and `trim()` treat as whitespace. */
  predicate IsWhitespace(c: char) {
    c == ' ' || c == '\t' || c == '\n' || c == '\r'
  }

  /** Kotlin's `isBlank()`: empty, or whitespace only. */
  predicate IsBlank(s: string) {
    forall i :: 0 <= i < |s| ==> IsWhitespace(s[i])
  }

  /** Case folding of one character. */
  function LowerChar(c: char): (r: char)
    ensures 'A' <= c <= 'Z' ==> 'a' <= r <= 'z'
    ensures !('A' <= c <= 'Z') ==> r == c
  {
    if 'A' <= c <= 'Z' then (c as int - 'A' as int + 'a' as int) as char else c
  }

  function Lower(s: string): (r: string)
    ensures |r| == |s|
  {
    seq(|s|, i requires 0 <= i < |s| => LowerChar(s[i]))
  }

  /** `q` occurs in `s` at offset `k`, comparing characters without regard to case. */
  predicate MatchesAt(s: string, q: string, k: nat) {
    k + |q| <= |s| && forall j :: 0 <= j < |q| ==> LowerChar(s[k + j]) == LowerChar(q[j])
  }

  /** Kotlin's `s.contains(q, ignoreCase = true)`. */
  predicate ContainsIgnoreCase(s: string, q: string) {
    exists k: nat :: k <= |s| && MatchesAt(s, q, k)
  }

  /** Exact substring occurrence, the reference the case-insensitive search is stated against. */
  ghost predicate Occurs(s: string, q: string) {
    exists k: nat :: OccursAt(s, q, k)
  }

  ghost predicate OccursAt(s: string, q: string, k: nat) {
    k + |q| <= |s| && s[k..k + |q|] == q
  }

  /** A case-insensitive search for `q` in `s` is an exact search for the folded `q` in the folded `s`. */
  lemma ContainsIgnoreCaseIsFoldedOccurs(s: string, q: string)
    ensures ContainsIgnoreCase(s, q) <==> Occurs(Lower(s), Lower(q))
  {
    if ContainsIgnoreCase(s, q) {
      var k: nat :| k <= |s| && MatchesAt(s, q, k);
      assert Lower(s)[k..k + |q|] == Lower(q);
      assert OccursAt(Lower(s), Lower(q), k);
    }
    if Occurs(Lower(s), Lower(q)) {
      var k: nat :| OccursAt(Lower(s), Lower(q), k);
      forall j | 0 <= j < |q|
        ensures LowerChar(s[k + j]) == LowerChar(q[j])
      {
        assert Lower(s)[k..k + |q|][j] == Lower(q)[j];
      }
      assert MatchesAt(s, q, k);
    }
  }

  /** Kotlin's `trimStart()`: drops the leading whitespace. */
  function TrimStart(s: string): (r: string)
    ensures |r| <= |s| && r == s[|s| - |r|..]
    ensures forall k :: 0 <= k < |s| - |r| ==> IsWhitespace(s[k])
    ensures r == [] || !IsWhitespace(r[0])
  {
    if s != [] && IsWhitespace(s[0]) then TrimStart(s[1..]) else s
  }

  /** Kotlin's `trimEnd()`: drops the trailing whitespace. */
  function TrimEnd(s: string): (r: string)
    ensures |r| <= |s| && r == s[..|r|]
    ensures forall k :: |r| <= k < |s| ==> IsWhitespace(s[k])
    ensures r == [] || !IsWhitespace(r[|r| - 1])
  {
    if s != [] && IsWhitespace(s[|s| - 1]) then TrimEnd(s[..|s| - 1]) else s
  }

  /** `r` is `s[i..j]`, and only whitespace lies before `i` and from `j` on. */
  ghost predicate IsTrimmedSlice(r: string, s: string, i: nat, j: nat) {
    i <= j <= |s| && r == s[i..j] &&
    (forall k :: 0 <= k < i ==> IsWhitespace(s[k])) &&
    (forall k :: j <= k < |s| ==> IsWhitespace(s[k]))
  }

  /** Kotlin's `trim()`: the slice of `s` left after cutting whitespace off both ends. It is
      empty exactly when `s` is blank, and otherwise neither starts nor ends with whitespace. */
  function Trim(s: string): (r: string)
    ensures exists i: nat, j: nat :: IsTrimmedSlice(r, s, i, j)
    ensures r == [] <==> IsBlank(s)
    ensures r != [] ==> !IsWhitespace(r[0]) && !IsWhitespace(r[|r| - 1])
  {
    var u := TrimStart(s);
    var r := TrimEnd(u);
    TrimmedBothEnds(s, u, r);
    r
  }

  /** `u` is `s` without its leading whitespace and `r` is `u` without its trailing
      whitespace: then `r` is a trimmed slice of `s`, empty exactly when `s` is blank. */
  lemma TrimmedBothEnds(s: string, u: string, r: string)
    requires |u| <= |s| && u == s[|s| - |u|..]
    requires forall k :: 0 <= k < |s| - |u| ==> IsWhitespace(s[k])
    requires u == [] || !IsWhitespace(u[0])
    requires |r| <= |u| && r == u[..|r|]
    requires forall k :: |r| <= k < |u| ==> IsWhitespace(u[k])
    ensures IsTrimmedSlice(r, s, |s| - |u|, |s| - |u| + |r|)
    ensures r == [] <==> IsBlank(s)
  {
    var i := |s| - |u|;
    assert s[i..i + |r|] == r;
    forall k | i + |r| <= k < |s|
      ensures IsWhitespace(s[k])
    {
      assert s[k] == u[k - i];
    }
    if u != [] {
      assert u[0] == s[i];
    }
  }
}
