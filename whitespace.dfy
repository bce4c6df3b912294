/**
 * Message normalisation of dlog: `strings.TrimSpace(strings.TrimSuffix(m, "\n"))`,
 * over text already decoded into Unicode code points, with Go's
 * `unicode.IsSpace` as the whitespace predicate.
 */
module Whitespace {

  /** `unicode.IsSpace`: the Latin-1 spaces plus the other code points of Unicode's White_Space property. */
  predicate IsSpace(c: char) {
    c == '\t' || c == '\n' || c == '\U{0B}' || c == '\U{0C}' || c == '\r' || c == ' '
    || c == '\U{85}' || c == '\U{A0}' || c == '\U{1680}'
    || ('\U{2000}' <= c <= '\U{200A}')
    || c == '\U{2028}' || c == '\U{2029}' || c == '\U{202F}' || c == '\U{205F}' || c == '\U{3000}'
  }

  predicate EndsWithNewline(s: string) {
    |s| > 0 && s[|s| - 1] == '\n'
  }

  /** `strings.TrimSuffix(s, "\n")`: drop one trailing newline, if there is one. */
  function TrimNewline(s: string): (r: string)
    ensures r <= s
    ensures |s| - |r| == if EndsWithNewline(s) then 1 else 0
  {
    if EndsWithNewline(s) then s[..|s| - 1] else s
  }

  /** Number of whitespace code points at the start of `s`. */
  function LeadingSpaces(s: string): (n: nat)
    ensures n <= |s|
    ensures forall k :: 0 <= k < n ==> IsSpace(s[k])
    ensures n < |s| ==> !IsSpace(s[n])
  {
    if |s| > 0 && IsSpace(s[0]) then 1 + LeadingSpaces(s[1..]) else 0
  }

  /** Number of whitespace code points at the end of `s`. */
  function TrailingSpaces(s: string): (n: nat)
    ensures n <= |s|
    ensures forall k :: |s| - n <= k < |s| ==> IsSpace(s[k])
    ensures n < |s| ==> !IsSpace(s[|s| - 1 - n])
  {
    if |s| > 0 && IsSpace(s[|s| - 1]) then 1 + TrailingSpaces(s[..|s| - 1]) else 0
  }

  /**
   * `s[i..j]` is what trimming `s` leaves: everything outside it is
   * whitespace and, unless it is empty, it starts and ends with a
   * non-whitespace code point.
   */
  predicate TrimsTo(s: string, i: int, j: int) {
    && 0 <= i <= j <= |s|
    && (forall k :: 0 <= k < i ==> IsSpace(s[k]))
    && (forall k :: j <= k < |s| ==> IsSpace(s[k]))
    && (i < j ==> !IsSpace(s[i]) && !IsSpace(s[j - 1]))
  }

  /** `strings.TrimSpace`: cut leading, then trailing whitespace. */
  function TrimSpace(s: string): (r: string)
    ensures exists i, j :: TrimsTo(s, i, j) && r == s[i..j]
  {
    var i := LeadingSpaces(s);
    var t := s[i..];
    var n := TrailingSpaces(t);
    assert TrimsTo(s, i, i + |t| - n);
    t[..|t| - n]
  }

  /** The message text dlog logs: one trailing newline removed, then surrounding whitespace. */
  function Normalize(m: string): string {
    TrimSpace(TrimNewline(m))
  }

  // ---------------------------------------------------------------------
  // Properties
  // ---------------------------------------------------------------------

  /** Trimming is determined by the input: any two cuts satisfying `TrimsTo` keep the same text. */
  lemma TrimsToUnique(s: string, i: int, j: int, i': int, j': int)
    requires TrimsTo(s, i, j) && TrimsTo(s, i', j')
    ensures s[i..j] == s[i'..j']
  {
    if i < j && i' < j' {
      assert !(i < i') && !(i' < i);
      assert !(j < j') && !(j' < j);
    }
  }

  /** Any cut satisfying `TrimsTo` is what `TrimSpace` keeps. */
  lemma TrimSpaceOf(s: string, i: int, j: int)
    requires TrimsTo(s, i, j)
    ensures TrimSpace(s) == s[i..j]
  {
    var r := TrimSpace(s);
    var i', j' :| TrimsTo(s, i', j') && r == s[i'..j'];
    TrimsToUnique(s, i, j, i', j');
  }

  /** A trimmed text is empty exactly when the input is all whitespace. */
  lemma TrimSpaceEmpty(s: string)
    ensures TrimSpace(s) == [] <==> forall k :: 0 <= k < |s| ==> IsSpace(s[k])
  {
    var r := TrimSpace(s);
    var i, j :| TrimsTo(s, i, j) && r == s[i..j];
    if forall k :: 0 <= k < |s| ==> IsSpace(s[k]) {
      if i < j {
        assert !IsSpace(s[i]);
      }
    }
  }

  /** A non-empty trimmed text starts and ends with non-whitespace. */
  lemma TrimSpaceEnds(s: string)
    requires TrimSpace(s) != []
    ensures !IsSpace(TrimSpace(s)[0]) && !IsSpace(TrimSpace(s)[|TrimSpace(s)| - 1])
  {
    var r := TrimSpace(s);
    var i, j :| TrimsTo(s, i, j) && r == s[i..j];
  }

  lemma TrimSpaceIdempotent(s: string)
    ensures TrimSpace(TrimSpace(s)) == TrimSpace(s)
  {
    var r := TrimSpace(s);
    var i, j :| TrimsTo(s, i, j) && r == s[i..j];
    assert TrimsTo(r, 0, |r|);
    TrimSpaceOf(r, 0, |r|);
    assert r[0..|r|] == r;
  }

  /** Because a newline is whitespace, removing a trailing newline first never changes the trimmed result. */
  lemma NormalizeIsTrimSpace(m: string)
    ensures Normalize(m) == TrimSpace(m)
  {
    var t := TrimNewline(m);
    var r := TrimSpace(t);
    var i, j :| TrimsTo(t, i, j) && r == t[i..j];
    assert forall k :: 0 <= k < |t| ==> m[k] == t[k];
    assert forall k :: |t| <= k < |m| ==> m[k] == '\n';
    assert TrimsTo(m, i, j);
    assert m[i..j] == t[i..j];
    TrimSpaceOf(m, i, j);
  }

  /** A message normalises to nothing exactly when it consists of whitespace only. */
  lemma NormalizeEmpty(m: string)
    ensures Normalize(m) == [] <==> forall k :: 0 <= k < |m| ==> IsSpace(m[k])
  {
    NormalizeIsTrimSpace(m);
    TrimSpaceEmpty(m);
  }

  lemma NormalizeIdempotent(m: string)
    ensures Normalize(Normalize(m)) == Normalize(m)
  {
    NormalizeIsTrimSpace(m);
    NormalizeIsTrimSpace(Normalize(m));
    TrimSpaceIdempotent(m);
  }

  /** Text that already starts and ends with non-whitespace is left as it is by trimming. */
  lemma TrimSpaceKeepsTrimmed(m: string)
    requires |m| > 0 && !IsSpace(m[0]) && !IsSpace(m[|m| - 1])
    ensures TrimSpace(m) == m
  {
    assert TrimsTo(m, 0, |m|);
    TrimSpaceOf(m, 0, |m|);
    assert m[0..|m|] == m;
  }

  /** Such text is also logged as it is (a trailing newline would be whitespace). */
  lemma NormalizeKeepsTrimmed(m: string)
    requires |m| > 0 && !IsSpace(m[0]) && !IsSpace(m[|m| - 1])
    ensures Normalize(m) == m
  {
    TrimSpaceKeepsTrimmed(m);
    NormalizeIsTrimSpace(m);
  }
}
