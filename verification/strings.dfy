/** The two PHP string functions the router applies to the request URI:
    `trim($s, '/')` and `str_replace($pattern, '', $s)`. */
module Strings {

  const Sep: char := '/'

  predicate AllSep(s: string) {
    forall k | 0 <= k < |s| :: s[k] == Sep
  }

  /** Neither the first nor the last character is a separator. */
  predicate BareEnds(s: string) {
    s == [] || (s[0] != Sep && s[|s| - 1] != Sep)
  }

  /** The index of the first character of `s` that is not a separator,
      or `|s|` when there is none. */
  function FirstKept(s: string): (i: nat)
    ensures i <= |s|
    ensures forall k | 0 <= k < i :: s[k] == Sep
    ensures i == |s| || s[i] != Sep
  {
    if |s| == 0 || s[0] != Sep then 0 else 1 + FirstKept(s[1..])
  }

  /** One past the last character of `s` that is not a separator, or 0
      when there is none. */
  function LastKept(s: string): (j: nat)
    ensures j <= |s|
    ensures forall k | j <= k < |s| :: s[k] == Sep
    ensures j == 0 || s[j - 1] != Sep
  {
    if |s| == 0 || s[|s| - 1] != Sep then |s| else LastKept(s[..|s| - 1])
  }

  /** `ltrim($s, '/')`: what is left does not start with a separator and
      keeps the last character. */
  function TrimStart(s: string): (r: string)
    ensures |r| <= |s|
    ensures r == [] || r[0] != Sep
    ensures r == [] || r[|r| - 1] == s[|s| - 1]
  {
    s[FirstKept(s)..]
  }

  /** `rtrim($s, '/')`: what is left does not end with a separator and
      keeps the first character. */
  function TrimEnd(s: string): (r: string)
    ensures |r| <= |s|
    ensures r == [] || r[|r| - 1] != Sep
    ensures r == [] || r[0] == s[0]
  {
    s[..LastKept(s)]
  }

  /** `trim($s, '/')`: the left scan, then the right scan on what is left.
      No separator is left at either end. */
  function Trim(s: string): (r: string)
    ensures |r| <= |s|
    ensures BareEnds(r)
  {
    TrimEnd(TrimStart(s))
  }

  /** `s[i..j]` is what is left of `s` once the run of separators before
      `i` and the run from `j` on are cut, and it neither starts nor ends
      with a separator. */
  predicate TrimmedAt(s: string, i: nat, j: nat) {
    && i <= j <= |s|
    && (forall k | 0 <= k < i :: s[k] == Sep)
    && (forall k | j <= k < |s| :: s[k] == Sep)
    && (i < j ==> s[i] != Sep && s[j - 1] != Sep)
  }

  /** `Trim` meets that description: it strips separators only, from both
      ends, and leaves none at either end. */
  lemma TrimIsTrimmed(s: string) returns (i: nat, j: nat)
    ensures TrimmedAt(s, i, j) && Trim(s) == s[i..j]
  {
    i := FirstKept(s);
    var t := s[i..];
    var m := LastKept(t);
    j := i + m;
    SepsFromOffset(s, i, m);
    assert Trim(s) == t[..m];
    assert t[..m] == s[i..j];
  }

  /** A run of separators at the end of `s[i..]` is one at the end of `s`. */
  lemma SepsFromOffset(s: string, i: nat, m: nat)
    requires i <= |s| && m <= |s| - i
    requires forall k | m <= k < |s| - i :: s[i..][k] == Sep
    ensures forall k | i + m <= k < |s| :: s[k] == Sep
  {
    forall k | i + m <= k < |s|
      ensures s[k] == Sep
    {
      assert s[i..][k - i] == s[k];
    }
  }

  /** `FirstKept` is the only index with its two properties. */
  lemma FirstKeptAt(s: string, i: nat)
    requires i <= |s|
    requires forall k | 0 <= k < i :: s[k] == Sep
    requires i == |s| || s[i] != Sep
    ensures FirstKept(s) == i
  {
  }

  /** `LastKept` is the only index with its two properties. */
  lemma LastKeptAt(s: string, j: nat)
    requires j <= |s|
    requires forall k | j <= k < |s| :: s[k] == Sep
    requires j == 0 || s[j - 1] != Sep
    ensures LastKept(s) == j
  {
  }

  /** Conversely, whatever meets the description is `Trim(s)`: the
      description pins the result down. */
  lemma TrimUnique(s: string, i: nat, j: nat)
    requires TrimmedAt(s, i, j)
    ensures Trim(s) == s[i..j]
  {
    if i == j {
      FirstKeptAt(s, |s|);
    } else {
      FirstKeptAt(s, i);
      var t := s[i..];
      assert forall k | j - i <= k < |t| :: t[k] == s[k + i];
      assert t[j - i - 1] == s[j - 1];
      LastKeptAt(t, j - i);
    }
  }

  /** A string with no separator at either end is left alone. */
  lemma TrimBare(s: string)
    requires BareEnds(s)
    ensures Trim(s) == s
  {
    assert TrimmedAt(s, 0, |s|);
    TrimUnique(s, 0, |s|);
    assert s[0..|s|] == s;
  }

  /** Trimming twice is trimming once. */
  lemma TrimIdempotent(s: string)
    ensures Trim(Trim(s)) == Trim(s)
  {
    var i, j := TrimIsTrimmed(s);
    var m := Trim(s);
    assert TrimmedAt(m, 0, |m|);
    TrimUnique(m, 0, |m|);
  }

  /** `pat` occurs in `s` starting at position `k`. */
  predicate OccursAt(s: string, pat: string, k: int) {
    0 <= k && k + |pat| <= |s| && s[k..k + |pat|] == pat
  }

  predicate Occurs(s: string, pat: string) {
    exists k | 0 <= k <= |s| :: OccursAt(s, pat, k)
  }

  /** An occurrence in `s` is either at its start or an occurrence in `s[1..]`. */
  lemma OccursShift(s: string, pat: string)
    requires |s| > 0
    ensures Occurs(s, pat) <==> OccursAt(s, pat, 0) || Occurs(s[1..], pat)
  {
    if Occurs(s, pat) && !OccursAt(s, pat, 0) {
      var k :| 0 <= k <= |s| && OccursAt(s, pat, k);
      OccursAtShift(s, pat, k);
    }
    if Occurs(s[1..], pat) {
      var k :| 0 <= k <= |s[1..]| && OccursAt(s[1..], pat, k);
      OccursAtShift(s, pat, k + 1);
    }
  }

  lemma OccursAtShift(s: string, pat: string, k: int)
    requires |s| > 0 && k >= 1
    ensures OccursAt(s, pat, k) <==> OccursAt(s[1..], pat, k - 1)
  {
    if k + |pat| <= |s| {
      assert s[1..][k - 1..k - 1 + |pat|] == s[k..k + |pat|];
    }
  }

  /** `str_replace($pat, '', $s)`: one left-to-right scan that deletes every
      occurrence of `pat` it meets and resumes right after it, so occurrences
      do not overlap and the text left behind is not scanned again. An empty
      pattern leaves the subject alone. */
  function Delete(s: string, pat: string): (r: string)
    ensures |r| <= |s|
    ensures !Occurs(s, pat) ==> r == s
    ensures |pat| > 0 && Occurs(s, pat) ==> |r| <= |s| - |pat|
    decreases |s|
  {
    if |pat| == 0 || |s| < |pat| then s
    else if s[..|pat|] == pat then
      assert OccursAt(s, pat, 0);
      Delete(s[|pat|..], pat)
    else
      OccursShift(s, pat);
      [s[0]] + Delete(s[1..], pat)
  }

  /** `Delete` changes its subject exactly when the pattern occurs in it. */
  lemma DeleteChangesIffOccurs(s: string, pat: string)
    requires |pat| > 0
    ensures Delete(s, pat) == s <==> !Occurs(s, pat)
  {
  }

  /** A leading occurrence is removed and the scan resumes after it. */
  lemma DeleteLeading(pat: string, rest: string)
    requires |pat| > 0
    ensures Delete(pat + rest, pat) == Delete(rest, pat)
  {
    assert (pat + rest)[..|pat|] == pat;
    assert (pat + rest)[|pat|..] == rest;
  }

  /** Text in front of the first occurrence is kept verbatim: when no
      occurrence starts inside `x`, deleting from `x + rest` is deleting
      from `rest`. */
  lemma {:induction false} DeleteKeepsPrefix(x: string, rest: string, pat: string)
    requires |pat| > 0
    requires forall k | 0 <= k < |x| :: !OccursAt(x + rest, pat, k)
    ensures Delete(x + rest, pat) == x + Delete(rest, pat)
    decreases |x|
  {
    if |x| == 0 {
      assert x + rest == rest;
    } else {
      NoOccurrenceInTail(x, rest, pat);
      DeleteKeepsPrefix(x[1..], rest, pat);
      DeleteStep(x, rest, pat);
      var d := Delete(rest, pat);
      assert [x[0]] + (x[1..] + d) == ([x[0]] + x[1..]) + d;
      assert x == [x[0]] + x[1..];
    }
  }

  /** The no-occurrence condition of `DeleteKeepsPrefix` passes to `x[1..]`. */
  lemma NoOccurrenceInTail(x: string, rest: string, pat: string)
    requires |x| > 0
    requires forall k | 0 <= k < |x| :: !OccursAt(x + rest, pat, k)
    ensures forall k | 0 <= k < |x[1..]| :: !OccursAt(x[1..] + rest, pat, k)
  {
    var s := x + rest;
    assert s[1..] == x[1..] + rest;
    forall k | 0 <= k < |x[1..]|
      ensures !OccursAt(x[1..] + rest, pat, k)
    {
      assert !OccursAt(s, pat, k + 1);
      OccursAtShift(s, pat, k + 1);
    }
  }

  /** When no occurrence starts at the front, the first character is kept. */
  lemma DeleteStep(x: string, rest: string, pat: string)
    requires |pat| > 0 && |x| > 0
    requires !OccursAt(x + rest, pat, 0)
    ensures Delete(x + rest, pat) == [x[0]] + Delete(x[1..] + rest, pat)
  {
    assert (x + rest)[1..] == x[1..] + rest;
  }

  /** If the subject does not end with the pattern's last character, its
      last character survives the deletion. */
  lemma {:induction false} DeleteKeepsLast(s: string, pat: string)
    requires |pat| > 0 && |s| > 0
    requires s[|s| - 1] != pat[|pat| - 1]
    ensures |Delete(s, pat)| > 0
    ensures Delete(s, pat)[|Delete(s, pat)| - 1] == s[|s| - 1]
    decreases |s|
  {
    if |s| < |pat| {
    } else if s[..|pat|] == pat {
      if |s| == |pat| {
        assert false;
      }
      var t := s[|pat|..];
      assert t[|t| - 1] == s[|s| - 1];
      DeleteKeepsLast(t, pat);
    } else if |s| > 1 {
      var t := s[1..];
      assert t[|t| - 1] == s[|s| - 1];
      DeleteKeepsLast(t, pat);
    }
  }
}
