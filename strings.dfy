/**
 * The two string operations the chaincode relies on, as the Go standard
 * library defines them for a non-empty separator: `strings.Index` (the
 * leftmost occurrence) and `strings.Split` (cut at each leftmost
 * non-overlapping occurrence).  `Join` is the inverse used to state what
 * `Split` computes.
 */
module Strings {
  import opened Wrappers

  /** `sep` occurs in `s` starting at position `k`. */
  predicate OccursAt(s: string, sep: string, k: int)
  {
    0 <= k && k + |sep| <= |s| && s[k..k + |sep|] == sep
  }

  /** `sep` occurs somewhere in `s` (Go's `strings.Contains`). */
  ghost predicate Contains(s: string, sep: string)
  {
    exists k :: OccursAt(s, sep, k)
  }

  /** An occurrence past the first position of `s` is one in `s[1..]`, one position earlier. */
  lemma OccursAtShift(s: string, sep: string, k: int)
    requires |s| >= 1 && k >= 1
    ensures OccursAt(s, sep, k) <==> OccursAt(s[1..], sep, k - 1)
  {
    if k + |sep| <= |s| {
      assert s[1..][k - 1..k - 1 + |sep|] == s[k..k + |sep|];
    }
  }

  /** Go's `strings.Index`: the position of the leftmost occurrence of `sep`. */
  function IndexOf(s: string, sep: string): (r: Option<nat>)
    ensures r.None? <==> !Contains(s, sep)
    ensures r.Some? ==> OccursAt(s, sep, r.value)
    ensures r.Some? ==> forall k :: 0 <= k < r.value ==> !OccursAt(s, sep, k)
    decreases |s|
  {
    if |s| < |sep| then
      None
    else if s[..|sep|] == sep then
      assert OccursAt(s, sep, 0);
      Some(0)
    else
      var rest := IndexOf(s[1..], sep);
      assert forall k :: k >= 1 ==> (OccursAt(s, sep, k) <==> OccursAt(s[1..], sep, k - 1)) by {
        forall k | k >= 1 ensures OccursAt(s, sep, k) <==> OccursAt(s[1..], sep, k - 1) {
          OccursAtShift(s, sep, k);
        }
      }
      assert !OccursAt(s, sep, 0);
      match rest
      case None =>
        None
      case Some(m) =>
        assert OccursAt(s, sep, m + 1);
        Some(m + 1)
  }

  /** An occurrence in a prefix of `s` is an occurrence in `s`. */
  lemma OccursInPrefix(s: string, sep: string, m: nat, k: int)
    requires m <= |s|
    ensures OccursAt(s[..m], sep, k) ==> OccursAt(s, sep, k)
  {
    if OccursAt(s[..m], sep, k) {
      assert s[k..k + |sep|] == s[..m][k..k + |sep|];
    }
  }

  /** An occurrence in a suffix of `s` is an occurrence in `s`, shifted by the cut. */
  lemma OccursInSuffix(s: string, sep: string, m: nat, k: int)
    requires m <= |s|
    ensures OccursAt(s[m..], sep, k) ==> OccursAt(s, sep, m + k)
  {
    if OccursAt(s[m..], sep, k) {
      assert s[m + k..m + k + |sep|] == s[m..][k..k + |sep|];
    }
  }

  /** Glue `parts` back together with `sep` between neighbours (Go's `strings.Join`). */
  function Join(parts: seq<string>, sep: string): string
  {
    if |parts| == 0 then ""
    else if |parts| == 1 then parts[0]
    else parts[0] + sep + Join(parts[1..], sep)
  }

  /**
   * Go's `strings.Split` for a non-empty separator.  Joining the parts with
   * `sep` gives back `s`, no part contains `sep`, and the first cut is at the
   * leftmost occurrence.  The contract pins only the first cut; the body
   * makes every later cut at the leftmost occurrence in what remains, as Go
   * does.  For a separator whose first character occurs nowhere else in it
   * (the marker) the contract alone fixes the result.
   */
  function Split(s: string, sep: string): (r: seq<string>)
    requires |sep| > 0
    ensures |r| >= 1
    ensures Join(r, sep) == s
    ensures forall i :: 0 <= i < |r| ==> !Contains(r[i], sep)
    ensures |r| == 1 <==> !Contains(s, sep)
    ensures |r| > 1 ==> OccursAt(s, sep, |r[0]|) && forall k :: 0 <= k < |r[0]| ==> !OccursAt(s, sep, k)
    decreases |s|
  {
    match IndexOf(s, sep)
    case None => [s]
    case Some(m) =>
      var head := s[..m];
      var rest := Split(s[m + |sep|..], sep);
      assert !Contains(head, sep) by {
        forall k | OccursAt(head, sep, k) ensures OccursAt(s, sep, k) && k < m {
          OccursInPrefix(s, sep, m, k);
        }
      }
      assert s == head + sep + s[m + |sep|..];
      assert Contains(s, sep) by { assert OccursAt(s, sep, m); }
      var r := [head] + rest;
      assert r[1..] == rest;
      r
  }
}
