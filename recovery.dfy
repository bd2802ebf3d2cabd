/**
 * The recovery encoding: blacklisting stores the state it replaces by
 * appending a marker and that state's name to the free-text details, and
 * unblacklisting cuts the details at the marker again.
 */
module Recovery {
  import opened Strings

  /** The separator written between the details and the saved state. */
  const Marker: string := "|PREVIOUS_STATE:"

  /** What blacklisting writes into `details` (a `%s|PREVIOUS_STATE:%s` format). */
  function EncodePrevious(details: string, previousState: string): (r: string)
    ensures |r| == |details| + |Marker| + |previousState|
    ensures r[..|details|] == details && OccursAt(r, Marker, |details|)
    ensures r[|details| + |Marker|..] == previousState
  {
    details + Marker + previousState
  }

  /** The marker's first character occurs nowhere else in it. */
  lemma MarkerHeadIsUnique()
    ensures forall i :: 0 < i < |Marker| ==> Marker[i] != Marker[0]
  {
  }

  /** A string shorter than the marker cannot contain it (every state name is one). */
  lemma ShortIsMarkerFree(s: string)
    requires |s| < |Marker|
    ensures !Contains(s, Marker)
  {
  }

  /** A window that lies inside `a` reads the same in `a + Marker + b`. */
  lemma WindowInPrefix(a: string, b: string, k: int)
    ensures OccursAt(a + Marker + b, Marker, k) && k + |Marker| <= |a| ==> OccursAt(a, Marker, k)
  {
    if OccursAt(a + Marker + b, Marker, k) && k + |Marker| <= |a| {
      assert (a + Marker + b)[k..k + |Marker|] == a[k..k + |Marker|];
    }
  }

  /** A window that lies inside `b` reads the same in `a + Marker + b`. */
  lemma WindowInSuffix(a: string, b: string, k: int)
    ensures OccursAt(a + Marker + b, Marker, k) && |a| + |Marker| <= k ==>
      OccursAt(b, Marker, k - |a| - |Marker|)
  {
    if OccursAt(a + Marker + b, Marker, k) && |a| + |Marker| <= k {
      assert (a + Marker + b)[k..k + |Marker|] == b[k - |a| - |Marker|..k - |a|];
    }
  }

  /** A window that overlaps the written marker without being it is not the marker. */
  lemma WindowAcrossMarker(a: string, b: string, k: int)
    ensures OccursAt(a + Marker + b, Marker, k) && |a| < k + |Marker| && k < |a| + |Marker| ==> k == |a|
  {
    var s := a + Marker + b;
    if 0 <= k && k + |Marker| <= |s| && k != |a| && |a| < k + |Marker| && k < |a| + |Marker| {
      MarkerHeadIsUnique();
      if k < |a| {
        assert s[k..k + |Marker|][|a| - k] == s[|a|] == Marker[0];
      } else {
        assert s[k..k + |Marker|][0] == s[k] == Marker[k - |a|];
      }
    }
  }

  /** In `a + Marker + b` no occurrence of the marker starts inside a marker-free `a`. */
  lemma OccurrenceNotBefore(a: string, b: string, k: int)
    requires OccursAt(a + Marker + b, Marker, k)
    requires !Contains(a, Marker)
    ensures k >= |a|
  {
    WindowInPrefix(a, b, k);
    WindowAcrossMarker(a, b, k);
  }

  /** In `a + Marker + b` no occurrence of the marker starts after `a` when `b` is marker-free. */
  lemma OccurrenceNotAfter(a: string, b: string, k: int)
    requires OccursAt(a + Marker + b, Marker, k)
    requires !Contains(b, Marker)
    ensures k <= |a|
  {
    WindowInSuffix(a, b, k);
    WindowAcrossMarker(a, b, k);
  }

  /**
   * A string has at most one cut into marker-free details, the marker and a
   * marker-free state: the encoding is injective on marker-free inputs.
   */
  lemma DecompositionUnique(a: string, b: string, c: string, e: string)
    requires a + Marker + b == c + Marker + e
    requires !Contains(a, Marker) && !Contains(b, Marker)
    ensures a == c && b == e
  {
    var s := a + Marker + b;
    assert OccursAt(c + Marker + e, Marker, |c|) by {
      assert (c + Marker + e)[|c|..|c| + |Marker|] == Marker;
    }
    OccurrenceNotBefore(a, b, |c|);
    OccurrenceNotAfter(a, b, |c|);
    assert a == s[..|a|] && c == (c + Marker + e)[..|c|];
    assert b == s[|a| + |Marker|..] && e == (c + Marker + e)[|c| + |Marker|..];
  }

  /**
   * Round trip: when neither the details nor the saved state contains the
   * marker, splitting the encoded details gives back exactly the two.
   */
  lemma SplitEncoded(details: string, previousState: string)
    requires !Contains(details, Marker) && !Contains(previousState, Marker)
    ensures Split(EncodePrevious(details, previousState), Marker) == [details, previousState]
  {
    var s := EncodePrevious(details, previousState);
    match IndexOf(s, Marker)
    case None =>
      assert false;
    case Some(m) =>
      OccurrenceNotBefore(details, previousState, m);
      assert OccursAt(s, Marker, |details|);
      assert m == |details|;
      assert s[..m] == details;
      assert s[m + |Marker|..] == previousState;
      assert Split(previousState, Marker) == [previousState];
  }

  /**
   * Unblacklisting finds exactly two parts in the encoded details if and
   * only if neither the details nor the saved state contains the marker.
   */
  lemma SplitEncodedTwoPartsIff(details: string, previousState: string)
    ensures |Split(EncodePrevious(details, previousState), Marker)| == 2
            <==> !Contains(details, Marker) && !Contains(previousState, Marker)
  {
    var parts := Split(EncodePrevious(details, previousState), Marker);
    if |parts| == 2 {
      assert Join(parts, Marker) == parts[0] + Marker + parts[1];
      DecompositionUnique(parts[0], parts[1], details, previousState);
    }
    if !Contains(details, Marker) && !Contains(previousState, Marker) {
      SplitEncoded(details, previousState);
    }
  }

  /**
   * Details that already held the marker before blacklisting split into
   * more than two parts, so they can never be recovered.
   */
  lemma MarkedDetailsAreUnrecoverable(details: string, previousState: string)
    requires Contains(details, Marker)
    ensures |Split(EncodePrevious(details, previousState), Marker)| > 2
  {
    SplitEncodedTwoPartsIff(details, previousState);
    assert OccursAt(EncodePrevious(details, previousState), Marker, |details|);
  }

  /**
   * The other direction of the round trip: whatever splits into two parts
   * is the encoding of those two parts, and neither holds the marker.
   */
  lemma TwoPartsAreAnEncoding(s: string)
    requires |Split(s, Marker)| == 2
    ensures var parts := Split(s, Marker);
      EncodePrevious(parts[0], parts[1]) == s
      && !Contains(parts[0], Marker) && !Contains(parts[1], Marker)
  {
    var parts := Split(s, Marker);
    assert Join(parts, Marker) == parts[0] + Marker + Join(parts[1..], Marker);
    assert parts[1..] == [parts[1]];
  }

  /** The marker occurs in `s` at exactly one position. */
  ghost predicate OccursOnce(s: string)
  {
    exists k :: OccursAt(s, Marker, k) && forall j :: OccursAt(s, Marker, j) ==> j == k
  }

  /** Two parts after the split mean the marker occurs exactly once. */
  lemma TwoPartsOnlyIfOccursOnce(s: string)
    requires |Split(s, Marker)| == 2
    ensures OccursOnce(s)
  {
    var parts := Split(s, Marker);
    TwoPartsAreAnEncoding(s);
    var a, b := parts[0], parts[1];
    assert OccursAt(s, Marker, |a|);
    forall j | OccursAt(s, Marker, j) ensures j == |a| {
      OccurrenceNotBefore(a, b, j);
      OccurrenceNotAfter(a, b, j);
    }
  }

  /** A single occurrence of the marker means the split gives exactly two parts. */
  lemma OccursOnceOnlyIfTwoParts(s: string)
    requires OccursOnce(s)
    ensures |Split(s, Marker)| == 2
  {
    var k :| OccursAt(s, Marker, k) && forall j :: OccursAt(s, Marker, j) ==> j == k;
    var a, b := s[..k], s[k + |Marker|..];
    assert s == a + Marker + b;
    assert !Contains(a, Marker) by {
      forall j ensures OccursAt(a, Marker, j) ==> OccursAt(s, Marker, j) && j + |Marker| <= k {
        OccursInPrefix(s, Marker, k, j);
      }
    }
    assert !Contains(b, Marker) by {
      forall j ensures OccursAt(b, Marker, j) ==> OccursAt(s, Marker, k + |Marker| + j) {
        OccursInSuffix(s, Marker, k + |Marker|, j);
      }
    }
    SplitEncoded(a, b);
  }

  /**
   * Unblacklisting's test that the details split into exactly two parts is
   * the test that the marker occurs in them exactly once.
   */
  lemma TwoPartsIffOccursOnce(s: string)
    ensures |Split(s, Marker)| == 2 <==> OccursOnce(s)
  {
    if |Split(s, Marker)| == 2 {
      TwoPartsOnlyIfOccursOnce(s);
    }
    if OccursOnce(s) {
      OccursOnceOnlyIfTwoParts(s);
    }
  }
}
