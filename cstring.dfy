/**
 * The part of the C string library that the redirection engine relies on.
 * A non-null `const char*` is modelled by the characters before its
 * terminating NUL, as a `string`; a null pointer is `None`.
 */
module CString {
  import opened Wrappers

  /** `needle` occurs in `hay` starting at index `i`. */
  predicate MatchAt(hay: string, needle: string, i: nat)
  {
    i + |needle| <= |hay| && hay[i..i + |needle|] == needle
  }

  /** Reference definition: `needle` occurs somewhere in `hay`. */
  ghost predicate Occurs(needle: string, hay: string)
  {
    exists i: nat :: MatchAt(hay, needle, i)
  }

  /** A match in the tail, one position on, is a match in the whole string, and back. */
  lemma ShiftMatch(hay: string, needle: string, i: nat)
    requires |hay| > 0
    ensures MatchAt(hay[1..], needle, i) <==> MatchAt(hay, needle, i + 1)
  {
    if i + |needle| <= |hay[1..]| {
      assert hay[1..][i..i + |needle|] == hay[i + 1..i + 1 + |needle|];
    }
  }

  /**
   * `strstr` (section 7.24.5.7 of ISO C11): the index of the FIRST
   * occurrence of `needle` in `hay`, or `None` (a null pointer) when there
   * is none. An empty needle is found at index 0.
   */
  function Strstr(hay: string, needle: string): (r: Option<nat>)
    ensures r.Some? ==> MatchAt(hay, needle, r.value)
    ensures r.Some? ==> forall j: nat :: j < r.value ==> !MatchAt(hay, needle, j)
    ensures r.None? <==> !Occurs(needle, hay)
    decreases |hay|
  {
    if needle <= hay then
      assert MatchAt(hay, needle, 0);
      Some(0)
    else if |hay| == 0 then
      assert forall j: nat :: !MatchAt(hay, needle, j);
      None
    else
      var rest := Strstr(hay[1..], needle);
      assert forall j: nat :: MatchAt(hay[1..], needle, j) <==> MatchAt(hay, needle, j + 1) by {
        forall j: nat ensures MatchAt(hay[1..], needle, j) <==> MatchAt(hay, needle, j + 1) {
          ShiftMatch(hay, needle, j);
        }
      }
      assert !MatchAt(hay, needle, 0);
      match rest
      case None =>
        assert forall j: nat :: !MatchAt(hay, needle, j) by {
          forall j: nat ensures !MatchAt(hay, needle, j) {
            if j > 0 { assert !MatchAt(hay[1..], needle, j - 1); }
          }
        }
        None
      case Some(k) =>
        assert forall j: nat :: 0 < j <= k ==> !MatchAt(hay, needle, j) by {
          forall j: nat | 0 < j <= k ensures !MatchAt(hay, needle, j) {
            assert !MatchAt(hay[1..], needle, j - 1);
          }
        }
        Some(k + 1)
  }

  /** A match at `i` puts characters `k` and `k + 1` of `needle` at `i + k` and `i + k + 1`. */
  lemma MatchAtPair(hay: string, needle: string, i: nat, k: nat)
    requires MatchAt(hay, needle, i) && k + 1 < |needle|
    ensures hay[i + k] == needle[k] && hay[i + k + 1] == needle[k + 1]
  {
    assert hay[i..i + |needle|][k] == needle[k];
    assert hay[i..i + |needle|][k + 1] == needle[k + 1];
  }

  /**
   * If two consecutive characters of `needle` never appear side by side in
   * `hay`, then `needle` does not occur in `hay`.
   */
  lemma AbsentPairExcludesNeedle(hay: string, needle: string, k: nat)
    requires k + 1 < |needle|
    requires forall j: nat :: j + 1 < |hay| ==> !(hay[j] == needle[k] && hay[j + 1] == needle[k + 1])
    ensures !Occurs(needle, hay)
  {
    forall i: nat ensures !MatchAt(hay, needle, i) {
      if MatchAt(hay, needle, i) {
        MatchAtPair(hay, needle, i, k);
      }
    }
  }
}
