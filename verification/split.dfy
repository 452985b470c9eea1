/**
 * Go's `strings.Split` for a non-empty separator, and the facts the
 * authorization header gate relies on.
 */
module Split {
  import opened Wrappers

  /** `sep` occurs in `s` starting at index `i`. */
  predicate OccursAt(s: string, sep: string, i: int) {
    0 <= i && i + |sep| <= |s| && s[i..i + |sep|] == sep
  }

  predicate NoOccurrence(s: string, sep: string) {
    forall i :: 0 <= i <= |s| ==> !OccursAt(s, sep, i)
  }

  /** `sep` occurs in `s` at `i` and nowhere else. */
  predicate OccursOnlyAt(s: string, sep: string, i: int) {
    OccursAt(s, sep, i) && forall j :: 0 <= j <= |s| && OccursAt(s, sep, j) ==> j == i
  }

  /** No proper suffix of `sep` is also a prefix of it, so two occurrences can never overlap. */
  predicate NoSelfOverlap(sep: string) {
    forall k :: 0 < k < |sep| ==> sep[k..] != sep[..|sep| - k]
  }

  /** `strings.Index(s[from..], sep)`, shifted back to an index into `s`: the first occurrence at or after `from`. */
  function IndexFrom(s: string, sep: string, from: nat): (r: Option<nat>)
    requires from <= |s|
    ensures r.Some? ==> from <= r.value && OccursAt(s, sep, r.value)
    ensures r.Some? ==> forall j :: from <= j < r.value ==> !OccursAt(s, sep, j)
    ensures r.None? ==> forall j :: from <= j ==> !OccursAt(s, sep, j)
    decreases |s| - from
  {
    if from + |sep| > |s| then None
    else if s[from..from + |sep|] == sep then Some(from)
    else IndexFrom(s, sep, from + 1)
  }

  /** `strings.Split(s, sep)`: the pieces between successive leftmost non-overlapping occurrences. */
  function Split(s: string, sep: string): (parts: seq<string>)
    requires |sep| > 0
    ensures |parts| >= 1
    ensures |parts| == 1 <==> NoOccurrence(s, sep)
    ensures forall k :: 0 <= k < |parts| ==> NoOccurrence(parts[k], sep)
    decreases |s|
  {
    match IndexFrom(s, sep, 0)
    case None => [s]
    case Some(i) =>
      var first := s[..i];
      forall j | 0 <= j <= |first|
        ensures !OccursAt(first, sep, j)
      {
        if j + |sep| <= |first| {
          assert j < i && !OccursAt(s, sep, j);
          assert first[j..j + |sep|] == s[j..j + |sep|];
        }
      }
      var parts := [first] + Split(s[i + |sep|..], sep);
      assert !NoOccurrence(s, sep) by { assert OccursAt(s, sep, i); }
      assert forall k :: 1 <= k < |parts| ==> parts[k] == Split(s[i + |sep|..], sep)[k - 1];
      parts
  }

  /** `strings.Join(parts, sep)`. */
  function Join(parts: seq<string>, sep: string): string
  {
    if |parts| == 0 then ""
    else if |parts| == 1 then parts[0]
    else parts[0] + sep + Join(parts[1..], sep)
  }

  lemma JoinCons(a: string, rest: seq<string>, sep: string)
    requires |rest| >= 1
    ensures Join([a] + rest, sep) == a + sep + Join(rest, sep)
  {
    assert ([a] + rest)[1..] == rest;
  }

  lemma SplitAtFirst(s: string, sep: string, i: nat)
    requires |sep| > 0 && IndexFrom(s, sep, 0) == Some(i)
    ensures Split(s, sep) == [s[..i]] + Split(s[i + |sep|..], sep)
    ensures s == s[..i] + sep + s[i + |sep|..]
  {
    AroundOccurrence(s, sep, i);
  }

  lemma AroundOccurrence(s: string, sep: string, i: int)
    requires OccursAt(s, sep, i)
    ensures s == s[..i] + sep + s[i + |sep|..]
  {
    assert s == s[..i] + s[i..i + |sep|] + s[i + |sep|..];
  }

  /** Splitting then joining with the same separator gives the original string back. */
  lemma {:induction false} JoinSplit(s: string, sep: string)
    requires |sep| > 0
    ensures Join(Split(s, sep), sep) == s
    decreases |s|
  {
    var first := IndexFrom(s, sep, 0);
    if first.Some? {
      var i := first.value;
      var rest := s[i + |sep|..];
      SplitAtFirst(s, sep, i);
      JoinSplit(rest, sep);
      JoinCons(s[..i], Split(rest, sep), sep);
    }
  }

  /** A self-avoiding separator occurring at `i` occurs nowhere in the rest of its span. */
  lemma NoOverlapAfter(s: string, sep: string, i: int, j: int)
    requires NoSelfOverlap(sep) && OccursAt(s, sep, i) && i < j < i + |sep|
    ensures !OccursAt(s, sep, j)
  {
    var n, k := |sep|, j - i;
    if j + n <= |s| {
      assert s[j..j + n][..n - k] == s[i..i + n][k..];
    }
  }

  /** A self-avoiding separator occurring at `j` has no occurrence starting less than `|sep|` before it. */
  lemma NoOverlapBefore(s: string, sep: string, i: int, j: int)
    requires NoSelfOverlap(sep) && OccursAt(s, sep, j) && 0 <= i < j < i + |sep|
    ensures !OccursAt(s, sep, i)
  {
    var n, k := |sep|, j - i;
    if i + n <= |s| {
      assert s[i..i + n][k..] == s[j..i + n] == s[j..j + n][..n - k];
    }
  }

  /** An occurrence in a suffix of `s` is an occurrence in `s`, shifted. */
  lemma OccursInSuffix(s: string, sep: string, d: nat, j: int)
    requires d <= |s|
    ensures OccursAt(s[d..], sep, j) <==> j >= 0 && OccursAt(s, sep, d + j)
  {
    if j >= 0 && j + |sep| <= |s| - d {
      assert s[d..][j..j + |sep|] == s[d + j..d + j + |sep|];
    }
  }

  /**
   * For a separator that cannot overlap itself, `Split` yields exactly two parts
   * iff the separator occurs exactly once; the second part is then the text after it.
   */
  lemma {:induction false} SplitInTwo(s: string, sep: string)
    requires |sep| > 0 && NoSelfOverlap(sep)
    ensures |Split(s, sep)| == 2 <==> exists i :: OccursOnlyAt(s, sep, i)
    ensures forall i :: OccursOnlyAt(s, sep, i) ==> Split(s, sep) == [s[..i], s[i + |sep|..]]
  {
    match IndexFrom(s, sep, 0)
    case None =>
    case Some(i) =>
      var d := i + |sep|;
      var rest := s[d..];
      if NoOccurrence(rest, sep) {
        forall j | 0 <= j <= |s| && j != i
          ensures !OccursAt(s, sep, j)
        {
          if i < j < d {
            NoOverlapAfter(s, sep, i, j);
          } else if j >= d {
            OccursInSuffix(s, sep, d, j - d);
          }
        }
        assert OccursOnlyAt(s, sep, i);
      } else {
        var k :| 0 <= k <= |rest| && OccursAt(rest, sep, k);
        OccursInSuffix(s, sep, d, k);
        assert OccursAt(s, sep, d + k);
      }
  }

  /** Text around a single occurrence of a self-avoiding separator: the occurrence is the only one. */
  lemma OnlyOccurrenceBetween(p: string, sep: string, t: string)
    requires |sep| > 0 && NoSelfOverlap(sep)
    requires NoOccurrence(p, sep) && NoOccurrence(t, sep)
    ensures OccursOnlyAt(p + sep + t, sep, |p|)
  {
    var s := p + sep + t;
    var n := |sep|;
    assert s[|p|..|p| + n] == sep;
    forall j | 0 <= j <= |s| && j != |p|
      ensures !OccursAt(s, sep, j)
    {
      if j + n <= |p| {
        assert s[j..j + n] == p[j..j + n];
        assert !OccursAt(p, sep, j);
      } else if j < |p| {
        NoOverlapBefore(s, sep, j, |p|);
      } else if j < |p| + n {
        NoOverlapAfter(s, sep, |p|, j);
      } else if j + n <= |s| {
        assert s[j..j + n] == t[j - |p| - n..j - |p|];
        assert !OccursAt(t, sep, j - |p| - n);
      }
    }
  }
}
