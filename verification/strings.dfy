/** Substring search and removal over sequences, as Go's `strings`
    package does it on bytes. Everything is generic so the same
    definitions serve for text (`seq<char>`) and for RTMP payloads
    (`seq<byte>`). */
module Strings {

  predicate StartsWith<T(==)>(s: seq<T>, p: seq<T>) {
    |p| <= |s| && s[..|p|] == p
  }

  /** `strings.Contains`: some position of `s` starts an occurrence of `p`. */
  predicate Contains<T(==)>(s: seq<T>, p: seq<T>)
    decreases |s|
  {
    StartsWith(s, p) || (|s| > 0 && Contains(s[1..], p))
  }

  /** `strings.Replace(s, p, "", -1)`: every non-overlapping occurrence of
      `p`, scanning left to right, is deleted. Go leaves `s` unchanged when
      `p` is empty (the empty replacement is inserted between characters). */
  function RemoveAll<T(==)>(s: seq<T>, p: seq<T>): (r: seq<T>)
    decreases |s|
    ensures |r| <= |s|
  {
    if |p| == 0 || |s| == 0 then s
    else if StartsWith(s, p) then RemoveAll(s[|p|..], p)
    else [s[0]] + RemoveAll(s[1..], p)
  }

  /** Nothing to remove leaves the sequence as it was. */
  lemma {:induction false} RemoveAbsent<T>(s: seq<T>, p: seq<T>)
    requires !Contains(s, p)
    ensures RemoveAll(s, p) == s
    decreases |s|
  {
    if |p| == 0 || |s| == 0 {
    } else {
      assert !StartsWith(s, p);
      RemoveAbsent(s[1..], p);
    }
  }

  /** Removing an occurrence that is there makes the sequence shorter. */
  lemma {:induction false} RemoveShrinks<T>(s: seq<T>, p: seq<T>)
    requires |p| > 0 && Contains(s, p)
    ensures |RemoveAll(s, p)| < |s|
    decreases |s|
  {
    if !StartsWith(s, p) {
      RemoveShrinks(s[1..], p);
    }
  }

  /** A leading occurrence of the removed text vanishes, and so does
      anything after it that does not contain it. */
  lemma RemoveLeading<T>(p: seq<T>, t: seq<T>)
    requires |p| > 0
    requires !Contains(t, p)
    ensures RemoveAll(p + t, p) == t
  {
    assert StartsWith(p + t, p);
    assert (p + t)[|p|..] == t;
    RemoveAbsent(t, p);
  }

  /** A prefix in which no occurrence starts is kept as it is. */
  lemma {:induction false} RemoveAllSkips<T>(s: seq<T>, p: seq<T>, i: nat)
    requires |p| > 0 && i <= |s|
    requires forall j :: 0 <= j < i ==> !StartsWith(s[j..], p)
    ensures RemoveAll(s, p) == s[..i] + RemoveAll(s[i..], p)
    decreases i
  {
    if i == 0 {
      assert s[..0] + s[0..] == s[0..] == s;
    } else {
      var t := s[1..];
      assert !StartsWith(s, p) by { assert s[0..] == s; }
      forall j | 0 <= j < i - 1 ensures !StartsWith(t[j..], p) {
        assert t[j..] == s[j + 1..];
      }
      calc {
        RemoveAll(s, p);
        [s[0]] + RemoveAll(t, p);
        { RemoveAllSkips(t, p, i - 1); }
        [s[0]] + (t[..i - 1] + RemoveAll(t[i - 1..], p));
        { assert [s[0]] + t[..i - 1] == s[..i]; assert t[i - 1..] == s[i..]; }
        s[..i] + RemoveAll(s[i..], p);
      }
    }
  }

  /** An occurrence at the front is deleted and the scan resumes after it. */
  lemma RemoveAllLeading<T>(s: seq<T>, p: seq<T>)
    requires |p| > 0 && StartsWith(s, p)
    ensures RemoveAll(s, p) == RemoveAll(s[|p|..], p)
  {
  }

  lemma {:induction false} ContainsSuffix<T>(s: seq<T>, p: seq<T>, i: nat)
    requires i <= |s|
    requires Contains(s[i..], p)
    ensures Contains(s, p)
    decreases i
  {
    if i > 0 {
      assert s[1..][i - 1..] == s[i..];
      ContainsSuffix(s[1..], p, i - 1);
    }
  }

  lemma {:induction false} ContainsAt<T>(s: seq<T>, p: seq<T>, i: nat)
    requires i <= |s|
    requires StartsWith(s[i..], p)
    ensures Contains(s, p)
  {
    ContainsSuffix(s, p, i);
  }

  /** Every slice of `s` occurs in `s`. */
  lemma ContainsSlice<T>(s: seq<T>, i: nat, e: nat)
    requires i <= e <= |s|
    ensures Contains(s, s[i..e])
  {
    assert s[i..][..e - i] == s[i..e];
    ContainsAt(s, s[i..e], i);
  }

}
