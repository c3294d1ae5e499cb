/** Text primitives the core relies on: `std::string::find`, the leftmost
    non-overlapping split that both `QString::split` and the placeholder
    replace loop perform, and joining parts back together. */
module Text {

  /** `pat` occurs in `s` starting at index `i`. */
  predicate OccursAt(s: string, pat: string, i: int)
  {
    0 <= i && i + |pat| <= |s| && s[i..i + |pat|] == pat
  }

  /** `std::string::find(pat, from)`: the first index at or after `from` where
      `pat` occurs, or -1 standing for `npos`. */
  function IndexOf(s: string, pat: string, from: nat): (r: int)
    ensures r == -1 || (from <= r && OccursAt(s, pat, r))
    ensures forall k :: from <= k && (r == -1 || k < r) ==> !OccursAt(s, pat, k)
    decreases |s| - from
  {
    if from + |pat| > |s| then -1
    else if s[from..from + |pat|] == pat then from
    else IndexOf(s, pat, from + 1)
  }

  predicate Contains(s: string, pat: string)
  {
    IndexOf(s, pat, 0) != -1
  }

  lemma OccursAtShift(s: string, pat: string, d: nat, k: int)
    requires d <= |s| && 0 <= k
    ensures OccursAt(s[d..], pat, k) <==> OccursAt(s, pat, k + d)
  {
    if k + |pat| <= |s[d..]| {
      assert s[d..][k..k + |pat|] == s[k + d..k + d + |pat|];
    }
  }

  /** Searching a suffix is searching the whole text from the suffix's start. */
  lemma IndexOfShift(s: string, pat: string, d: nat)
    requires d <= |s|
    ensures IndexOf(s, pat, d) == (if IndexOf(s[d..], pat, 0) == -1 then -1 else IndexOf(s[d..], pat, 0) + d)
  {
    var q := IndexOf(s[d..], pat, 0);
    var r := IndexOf(s, pat, d);
    if q == -1 {
      forall k | d <= k
        ensures !OccursAt(s, pat, k)
      {
        OccursAtShift(s, pat, d, k - d);
      }
    } else {
      OccursAtShift(s, pat, d, q);
      assert r != -1 && r <= q + d;
      OccursAtShift(s, pat, d, r - d);
    }
  }

  /** Leftmost non-overlapping split on a non-empty separator. */
  function SplitOn(s: string, sep: string): (parts: seq<string>)
    requires sep != []
    ensures |parts| >= 1
    decreases |s|
  {
    var p := IndexOf(s, sep, 0);
    if p == -1 then [s] else [s[..p]] + SplitOn(s[p + |sep|..], sep)
  }

  /** The split at a known first occurrence. */
  lemma SplitOnAt(s: string, sep: string, p: nat)
    requires sep != [] && IndexOf(s, sep, 0) == p
    ensures SplitOn(s, sep) == [s[..p]] + SplitOn(s[p + |sep|..], sep)
  {
  }

  /** A text without the separator is a single part. */
  lemma SplitOnAbsent(s: string, sep: string)
    requires sep != [] && IndexOf(s, sep, 0) == -1
    ensures SplitOn(s, sep) == [s]
  {
  }

  lemma JoinCons(head: string, tail: seq<string>, sep: string)
    requires |tail| >= 1
    ensures Join([head] + tail, sep) == head + sep + Join(tail, sep)
  {
    assert ([head] + tail)[1..] == tail;
  }

  /** `QString::split(sep)` keeping empty parts: for an empty separator Qt
      returns an empty string, then each character, then another empty string. */
  function Split(s: string, sep: string): (parts: seq<string>)
    ensures |parts| >= 1
  {
    if sep == [] then [""] + seq(|s|, i requires 0 <= i < |s| => [s[i]]) + [""]
    else SplitOn(s, sep)
  }

  /** The parts, with `sep` between each two neighbours. */
  function Join(parts: seq<string>, sep: string): string
  {
    if |parts| == 0 then []
    else if |parts| == 1 then parts[0]
    else parts[0] + sep + Join(parts[1..], sep)
  }

  /** Joining the parts of a split with the same separator gives the text back. */
  lemma {:induction false} SplitOnJoin(s: string, sep: string)
    requires sep != []
    ensures Join(SplitOn(s, sep), sep) == s
    decreases |s|
  {
    var p := IndexOf(s, sep, 0);
    if p == -1 {
      SplitOnAbsent(s, sep);
    } else {
      var head, rest := s[..p], s[p + |sep|..];
      var tail := SplitOn(rest, sep);
      SplitOnAt(s, sep, p);
      JoinCons(head, tail, sep);
      SplitOnJoin(rest, sep);
      SliceAround(s, p, |sep|);
    }
  }

  /** A text is the part before `p`, the `n` characters from `p`, and the rest. */
  lemma SliceAround(s: string, p: nat, n: nat)
    requires p + n <= |s|
    ensures s == s[..p] + s[p..p + n] + s[p + n..]
  {
  }

  lemma {:induction false} JoinSingles(s: string)
    ensures Join(seq(|s|, i requires 0 <= i < |s| => [s[i]]) + [""], "") == s
    decreases |s|
  {
    var singles := seq(|s|, i requires 0 <= i < |s| => [s[i]]);
    if s != [] {
      var tail := seq(|s[1..]|, i requires 0 <= i < |s[1..]| => [s[1..][i]]);
      assert (singles + [""])[1..] == tail + [""];
      JoinSingles(s[1..]);
      assert s == [s[0]] + s[1..];
    }
  }

  /** `Split` (both the empty and the non-empty separator case) loses nothing. */
  lemma SplitJoin(s: string, sep: string)
    ensures Join(Split(s, sep), sep) == s
  {
    if sep == [] {
      var singles := seq(|s|, i requires 0 <= i < |s| => [s[i]]);
      JoinSingles(s);
      if s == [] {
        assert Split(s, sep) == ["", ""];
      } else {
        assert Split(s, sep) == [""] + (singles + [""]);
      }
    } else {
      SplitOnJoin(s, sep);
    }
  }

  /** The text before the first occurrence holds no occurrence. */
  lemma PrefixFree(s: string, sep: string, p: nat)
    requires sep != [] && IndexOf(s, sep, 0) == p
    ensures !Contains(s[..p], sep)
  {
    var head := s[..p];
    forall k | 0 <= k
      ensures !OccursAt(head, sep, k)
    {
      if k + |sep| <= |head| {
        assert head[k..k + |sep|] == s[k..k + |sep|];
        assert !OccursAt(s, sep, k);
      }
    }
  }

  /** No part of a split contains the separator. */
  lemma {:induction false} SplitOnPartsFree(s: string, sep: string)
    requires sep != []
    ensures forall part :: part in SplitOn(s, sep) ==> !Contains(part, sep)
    decreases |s|
  {
    var p := IndexOf(s, sep, 0);
    if p == -1 {
      SplitOnAbsent(s, sep);
    } else {
      var rest := s[p + |sep|..];
      SplitOnPartsFree(rest, sep);
      PrefixFree(s, sep, p);
      SplitOnAt(s, sep, p);
    }
  }

  /** When the first part does not hold the one-character separator, the
      join starts with that part and has no occurrence of the separator
      inside it. */
  lemma JoinHeadFree(parts: seq<string>, sep: string)
    requires |sep| == 1 && |parts| >= 1 && sep[0] !in parts[0]
    ensures |parts[0]| <= |Join(parts, sep)| && Join(parts, sep)[..|parts[0]|] == parts[0]
    ensures forall k :: 0 <= k < |parts[0]| ==> !OccursAt(Join(parts, sep), sep, k)
  {
    var s := Join(parts, sep);
    var head := parts[0];
    if |parts| > 1 {
      assert s == head + sep + Join(parts[1..], sep);
    }
    assert s[..|head|] == head;
    forall k | 0 <= k < |head|
      ensures !OccursAt(s, sep, k)
    {
      assert head[k] in head;
      assert s[k..k + 1][0] == head[k];
    }
  }

  /** For a one-character separator, splitting undoes joining separator-free parts. */
  lemma {:induction false} JoinSplitOnChar(parts: seq<string>, sep: string)
    requires |sep| == 1 && |parts| >= 1
    requires forall part :: part in parts ==> sep[0] !in part
    ensures SplitOn(Join(parts, sep), sep) == parts
    decreases |parts|
  {
    var s := Join(parts, sep);
    var head := parts[0];
    assert head in parts;
    JoinHeadFree(parts, sep);
    if |parts| == 1 {
      assert s == head;
      assert IndexOf(s, sep, 0) == -1;
      SplitOnAbsent(s, sep);
    } else {
      var rest := Join(parts[1..], sep);
      assert s == head + sep + rest;
      assert s[|head|..|head| + 1] == sep;
      assert OccursAt(s, sep, |head|);
      assert IndexOf(s, sep, 0) == |head|;
      SplitOnAt(s, sep, |head|);
      assert s[..|head|] == head;
      assert s[|head| + 1..] == rest;
      forall part | part in parts[1..]
        ensures sep[0] !in part
      {
        assert part in parts;
      }
      JoinSplitOnChar(parts[1..], sep);
      assert parts == [head] + parts[1..];
    }
  }
}
