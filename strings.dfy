/**
 * The few Python string operations the scripts rely on, on `seq<char>`:
 * the `in` operator, `str.split(sep)` with a non-empty separator, slicing
 * `s[:n]`, `str.endswith` and `str(n)` for a natural number.
 */
module Strings {
  import opened Wrappers

  /** `m` occurs in `s` starting at position `k`. */
  predicate OccursAt(s: string, m: string, k: nat) {
    k + |m| <= |s| && s[k..k + |m|] == m
  }

  /** The first position at or after `start` where `m` occurs in `s` (Python `str.find(m, start)`). */
  function FindFrom(s: string, m: string, start: nat): (r: Option<nat>)
    ensures r.Some? ==> start <= r.value && OccursAt(s, m, r.value)
    ensures r.Some? ==> forall j :: start <= j < r.value ==> !OccursAt(s, m, j)
    ensures r.None? ==> forall j :: start <= j ==> !OccursAt(s, m, j)
    decreases |s| - start
  {
    if start + |m| > |s| then None
    else if s[start..start + |m|] == m then Some(start)
    else FindFrom(s, m, start + 1)
  }

  /** Python `m in s`. */
  function Contains(s: string, m: string): (b: bool)
    ensures b <==> exists k :: OccursAt(s, m, k)
  {
    FindFrom(s, m, 0).Some?
  }

  /** A string lacking one of the characters of `m` does not contain `m`. */
  lemma MissingCharNotContained(s: string, m: string, i: nat)
    requires i < |m| && m[i] !in s
    ensures !Contains(s, m)
  {
    forall k: nat ensures !OccursAt(s, m, k) {
      if k + |m| <= |s| {
        assert s[k..k + |m|][i] == s[k + i];
      }
    }
  }

  /** A first occurrence found by other means is the one `FindFrom` returns. */
  lemma FindFromIs(s: string, m: string, start: nat, k: nat)
    requires start <= k && OccursAt(s, m, k)
    requires forall j :: start <= j < k ==> !OccursAt(s, m, j)
    ensures FindFrom(s, m, start) == Some(k)
  {
  }

  /** Occurrences in a suffix `s[d..]` are the occurrences in `s` shifted by `d`. */
  lemma OccursAtSuffix(s: string, m: string, d: nat, j: nat)
    requires d <= |s|
    ensures OccursAt(s[d..], m, j) <==> OccursAt(s, m, d + j)
  {
    if d + j + |m| <= |s| {
      assert s[d..][j..j + |m|] == s[d + j..d + j + |m|];
    }
  }

  /** Searching a suffix from its start is searching the whole string from the suffix's offset. */
  lemma FindFromSuffix(s: string, m: string, d: nat)
    requires d <= |s|
    ensures FindFrom(s[d..], m, 0).None? <==> FindFrom(s, m, d).None?
    ensures FindFrom(s, m, d).Some? ==> FindFrom(s[d..], m, 0) == Some(FindFrom(s, m, d).value - d)
  {
    var r := FindFrom(s, m, d);
    if r.Some? {
      var k := r.value;
      OccursAtSuffix(s, m, d, k - d);
      forall j | 0 <= j < k - d ensures !OccursAt(s[d..], m, j) {
        OccursAtSuffix(s, m, d, j);
      }
      FindFromIs(s[d..], m, 0, k - d);
    } else {
      var q := FindFrom(s[d..], m, 0);
      if q.Some? {
        OccursAtSuffix(s, m, d, q.value);
        assert false;
      }
    }
  }

  /** Python `s.split(m)` for a non-empty separator `m`. */
  function Split(s: string, m: string): (r: seq<string>)
    requires m != []
    ensures |r| >= 1
    decreases |s|
  {
    match FindFrom(s, m, 0)
    case None => [s]
    case Some(k) => [s[..k]] + Split(s[k + |m|..], m)
  }

  /** Python `m.join(pieces)`. */
  function Join(pieces: seq<string>, m: string): string
    requires |pieces| >= 1
    decreases |pieces|
  {
    if |pieces| == 1 then pieces[0] else pieces[0] + m + Join(pieces[1..], m)
  }

  /** Splitting loses nothing: joining the pieces with the separator gives the string back. */
  lemma {:induction false} JoinSplit(s: string, m: string)
    requires m != []
    ensures Join(Split(s, m), m) == s
    decreases |s|
  {
    var r := FindFrom(s, m, 0);
    if r.Some? {
      var k := r.value;
      var rest := s[k + |m|..];
      var pieces := Split(s, m);
      assert pieces == [s[..k]] + Split(rest, m);
      assert pieces[0] == s[..k] && pieces[1..] == Split(rest, m);
      JoinSplit(rest, m);
      calc {
        Join(pieces, m);
        s[..k] + m + Join(Split(rest, m), m);
        s[..k] + m + rest;
        { assert s[k..k + |m|] == m; }
        s;
      }
    }
  }

  /** Occurrences that end within a prefix `s[..e]` are the occurrences in `s`. */
  lemma OccursAtPrefix(s: string, m: string, e: nat, j: nat)
    requires j + |m| <= e <= |s|
    ensures OccursAt(s[..e], m, j) <==> OccursAt(s, m, j)
  {
    assert s[..e][j..j + |m|] == s[j..j + |m|];
  }

  /** The text before the first occurrence of `m` does not contain `m`. */
  lemma BeforeFirstFree(s: string, m: string, k: nat)
    requires m != [] && FindFrom(s, m, 0) == Some(k)
    ensures !Contains(s[..k], m)
  {
    forall j: nat ensures !OccursAt(s[..k], m, j) {
      if j + |m| <= k {
        assert !OccursAt(s, m, j);
        OccursAtPrefix(s, m, k, j);
      }
    }
  }

  /** No piece of a split contains the separator. */
  lemma {:induction false} SplitPiecesFree(s: string, m: string, i: nat)
    requires m != [] && i < |Split(s, m)|
    ensures !Contains(Split(s, m)[i], m)
    decreases |s|
  {
    match FindFrom(s, m, 0)
    case None =>
    case Some(k) =>
      var rest := s[k + |m|..];
      assert Split(s, m) == [s[..k]] + Split(rest, m);
      if i == 0 {
        BeforeFirstFree(s, m, k);
      } else {
        SplitPiecesFree(rest, m, i - 1);
        assert Split(s, m)[i] == Split(rest, m)[i - 1];
      }
  }

  /** Where the search for `m` from `from` stops: the next occurrence, or the end of `s`. */
  function NextOrEnd(s: string, m: string, from: nat): (e: nat)
    requires from <= |s|
    ensures from <= e <= |s|
  {
    match FindFrom(s, m, from)
    case None => |s|
    case Some(j) => j
  }

  /** The stop of a search in a suffix `s[d..]` is the stop of the search in `s` from `d`, shifted. */
  lemma NextOrEndSuffix(s: string, m: string, d: nat)
    requires d <= |s|
    ensures NextOrEnd(s[d..], m, 0) == NextOrEnd(s, m, d) - d
  {
    FindFromSuffix(s, m, d);
  }

  /**
   * The text between the first occurrence of `m` and the next one after it
   * (or the end of `s`): the piece Python's `s.split(m)[1]` denotes.
   */
  function Segment(s: string, m: string): (r: string)
    requires Contains(s, m)
  {
    var k := FindFrom(s, m, 0).value;
    s[k + |m|..NextOrEnd(s, m, k + |m|)]
  }

  /** A split has at least two pieces exactly when the separator occurs. */
  lemma SplitCount(s: string, m: string)
    requires m != []
    ensures |Split(s, m)| >= 2 <==> FindFrom(s, m, 0).Some?
  {
  }

  /** Piece 0 of a split runs up to the first occurrence, or is the whole string. */
  lemma SplitHead(s: string, m: string)
    requires m != []
    ensures Split(s, m)[0] == s[..NextOrEnd(s, m, 0)]
  {
  }

  /** When the separator occurs, piece 1 of the split is `Segment`. */
  lemma SplitSecond(s: string, m: string)
    requires m != [] && FindFrom(s, m, 0).Some?
    ensures |Split(s, m)| >= 2 && Split(s, m)[1] == Segment(s, m)
  {
    var d := FindFrom(s, m, 0).value + |m|;
    var e := NextOrEnd(s, m, d);
    SplitUnfold(s, m);
    calc {
      Split(s, m)[1];
      Split(s[d..], m)[0];
      { SplitHead(s[d..], m); }
      s[d..][..NextOrEnd(s[d..], m, 0)];
      { NextOrEndSuffix(s, m, d); }
      s[d..][..e - d];
      s[d..e];
    }
  }

  /** When the separator occurs, the split is the text before it followed by the split of what follows it. */
  lemma SplitUnfold(s: string, m: string)
    requires m != [] && FindFrom(s, m, 0).Some?
    ensures Split(s, m) == [s[..FindFrom(s, m, 0).value]] + Split(s[FindFrom(s, m, 0).value + |m|..], m)
  {
  }

  /** Python slicing `s[:n]`. */
  function Take(s: string, n: nat): (r: string)
    ensures |r| <= n && r <= s
    ensures |s| >= n ==> |r| == n
    ensures |s| <= n ==> r == s
  {
    if |s| <= n then s else s[..n]
  }

  /** Python `s.endswith(suffix)`. */
  predicate EndsWith(s: string, suffix: string) {
    |suffix| <= |s| && s[|s| - |suffix|..] == suffix
  }

  /** `s` ends with `suffix` exactly when its last `|suffix|` characters are those of `suffix`, one by one. */
  lemma EndsWithPointwise(s: string, suffix: string)
    ensures EndsWith(s, suffix) <==>
              |suffix| <= |s| && forall i :: 0 <= i < |suffix| ==> s[|s| - |suffix| + i] == suffix[i]
  {
    if |suffix| <= |s| {
      var tail := s[|s| - |suffix|..];
      assert forall i :: 0 <= i < |suffix| ==> tail[i] == s[|s| - |suffix| + i];
    }
  }

  /** The decimal digit for `d < 10`. */
  function Digit(d: nat): (c: char)
    requires d < 10
  {
    ('0' as int + d) as char
  }

  /** Python `str(n)` for a natural number: its decimal digits, no leading zeros. */
  function NatToString(n: nat): (s: string)
    ensures |s| >= 1
    ensures |s| == 1 <==> n < 10
    ensures s[|s| - 1] == Digit(n % 10)
    decreases n
  {
    if n < 10 then [Digit(n)] else NatToString(n / 10) + [Digit(n % 10)]
  }

  /** Distinct numbers have distinct decimal spellings. */
  lemma {:induction false} NatToStringInjective(a: nat, b: nat)
    requires NatToString(a) == NatToString(b)
    ensures a == b
    decreases a
  {
    if a >= 10 && b >= 10 {
      var sa, sb := NatToString(a), NatToString(b);
      assert sa[..|sa| - 1] == NatToString(a / 10);
      assert sb[..|sb| - 1] == NatToString(b / 10);
      NatToStringInjective(a / 10, b / 10);
    }
  }
}
