/**
 * Order-preserving selection of the elements of a sequence that satisfy a
 * predicate: the shape shared by the array `filter` of the search box and by
 * the `.eq(column, value)` row selections of the resource table.
 */
module Secuencias {

  /** The elements of `s` that satisfy `p`, in their original order. */
  function Keep<T>(s: seq<T>, p: T -> bool): (r: seq<T>)
    ensures |r| <= |s|
    ensures forall x :: x in r ==> x in s && p(x)
  {
    if s == [] then []
    else (if p(s[0]) then [s[0]] else []) + Keep(s[1..], p)
  }

  /** `idx` lists positions of a sequence of length `n` in strictly increasing order. */
  ghost predicate Increasing(idx: seq<nat>, n: nat)
  {
    (forall k :: 0 <= k < |idx| ==> idx[k] < n) &&
    (forall k, m :: 0 <= k < m < |idx| ==> idx[k] < idx[m])
  }

  /**
   * `Keep` is exactly the subsequence of `s` picked out by the positions whose
   * element satisfies `p`: every kept element sits at an increasing position
   * of `s`, and a position is picked if and only if its element satisfies `p`.
   */
  lemma {:induction false} KeepPositions<T>(s: seq<T>, p: T -> bool) returns (idx: seq<nat>)
    ensures Increasing(idx, |s|)
    ensures |idx| == |Keep(s, p)|
    ensures forall k :: 0 <= k < |idx| ==> Keep(s, p)[k] == s[idx[k]]
    ensures forall j :: 0 <= j < |s| ==> (p(s[j]) <==> j in idx)
  {
    if s == [] {
      idx := [];
    } else {
      var rest := KeepPositions(s[1..], p);
      var shifted := Shift(rest, |s| - 1);
      var tail := Keep(s[1..], p);
      assert forall k :: 0 <= k < |shifted| ==> tail[k] == s[shifted[k]];
      if p(s[0]) {
        assert Keep(s, p) == [s[0]] + tail;
        idx := Prepend(shifted, |s| - 1);
      } else {
        assert Keep(s, p) == tail;
        idx := shifted;
      }
      assert forall j :: 1 <= j < |s| ==> s[j] == s[1..][j - 1];
    }
  }

  /** Puts position 0 in front of positions that are all at least 1. */
  lemma Prepend(idx: seq<nat>, n: nat) returns (r: seq<nat>)
    requires Increasing(idx, n + 1) && 0 !in idx
    ensures r == [0] + idx && Increasing(r, n + 1)
  {
    r := [0] + idx;
    assert forall k :: 0 < k < |r| ==> r[k] == idx[k - 1];
  }

  /** Moves every position of `idx` one place to the right. */
  lemma Shift(idx: seq<nat>, n: nat) returns (shifted: seq<nat>)
    requires Increasing(idx, n)
    ensures Increasing(shifted, n + 1) && |shifted| == |idx|
    ensures forall k :: 0 <= k < |idx| ==> shifted[k] == idx[k] + 1 && shifted[k] >= 1
    ensures 0 !in shifted
    ensures forall j :: 1 <= j ==> (j in shifted <==> j - 1 in idx)
  {
    shifted := seq(|idx|, k requires 0 <= k < |idx| => idx[k] + 1);
    forall j | 1 <= j
      ensures j in shifted <==> j - 1 in idx
    {
      if j - 1 in idx {
        var k :| 0 <= k < |idx| && idx[k] == j - 1;
        assert shifted[k] == j;
      }
    }
  }

  /** A predicate that holds of every element keeps the whole sequence. */
  lemma {:induction false} KeepAll<T>(s: seq<T>, p: T -> bool)
    requires forall x :: x in s ==> p(x)
    ensures Keep(s, p) == s
  {
    if s != [] {
      KeepAll(s[1..], p);
    }
  }

  /** Membership in both directions: an element is kept exactly when it is in `s` and satisfies `p`. */
  lemma {:induction false} KeepMembership<T>(s: seq<T>, p: T -> bool, x: T)
    ensures x in Keep(s, p) <==> x in s && p(x)
  {
    if s != [] {
      KeepMembership(s[1..], p, x);
      assert x in s <==> x == s[0] || x in s[1..];
    }
  }

  /** A predicate that holds at no position keeps nothing. */
  lemma {:induction false} KeepNone<T>(s: seq<T>, p: T -> bool)
    requires forall j :: 0 <= j < |s| ==> !p(s[j])
    ensures Keep(s, p) == []
  {
    if s != [] {
      assert forall j :: 0 <= j < |s| - 1 ==> s[1..][j] == s[j + 1];
      KeepNone(s[1..], p);
    }
  }

  /** A predicate that holds at position `i` and nowhere else keeps exactly `s[i]`. */
  lemma {:induction false} KeepUnique<T>(s: seq<T>, p: T -> bool, i: nat)
    requires i < |s| && p(s[i])
    requires forall j :: 0 <= j < |s| && p(s[j]) ==> j == i
    ensures Keep(s, p) == [s[i]]
  {
    assert forall j :: 0 <= j < |s| - 1 ==> s[1..][j] == s[j + 1];
    if i == 0 {
      KeepNone(s[1..], p);
    } else {
      KeepUnique(s[1..], p, i - 1);
    }
  }

  /** A predicate and its negation split a sequence: the two selections together are as long as it. */
  lemma {:induction false} KeepSplit<T>(s: seq<T>, p: T -> bool, q: T -> bool)
    requires forall x :: q(x) == !p(x)
    ensures |Keep(s, p)| + |Keep(s, q)| == |s|
  {
    if s != [] {
      KeepSplit(s[1..], p, q);
    }
  }
}
