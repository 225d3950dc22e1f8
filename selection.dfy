/**
 * Order-preserving selection from a sequence: the shape shared by the
 * radius search (keep a candidate when it is strictly inside the radius)
 * and by the record filter of the loader (keep a parsed record when the
 * guard holds).
 */
module Selection {

  /** The elements of `s` for which `keep` holds, in their order in `s`. */
  function Filter<T>(keep: T -> bool, s: seq<T>): (r: seq<T>)
    ensures |r| <= |s|
    decreases |s|
  {
    if s == [] then []
    else Filter(keep, s[..|s| - 1]) + (if keep(s[|s| - 1]) then [s[|s| - 1]] else [])
  }

  /** The positions of `s` whose element `keep` accepts, in increasing order. */
  function KeptIndices<T>(keep: T -> bool, s: seq<T>): (idx: seq<nat>)
    decreases |s|
  {
    if s == [] then []
    else KeptIndices(keep, s[..|s| - 1]) + (if keep(s[|s| - 1]) then [|s| - 1] else [])
  }

  ghost predicate StrictlyIncreasing(idx: seq<nat>) {
    forall i, j :: 0 <= i < j < |idx| ==> idx[i] < idx[j]
  }

  /** Every kept position is a position of `s`, and they increase. */
  lemma {:induction false} KeptIndicesIncrease<T>(keep: T -> bool, s: seq<T>)
    ensures forall i :: 0 <= i < |KeptIndices(keep, s)| ==> KeptIndices(keep, s)[i] < |s|
    ensures StrictlyIncreasing(KeptIndices(keep, s))
    decreases |s|
  {
    if s != [] {
      KeptIndicesIncrease(keep, s[..|s| - 1]);
    }
  }

  /** The i-th selected element is the element at the i-th kept position. */
  lemma {:induction false} FilterAtKeptIndices<T>(keep: T -> bool, s: seq<T>)
    ensures |KeptIndices(keep, s)| == |Filter(keep, s)|
    ensures forall i :: 0 <= i < |KeptIndices(keep, s)| ==>
      KeptIndices(keep, s)[i] < |s| && Filter(keep, s)[i] == s[KeptIndices(keep, s)[i]]
    decreases |s|
  {
    if s != [] {
      var p := s[..|s| - 1];
      FilterAtKeptIndices(keep, p);
      KeptIndicesIncrease(keep, p);
      var idx, r := KeptIndices(keep, p), Filter(keep, p);
      forall i | 0 <= i < |idx|
        ensures s[idx[i]] == p[idx[i]]
      {
      }
    }
  }

  /** A position of `s` is kept exactly when `keep` accepts its element. */
  lemma {:induction false} KeptIndicesComplete<T>(keep: T -> bool, s: seq<T>)
    ensures forall j :: 0 <= j < |s| ==> (j in KeptIndices(keep, s) <==> keep(s[j]))
    decreases |s|
  {
    if s != [] {
      var p := s[..|s| - 1];
      KeptIndicesComplete(keep, p);
      KeptIndicesIncrease(keep, p);
      forall j | 0 <= j < |s|
        ensures j in KeptIndices(keep, s) <==> keep(s[j])
      {
        if j < |p| {
          assert s[j] == p[j];
          assert j in KeptIndices(keep, s) <==> j in KeptIndices(keep, p);
        } else {
          assert j !in KeptIndices(keep, p);
        }
      }
    }
  }

  /**
   * `Filter` is exactly the subsequence of `s` at the accepted positions:
   * the positions are increasing (input order is kept), every accepted
   * position is taken and no rejected one is.
   */
  lemma FilterSelectsKeptPositions<T>(keep: T -> bool, s: seq<T>)
    ensures |KeptIndices(keep, s)| == |Filter(keep, s)|
    ensures StrictlyIncreasing(KeptIndices(keep, s))
    ensures forall i :: 0 <= i < |KeptIndices(keep, s)| ==>
      KeptIndices(keep, s)[i] < |s| && Filter(keep, s)[i] == s[KeptIndices(keep, s)[i]]
    ensures forall j :: 0 <= j < |s| ==> (j in KeptIndices(keep, s) <==> keep(s[j]))
  {
    KeptIndicesIncrease(keep, s);
    FilterAtKeptIndices(keep, s);
    KeptIndicesComplete(keep, s);
  }

  /** A value is selected exactly when it occurs in `s` and `keep` accepts it. */
  lemma {:induction false} FilterMembership<T>(keep: T -> bool, s: seq<T>)
    ensures forall x :: x in Filter(keep, s) <==> x in s && keep(x)
    decreases |s|
  {
    if s != [] {
      var p := s[..|s| - 1];
      FilterMembership(keep, p);
      assert s == p + [s[|s| - 1]];
    }
  }

  /** When `keep` rejects every element the selection is empty. */
  lemma {:induction false} FilterRejectingAll<T>(keep: T -> bool, s: seq<T>)
    requires forall i :: 0 <= i < |s| ==> !keep(s[i])
    ensures Filter(keep, s) == []
    decreases |s|
  {
    if s != [] {
      FilterRejectingAll(keep, s[..|s| - 1]);
    }
  }

  /** When `keep` accepts every element the selection is the whole sequence. */
  lemma {:induction false} FilterAcceptingAll<T>(keep: T -> bool, s: seq<T>)
    requires forall i :: 0 <= i < |s| ==> keep(s[i])
    ensures Filter(keep, s) == s
    decreases |s|
  {
    if s != [] {
      FilterAcceptingAll(keep, s[..|s| - 1]);
      assert s == s[..|s| - 1] + [s[|s| - 1]];
    }
  }

  /** Two guards that agree on every element select the same subsequence. */
  lemma {:induction false} FilterAgreeingGuards<T>(keep: T -> bool, keep': T -> bool, s: seq<T>)
    requires forall i :: 0 <= i < |s| ==> (keep(s[i]) <==> keep'(s[i]))
    ensures Filter(keep, s) == Filter(keep', s)
    decreases |s|
  {
    if s != [] {
      FilterAgreeingGuards(keep, keep', s[..|s| - 1]);
    }
  }
}
