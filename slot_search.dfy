/**
 * The bounded k-slot neighbour scan, as a function of the candidates and a
 * distance to each of them. Two parallel length-k sequences are kept: the
 * neighbour slots (None while unset) and the slot distances (None standing
 * for numpy's inf). Each candidate, in input order, overwrites only the FIRST
 * slot whose stored distance is strictly greater than its own, and nothing
 * is shifted. This is the documented approximation, not an exact top-k.
 */
module SlotSearch {
  import opened Wrappers

  /** `slotDist > d`, where None is inf and so exceeds every finite distance. */
  predicate Exceeds(slotDist: Option<real>, d: real) {
    slotDist.None? || slotDist.value > d
  }

  /** `a <= b` on distances extended with inf (None). */
  predicate AtMost(a: Option<real>, b: Option<real>) {
    b.None? || (a.Some? && a.value <= b.value)
  }

  /** The two parallel arrays of the scan. */
  datatype Slots<T> = Slots(neighbors: seq<Option<T>>, dists: seq<Option<real>>)

  /** `[None] * k` and `np.full(k, np.inf)`. */
  function Unset<T>(k: nat): (s: Slots<T>)
    ensures |s.neighbors| == |s.dists| == k
    ensures forall i :: 0 <= i < k ==> s.neighbors[i].None? && s.dists[i].None?
  {
    Slots(seq(k, _ => None), seq(k, _ => None))
  }

  /**
   * The index the inner loop breaks at: the first slot whose distance exceeds
   * `d`, or `|dists|` when none does (the loop then runs out).
   */
  function FirstExceeding(dists: seq<Option<real>>, d: real): (i: nat)
    ensures i <= |dists|
    ensures i < |dists| ==> Exceeds(dists[i], d)
    ensures forall j :: 0 <= j < i ==> !Exceeds(dists[j], d)
  {
    if dists == [] then 0
    else if Exceeds(dists[0], d) then 0
    else 1 + FirstExceeding(dists[1..], d)
  }

  /** One candidate `o` at distance `d` is offered to the slots. */
  function Offer<T>(s: Slots<T>, o: T, d: real): (r: Slots<T>)
    requires |s.neighbors| == |s.dists|
    ensures |r.neighbors| == |r.dists| == |s.dists|
  {
    var i := FirstExceeding(s.dists, d);
    if i < |s.dists| then Slots(s.neighbors[i := Some(o)], s.dists[i := Some(d)]) else s
  }

  /** The slots after the candidates `others` have been offered in order. */
  function Scan<T>(dist: T -> real, k: nat, others: seq<T>): (s: Slots<T>)
    ensures |s.neighbors| == k && |s.dists| == k
    decreases |others|
  {
    if others == [] then Unset(k)
    else
      var last := others[|others| - 1];
      Offer(Scan(dist, k, others[..|others| - 1]), last, dist(last))
  }

  /** What `find_k_nearest_neighbors` returns: the neighbour slots alone. */
  function Neighbors<T>(dist: T -> real, k: nat, others: seq<T>): seq<Option<T>> {
    Scan(dist, k, others).neighbors
  }

  // ---------------------------------------------------------------------
  // One candidate

  /** `FirstExceeding` is characterised by its two defining properties. */
  lemma FirstExceedingIs(dists: seq<Option<real>>, d: real, p: nat)
    requires p <= |dists|
    requires forall j :: 0 <= j < p ==> !Exceeds(dists[j], d)
    requires p < |dists| ==> Exceeds(dists[p], d)
    ensures FirstExceeding(dists, d) == p
  {
  }

  /**
   * Offering a candidate overwrites at most one slot, the first one whose
   * distance strictly exceeds the candidate's, with the candidate and its
   * distance; every other slot and distance is left as it was. When no slot
   * exceeds, nothing changes.
   */
  lemma OfferOverwritesFirstExceeding<T>(s: Slots<T>, o: T, d: real)
    requires |s.neighbors| == |s.dists|
    ensures forall j :: 0 <= j < |s.dists| ==>
      if Exceeds(s.dists[j], d) && (forall m :: 0 <= m < j ==> !Exceeds(s.dists[m], d))
      then Offer(s, o, d).neighbors[j] == Some(o) && Offer(s, o, d).dists[j] == Some(d)
      else Offer(s, o, d).neighbors[j] == s.neighbors[j] && Offer(s, o, d).dists[j] == s.dists[j]
  {
    var i := FirstExceeding(s.dists, d);
    forall j | 0 <= j < |s.dists| && Exceeds(s.dists[j], d) && (forall m :: 0 <= m < j ==> !Exceeds(s.dists[m], d))
      ensures j == i
    {
      FirstExceedingIs(s.dists, d, j);
    }
  }

  /** A slot distance never grows when a candidate is offered. */
  lemma OfferOnlyLowers<T>(s: Slots<T>, o: T, d: real)
    requires |s.neighbors| == |s.dists|
    ensures forall j :: 0 <= j < |s.dists| ==> AtMost(Offer(s, o, d).dists[j], s.dists[j])
  {
  }

  // ---------------------------------------------------------------------
  // The scan invariant

  /**
   * The parallel-array invariant: a slot is unset exactly when its distance
   * is inf; a set slot holds one of the candidates and its true distance; and
   * the slot distances are non-decreasing by index (inf last).
   */
  ghost predicate Consistent<T>(dist: T -> real, others: seq<T>, s: Slots<T>) {
    && |s.neighbors| == |s.dists|
    && (forall i :: 0 <= i < |s.dists| ==> (s.neighbors[i].None? <==> s.dists[i].None?))
    && (forall i :: 0 <= i < |s.dists| && s.neighbors[i].Some? ==>
          s.neighbors[i].value in others && s.dists[i] == Some(dist(s.neighbors[i].value)))
    && (forall i, j :: 0 <= i <= j < |s.dists| ==> AtMost(s.dists[i], s.dists[j]))
  }

  lemma OfferKeepsConsistent<T>(dist: T -> real, others: seq<T>, s: Slots<T>, o: T)
    requires Consistent(dist, others, s) && o in others
    ensures Consistent(dist, others, Offer(s, o, dist(o)))
  {
    var d := dist(o);
    var i := FirstExceeding(s.dists, d);
    var r := Offer(s, o, d);
    if i < |s.dists| {
      forall a, b | 0 <= a <= b < |r.dists|
        ensures AtMost(r.dists[a], r.dists[b])
      {
        if a == i && b > i {
          assert AtMost(s.dists[i], s.dists[b]);
        } else if b == i && a < i {
          assert !Exceeds(s.dists[a], d);
        }
      }
    }
  }

  /** The scan keeps the parallel-array invariant. */
  lemma {:induction false} ScanConsistent<T>(dist: T -> real, k: nat, others: seq<T>)
    ensures Consistent(dist, others, Scan(dist, k, others))
    decreases |others|
  {
    if others != [] {
      var p := others[..|others| - 1];
      ScanConsistent(dist, k, p);
      var s := Scan(dist, k, p);
      assert forall x :: x in p ==> x in others;
      assert Consistent(dist, others, s);
      OfferKeepsConsistent(dist, others, s, others[|others| - 1]);
    }
  }

  /**
   * The slot-distance array is non-decreasing by index and the filled slots
   * form a prefix: once a slot is unset, so is every later one.
   */
  lemma ScanSortedAndPrefix<T>(dist: T -> real, k: nat, others: seq<T>)
    ensures forall i, j :: 0 <= i <= j < k ==> AtMost(Scan(dist, k, others).dists[i], Scan(dist, k, others).dists[j])
    ensures forall i, j :: 0 <= i <= j < k && Neighbors(dist, k, others)[i].None? ==> Neighbors(dist, k, others)[j].None?
  {
    ScanConsistent(dist, k, others);
  }

  /** Exactly k slots come back, each unset or one of the candidates. */
  lemma NeighborsAreCandidates<T>(dist: T -> real, k: nat, others: seq<T>)
    ensures |Neighbors(dist, k, others)| == k
    ensures forall i :: 0 <= i < k && Neighbors(dist, k, others)[i].Some? ==> Neighbors(dist, k, others)[i].value in others
  {
    ScanConsistent(dist, k, others);
  }

  /** `k = 0` gives the empty list; no candidates give k unset slots. */
  lemma DegenerateScans<T>(dist: T -> real, k: nat, others: seq<T>)
    ensures Neighbors(dist, 0, others) == []
    ensures Neighbors(dist, k, []) == seq(k, _ => None)
  {
  }

  /** Each candidate fills at most one new slot: slots past the |others|-th stay unset. */
  lemma {:induction false} ScanFillsAtMostOnePerCandidate<T>(dist: T -> real, k: nat, others: seq<T>)
    ensures forall i :: |others| <= i < k ==> Neighbors(dist, k, others)[i].None?
    decreases |others|
  {
    if others != [] {
      var p := others[..|others| - 1];
      ScanFillsAtMostOnePerCandidate(dist, k, p);
      ScanConsistent(dist, k, p);
      var s := Scan(dist, k, p);
      var d := dist(others[|others| - 1]);
      if |p| < k {
        assert Neighbors(dist, k, p) == s.neighbors;
        assert s.neighbors[|p|].None?;
        assert Exceeds(s.dists[|p|], d);
        var f := FirstExceeding(s.dists, d);
        assert f <= |p|;
        forall i | |others| <= i < k
          ensures Neighbors(dist, k, others)[i].None?
        {
          assert Neighbors(dist, k, others)[i] == s.neighbors[i];
        }
      }
    }
  }

  /** AtMost is transitive. */
  lemma AtMostTransitive(a: Option<real>, b: Option<real>, c: Option<real>)
    requires AtMost(a, b) && AtMost(b, c)
    ensures AtMost(a, c)
  {
  }

  /**
   * Each slot distance only ever decreases over time: after more candidates
   * have been offered, every slot distance is at most what it was after the
   * first `p` of them.
   */
  lemma {:induction false} ScanOnlyLowers<T>(dist: T -> real, k: nat, others: seq<T>, p: nat)
    requires p <= |others|
    ensures forall i :: 0 <= i < k ==> AtMost(Scan(dist, k, others).dists[i], Scan(dist, k, others[..p]).dists[i])
    decreases |others|
  {
    if p == |others| {
      assert others[..p] == others;
    } else {
      var q := others[..|others| - 1];
      ScanOnlyLowers(dist, k, q, p);
      assert q[..p] == others[..p];
      var s := Scan(dist, k, q);
      var last := others[|others| - 1];
      OfferOnlyLowers(s, last, dist(last));
      forall i | 0 <= i < k
        ensures AtMost(Scan(dist, k, others).dists[i], Scan(dist, k, others[..p]).dists[i])
      {
        AtMostTransitive(Scan(dist, k, others).dists[i], s.dists[i], Scan(dist, k, others[..p]).dists[i]);
      }
    }
  }

  // ---------------------------------------------------------------------
  // Slot 0 and the exact cases

  /** `m` is the earliest index of a candidate at minimum distance. */
  ghost predicate IsEarliestMin<T>(dist: T -> real, others: seq<T>, m: nat) {
    && m < |others|
    && (forall j :: 0 <= j < |others| ==> dist(others[m]) <= dist(others[j]))
    && (forall j :: 0 <= j < m ==> dist(others[m]) < dist(others[j]))
  }

  /** The earliest index of a candidate at minimum distance. */
  function ArgMin<T>(dist: T -> real, others: seq<T>): (m: nat)
    requires |others| > 0
    ensures IsEarliestMin(dist, others, m)
    decreases |others|
  {
    if |others| == 1 then 0
    else
      var m := ArgMin(dist, others[..|others| - 1]);
      if dist(others[|others| - 1]) < dist(others[m]) then |others| - 1 else m
  }

  /**
   * With at least one slot and one candidate, slot 0 holds the earliest
   * candidate of minimum distance, with that distance.
   */
  lemma {:induction false} SlotZeroIsEarliestMin<T>(dist: T -> real, k: nat, others: seq<T>)
    requires k > 0 && |others| > 0
    ensures Neighbors(dist, k, others)[0] == Some(others[ArgMin(dist, others)])
    ensures Scan(dist, k, others).dists[0] == Some(dist(others[ArgMin(dist, others)]))
    decreases |others|
  {
    var p := others[..|others| - 1];
    var last := others[|others| - 1];
    if |others| == 1 {
      assert FirstExceeding(Scan(dist, k, p).dists, dist(last)) == 0;
    } else {
      SlotZeroIsEarliestMin(dist, k, p);
      var m := ArgMin(dist, p);
      assert others[m] == p[m];
      var s := Scan(dist, k, p);
      if dist(last) < dist(p[m]) {
        assert FirstExceeding(s.dists, dist(last)) == 0;
      } else {
        assert FirstExceeding(s.dists, dist(last)) != 0;
      }
    }
  }

  /**
   * When the candidates arrive in non-decreasing order of distance the scan is
   * exact: slot i holds the i-th candidate, and slots beyond the candidates
   * stay unset.
   */
  lemma {:induction false} SortedCandidatesFillInOrder<T>(dist: T -> real, k: nat, others: seq<T>)
    requires forall i, j :: 0 <= i <= j < |others| ==> dist(others[i]) <= dist(others[j])
    ensures forall i :: 0 <= i < k ==>
      Neighbors(dist, k, others)[i] == (if i < |others| then Some(others[i]) else None)
    ensures forall i :: 0 <= i < k ==>
      Scan(dist, k, others).dists[i] == (if i < |others| then Some(dist(others[i])) else None)
    decreases |others|
  {
    if others != [] {
      var p := others[..|others| - 1];
      var last := others[|others| - 1];
      SortedCandidatesFillInOrder(dist, k, p);
      var s := Scan(dist, k, p);
      var n := if |p| < k then |p| else k;
      forall j | 0 <= j < n
        ensures !Exceeds(s.dists[j], dist(last))
      {
        assert s.dists[j] == Some(dist(p[j]));
        assert p[j] == others[j];
      }
      FirstExceedingIs(s.dists, dist(last), n);
    }
  }

  /**
   * The gap of the scan: a closer candidate that arrives second takes slot 0
   * from the first one, which is lost although slot 1 is still free.
   */
  lemma DisplacedNeighborIsLost<T>(dist: T -> real, a: T, b: T)
    requires dist(b) < dist(a)
    ensures Neighbors(dist, 2, [a, b]) == [Some(b), None]
  {
    assert [a, b][..1] == [a];
    assert [a][..0] == [];
    var s0 := Unset<T>(2);
    assert Scan(dist, 2, []) == s0;
    assert FirstExceeding(s0.dists, dist(a)) == 0;
    var s1 := Offer(s0, a, dist(a));
    assert Scan(dist, 2, [a]) == s1;
    assert s1.neighbors == [Some(a), None] && s1.dists == [Some(dist(a)), None];
    assert FirstExceeding(s1.dists, dist(b)) == 0;
    assert Scan(dist, 2, [a, b]) == Offer(s1, b, dist(b));
  }

  /**
   * With every distance finite, a stored distance can still exceed the k-th
   * smallest: with k = 2 and candidates at distances 2, 10, 1, 3 in that
   * order, the slots end as [1, 3] although the second smallest distance is
   * 2. The candidate at distance 2 is lost.
   */
  lemma StoredDistanceCanExceedKthSmallest<T>(dist: T -> real, a: T, b: T, c: T, d: T)
    requires dist(a) == 2.0 && dist(b) == 10.0 && dist(c) == 1.0 && dist(d) == 3.0
    ensures Scan(dist, 2, [a, b, c, d]).dists == [Some(1.0), Some(3.0)]
    ensures Neighbors(dist, 2, [a, b, c, d]) == [Some(c), Some(d)]
  {
    var s0 := Unset<T>(2);
    assert Scan(dist, 2, []) == s0;
    assert [a][..0] == [] && [a, b][..1] == [a] && [a, b, c][..2] == [a, b] && [a, b, c, d][..3] == [a, b, c];
    FirstExceedingIs(s0.dists, 2.0, 0);
    var s1 := Offer(s0, a, 2.0);
    assert Scan(dist, 2, [a]) == s1;
    assert s1.neighbors == [Some(a), None] && s1.dists == [Some(2.0), None];
    FirstExceedingIs(s1.dists, 10.0, 1);
    var s2 := Offer(s1, b, 10.0);
    assert Scan(dist, 2, [a, b]) == s2;
    assert s2.neighbors == [Some(a), Some(b)] && s2.dists == [Some(2.0), Some(10.0)];
    FirstExceedingIs(s2.dists, 1.0, 0);
    var s3 := Offer(s2, c, 1.0);
    assert Scan(dist, 2, [a, b, c]) == s3;
    assert s3.neighbors == [Some(c), Some(b)] && s3.dists == [Some(1.0), Some(10.0)];
    FirstExceedingIs(s3.dists, 3.0, 1);
    var s4 := Offer(s3, d, 3.0);
    assert Scan(dist, 2, [a, b, c, d]) == s4;
    assert s4.neighbors == [Some(c), Some(d)] && s4.dists == [Some(1.0), Some(3.0)];
  }
}
