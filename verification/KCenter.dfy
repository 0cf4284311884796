/** Farthest-first selection of diverse rows, and how well it covers the candidates. */
module KCenter {
  import opened Common

  type Id = string

  ghost predicate IsMetric<P(!new)>(dist: (P, P) -> real) {
    && (forall a, b :: dist(a, b) == dist(b, a))
    && (forall a, b, c :: dist(a, c) <= dist(a, b) + dist(b, c))
  }

  predicate Embedded<P>(ids: seq<Id>, vec: map<Id, P>) {
    forall i :: 0 <= i < |ids| ==> ids[i] in vec
  }

  /** Distance of x to the nearest of the selected points. */
  function Nearest<P>(x: Id, selected: seq<Id>, vec: map<Id, P>, dist: (P, P) -> real): real
    requires selected != [] && x in vec && Embedded(selected, vec)
  {
    var d := dist(vec[x], vec[selected[|selected| - 1]]);
    if |selected| == 1 then d else
      var rest := Nearest(x, selected[..|selected| - 1], vec, dist);
      if d < rest then d else rest
  }

  /** Among the ids not in `prev`, the one at position b is farthest from `prev`, and the first such. */
  predicate Leads<P>(ids: seq<Id>, prev: seq<Id>, b: nat, vec: map<Id, P>, dist: (P, P) -> real)
    requires b < |ids| && prev != [] && Embedded(ids, vec) && Embedded(prev, vec)
  {
    ids[b] !in prev &&
    forall i :: 0 <= i < |ids| && ids[i] !in prev ==>
      if i < b then Nearest(ids[i], prev, vec, dist) < Nearest(ids[b], prev, vec, dist)
      else Nearest(ids[i], prev, vec, dist) <= Nearest(ids[b], prev, vec, dist)
  }

  /** Position k of the selection holds the id that leads with respect to those selected before it. */
  predicate FarthestAt<P>(ids: seq<Id>, selected: seq<Id>, k: nat, vec: map<Id, P>, dist: (P, P) -> real)
    requires 0 < k < |selected| && Embedded(ids, vec) && Embedded(selected, vec)
  {
    exists b :: 0 <= b < |ids| && ids[b] == selected[k] && Leads(ids, selected[..k], b, vec, dist)
  }

  predicate FarthestFirst<P>(ids: seq<Id>, selected: seq<Id>, vec: map<Id, P>, dist: (P, P) -> real)
    requires Embedded(ids, vec) && Embedded(selected, vec)
  {
    && (selected != [] ==> ids != [] && selected[0] == ids[0])
    && (forall k :: 0 < k < |selected| ==> FarthestAt(ids, selected, k, vec, dist))
  }

  function Min(a: int, b: int): int {
    if a < b then a else b
  }

  // ---- The selection ----

  /** The position of the first untaken id that is farthest by the recorded distances. */
  method Farthest(ids: seq<Id>, taken: set<Id>, minD: map<Id, real>) returns (b: nat)
    requires exists i :: 0 <= i < |ids| && ids[i] !in taken
    requires forall i :: 0 <= i < |ids| ==> ids[i] in minD
    ensures b < |ids| && IsFarthest(ids, taken, minD, b)
  {
    var found := false;
    b := 0;
    for i := 0 to |ids|
      invariant found <==> exists j :: 0 <= j < i && ids[j] !in taken
      invariant found ==> b < i && ids[b] !in taken
      invariant found ==> forall j :: 0 <= j < i && ids[j] !in taken ==>
        if j < b then minD[ids[j]] < minD[ids[b]] else minD[ids[j]] <= minD[ids[b]]
    {
      if ids[i] !in taken && (!found || minD[ids[i]] > minD[ids[b]]) {
        found, b := true, i;
      }
    }
  }

  /** Lowers the recorded distances of the untaken ids to account for the new point. */
  method Relax<P>(ids: seq<Id>, taken: set<Id>, minD: map<Id, real>, best: Id, vec: map<Id, P>, dist: (P, P) -> real)
      returns (next: map<Id, real>)
    requires Embedded(ids, vec) && best in vec && Distinct(ids) && forall i :: 0 <= i < |ids| ==> ids[i] in minD
    ensures next.Keys == minD.Keys
    ensures forall x :: x in ids && x !in taken ==> x in minD && next[x] == Smaller(dist(vec[x], vec[best]), minD[x])
  {
    next := minD;
    for i := 0 to |ids|
      invariant next.Keys == minD.Keys
      invariant forall j :: 0 <= j < i && ids[j] !in taken ==>
        next[ids[j]] == Smaller(dist(vec[ids[j]], vec[best]), minD[ids[j]])
      invariant forall j :: i <= j < |ids| ==> next[ids[j]] == minD[ids[j]]
    {
      if ids[i] !in taken {
        next := next[ids[i] := Smaller(dist(vec[ids[i]], vec[best]), next[ids[i]])];
      }
    }
  }

  function Smaller(a: real, b: real): real {
    if a < b then a else b
  }

  lemma {:induction false} NearestSnoc<P>(x: Id, selected: seq<Id>, best: Id, vec: map<Id, P>, dist: (P, P) -> real)
    requires selected != [] && x in vec && best in vec && Embedded(selected, vec)
    ensures Embedded(selected + [best], vec)
    ensures Nearest(x, selected + [best], vec, dist) ==
      Smaller(dist(vec[x], vec[best]), Nearest(x, selected, vec, dist))
  {
    assert (selected + [best])[..|selected|] == selected;
  }

  /** minD is exact on the untaken ids. */
  predicate Exact<P>(ids: seq<Id>, selected: seq<Id>, taken: set<Id>, minD: map<Id, real>, vec: map<Id, P>,
      dist: (P, P) -> real)
    requires Embedded(ids, vec) && Embedded(selected, vec) && selected != []
  {
    && (forall i :: 0 <= i < |ids| ==> ids[i] in minD)
    && (forall x :: x in ids && x !in taken ==> minD[x] == Nearest(x, selected, vec, dist))
  }

  lemma {:induction false} StaysExact<P>(ids: seq<Id>, selected: seq<Id>, taken: set<Id>, minD: map<Id, real>,
      best: Id, next: map<Id, real>, vec: map<Id, P>, dist: (P, P) -> real)
    requires Embedded(ids, vec) && Embedded(selected, vec) && selected != [] && best in vec &&
      Exact(ids, selected, taken, minD, vec, dist)
    requires next.Keys == minD.Keys
    requires forall x :: x in ids && x !in taken + {best} ==>
      x in minD && next[x] == Smaller(dist(vec[x], vec[best]), minD[x])
    ensures Embedded(selected + [best], vec) && Exact(ids, selected + [best], taken + {best}, next, vec, dist)
  {
    forall x | x in ids && x !in taken + {best} ensures next[x] == Nearest(x, selected + [best], vec, dist) {
      NearestSnoc(x, selected, best, vec, dist);
    }
  }

  /** Where the selection stands: what is chosen, and how far everything else is from it. */
  ghost predicate Standing<P>(ids: seq<Id>, selected: seq<Id>, taken: set<Id>, minD: map<Id, real>, vec: map<Id, P>,
      dist: (P, P) -> real)
    requires Embedded(ids, vec)
  {
    && selected != [] && Distinct(selected) && (forall i :: 0 <= i < |selected| ==> selected[i] in ids)
    && Embedded(selected, vec) && FarthestFirst(ids, selected, vec, dist)
    && taken == Elements(selected) && Exact(ids, selected, taken, minD, vec, dist)
  }

  /** One more point. */
  method SelectNext<P>(ids: seq<Id>, selected: seq<Id>, taken: set<Id>, minD: map<Id, real>, vec: map<Id, P>,
      dist: (P, P) -> real)
    returns (best: Id, next: map<Id, real>)
    requires Distinct(ids) && Embedded(ids, vec) && Standing(ids, selected, taken, minD, vec, dist) &&
      |selected| < |ids|
    ensures Standing(ids, selected + [best], taken + {best}, next, vec, dist)
  {
    UntakenExists(ids, selected, taken);
    var b := Farthest(ids, taken, minD);
    best := ids[b];
    next := Relax(ids, taken + {best}, minD, best, vec, dist);
    StaysStanding(ids, selected, taken, minD, b, next, vec, dist);
  }

  /** The id at position b is the first untaken one farthest by the recorded distances. */
  predicate IsFarthest(ids: seq<Id>, taken: set<Id>, minD: map<Id, real>, b: nat)
    requires b < |ids|
  {
    ids[b] !in taken && ids[b] in minD &&
    forall i :: 0 <= i < |ids| && ids[i] !in taken ==>
      ids[i] in minD && if i < b then minD[ids[i]] < minD[ids[b]] else minD[ids[i]] <= minD[ids[b]]
  }

  lemma {:induction false} StaysStanding<P>(ids: seq<Id>, selected: seq<Id>, taken: set<Id>, minD: map<Id, real>,
      b: nat, next: map<Id, real>, vec: map<Id, P>, dist: (P, P) -> real)
    requires Embedded(ids, vec) && Standing(ids, selected, taken, minD, vec, dist)
    requires b < |ids| && IsFarthest(ids, taken, minD, b) && next.Keys == minD.Keys
    requires forall x :: x in ids && x !in taken + {ids[b]} ==>
      x in minD && next[x] == Smaller(dist(vec[x], vec[ids[b]]), minD[x])
    ensures Standing(ids, selected + [ids[b]], taken + {ids[b]}, next, vec, dist)
  {
    StaysExact(ids, selected, taken, minD, ids[b], next, vec, dist);
    assert Elements(selected + [ids[b]]) == taken + {ids[b]};
    LeadsByRecord(ids, selected, minD, b, vec, dist);
    ExtendFarthest(ids, selected, b, vec, dist);
    StaysDistinct(ids, selected, b);
  }

  lemma {:induction false} StaysDistinct(ids: seq<Id>, selected: seq<Id>, b: nat)
    requires Distinct(selected) && (forall i :: 0 <= i < |selected| ==> selected[i] in ids)
    requires b < |ids| && ids[b] !in selected
    ensures Distinct(selected + [ids[b]]) && forall i :: 0 <= i <= |selected| ==> (selected + [ids[b]])[i] in ids
  {
  }

  lemma {:induction false} LeadsByRecord<P>(ids: seq<Id>, selected: seq<Id>, minD: map<Id, real>, b: nat,
      vec: map<Id, P>, dist: (P, P) -> real)
    requires Embedded(ids, vec) && selected != [] && Embedded(selected, vec) && b < |ids|
    requires Exact(ids, selected, Elements(selected), minD, vec, dist) && IsFarthest(ids, Elements(selected), minD, b)
    ensures Leads(ids, selected, b, vec, dist)
  {
    forall i | 0 <= i < |ids| && ids[i] !in selected ensures minD[ids[i]] == Nearest(ids[i], selected, vec, dist) {
      assert ids[i] in ids;
    }
  }

  method KCenterGreedy<P>(ids: seq<Id>, vec: map<Id, P>, n: int, dist: (P, P) -> real) returns (selected: seq<Id>)
    requires Distinct(ids) && Embedded(ids, vec)
    ensures |selected| == if n <= 0 then 0 else Min(n, |ids|)
    ensures Distinct(selected) && (forall i :: 0 <= i < |selected| ==> selected[i] in ids)
    ensures Embedded(selected, vec) && FarthestFirst(ids, selected, vec, dist)
  {
    if n <= 0 || ids == [] {
      return [];
    }
    selected := [ids[0]];
    var minD := map i: Id | i in ids :: dist(vec[i], vec[ids[0]]);
    var taken := {ids[0]};
    while |selected| < Min(n, |ids|)
      invariant |selected| <= Min(n, |ids|) && Standing(ids, selected, taken, minD, vec, dist)
    {
      var best, next := SelectNext(ids, selected, taken, minD, vec, dist);
      selected, taken, minD := selected + [best], taken + {best}, next;
    }
  }

  lemma {:induction false} UntakenExists(ids: seq<Id>, selected: seq<Id>, taken: set<Id>)
    requires Distinct(ids) && |selected| < |ids| && taken == Elements(selected)
    ensures exists i :: 0 <= i < |ids| && ids[i] !in taken
  {
    SetOfSeq(selected);
    if forall i :: 0 <= i < |ids| ==> ids[i] in taken {
      DistinctSize(ids, taken);
      assert false;
    }
  }

  lemma {:induction false} SetOfSeq<T>(s: seq<T>)
    ensures |Elements(s)| <= |s|
  {
    if s != [] {
      SetOfSeq(s[..|s| - 1]);
      assert Elements(s) == Elements(s[..|s| - 1]) + {s[|s| - 1]};
    }
  }

  lemma {:induction false} DistinctSize<T>(s: seq<T>, big: set<T>)
    requires Distinct(s) && forall i :: 0 <= i < |s| ==> s[i] in big
    ensures |s| <= |big|
  {
    if s != [] {
      var x := s[|s| - 1];
      DistinctSize(s[..|s| - 1], big - {x});
    }
  }

  lemma {:induction false} ExtendFarthest<P>(ids: seq<Id>, prev: seq<Id>, b: nat, vec: map<Id, P>,
      dist: (P, P) -> real)
    requires Embedded(ids, vec) && Embedded(prev, vec) && FarthestFirst(ids, prev, vec, dist) && prev != []
    requires b < |ids| && Leads(ids, prev, b, vec, dist)
    ensures Embedded(prev + [ids[b]], vec) && FarthestFirst(ids, prev + [ids[b]], vec, dist)
  {
    var sel := prev + [ids[b]];
    forall k | 0 < k < |sel| ensures FarthestAt(ids, sel, k, vec, dist) {
      if k < |prev| {
        assert FarthestAt(ids, prev, k, vec, dist);
        assert sel[..k] == prev[..k] && sel[k] == prev[k];
      } else {
        assert sel[..k] == prev && sel[k] == ids[b];
      }
    }
  }

  // ---- Covering radius ----

  predicate Near<P>(p: P, centers: seq<P>, dist: (P, P) -> real, r: real) {
    exists j :: 0 <= j < |centers| && dist(p, centers[j]) <= r
  }

  lemma {:induction false} NearestBelow<P>(x: Id, selected: seq<Id>, k: nat, vec: map<Id, P>, dist: (P, P) -> real)
    requires k < |selected| && x in vec && Embedded(selected, vec)
    ensures Nearest(x, selected, vec, dist) <= dist(vec[x], vec[selected[k]])
  {
    if k < |selected| - 1 {
      NearestBelow(x, selected[..|selected| - 1], k, vec, dist);
    }
  }

  lemma {:induction false} NearestAttained<P>(x: Id, selected: seq<Id>, vec: map<Id, P>, dist: (P, P) -> real)
      returns (k: nat)
    requires selected != [] && x in vec && Embedded(selected, vec)
    ensures k < |selected| && dist(vec[x], vec[selected[k]]) == Nearest(x, selected, vec, dist)
  {
    if |selected| == 1 || dist(vec[x], vec[selected[|selected| - 1]]) < Nearest(x, selected[..|selected| - 1], vec,
      dist) {
      k := |selected| - 1;
    } else {
      k := NearestAttained(x, selected[..|selected| - 1], vec, dist);
    }
  }

  lemma {:induction false} NearestShrinks<P>(x: Id, selected: seq<Id>, k: nat, vec: map<Id, P>, dist: (P, P) -> real)
    requires 0 < k <= |selected| && x in vec && Embedded(selected, vec)
    ensures Nearest(x, selected, vec, dist) <= Nearest(x, selected[..k], vec, dist)
  {
    if k == |selected| {
      assert selected[..k] == selected;
    } else {
      NearestShrinks(x, selected[..|selected| - 1], k, vec, dist);
      assert selected[..|selected| - 1][..k] == selected[..k];
    }
  }

  /** A point left out is at most as far from the selection as any two selected points are from each other. */
  lemma {:induction false} SelectedAreSpread<P(!new)>(ids: seq<Id>, selected: seq<Id>, x: Id, i: nat, j: nat,
      vec: map<Id, P>, dist: (P, P) -> real)
    requires IsMetric(dist) && Embedded(ids, vec) && Embedded(selected, vec) && FarthestFirst(ids, selected, vec, dist)
    requires x in ids && x !in selected && i < j < |selected|
    ensures x in vec && Nearest(x, selected, vec, dist) <= dist(vec[selected[j]], vec[selected[i]])
  {
    var k :| 0 <= k < |ids| && ids[k] == x;
    assert FarthestAt(ids, selected, j, vec, dist);
    var b :| 0 <= b < |ids| && ids[b] == selected[j] && Leads(ids, selected[..j], b, vec, dist);
    assert ids[k] !in selected[..j];
    NearestShrinks(x, selected, j, vec, dist);
    NearestBelow(selected[j], selected[..j], i, vec, dist);
  }

  lemma {:induction false} TwoShare(center: seq<nat>, k: nat) returns (i: nat, j: nat)
    requires |center| > k && forall a :: 0 <= a < |center| ==> center[a] < k
    ensures i < j < |center| && center[i] == center[j]
  {
    if a, b :| 0 <= a < b < |center| && center[a] == center[b] {
      i, j := a, b;
    } else {
      DistinctSize(center, UpTo(k));
      assert false;
    }
  }

  function UpTo(k: nat): (s: set<nat>)
    ensures |s| == k && forall v :: v in s <==> 0 <= v < k
  {
    if k == 0 then {} else UpTo(k - 1) + {k - 1}
  }

  lemma {:induction false} Assign<P>(points: seq<P>, centers: seq<P>, dist: (P, P) -> real, r: real)
      returns (center: seq<nat>)
    requires forall a :: 0 <= a < |points| ==> Near(points[a], centers, dist, r)
    ensures |center| == |points|
    ensures forall a :: 0 <= a < |points| ==> center[a] < |centers| && dist(points[a], centers[center[a]]) <= r
  {
    center := [];
    while |center| < |points|
      invariant |center| <= |points|
      invariant forall a :: 0 <= a < |center| ==> center[a] < |centers| && dist(points[a], centers[center[a]]) <= r
    {
      assert Near(points[|center|], centers, dist, r);
      var j :| 0 <= j < |centers| && dist(points[|center|], centers[j]) <= r;
      center := center + [j];
    }
  }

  /** Farthest-first is a 2-approximation: if any centres, no more than were selected (or than n, when every candidate
      could be selected), cover the candidates within r, then the selected ids cover them within 2r. */
  lemma {:induction false} TwoApproximation<P(!new)>(ids: seq<Id>, selected: seq<Id>, n: int, vec: map<Id, P>,
      dist: (P, P) -> real, centers: seq<P>, r: real)
    requires IsMetric(dist) && Distinct(ids) && Embedded(ids, vec)
    requires Distinct(selected) && (forall i :: 0 <= i < |selected| ==> selected[i] in ids)
    requires Embedded(selected, vec) && FarthestFirst(ids, selected, vec, dist)
    requires n > 0 && |selected| == Min(n, |ids|) && |centers| <= n
    requires forall i :: 0 <= i < |ids| ==> Near(vec[ids[i]], centers, dist, r)
    ensures forall i :: 0 <= i < |ids| ==>
      exists k :: 0 <= k < |selected| && dist(vec[ids[i]], vec[selected[k]]) <= 2.0 * r
  {
    forall i | 0 <= i < |ids|
      ensures exists k :: 0 <= k < |selected| && dist(vec[ids[i]], vec[selected[k]]) <= 2.0 * r
    {
      var x := ids[i];
      if x in selected {
        var k :| 0 <= k < |selected| && selected[k] == x;
        assert Near(vec[ids[i]], centers, dist, r);
        var j :| 0 <= j < |centers| && dist(vec[x], centers[j]) <= r;
        assert dist(vec[x], vec[x]) <= dist(vec[x], centers[j]) + dist(centers[j], vec[x]);
      } else {
        LeftOutIsNear(ids, selected, n, x, vec, dist, centers, r);
        var k := NearestAttained(x, selected, vec, dist);
      }
    }
  }

  lemma {:induction false} LeftOutIsNear<P(!new)>(ids: seq<Id>, selected: seq<Id>, n: int, x: Id, vec: map<Id, P>,
      dist: (P, P) -> real, centers: seq<P>, r: real)
    requires IsMetric(dist) && Distinct(ids) && Embedded(ids, vec)
    requires Distinct(selected) && (forall i :: 0 <= i < |selected| ==> selected[i] in ids)
    requires Embedded(selected, vec) && FarthestFirst(ids, selected, vec, dist)
    requires n > 0 && |selected| == Min(n, |ids|) && |centers| <= n
    requires forall i :: 0 <= i < |ids| ==> Near(vec[ids[i]], centers, dist, r)
    requires x in ids && x !in selected
    ensures x in vec && selected != [] && Nearest(x, selected, vec, dist) <= 2.0 * r
  {
    NotAllSelected(ids, selected, x);
    var all := selected + [x];
    var points := seq(|all|, a requires 0 <= a < |all| => assert all[a] in ids; vec[all[a]]);
    forall a | 0 <= a < |points| ensures Near(points[a], centers, dist, r) {
      assert all[a] in ids;
      var b :| 0 <= b < |ids| && ids[b] == all[a];
      assert Near(vec[ids[b]], centers, dist, r);
    }
    var center := Assign(points, centers, dist, r);
    var i, j := TwoShare(center, |centers|);
    var c := centers[center[i]];
    assert dist(points[j], points[i]) <= dist(points[j], c) + dist(c, points[i]);
    if j < |selected| {
      SelectedAreSpread(ids, selected, x, i, j, vec, dist);
    } else {
      NearestBelow(x, selected, i, vec, dist);
    }
  }

  lemma {:induction false} NotAllSelected(ids: seq<Id>, selected: seq<Id>, x: Id)
    requires Distinct(selected) && (forall i :: 0 <= i < |selected| ==> selected[i] in ids) && x in ids &&
      x !in selected
    ensures |selected| < |ids|
  {
    var all := Elements(ids);
    DistinctSize(selected, all - {x});
    SetOfSeq(ids);
  }
}
