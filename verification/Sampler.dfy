/** Sampling rows for annotation: four strategy pools, quotas, deduplication and sequential fill. */
module Sampler {
  import opened Common
  import opened KCenter
  import opened Quotas

  datatype SampledRow = SampledRow(row: Id, strategy: Strategy)

  const ORDER := [Uncertainty, Diversity, FailureCase, Committee]

  /** A missing score map, embedding map or list is an empty one. */
  datatype Request<P> = Request(
    total: int,
    rows: seq<Id>,
    scores: map<Id, real>,
    vec: map<Id, P>,
    dead: seq<Id>,
    committee: seq<Id>,
    weights: map<Strategy, real>)

  // ---- Lists of ids ----

  /** First occurrences, in order. */
  function Dedup(s: seq<Id>): (r: seq<Id>)
    ensures Distinct(r) && forall x :: x in r <==> x in s
  {
    if s == [] then [] else
      var front, last := Dedup(s[..|s| - 1]), s[|s| - 1];
      assert forall x :: x in s <==> x in s[..|s| - 1] || x == last;
      if last in front then front else front + [last]
  }

  function Where(s: seq<Id>, keep: set<Id>): (r: seq<Id>)
    ensures forall x :: x in r <==> x in s && x in keep
  {
    if s == [] then [] else
      var front, last := s[..|s| - 1], s[|s| - 1];
      Where(front, keep) + if last in keep then [last] else []
  }

  lemma {:induction false} WhereDistinct(s: seq<Id>, keep: set<Id>)
    requires Distinct(s)
    ensures Distinct(Where(s, keep))
  {
    if s != [] {
      var front, last := s[..|s| - 1], s[|s| - 1];
      assert last !in front;
      WhereDistinct(front, keep);
    }
  }

  function InsertByScore(x: Id, s: seq<Id>, scores: map<Id, real>): (r: seq<Id>)
    requires x in scores && forall y :: y in s ==> y in scores
    ensures forall y :: y in r <==> y in s || y == x
  {
    if s == [] || scores[x] <= scores[s[0]] then [x] + s else [s[0]] + InsertByScore(x, s[1..], scores)
  }

  /** Lowest score first, ties in the given order. */
  function SortByScore(s: seq<Id>, scores: map<Id, real>): (r: seq<Id>)
    requires forall y :: y in s ==> y in scores
    ensures forall y :: y in r <==> y in s
  {
    if s == [] then [] else InsertByScore(s[0], SortByScore(s[1..], scores), scores)
  }

  predicate Ascending(s: seq<Id>, scores: map<Id, real>) {
    forall i, j :: 0 <= i < j < |s| ==> s[i] in scores && s[j] in scores && scores[s[i]] <= scores[s[j]]
  }

  lemma {:induction false} ConsAscending(x: Id, s: seq<Id>, scores: map<Id, real>)
    requires Ascending(s, scores) && Distinct(s) && x in scores && x !in s
    requires forall y :: y in s ==> y in scores && scores[x] <= scores[y]
    ensures Ascending([x] + s, scores) && Distinct([x] + s)
  {
    assert forall i :: 0 <= i < |s| ==> s[i] in s;
  }

  lemma {:induction false} UnconsAscending(s: seq<Id>, scores: map<Id, real>)
    requires s != [] && s[0] in scores && Ascending(s, scores) && Distinct(s)
    ensures Ascending(s[1..], scores) && Distinct(s[1..]) && s[0] !in s[1..]
    ensures forall y :: y in s ==> y in scores && scores[s[0]] <= scores[y]
  {
  }

  lemma {:induction false} InsertAscending(x: Id, s: seq<Id>, scores: map<Id, real>)
    requires x in scores && (forall y :: y in s ==> y in scores) && Ascending(s, scores) && Distinct(s) && x !in s
    ensures Ascending(InsertByScore(x, s, scores), scores) && Distinct(InsertByScore(x, s, scores))
  {
    if s == [] {
      ConsAscending(x, s, scores);
    } else {
      assert s[0] in s;
      UnconsAscending(s, scores);
      if scores[x] <= scores[s[0]] {
        ConsAscending(x, s, scores);
      } else {
        assert forall y :: y in s[1..] ==> y in s;
        InsertAscending(x, s[1..], scores);
        ConsAscending(s[0], InsertByScore(x, s[1..], scores), scores);
      }
    }
  }

  lemma {:induction false} SortAscending(s: seq<Id>, scores: map<Id, real>)
    requires (forall y :: y in s ==> y in scores) && Distinct(s)
    ensures Ascending(SortByScore(s, scores), scores) && Distinct(SortByScore(s, scores))
  {
    if s != [] {
      assert s[0] !in s[1..];
      SortAscending(s[1..], scores);
      InsertAscending(s[0], SortByScore(s[1..], scores), scores);
    }
  }

  // ---- Pools ----

  function Candidates<P>(req: Request<P>): seq<Id> {
    Dedup(req.rows)
  }

  /** The candidates a strategy may pick, in its order of preference (diversity: candidate order). */
  function Pool<P>(req: Request<P>, s: Strategy): seq<Id> {
    var all := Candidates(req);
    match s
    case Uncertainty => SortByScore(Where(all, req.scores.Keys), req.scores)
    case Diversity => Where(all, req.vec.Keys)
    case FailureCase => Where(Dedup(req.dead), Elements(all))
    case Committee => Where(Dedup(req.committee), Elements(all))
    case Sequential => all
  }

  lemma {:induction false} PoolsAreCandidates<P>(req: Request<P>, s: Strategy)
    ensures Distinct(Pool(req, s)) && forall x :: x in Pool(req, s) ==> x in Candidates(req)
  {
    var all := Candidates(req);
    WhereDistinct(all, req.scores.Keys);
    WhereDistinct(all, req.vec.Keys);
    WhereDistinct(Dedup(req.dead), Elements(all));
    WhereDistinct(Dedup(req.committee), Elements(all));
    if s == Uncertainty {
      SortAscending(Where(Candidates(req), req.scores.Keys), req.scores);
    }
  }

  function Usable<P>(req: Request<P>): seq<Strategy> {
    Filter(ORDER, (s: Strategy) => Pool(req, s) != [])
  }

  function Target<P>(req: Request<P>): int {
    if req.total <= 0 then 0 else Min(req.total, |Candidates(req)|)
  }

  // ---- Picked rows ----

  function Tag(ids: seq<Id>, s: Strategy): (r: seq<SampledRow>)
    ensures |r| == |ids| && forall i :: 0 <= i < |ids| ==> r[i] == SampledRow(ids[i], s)
  {
    seq(|ids|, i requires 0 <= i < |ids| => SampledRow(ids[i], s))
  }

  function Ids(picked: seq<SampledRow>): (r: seq<Id>)
    ensures |r| == |picked| && forall i :: 0 <= i < |picked| ==> r[i] == picked[i].row
  {
    seq(|picked|, i requires 0 <= i < |picked| => picked[i].row)
  }

  function CountOf(picked: seq<SampledRow>, s: Strategy): nat {
    if picked == [] then 0 else CountOf(picked[..|picked| - 1], s) + if picked[|picked| - 1].strategy == s then 1 else 0
  }

  lemma {:induction false} CountTagged(picked: seq<SampledRow>, ids: seq<Id>, s: Strategy, t: Strategy)
    ensures CountOf(picked + Tag(ids, s), t) == CountOf(picked, t) + if s == t then |ids| else 0
  {
    var all := picked + Tag(ids, s);
    if ids == [] {
      assert all == picked;
    } else {
      CountTagged(picked, ids[..|ids| - 1], s, t);
      assert all[..|all| - 1] == picked + Tag(ids[..|ids| - 1], s);
    }
  }

  /** Distinct candidates, exactly the taken ones. */
  ghost predicate Sound<P>(req: Request<P>, picked: seq<SampledRow>, taken: set<Id>) {
    && Distinct(Ids(picked)) && taken == Elements(Ids(picked))
    && (forall i :: 0 <= i < |picked| ==>
      picked[i].row in Candidates(req) && picked[i].row in Pool(req, picked[i].strategy))
  }

  lemma {:induction false} AddSound<P>(req: Request<P>, picked: seq<SampledRow>, taken: set<Id>, ids: seq<Id>,
      s: Strategy)
    requires Sound(req, picked, taken) && Distinct(ids) && forall x :: x in ids ==> x in Pool(req, s) && x !in taken
    ensures Sound(req, picked + Tag(ids, s), taken + Elements(ids))
  {
    PoolsAreCandidates(req, s);
    var all := picked + Tag(ids, s);
    assert Ids(all) == Ids(picked) + ids;
    DistinctConcat(Ids(picked), ids);
    forall i | 0 <= i < |all| ensures all[i].row in Candidates(req) && all[i].row in Pool(req, all[i].strategy) {
      if i >= |picked| {
        assert ids[i - |picked|] in ids;
      }
    }
  }

  lemma {:induction false} DistinctConcat(a: seq<Id>, b: seq<Id>)
    requires Distinct(a) && Distinct(b) && forall x :: x in b ==> x !in Elements(a)
    ensures Distinct(a + b) && Elements(a + b) == Elements(a) + Elements(b)
  {
    assert forall i :: 0 <= i < |a| ==> a[i] in Elements(a);
    assert forall i :: 0 <= i < |b| ==> b[i] in b;
  }

  // ---- Sampling ----

  /** What is left of a pool. */
  function Free<P>(req: Request<P>, s: Strategy, taken: set<Id>): seq<Id> {
    Where(Pool(req, s), Elements(Pool(req, s)) - taken)
  }

  /** What one strategy contributes: as many of its untaken rows as its quota allows, its favourites or the most
      spread. */
  ghost predicate Serves<P>(req: Request<P>, dist: (P, P) -> real, s: Strategy, taken: set<Id>, quota: int,
      chosen: seq<Id>) {
    var free := Free(req, s, taken);
    if quota <= 0 then chosen == []
    else
      |chosen| == Min(quota, |free|) &&
      if s == Diversity then Embedded(free, req.vec) && Embedded(chosen, req.vec) &&
        FarthestFirst(free, chosen, req.vec, dist)
      else chosen == free[..|chosen|]
  }

  /** The rows picked when the i-th strategy contributes parts[i]. */
  function Picked(parts: seq<seq<Id>>): seq<SampledRow>
    requires |parts| <= 4
  {
    if parts == [] then [] else Picked(parts[..|parts| - 1]) + Tag(parts[|parts| - 1], ORDER[|parts| - 1])
  }

  ghost predicate ServesAt<P>(req: Request<P>, dist: (P, P) -> real, q: Strategy -> int, parts: seq<seq<Id>>, i: nat)
    requires i < |parts| <= 4
  {
    Serves(req, dist, ORDER[i], Elements(Ids(Picked(parts[..i]))), q(ORDER[i]), parts[i])
  }

  /** The strategies have been served in order, each from what the earlier ones left. */
  ghost predicate Served<P>(req: Request<P>, dist: (P, P) -> real, q: Strategy -> int, parts: seq<seq<Id>>) {
    |parts| <= 4 && forall i :: 0 <= i < |parts| ==> ServesAt(req, dist, q, parts, i)
  }

  lemma {:induction false} ServedSnoc<P>(req: Request<P>, dist: (P, P) -> real, q: Strategy -> int,
      parts: seq<seq<Id>>, chosen: seq<Id>)
    requires |parts| < 4 && Served(req, dist, q, parts)
    requires Serves(req, dist, ORDER[|parts|], Elements(Ids(Picked(parts))), q(ORDER[|parts|]), chosen)
    ensures Served(req, dist, q, parts + [chosen])
    ensures Picked(parts + [chosen]) == Picked(parts) + Tag(chosen, ORDER[|parts|])
  {
    var all := parts + [chosen];
    forall i | 0 <= i < |all| ensures ServesAt(req, dist, q, all, i) {
      if i < |parts| {
        assert all[..i] == parts[..i];
        assert ServesAt(req, dist, q, parts, i);
      } else {
        assert all[..i] == parts;
      }
    }
    assert all[..|parts|] == parts;
  }

  /** Candidates nobody took, in order, as many as the target still asks for. */
  function Rest<P>(req: Request<P>, picked: seq<SampledRow>): seq<Id> {
    var free := Free(req, Sequential, Elements(Ids(picked)));
    free[..if |picked| < Target(req) then Min(|free|, Target(req) - |picked|) else 0]
  }

  lemma {:induction false} FreeRows<P>(req: Request<P>, s: Strategy, taken: set<Id>)
    ensures
      var free := Free(req, s, taken);
      && Distinct(free) && (forall x :: x in free <==> x in Pool(req, s) && x !in taken)
      && (s == Diversity ==> Embedded(free, req.vec))
  {
    PoolsAreCandidates(req, s);
    WhereDistinct(Pool(req, s), Elements(Pool(req, s)) - taken);
    assert forall i :: 0 <= i < |Free(req, s, taken)| ==> Free(req, s, taken)[i] in Free(req, s, taken);
  }

  method Choose<P>(req: Request<P>, dist: (P, P) -> real, s: Strategy, taken: set<Id>, quota: int)
      returns (chosen: seq<Id>)
    requires quota > 0
    ensures |chosen| <= quota && Distinct(chosen) && forall x :: x in chosen ==> x in Pool(req, s) && x !in taken
    ensures Serves(req, dist, s, taken, quota, chosen)
  {
    FreeRows(req, s, taken);
    var free := Free(req, s, taken);
    if s == Diversity {
      chosen := KCenterGreedy(free, req.vec, quota, dist);
    } else {
      chosen := free[..Min(quota, |free|)];
    }
  }

  lemma {:induction false} WherePrefix(s: seq<Id>, keep: set<Id>, i: nat)
    requires i <= |s|
    ensures Where(s[..i], keep) <= Where(s, keep)
  {
    if i == |s| {
      assert s[..i] == s;
    } else {
      WherePrefix(s[..|s| - 1], keep, i);
      assert s[..|s| - 1][..i] == s[..i];
    }
  }

  lemma {:induction false} WhereSnoc(s: seq<Id>, keep: set<Id>, i: nat)
    requires i < |s|
    ensures Where(s[..i + 1], keep) == Where(s[..i], keep) + if s[i] in keep then [s[i]] else []
  {
    assert s[..i + 1][..i] == s[..i];
  }

  /** After the first i candidates: the untaken ones among them have been added. */
  ghost predicate Filling(all: seq<Id>, picked0: seq<SampledRow>, taken0: set<Id>, picked: seq<SampledRow>,
      taken: set<Id>, i: nat) {
    && i <= |all|
    && var more := Where(all[..i], Elements(all) - taken0);
       picked == picked0 + Tag(more, Sequential) && taken == taken0 + Elements(more)
  }

  /** Among candidates not reached yet, only those taken before the filling are taken. */
  lemma {:induction false} NotReached(all: seq<Id>, taken0: set<Id>, i: nat)
    requires Distinct(all) && i < |all|
    ensures
      var left := Elements(all) - taken0;
      all[i] in left <==> all[i] !in taken0 + Elements(Where(all[..i], left))
  {
    assert all[i] in all && all[i] !in all[..i];
  }

  lemma {:induction false} TagSnoc(picked: seq<SampledRow>, ids: seq<Id>, x: Id)
    ensures picked + Tag(ids, Sequential) + Tag([x], Sequential) == picked + Tag(ids + [x], Sequential)
    ensures Elements(ids + [x]) == Elements(ids) + {x} && Elements([x]) == {x}
  {
  }

  lemma {:induction false} FillStep(all: seq<Id>, picked0: seq<SampledRow>, taken0: set<Id>, picked: seq<SampledRow>,
      taken: set<Id>, i: nat)
    requires Distinct(all) && i < |all| && Filling(all, picked0, taken0, picked, taken, i)
    ensures
      if all[i] in taken then Filling(all, picked0, taken0, picked, taken, i + 1)
      else Filling(all, picked0, taken0, picked + Tag([all[i]], Sequential), taken + {all[i]}, i + 1)
  {
    var left := Elements(all) - taken0;
    WhereSnoc(all, left, i);
    NotReached(all, taken0, i);
    TagSnoc(picked0, Where(all[..i], left), all[i]);
  }

  lemma {:induction false} FillStart(all: seq<Id>, picked: seq<SampledRow>, taken: set<Id>)
    ensures Filling(all, picked, taken, picked, taken, 0)
  {
    assert Tag([], Sequential) == [];
  }

  /** What was added is distinct and untaken, so the sample stays sound; and it is the first rows of what was left. */
  lemma {:induction false} FillEnd<P>(req: Request<P>, picked0: seq<SampledRow>, taken0: set<Id>,
      picked: seq<SampledRow>, taken: set<Id>, i: nat)
    requires Sound(req, picked0, taken0) && Filling(Candidates(req), picked0, taken0, picked, taken, i)
    requires |picked| <= Target(req) && (|picked| == Target(req) || i == |Candidates(req)|)
    ensures Sound(req, picked, taken)
    ensures |picked| == Target(req) && picked == picked0 + Tag(Rest(req, picked0), Sequential)
  {
    var all, left := Candidates(req), Elements(Candidates(req)) - taken0;
    var more := Where(all[..i], left);
    WherePrefix(all, left, i);
    WhereDistinct(all[..i], left);
    AddSound(req, picked0, taken0, more, Sequential);
    if i == |all| {
      assert all[..i] == all;
      AllTaken(all, Ids(picked));
    }
    assert more == Rest(req, picked0);
  }

  /** Candidates in order until the target is met. */
  method Fill<P>(req: Request<P>, picked0: seq<SampledRow>, taken0: set<Id>)
      returns (picked: seq<SampledRow>, taken: set<Id>)
    requires Sound(req, picked0, taken0) && |picked0| <= Target(req)
    ensures |picked| == Target(req) && Sound(req, picked, taken)
    ensures picked == picked0 + Tag(Rest(req, picked0), Sequential)
  {
    var all, target := Candidates(req), Target(req);
    picked, taken := FillFrom(all, picked0, taken0, target);
    ghost var i :| (|picked| == target || i == |all|) && Filling(all, picked0, taken0, picked, taken, i);
    FillEnd(req, picked0, taken0, picked, taken, i);
  }

  method FillFrom(all: seq<Id>, picked0: seq<SampledRow>, taken0: set<Id>, target: int)
      returns (picked: seq<SampledRow>, taken: set<Id>)
    requires Distinct(all) && |picked0| <= target
    ensures |picked| <= target
    ensures exists i: nat :: (|picked| == target || i == |all|) && Filling(all, picked0, taken0, picked, taken, i)
  {
    picked, taken := picked0, taken0;
    FillStart(all, picked0, taken0);
    var i := 0;
    while i < |all| && |picked| < target
      invariant i <= |all| && |picked| <= target && Filling(all, picked0, taken0, picked, taken, i)
    {
      FillStep(all, picked0, taken0, picked, taken, i);
      if all[i] !in taken {
        picked, taken := picked + Tag([all[i]], Sequential), taken + {all[i]};
      }
      i := i + 1;
    }
  }

  lemma {:induction false} AllTaken(all: seq<Id>, ids: seq<Id>)
    requires Distinct(all) && forall i :: 0 <= i < |all| ==> all[i] in Elements(ids)
    ensures |all| <= |ids|
  {
    DistinctSize(all, Elements(ids));
    SetOfSeq(ids);
  }

  /** Quotas are respected: at most q rows per strategy, none for strategies not reached yet. */
  ghost predicate WithinQuotas(picked: seq<SampledRow>, q: Strategy -> int, n: nat)
    requires n <= 4
  {
    && |picked| <= SumI(ORDER[..n], q)
    && (forall s :: s in ORDER[..n] ==> CountOf(picked, s) <= q(s))
    && (forall s :: s !in ORDER[..n] ==> CountOf(picked, s) == 0)
  }

  lemma {:induction false} StaysWithin(picked: seq<SampledRow>, q: Strategy -> int, n: nat, ids: seq<Id>)
    requires n < 4 && WithinQuotas(picked, q, n) && |ids| <= q(ORDER[n])
    ensures WithinQuotas(picked + Tag(ids, ORDER[n]), q, n + 1)
  {
    var s := ORDER[n];
    assert s !in ORDER[..n];
    assert ORDER[..n + 1] == ORDER[..n] + [s];
    assert ORDER[..n + 1][..n] == ORDER[..n];
    forall t ensures CountOf(picked + Tag(ids, s), t) == CountOf(picked, t) + if s == t then |ids| else 0 {
      CountTagged(picked, ids, s, t);
    }
  }

  lemma {:induction false} NothingToServe<P>(req: Request<P>, dist: (P, P) -> real, s: Strategy, taken: set<Id>,
      quota: int)
    ensures quota <= 0 || Pool(req, s) == [] ==> Serves(req, dist, s, taken, quota, [])
  {
  }

  /** The next strategy in its fixed order: what is left of its pool, up to its quota. */
  method ServeNext<P>(req: Request<P>, dist: (P, P) -> real, q: map<Strategy, int>, ghost parts: seq<seq<Id>>,
      picked: seq<SampledRow>, taken: set<Id>, i: nat)
    returns (chosen: seq<Id>)
    requires i < 4 && (forall s :: Get(q)(s) >= 0) && |parts| == i && Standing(req, dist, Get(q), parts, picked, taken)
    ensures Standing(req, dist, Get(q), parts + [chosen], picked + Tag(chosen, ORDER[i]), taken + Elements(chosen))
  {
    var s := ORDER[i];
    chosen := ChooseUpTo(req, dist, s, taken, Get(q)(s));
    ServeKeeps(req, dist, Get(q), parts, picked, taken, s, chosen);
  }

  lemma {:induction false} NothingPicked<P>(req: Request<P>, dist: (P, P) -> real, q: Strategy -> int,
      picked: seq<SampledRow>, taken: set<Id>)
    requires Standing(req, dist, q, [], picked, taken)
    ensures picked == [] && taken == {}
  {
  }

  lemma {:induction false} ServeKeeps<P>(req: Request<P>, dist: (P, P) -> real, q: Strategy -> int,
      parts: seq<seq<Id>>, picked: seq<SampledRow>, taken: set<Id>, s: Strategy, chosen: seq<Id>)
    requires Standing(req, dist, q, parts, picked, taken) && |parts| < 4 && s == ORDER[|parts|]
    requires |chosen| <= q(s) && Distinct(chosen) && forall x :: x in chosen ==> x in Pool(req, s) && x !in taken
    requires Serves(req, dist, s, taken, q(s), chosen) && (s != Diversity ==> chosen <= Free(req, s, taken))
    ensures Standing(req, dist, q, parts + [chosen], picked + Tag(chosen, s), taken + Elements(chosen))
  {
    AddSound(req, picked, taken, chosen, s);
    ServedSnoc(req, dist, q, parts, chosen);
    StaysWithin(picked, q, |parts|, chosen);
    if parts == [] {
      NothingPicked(req, dist, q, picked, taken);
    }
    LowestStep(req, picked, taken, chosen, |parts|);
  }

  /** Nothing for a strategy without quota or pool. */
  method ChooseUpTo<P>(req: Request<P>, dist: (P, P) -> real, s: Strategy, taken: set<Id>, quota: int)
    returns (chosen: seq<Id>)
    requires quota >= 0
    ensures |chosen| <= quota && Distinct(chosen) && forall x :: x in chosen ==> x in Pool(req, s) && x !in taken
    ensures Serves(req, dist, s, taken, quota, chosen) && (s != Diversity ==> chosen <= Free(req, s, taken))
  {
    chosen := [];
    NothingToServe(req, dist, s, taken, quota);
    if quota > 0 && Pool(req, s) != [] {
      chosen := Choose(req, dist, s, taken, quota);
    }
  }

  /** Where the picking stands after the strategies in `parts`. */
  ghost predicate Standing<P>(req: Request<P>, dist: (P, P) -> real, q: Strategy -> int, parts: seq<seq<Id>>,
      picked: seq<SampledRow>, taken: set<Id>) {
    && Sound(req, picked, taken) && Served(req, dist, q, parts) && picked == Picked(parts)
    && WithinQuotas(picked, q, |parts|) && LowestScored(req, picked)
  }

  /** The strategies in their fixed order, first come first served. */
  method PickByStrategy<P>(req: Request<P>, dist: (P, P) -> real, q: map<Strategy, int>)
    returns (picked: seq<SampledRow>, taken: set<Id>, ghost parts: seq<seq<Id>>)
    requires forall s :: Get(q)(s) >= 0
    ensures Sound(req, picked, taken) && WithinQuotas(picked, Get(q), 4) && LowestScored(req, picked)
    ensures |parts| == 4 && Standing(req, dist, Get(q), parts, picked, taken)
  {
    picked, taken, parts := [], {}, [];
    for i := 0 to 4
      invariant |parts| == i && Standing(req, dist, Get(q), parts, picked, taken)
    {
      var chosen := ServeNext(req, dist, q, parts, picked, taken, i);
      picked, taken, parts := picked + Tag(chosen, ORDER[i]), taken + Elements(chosen), parts + [chosen];
    }
  }

  /** Rows picked for uncertainty score no higher than any scored candidate left to others. */
  ghost predicate LowestScored<P>(req: Request<P>, picked: seq<SampledRow>) {
    forall i, x :: 0 <= i < |picked| && picked[i].strategy == Uncertainty && LeftScored(req, picked, x) ==>
      picked[i].row in req.scores && req.scores[picked[i].row] <= req.scores[x]
  }

  predicate LeftScored<P>(req: Request<P>, picked: seq<SampledRow>, x: Id) {
    x in Candidates(req) && x in req.scores && SampledRow(x, Uncertainty) !in picked
  }

  lemma {:induction false} LowestFirst<P>(req: Request<P>, chosen: seq<Id>)
    requires chosen <= Pool(req, Uncertainty)
    ensures LowestScored(req, Tag(chosen, Uncertainty))
  {
    var pool, picked := Pool(req, Uncertainty), Tag(chosen, Uncertainty);
    WhereDistinct(Candidates(req), req.scores.Keys);
    SortAscending(Where(Candidates(req), req.scores.Keys), req.scores);
    forall a, x | 0 <= a < |picked| && LeftScored(req, picked, x)
      ensures picked[a].row in req.scores && req.scores[picked[a].row] <= req.scores[x]
    {
      assert x in pool;
      var b :| 0 <= b < |pool| && pool[b] == x;
      if b < |chosen| {
        assert false;
      }
      assert picked[a].row == pool[a];
    }
  }

  lemma {:induction false} LowestLater<P>(req: Request<P>, picked: seq<SampledRow>, ids: seq<Id>, s: Strategy)
    requires LowestScored(req, picked) && s != Uncertainty
    ensures LowestScored(req, picked + Tag(ids, s))
  {
    var all := picked + Tag(ids, s);
    forall a, x | 0 <= a < |all| && all[a].strategy == Uncertainty && LeftScored(req, all, x)
      ensures all[a].row in req.scores && req.scores[all[a].row] <= req.scores[x]
    {
      assert a < |picked|;
      assert LeftScored(req, picked, x);
    }
  }

  lemma {:induction false} LowestStep<P>(req: Request<P>, picked: seq<SampledRow>, taken: set<Id>, chosen: seq<Id>,
      i: nat)
    requires i < 4
    requires LowestScored(req, picked)
    requires i == 0 ==> picked == [] && taken == {} && chosen <= Free(req, Uncertainty, taken)
    ensures LowestScored(req, picked + Tag(chosen, ORDER[i]))
  {
    if i == 0 {
      WhereAll(Pool(req, Uncertainty), Elements(Pool(req, Uncertainty)) - taken);
      LowestFirst(req, chosen);
      assert [] + Tag(chosen, Uncertainty) == Tag(chosen, Uncertainty);
    } else {
      LowestLater(req, picked, chosen, ORDER[i]);
    }
  }

  lemma {:induction false} WhereAll(s: seq<Id>, keep: set<Id>)
    requires forall i :: 0 <= i < |s| ==> s[i] in keep
    ensures Where(s, keep) == s
  {
    if s != [] {
      var front, last := s[..|s| - 1], s[|s| - 1];
      WhereAll(front, keep);
      assert Where(s, keep) == front + [last];
    }
  }

  /** Distinct requested rows, each from the pool of its strategy. */
  ghost predicate FromPools<P>(req: Request<P>, picked: seq<SampledRow>) {
    Distinct(Ids(picked)) && forall i :: 0 <= i < |picked| ==>
      picked[i].row in req.rows && picked[i].row in Pool(req, picked[i].strategy)
  }

  ghost predicate GoodSample<P>(req: Request<P>, picked: seq<SampledRow>, q: Strategy -> int) {
    && |picked| == Target(req)
    && FromPools(req, picked)
    && (forall s :: s != Sequential ==> CountOf(picked, s) <= q(s))
    && LowestScored(req, picked)
  }

  /** The sample is what the four strategies took, in order, then the first candidates left over. */
  ghost predicate Assembled<P>(req: Request<P>, dist: (P, P) -> real, picked: seq<SampledRow>, q: Strategy -> int) {
    exists parts :: Served(req, dist, q, parts) && |parts| == 4 &&
      picked == Picked(parts) + Tag(Rest(req, Picked(parts)), Sequential)
  }

  /** Exactly min(total, candidates) distinct candidates, each from the pool of the strategy it is tagged with, no
      strategy beyond its quota, the lowest scores first for uncertainty. */
  method SampleRows<P>(req: Request<P>, dist: (P, P) -> real) returns (picked: seq<SampledRow>, q: map<Strategy, int>)
    ensures Apportions(Target(req), Usable(req), req.weights, q)
    ensures GoodSample(req, picked, Get(q)) && Assembled(req, dist, picked, Get(q))
  {
    var usable, target := Usable(req), Target(req);
    UsableDistinct(req);
    q := AssignQuotas(target, usable, req.weights);
    QuotaBound(req, q);
    picked := SampleWithin(req, dist, q);
  }

  lemma {:induction false} UsableDistinct<P>(req: Request<P>)
    ensures Distinct(Usable(req))
  {
    OrderDistinct();
    UsableOf(req, ORDER);
  }

  lemma {:induction false} OrderDistinct()
    ensures Distinct(ORDER)
  {
  }

  lemma {:induction false} UsableOf<P>(req: Request<P>, order: seq<Strategy>)
    requires Distinct(order)
    ensures Distinct(Filter(order, (s: Strategy) => Pool(req, s) != []))
  {
  }

  lemma {:induction false} NoneUsable<P>(req: Request<P>)
    ensures forall s :: s in ORDER && s !in Usable(req) ==> Pool(req, s) == []
  {
    assert forall s :: s in ORDER && Pool(req, s) != [] ==> s in Usable(req);
  }

  method SampleWithin<P>(req: Request<P>, dist: (P, P) -> real, q: map<Strategy, int>) returns (picked: seq<SampledRow>)
    requires (forall s :: Get(q)(s) >= 0) && SumI(ORDER[..4], Get(q)) <= Target(req)
    ensures GoodSample(req, picked, Get(q)) && Assembled(req, dist, picked, Get(q))
  {
    if req.total <= 0 || Candidates(req) == [] {
      picked := [];
      assert ORDER[..4] == ORDER;
      ZeroQuotas(ORDER, Get(q));
      SequentialOnly(req, [], Get(q));
      SequentialAssembled(req, dist, [], Get(q));
    } else if Usable(req) == [] {
      picked := Tag(Candidates(req)[..Target(req)], Sequential);
      SequentialOnly(req, Candidates(req)[..Target(req)], Get(q));
      NoneUsable(req);
      SequentialAssembled(req, dist, Candidates(req)[..Target(req)], Get(q));
    } else {
      var some, taken, parts := PickByStrategy(req, dist, q);
      picked, taken := Fill(req, some, taken);
      Finish(req, some, picked, taken, q);
    }
  }

  /** The quotas of the four strategies never exceed the target. */
  lemma {:induction false} QuotaBound<P>(req: Request<P>, q: map<Strategy, int>)
    requires Apportions(Target(req), Usable(req), req.weights, q)
    ensures (forall s :: Get(q)(s) >= 0) && SumI(ORDER[..4], Get(q)) <= Target(req)
  {
    assert ORDER[..4] == ORDER;
    var usable := Usable(req);
    var a := Active(usable, req.weights);
    if a == [] || Target(req) <= 0 {
      SumZero(ORDER, Get(q));
    } else {
      SumFilter(ORDER, (s: Strategy) => Pool(req, s) != [], Get(q));
    }
  }

  lemma {:induction false} SumZero(ks: seq<Strategy>, f: Strategy -> int)
    requires forall k :: k in ks ==> f(k) == 0
    ensures SumI(ks, f) == 0
  {
    if ks != [] {
      SumZero(ks[..|ks| - 1], f);
    }
  }

  /** Nothing to serve: no quota, or only empty pools. */
  lemma {:induction false} NothingServed<P>(req: Request<P>, dist: (P, P) -> real, q: Strategy -> int, n: nat)
      returns (parts: seq<seq<Id>>)
    requires n <= 4 && forall s :: s in ORDER ==> q(s) <= 0 || Pool(req, s) == []
    ensures |parts| == n && Served(req, dist, q, parts) && Picked(parts) == []
  {
    parts := [];
    if n > 0 {
      var front := NothingServed(req, dist, q, n - 1);
      assert ORDER[n - 1] in ORDER;
      ServedSnoc(req, dist, q, front, []);
      parts := front + [[]];
    }
  }

  lemma {:induction false} RestOfNothing<P>(req: Request<P>)
    ensures Rest(req, []) == Candidates(req)[..Target(req)]
  {
    var all := Candidates(req);
    assert Elements(Ids([])) == {};
    WhereAll(all, Elements(all) - {});
  }

  lemma {:induction false} SequentialAssembled<P>(req: Request<P>, dist: (P, P) -> real, ids: seq<Id>,
      q: Strategy -> int)
    requires |ids| == Target(req) && ids <= Candidates(req)
    requires forall s :: s in ORDER ==> q(s) <= 0 || Pool(req, s) == []
    ensures Assembled(req, dist, Tag(ids, Sequential), q)
  {
    var parts := NothingServed(req, dist, q, 4);
    RestOfNothing(req);
    assert ids == Candidates(req)[..|ids|];
    assert [] + Tag(ids, Sequential) == Tag(ids, Sequential);
  }

  lemma {:induction false} SequentialOnly<P>(req: Request<P>, ids: seq<Id>, q: Strategy -> int)
    requires |ids| == Target(req) && ids <= Candidates(req) && forall s :: q(s) >= 0
    ensures GoodSample(req, Tag(ids, Sequential), q)
  {
    var picked := Tag(ids, Sequential);
    SequentialPool(req, ids);
    assert [] + picked == picked;
    forall s | s != Sequential ensures CountOf(picked, s) <= q(s) {
      CountTagged([], ids, Sequential, s);
    }
    assert LowestScored(req, []);
    LowestLater(req, [], ids, Sequential);
  }

  lemma {:induction false} ZeroQuotas(ks: seq<Strategy>, f: Strategy -> int)
    requires (forall k :: f(k) >= 0)
    ensures SumI(ks, f) >= 0 && (SumI(ks, f) == 0 ==> forall k :: k in ks ==> f(k) == 0)
  {
    if ks != [] {
      ZeroQuotas(ks[..|ks| - 1], f);
    }
  }

  lemma {:induction false} SequentialPool<P>(req: Request<P>, ids: seq<Id>)
    requires ids <= Candidates(req)
    ensures FromPools(req, Tag(ids, Sequential))
  {
    var picked, all := Tag(ids, Sequential), Candidates(req);
    assert Ids(picked) == ids;
    assert forall i :: 0 <= i < |ids| ==> ids[i] == all[i];
    assert forall i :: 0 <= i < |ids| ==> all[i] in all;
  }

  lemma {:induction false} Finish<P>(req: Request<P>, some: seq<SampledRow>, picked: seq<SampledRow>, taken: set<Id>,
      q: map<Strategy, int>)
    requires WithinQuotas(some, Get(q), 4) && LowestScored(req, some)
    requires picked == some + Tag(Rest(req, some), Sequential) && Sound(req, picked, taken)
    requires |picked| == Target(req)
    ensures GoodSample(req, picked, Get(q))
  {
    var more := Rest(req, some);
    assert ORDER[..4] == ORDER;
    forall s | s != Sequential ensures CountOf(picked, s) <= Get(q)(s) {
      CountTagged(some, more, Sequential, s);
      assert s in ORDER by {
        assert ORDER[0] == Uncertainty && ORDER[1] == Diversity && ORDER[2] == FailureCase && ORDER[3] == Committee;
      }
    }
    LowestLater(req, some, more, Sequential);
  }
}
