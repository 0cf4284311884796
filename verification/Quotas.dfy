/** Largest-remainder apportionment of sampling seats to strategies. */
module Quotas {
  import opened Common
  import opened KCenter

  datatype Strategy = Uncertainty | Diversity | FailureCase | Committee | Sequential

  // ---- Sums over a list of strategies ----

  function SumR(ks: seq<Strategy>, f: Strategy -> real): real {
    if ks == [] then 0.0 else SumR(ks[..|ks| - 1], f) + f(ks[|ks| - 1])
  }

  function SumI(ks: seq<Strategy>, f: Strategy -> int): int {
    if ks == [] then 0 else SumI(ks[..|ks| - 1], f) + f(ks[|ks| - 1])
  }

  function Filter(ks: seq<Strategy>, p: Strategy -> bool): (r: seq<Strategy>)
    ensures |r| <= |ks|
    ensures forall k :: k in r <==> k in ks && p(k)
    ensures Distinct(ks) ==> Distinct(r)
  {
    if ks == [] then [] else
      var front, last := ks[..|ks| - 1], ks[|ks| - 1];
      assert Distinct(ks) ==> last !in front;
      Filter(front, p) + if p(last) then [last] else []
  }

  lemma {:induction false} SumFilter(ks: seq<Strategy>, p: Strategy -> bool, f: Strategy -> int)
    requires forall k :: k in ks && !p(k) ==> f(k) == 0
    ensures SumI(Filter(ks, p), f) == SumI(ks, f)
  {
    if ks != [] {
      var front, last := ks[..|ks| - 1], ks[|ks| - 1];
      SumFilter(front, p, f);
      var r := Filter(front, p);
      assert Filter(ks, p) == if p(last) then r + [last] else r + [];
      assert r + [] == r && (r + [last])[..|r|] == r;
    }
  }

  lemma {:induction false} SumRAdd(ks: seq<Strategy>, f: Strategy -> real, g: Strategy -> real, h: Strategy -> real)
    requires forall k :: k in ks ==> h(k) == f(k) + g(k)
    ensures SumR(ks, h) == SumR(ks, f) + SumR(ks, g)
  {
    if ks != [] {
      SumRAdd(ks[..|ks| - 1], f, g, h);
    }
  }

  lemma {:induction false} SumRScale(ks: seq<Strategy>, f: Strategy -> real, g: Strategy -> real, c: real)
    requires forall k :: k in ks ==> g(k) == c * f(k)
    ensures SumR(ks, g) == c * SumR(ks, f)
  {
    if ks != [] {
      SumRScale(ks[..|ks| - 1], f, g, c);
    }
  }

  lemma {:induction false} SumRInt(ks: seq<Strategy>, f: Strategy -> int, g: Strategy -> real)
    requires forall k :: k in ks ==> g(k) == f(k) as real
    ensures SumR(ks, g) == SumI(ks, f) as real
  {
    if ks != [] {
      SumRInt(ks[..|ks| - 1], f, g);
    }
  }

  lemma {:induction false} SumRPositive(ks: seq<Strategy>, f: Strategy -> real)
    requires forall k :: k in ks ==> f(k) > 0.0
    ensures SumR(ks, f) >= 0.0 && (ks != [] ==> SumR(ks, f) > 0.0)
  {
    if ks != [] {
      SumRPositive(ks[..|ks| - 1], f);
    }
  }

  /** Adding one seat to each member of `top` adds |top| seats. */
  lemma {:induction false} SumTop(ks: seq<Strategy>, top: set<Strategy>, f: Strategy -> int, g: Strategy -> int)
    requires Distinct(ks) && (forall k :: k in top ==> k in ks)
    requires forall k :: k in ks ==> g(k) == f(k) + if k in top then 1 else 0
    ensures SumI(ks, g) == SumI(ks, f) + |top|
  {
    if ks == [] {
      assert top == {};
    } else {
      var front, last := ks[..|ks| - 1], ks[|ks| - 1];
      assert last !in front;
      SumTop(front, top - {last}, f, g);
      assert last in top ==> |top - {last}| == |top| - 1;
      assert last !in top ==> top - {last} == top;
    }
  }

  /** Fractions below one sum to less than the number of nonzero fractions. */
  lemma {:induction false} SumFractions(ks: seq<Strategy>, f: Strategy -> real, nonzero: set<Strategy>)
    requires Distinct(ks) && (forall k :: k in nonzero <==> k in ks && f(k) > 0.0)
    requires forall k :: k in ks ==> 0.0 <= f(k) < 1.0
    ensures 0.0 <= SumR(ks, f) && (if nonzero == {} then SumR(ks, f) == 0.0 else SumR(ks, f) < |nonzero| as real)
  {
    if ks != [] {
      var front, last := ks[..|ks| - 1], ks[|ks| - 1];
      assert last !in front;
      SumFractions(front, f, nonzero - {last});
      assert last in nonzero ==> |nonzero - {last}| == |nonzero| - 1;
      assert last !in nonzero ==> nonzero - {last} == nonzero;
    }
  }

  // ---- Stable descending sort ----

  function Insert(x: Strategy, s: seq<Strategy>, f: Strategy -> real): (r: seq<Strategy>)
    ensures |r| == |s| + 1 && forall k :: k in r <==> k in s || k == x
  {
    if s == [] || f(s[0]) <= f(x) then [x] + s else [s[0]] + Insert(x, s[1..], f)
  }

  function SortDescending(s: seq<Strategy>, f: Strategy -> real): (r: seq<Strategy>)
    ensures |r| == |s| && forall k :: k in r <==> k in s
  {
    if s == [] then [] else Insert(s[0], SortDescending(s[1..], f), f)
  }

  predicate Descending(s: seq<Strategy>, f: Strategy -> real) {
    forall i, j :: 0 <= i < j < |s| ==> f(s[i]) >= f(s[j])
  }

  lemma {:induction false} ConsSorted(x: Strategy, s: seq<Strategy>, f: Strategy -> real)
    requires Descending(s, f) && forall k :: k in s ==> f(x) >= f(k)
    ensures Descending([x] + s, f)
    ensures Distinct(s) && x !in s ==> Distinct([x] + s)
  {
    assert forall i :: 0 <= i < |s| ==> s[i] in s;
  }

  lemma {:induction false} UnconsSorted(s: seq<Strategy>, f: Strategy -> real)
    requires s != [] && Descending(s, f)
    ensures Descending(s[1..], f) && forall k :: k in s ==> f(s[0]) >= f(k)
    ensures Distinct(s) ==> Distinct(s[1..]) && s[0] !in s[1..]
  {
  }

  lemma {:induction false} InsertSorted(x: Strategy, s: seq<Strategy>, f: Strategy -> real)
    requires Descending(s, f)
    ensures Descending(Insert(x, s, f), f)
    ensures Distinct(s) && x !in s ==> Distinct(Insert(x, s, f))
  {
    if s == [] {
      ConsSorted(x, s, f);
    } else {
      UnconsSorted(s, f);
      if f(s[0]) <= f(x) {
        ConsSorted(x, s, f);
      } else {
        InsertSorted(x, s[1..], f);
        assert forall k :: k in s[1..] ==> k in s;
        ConsSorted(s[0], Insert(x, s[1..], f), f);
      }
    }
  }

  lemma {:induction false} SortSorts(s: seq<Strategy>, f: Strategy -> real)
    ensures Descending(SortDescending(s, f), f)
    ensures Distinct(s) ==> Distinct(SortDescending(s, f))
  {
    if s != [] {
      SortSorts(s[1..], f);
      InsertSorted(s[0], SortDescending(s[1..], f), f);
    }
  }

  // ---- Apportionment ----

  function Get(q: map<Strategy, int>): Strategy -> int {
    (k: Strategy) => if k in q then q[k] else 0
  }

  function Weight(w: map<Strategy, real>): Strategy -> real {
    (k: Strategy) => if k in w then w[k] else 0.0
  }

  function Active(keys: seq<Strategy>, w: map<Strategy, real>): seq<Strategy> {
    Filter(keys, (k: Strategy) => Weight(w)(k) > 0.0)
  }

  /** The exact share of a strategy. */
  function Share(total: int, keys: seq<Strategy>, w: map<Strategy, real>): Strategy -> real
    requires SumR(Active(keys, w), Weight(w)) > 0.0
  {
    var scale := SumR(Active(keys, w), Weight(w));
    (k: Strategy) => ShareOf(total as real, Weight(w)(k), scale)
  }

  function ShareOf(total: real, w: real, scale: real): real
    requires scale > 0.0
  {
    total * w / scale
  }

  function Fraction(f: Strategy -> real): Strategy -> real {
    (k: Strategy) => f(k) - f(k).Floor as real
  }

  function Floored(f: Strategy -> real): Strategy -> int {
    (k: Strategy) => f(k).Floor
  }

  /** Exact shares of the active strategies sum to the total. */
  lemma {:induction false} SharesSum(total: int, keys: seq<Strategy>, w: map<Strategy, real>)
    requires SumR(Active(keys, w), Weight(w)) > 0.0
    ensures SumR(Active(keys, w), Share(total, keys, w)) == total as real
  {
    var a, scale := Active(keys, w), SumR(Active(keys, w), Weight(w));
    Proportional(a, Weight(w), Share(total, keys, w), total as real, scale);
  }

  lemma {:induction false} Proportional(a: seq<Strategy>, w: Strategy -> real, f: Strategy -> real, total: real,
      scale: real)
    requires scale == SumR(a, w) > 0.0 && forall k :: f(k) == ShareOf(total, w(k), scale)
    ensures SumR(a, f) == total
  {
    var c := total / scale;
    forall k ensures f(k) == c * w(k) {
      ShareScales(total, w(k), scale, c);
    }
    SumRScale(a, w, f, c);
  }

  lemma {:induction false} ShareScales(t: real, w: real, s: real, c: real)
    requires s > 0.0 && c == t / s
    ensures ShareOf(t, w, s) == c * w
  {
    assert c * s == t;
    assert (c * w) * s == t * w;
    Undivided(t * w, s, c * w);
  }

  lemma {:induction false} Undivided(x: real, s: real, y: real)
    requires s > 0.0 && y * s == x
    ensures x / s == y
  {
  }

  lemma {:induction false} FloorSplit(a: seq<Strategy>, f: Strategy -> real)
    ensures SumI(a, Floored(f)) as real + SumR(a, Fraction(f)) == SumR(a, f)
  {
    var fl := (k: Strategy) => f(k).Floor as real;
    SumRAdd(a, fl, Fraction(f), f);
    SumRInt(a, Floored(f), fl);
  }

  /** The leftover seats are fewer than the nonzero fractions. */
  lemma {:induction false} LeftoverCount(a: seq<Strategy>, f: Strategy -> real, total: int, nonzero: set<Strategy>)
    requires Distinct(a) && SumR(a, f) == total as real && nonzero == set k | k in a && Fraction(f)(k) > 0.0
    ensures
      var r := total - SumI(a, Floored(f));
      0 <= r && if nonzero == {} then r == 0 else r < |nonzero|
  {
    FloorSplit(a, f);
    SumFractions(a, Fraction(f), nonzero);
  }

  /** Everything before the first zero in a descending list is nonzero, and all nonzero ones are there. */
  lemma {:induction false} ZeroComesLate(a: seq<Strategy>, s: seq<Strategy>, g: Strategy -> real,
      nonzero: set<Strategy>, i: nat)
    requires Descending(s, g) && (forall k :: k in s <==> k in a) && nonzero == set k | k in a && g(k) > 0.0
    requires i < |s| && g(s[i]) <= 0.0
    ensures |nonzero| <= i
  {
    forall k | k in nonzero ensures k in s[..i] {
      assert k in s;
      var j :| 0 <= j < |s| && s[j] == k;
      assert j < i;
    }
    SubsetSize(nonzero, Elements(s[..i]));
    SetOfSeq(s[..i]);
  }

  /** So they all fit, and the largest fractions they go to are nonzero. */
  lemma {:induction false} LeftoverFits(a: seq<Strategy>, f: Strategy -> real, total: int)
    requires Distinct(a) && SumR(a, f) == total as real
    ensures
      var r, s := total - SumI(a, Floored(f)), SortDescending(a, Fraction(f));
      0 <= r <= |s| && forall i :: 0 <= i < r ==> Fraction(f)(s[i]) > 0.0
  {
    var g := Fraction(f);
    var r, s := total - SumI(a, Floored(f)), SortDescending(a, g);
    var nonzero := set k | k in a && g(k) > 0.0;
    LeftoverCount(a, f, total, nonzero);
    SubsetSize(nonzero, Elements(a));
    SetOfSeq(a);
    SortSorts(a, g);
    forall i | 0 <= i < r ensures g(s[i]) > 0.0 {
      if g(s[i]) <= 0.0 {
        ZeroComesLate(a, s, g, nonzero, i);
      }
    }
  }

  /** Every quota is its share rounded down, or up when the share is fractional; larger fractions round up first. */
  ghost predicate Rounds(a: seq<Strategy>, f: Strategy -> real, q: Strategy -> int) {
    && (forall k :: k in a ==> q(k) == f(k).Floor || (q(k) == f(k).Floor + 1 && f(k) > f(k).Floor as real))
    && (forall k, l :: k in a && l in a && q(k) == f(k).Floor + 1 && q(l) == f(l).Floor ==>
      Fraction(f)(k) >= Fraction(f)(l))
  }

  // ---- The quota rule, said of weights alone ----

  /** Each quota is within one seat of total * w(k) / W, W the sum of the active weights, and a heavier strategy never
      gets
      fewer seats. */
  ghost predicate FollowsWeights(total: int, a: seq<Strategy>, w: Strategy -> real, q: Strategy -> int) {
    && (forall k :: k in a ==> WithinOne(q(k), total as real, w(k), SumR(a, w)))
    && (forall k, l :: k in a && l in a && w(k) > w(l) ==> q(k) >= q(l))
  }

  /** |q W - t w| < W */
  predicate WithinOne(q: int, t: real, w: real, W: real) {
    -W < q as real * W - t * w < W
  }

  lemma {:induction false} TimesNext(W: real, y: real)
    ensures W * (y + 1.0) == W * y + W
  {
  }

  lemma {:induction false} ScaleInside(x: real, y: real, p: real, W: real)
    requires W > 0.0 && -1.0 < x - y < 1.0 && W * y == p
    ensures -W < W * x - p < W
  {
    LessTimes(W, x, y + 1.0);
    LessTimes(W, y, x + 1.0);
    TimesNext(W, y);
    TimesNext(W, x);
    var u, v := W * x, W * y;
    assert u < v + W && v < u + W;
  }

  lemma {:induction false} WithinOneSeat(q: int, t: real, w: real, W: real)
    requires W > 0.0
    requires var f := ShareOf(t, w, W); q == f.Floor || (q == f.Floor + 1 && f > f.Floor as real)
    ensures WithinOne(q, t, w, W)
  {
    var f := ShareOf(t, w, W);
    assert W * f == t * w;
    ScaleInside(q as real, f, t * w, W);
  }

  lemma {:induction false} HeavierShare(t: real, v: real, w: real, W: real)
    requires t > 0.0 && W > 0.0 && v > w
    ensures ShareOf(t, v, W) > ShareOf(t, w, W)
  {
    var c := t / W;
    ShareScales(t, v, W, c);
    ShareScales(t, w, W, c);
    LessTimes(c, w, v);
  }

  lemma {:induction false} LessTimes(c: real, x: real, y: real)
    requires c > 0.0 && x < y
    ensures c * x < c * y
  {
    assert c * (y - x) > 0.0;
  }

  /** Rounding up the larger fraction first keeps the order of the shares. */
  lemma {:induction false} RoundedOrder(p: int, q: int, f: real, g: real)
    requires f > g && (p == f.Floor || p == f.Floor + 1) && (q == g.Floor || q == g.Floor + 1)
    requires q == g.Floor + 1 && p == f.Floor ==> g - g.Floor as real >= f - f.Floor as real
    ensures p >= q
  {
  }

  /** Said of weights alone, whatever the shares are called. */
  lemma {:induction false} ApportionsFollowWeights(total: int, keys: seq<Strategy>, w: map<Strategy, real>,
      q: map<Strategy, int>)
    requires Apportions(total, keys, w, q) && total > 0 && Active(keys, w) != []
    ensures FollowsWeights(total, Active(keys, w), Weight(w), Get(q))
  {
    var a, f, W := Active(keys, w), Share(total, keys, w), SumR(Active(keys, w), Weight(w));
    forall k | k in a ensures WithinOne(Get(q)(k), total as real, Weight(w)(k), W) {
      assert f(k) == ShareOf(total as real, Weight(w)(k), W);
      WithinOneSeat(Get(q)(k), total as real, Weight(w)(k), W);
    }
    forall k, l | k in a && l in a && Weight(w)(k) > Weight(w)(l) ensures Get(q)(k) >= Get(q)(l) {
      HeavierShare(total as real, Weight(w)(k), Weight(w)(l), W);
      assert Fraction(f)(k) == f(k) - f(k).Floor as real && Fraction(f)(l) == f(l) - f(l).Floor as real;
      RoundedOrder(Get(q)(k), Get(q)(l), f(k), f(l));
    }
  }

  /** What largest-remainder quotas promise. */
  ghost predicate Apportions(total: int, keys: seq<Strategy>, w: map<Strategy, real>, q: map<Strategy, int>) {
    var a := Active(keys, w);
    if a == [] || total <= 0 then forall k :: Get(q)(k) == 0
    else
      && SumR(a, Weight(w)) > 0.0
      && SumI(keys, Get(q)) == total
      && (forall k :: Get(q)(k) >= 0 && (k !in a ==> Get(q)(k) == 0))
      && Rounds(a, Share(total, keys, w), Get(q))
  }

  method AssignQuotas(total: int, keys: seq<Strategy>, w: map<Strategy, real>) returns (q: map<Strategy, int>)
    requires Distinct(keys)
    ensures Apportions(total, keys, w, q)
    ensures total > 0 && Active(keys, w) != [] ==> FollowsWeights(total, Active(keys, w), Weight(w), Get(q))
  {
    var a := Active(keys, w);
    if a == [] || total <= 0 {
      q := map k | k in keys :: 0;
      return;
    }
    SumRPositive(a, Weight(w));
    var f := Share(total, keys, w);
    q := map k | k in a :: f(k).Floor;
    var r := total - SumI(a, Floored(f));
    var s := SortDescending(a, Fraction(f));
    SharesSum(total, keys, w);
    LeftoverFits(a, f, total);
    SortSorts(a, Fraction(f));
    q := GiveSeats(q, s, r);
    assert forall k :: k in a ==> k in s;
    QuotasApportion(total, keys, w, q, s);
    ApportionsFollowWeights(total, keys, w, q);
  }

  /** One extra seat for each of the first r strategies of the list. */
  method GiveSeats(q0: map<Strategy, int>, s: seq<Strategy>, r: nat) returns (q: map<Strategy, int>)
    requires r <= |s| && Distinct(s) && forall k :: k in s ==> k in q0
    ensures q.Keys == q0.Keys && forall k :: k in q0 ==> q[k] == q0[k] + if k in s[..r] then 1 else 0
  {
    q := q0;
    for i := 0 to r
      invariant q.Keys == q0.Keys
      invariant forall k :: k in q0 ==> q[k] == q0[k] + if k in s[..i] then 1 else 0
    {
      assert s[i] in s && s[i] !in s[..i];
      q := q[s[i] := q[s[i]] + 1];
      assert forall k :: k in s[..i + 1] <==> k in s[..i] || k == s[i];
    }
  }

  lemma {:induction false} QuotasApportion(total: int, keys: seq<Strategy>, w: map<Strategy, real>, q: map<Strategy,
      int>, s: seq<Strategy>)
    requires Distinct(keys) && total > 0 && SumR(Active(keys, w), Weight(w)) > 0.0 && Active(keys, w) != []
    requires forall k :: k in q <==> k in Active(keys, w)
    requires
      var a, f := Active(keys, w), Share(total, keys, w);
      var r := total - SumI(a, Floored(f));
      && s == SortDescending(a, Fraction(f)) && 0 <= r <= |s|
      && (forall k :: k in a ==> q[k] == f(k).Floor + if k in s[..r] then 1 else 0)
    ensures Apportions(total, keys, w, q)
  {
    var a, f := Active(keys, w), Share(total, keys, w);
    SharesSum(total, keys, w);
    TopRounds(a, f, total, s, Get(q));
    SumFilter(keys, (k: Strategy) => Weight(w)(k) > 0.0, Get(q));
    SharesNonNegative(total, keys, w);
  }

  /** In a descending list, nothing after a prefix beats anything in it. */
  lemma {:induction false} TopIsHighest(s: seq<Strategy>, f: Strategy -> real, r: nat)
    requires Descending(s, f) && r <= |s|
    ensures forall k, l :: k in s[..r] && l in s && l !in s[..r] ==> f(k) >= f(l)
  {
    forall k, l | k in s[..r] && l in s && l !in s[..r] ensures f(k) >= f(l) {
      var i :| 0 <= i < r && s[i] == k;
      var j :| 0 <= j < |s| && s[j] == l;
      assert s[j] !in s[..r] ==> j >= r;
    }
  }

  lemma {:induction false} TopRounds(a: seq<Strategy>, f: Strategy -> real, total: int, s: seq<Strategy>,
      q: Strategy -> int)
    requires Distinct(a) && SumR(a, f) == total as real && s == SortDescending(a, Fraction(f))
    requires
      var r := total - SumI(a, Floored(f));
      0 <= r <= |s| && forall k :: k in a ==> q(k) == f(k).Floor + if k in s[..r] then 1 else 0
    ensures Rounds(a, f, q) && SumI(a, q) == total
  {
    var r := total - SumI(a, Floored(f));
    LeftoverFits(a, f, total);
    SortSorts(a, Fraction(f));
    DistinctElements(s[..r]);
    SumTop(a, Elements(s[..r]), Floored(f), q);
    TopIsHighest(s, Fraction(f), r);
    forall k | k in a && k in s[..r] ensures f(k) > f(k).Floor as real {
      var i :| 0 <= i < r && s[i] == k;
      assert Fraction(f)(s[i]) > 0.0;
    }
  }

  lemma {:induction false} SharesNonNegative(total: int, keys: seq<Strategy>, w: map<Strategy, real>)
    requires total > 0 && SumR(Active(keys, w), Weight(w)) > 0.0
    ensures forall k :: k in Active(keys, w) ==> Share(total, keys, w)(k) >= 0.0
  {
    var scale := SumR(Active(keys, w), Weight(w));
    forall k | k in Active(keys, w) ensures Share(total, keys, w)(k) >= 0.0 {
      NonNegativeShare(total as real, Weight(w)(k), scale);
    }
  }

  lemma {:induction false} NonNegativeShare(t: real, w: real, s: real)
    requires t > 0.0 && w > 0.0 && s > 0.0
    ensures t * w / s >= 0.0
  {
    assert t * w > 0.0;
  }

  lemma {:induction false} DistinctElements<T>(s: seq<T>)
    requires Distinct(s)
    ensures |Elements(s)| == |s|
  {
    if s != [] {
      var front, last := s[..|s| - 1], s[|s| - 1];
      DistinctElements(front);
      assert last !in front;
      assert Elements(s) == Elements(front) + {last};
    }
  }
}
