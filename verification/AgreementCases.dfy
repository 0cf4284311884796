/** Where Fleiss' kappa meets its lower end and where it vanishes, and the equation that determines it. */
module AgreementCases {
  import opened Common
  import opened Agreement

  /** Every label has the same number of votes in every task. */
  ghost predicate EvenlySplit(rows: seq<seq<Label>>) {
    forall c :: Even(rows, c)
  }

  predicate Even(rows: seq<seq<Label>>, c: Label) {
    forall i, j :: 0 <= i < |rows| && 0 <= j < |rows| ==> Count(rows[i], c) == Count(rows[j], c)
  }

  // ---- The equality case of Cauchy-Schwarz ----

  /** The squared deviations of the votes for c from x, summed over the tasks. */
  function Deviation(rows: seq<seq<Label>>, c: Label, x: int): int {
    TotalSquares(rows, c) - 2 * (x * Total(rows, c)) + |rows| * (x * x)
  }

  lemma {:induction false} DeviationSnoc(q: int, s: int, m: int, k: int, x: int)
    ensures (q + k * k) - 2 * (x * (s + k)) + (m + 1) * (x * x)
         == (q - 2 * (x * s) + m * (x * x)) + (k - x) * (k - x)
  {
    Distribute(x, s, k);
    assert (m + 1) * (x * x) == m * (x * x) + x * x;
    assert (k - x) * (k - x) == k * k - 2 * (x * k) + x * x;
  }

  lemma {:induction false} SquareIsZero(d: int)
    ensures d * d == 0 <==> d == 0
    ensures d * d >= 0
  {
  }

  /** No deviation: every task has exactly x votes for c. */
  lemma {:induction false} NoDeviation(rows: seq<seq<Label>>, c: Label, x: int)
    requires Deviation(rows, c, x) == 0
    ensures forall i :: 0 <= i < |rows| ==> Count(rows[i], c) == x
  {
    if rows != [] {
      var front, k := rows[..|rows| - 1], Count(rows[|rows| - 1], c);
      DeviationSnoc(TotalSquares(front, c), Total(front, c), |front|, k, x);
      DeviationsNonNegative(front, c, x);
      SquareIsZero(k - x);
      NoDeviation(front, c, x);
      assert forall i :: 0 <= i < |front| ==> front[i] == rows[i];
    }
  }

  lemma {:induction false} EvenTotals(rows: seq<seq<Label>>, c: Label, x: int)
    requires forall i :: 0 <= i < |rows| ==> Count(rows[i], c) == x
    ensures Total(rows, c) == |rows| * x && TotalSquares(rows, c) == |rows| * (x * x)
  {
    if rows != [] {
      EvenTotals(rows[..|rows| - 1], c, x);
      assert (|rows| - 1) * x + x == |rows| * x;
      assert (|rows| - 1) * (x * x) + x * x == |rows| * (x * x);
    }
  }

  lemma {:induction false} StepTight(q: int, s: int, m: int, x: int)
    requires s * s <= m * q && q - 2 * (x * s) + m * (x * x) >= 0 && (s + x) * (s + x) == (m + 1) * (q + x * x)
    ensures q - 2 * (x * s) + m * (x * x) == 0
  {
    assert (s + x) * (s + x) == s * s + 2 * (x * s) + x * x;
    assert (m + 1) * (q + x * x) == m * q + q + m * (x * x) + x * x;
  }

  lemma {:induction false} ProductSquare(n: int, x: int)
    ensures (n * x) * (n * x) == n * (n * (x * x))
  {
  }

  /** The bound of TotalSquaredBound is met exactly when every task has the same number of votes for c. */
  lemma {:induction false} TotalSquaredTight(rows: seq<seq<Label>>, c: Label)
    ensures Total(rows, c) * Total(rows, c) == |rows| * TotalSquares(rows, c) <==> Even(rows, c)
  {
    if rows != [] {
      var front, x := rows[..|rows| - 1], Count(rows[|rows| - 1], c);
      if Even(rows, c) {
        EvenTotals(rows, c, x);
        ProductSquare(|rows|, x);
      }
      if Total(rows, c) * Total(rows, c) == |rows| * TotalSquares(rows, c) {
        TotalSquaredBound(front, c);
        DeviationsNonNegative(front, c, x);
        StepTight(TotalSquares(front, c), Total(front, c), |front|, x);
        NoDeviation(front, c, x);
        assert forall i :: 0 <= i < |rows| ==> rows[i] == if i < |front| then front[i] else rows[|rows| - 1];
      }
    }
  }

  lemma {:induction false} SumTight(cs: seq<Label>, f: Label -> int, g: Label -> int)
    requires forall c :: c in cs ==> f(c) <= g(c)
    ensures Sum(cs, f) == Sum(cs, g) <==> forall c :: c in cs ==> f(c) == g(c)
  {
    if cs != [] {
      var front := cs[..|cs| - 1];
      SumTight(front, f, g);
      SumLeq(front, f, g);
      assert forall c :: c in cs <==> c in front || c == cs[|cs| - 1];
    }
  }

  lemma {:induction false} UnlistedIsEven(rows: seq<seq<Label>>, cats: seq<Label>, c: Label)
    requires Covers(cats, rows) && c !in cats
    ensures Even(rows, c)
  {
    forall i | 0 <= i < |rows| ensures Count(rows[i], c) == 0 {
      assert CoversRow(cats, rows[i]);
      NoVotes(rows[i], c);
    }
  }

  lemma {:induction false} NoVotes(row: seq<Label>, c: Label)
    requires c !in row
    ensures Count(row, c) == 0
  {
    if row != [] {
      NoVotes(row[..|row| - 1], c);
    }
  }

  /** ChanceBound is met exactly when every label is split evenly. */
  lemma {:induction false} ChanceTight(rows: seq<seq<Label>>, cats: seq<Label>)
    requires Covers(cats, rows)
    ensures TotalsSquared(rows, cats) == |rows| * AllSquares(rows, cats) <==> EvenlySplit(rows)
  {
    var n := |rows|;
    var f, g := (c: Label) => Total(rows, c) * Total(rows, c), (c: Label) => n * TotalSquares(rows, c);
    ExchangeSums(rows, cats);
    SumScale(cats, (c: Label) => TotalSquares(rows, c), g, n);
    forall c ensures f(c) <= g(c) && (f(c) == g(c) <==> Even(rows, c)) {
      TotalSquaredBound(rows, c);
      TotalSquaredTight(rows, c);
    }
    SumTight(cats, f, g);
    forall c | c !in cats ensures Even(rows, c) {
      UnlistedIsEven(rows, cats, c);
    }
    assert EvenlySplit(rows) <==> forall c :: c in cats ==> Even(rows, c);
  }

  // ---- The equation of kappa, without denominators ----

  lemma {:induction false} ClearChance(b: real, q: real, e: real)
    requires q > 0.0 && e == b / q
    ensures (1.0 - e) * q == q - b
  {
    DivMul(b, q);
    assert (1.0 - e) * q == q - e * q;
  }

  lemma {:induction false} ClearObserved(x: real, t: real, m: real, p: real)
    requires t > 0.0 && m > 0.0 && t * m > 0.0 && p == x / (t * m)
    ensures p * (t * t) * m == x * t
  {
    DivMul(x, t * m);
    assert p * (t * t) * m == (p * (t * m)) * t;
  }

  lemma {:induction false} ClearProduct(k: real, d: real, q: real, m: real, p: real, e: real, b: real, x: real)
    requires k * d == p - e && d * q == q - b && e * q == b && p * q * m == x
    ensures k * (m * (q - b)) == x - m * b
  {
    MulAssoc(k, d, q);
    assert (k * d) * q == p * q - e * q;
    assert (p * q - b) * m == p * q * m - b * m;
    assert k * (m * (q - b)) == k * (q - b) * m;
  }

  /** k (n-1) (t^2 - b) = t (a - t) - (n-1) b, which has exactly one solution when b < t^2. */
  lemma {:induction false} KappaEquation(a: int, b: int, t: int, n: int)
    requires t > 0 && n > 1 && b < t * t && Chance(b, t) < 1.0
    ensures
      var k := (Observed(a, t, n) - Chance(b, t)) / (1.0 - Chance(b, t));
      k * ((n - 1) * (t * t - b)) as real == (t * (a - t) - (n - 1) * b) as real
  {
    var p, e, tr, m := Observed(a, t, n), Chance(b, t), t as real, (n - 1) as real;
    var q, br := tr * tr, b as real;
    var k := (p - e) / (1.0 - e);
    MulPositive(tr, tr);
    MulPositive(tr, m);
    DivMul(p - e, 1.0 - e);
    DivMul(br, q);
    ClearChance(br, q, e);
    ClearObserved((a - t) as real, tr, m, p);
    ClearProduct(k, 1.0 - e, q, m, p, e, br, (a - t) as real * tr);
    CastProduct(t, t);
    CastProduct(n - 1, t * t - b);
    CastProduct(t, a - t);
    CastProduct(n - 1, b);
  }

  lemma {:induction false} ZeroProduct(k: real, d: real)
    requires d > 0.0
    ensures k * d == 0.0 <==> k == 0.0
  {
  }

  lemma {:induction false} SubMul(x: real, y: real, z: real)
    ensures (x - y) * z == x * z - y * z
  {
  }

  lemma {:induction false} OneSolution(k: real, y: real, z: real, x: real)
    requires z > 0.0 && y * z == x
    ensures k * z == x <==> k == y
  {
    SubMul(k, y, z);
    ZeroProduct(k - y, z);
  }

  lemma {:induction false} MinusReciprocal(m: real, d: real)
    requires m > 0.0
    ensures (-1.0 / m) * (m * d) == -d
  {
    DivMul(-1.0, m);
    MulAssoc(-1.0 / m, m, d);
  }

  lemma {:induction false} LowerEndVotes(a: int, b: int, tasks: int, n: int)
    requires tasks > 0 && n > 1
    ensures var t := tasks * n; t * (a - t) - (n - 1) * b == -(t * t - b) <==> b == tasks * a
  {
    var t := tasks * n;
    assert t * (a - t) == t * a - t * t;
    assert (n - 1) * b == n * b - b;
    assert t * a == n * (tasks * a);
    CancelInt(n, b, tasks * a);
  }

  lemma {:induction false} CancelInt(n: int, x: int, y: int)
    requires n > 0
    ensures n * x == n * y <==> x == y
  {
    assert n * x - n * y == n * (x - y);
  }

  /** Kappa is at its lower end exactly when b = tasks * a, and zero exactly when t (a - t) = (n-1) b. */
  lemma {:induction false} KappaCases(a: int, b: int, tasks: int, n: int)
    requires tasks > 0 && n > 1 && tasks * n > 0 && b < (tasks * n) * (tasks * n) && Chance(b, tasks * n) < 1.0
    ensures
      var t := tasks * n;
      var k := (Observed(a, t, n) - Chance(b, t)) / (1.0 - Chance(b, t));
      && (k == -1.0 / (n - 1) as real <==> b == tasks * a)
      && (k == 0.0 <==> t * (a - t) == (n - 1) * b)
  {
    var t := tasks * n;
    var k := (Observed(a, t, n) - Chance(b, t)) / (1.0 - Chance(b, t));
    KappaEquation(a, b, t, n);
    LowerEndVotes(a, b, tasks, n);
    SolutionCases(k, n - 1, t * t - b, t * (a - t) - (n - 1) * b);
  }

  lemma {:induction false} SolutionCases(k: real, m: int, d: int, x: int)
    requires m > 0 && d > 0 && k * (m * d) as real == x as real
    ensures k == -1.0 / m as real <==> x == -d
    ensures k == 0.0 <==> x == 0
  {
    CastProduct(m, d);
    MulPositive(m as real, d as real);
    ZeroProduct(k, m as real * d as real);
    MinusReciprocal(m as real, d as real);
    OneSolution(k, -1.0 / m as real, m as real * d as real, -(d as real));
    CastEqual(x, 0);
    CastEqual(x, -d);
  }

  /** Fleiss' formula with its denominators cleared: k (n-1) (t^2 - b) = t (a - t) - (n-1) b. */
  predicate SolvesEquation(a: int, b: int, t: int, n: int, k: real) {
    k * ((n - 1) * (t * t - b)) as real == (t * (a - t) - (n - 1) * b) as real
  }

  /** Kappa is the only solution of its equation. */
  lemma {:induction false} KappaSolution(a: int, b: int, t: int, n: int, k: real)
    requires t > 0 && n > 1 && b < t * t && Chance(b, t) < 1.0
    ensures SolvesEquation(a, b, t, n, k) <==>
      k == (Observed(a, t, n) - Chance(b, t)) / (1.0 - Chance(b, t))
  {
    var m, d := n - 1, t * t - b;
    KappaEquation(a, b, t, n);
    CastProduct(m, d);
    MulPositive(m as real, d as real);
    OneSolution(k, (Observed(a, t, n) - Chance(b, t)) / (1.0 - Chance(b, t)), (m * d) as real,
                (t * (a - t) - (n - 1) * b) as real);
  }

  lemma {:induction false} CastEqual(x: int, y: int)
    ensures x as real == y as real <==> x == y
  {
  }
}
