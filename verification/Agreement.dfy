/** Inter-annotator agreement: Fleiss' kappa over exact reals, and its bounds. */
module Agreement {
  import opened Common

  type Label = string

  // ---- Sums over a list of categories ----

  function Sum(cs: seq<Label>, f: Label -> int): int {
    if cs == [] then 0 else Sum(cs[..|cs| - 1], f) + f(cs[|cs| - 1])
  }

  lemma {:induction false} SumAdd(cs: seq<Label>, f: Label -> int, g: Label -> int, h: Label -> int)
    requires forall c :: c in cs ==> h(c) == f(c) + g(c)
    ensures Sum(cs, h) == Sum(cs, f) + Sum(cs, g)
  {
    if cs != [] {
      SumAdd(cs[..|cs| - 1], f, g, h);
    }
  }

  lemma {:induction false} SumLeq(cs: seq<Label>, f: Label -> int, g: Label -> int)
    requires forall c :: c in cs ==> f(c) <= g(c)
    ensures Sum(cs, f) <= Sum(cs, g)
  {
    if cs != [] {
      SumLeq(cs[..|cs| - 1], f, g);
    }
  }

  lemma {:induction false} SumScale(cs: seq<Label>, f: Label -> int, g: Label -> int, k: int)
    requires forall c :: c in cs ==> g(c) == k * f(c)
    ensures Sum(cs, g) == k * Sum(cs, f)
  {
    if cs != [] {
      SumScale(cs[..|cs| - 1], f, g, k);
    }
  }

  lemma {:induction false} SumZero(cs: seq<Label>, f: Label -> int)
    requires forall c :: c in cs ==> f(c) == 0
    ensures Sum(cs, f) == 0
  {
    if cs != [] {
      SumZero(cs[..|cs| - 1], f);
    }
  }

  /** Squares of nonnegative numbers: their sum is at most the square of their sum, and less as soon as two of them
      are positive. */
  lemma {:induction false} SquaresBelowSquare(cs: seq<Label>, f: Label -> int, g: Label -> int)
    requires forall c :: c in cs ==> 0 <= f(c) && g(c) == f(c) * f(c)
    ensures 0 <= Sum(cs, f) && Sum(cs, g) <= Sum(cs, f) * Sum(cs, f)
    ensures (exists i, j :: 0 <= i < j < |cs| && f(cs[i]) > 0 && f(cs[j]) > 0) ==> Sum(cs, g) < Sum(cs, f) * Sum(cs, f)
  {
    if cs != [] {
      var front, x := cs[..|cs| - 1], f(cs[|cs| - 1]);
      SquaresBelowSquare(front, f, g);
      var s := Sum(front, f);
      SquareOfSum(Sum(front, g), s, x);
      if i, j :| 0 <= i < j < |cs| && f(cs[i]) > 0 && f(cs[j]) > 0 {
        if j < |front| {
          assert f(front[i]) > 0 && f(front[j]) > 0;
        } else {
          PositiveMember(front, f, i);
        }
      }
    }
  }

  lemma {:induction false} SquareOfSum(q: int, s: int, x: int)
    requires s >= 0 && x >= 0
    ensures q <= s * s ==> q + x * x <= (s + x) * (s + x)
    ensures q < s * s || (q <= s * s && s > 0 && x > 0) ==> q + x * x < (s + x) * (s + x)
  {
    assert (s + x) * (s + x) == s * s + 2 * (s * x) + x * x;
    MulLeq(s, 0, x);
    if s > 0 && x > 0 {
      MulLeq(s, 1, x);
    }
  }

  lemma {:induction false} PositiveMember(cs: seq<Label>, f: Label -> int, i: nat)
    requires i < |cs| && forall c :: c in cs ==> 0 <= f(c)
    ensures f(cs[i]) <= Sum(cs, f)
  {
    var front := cs[..|cs| - 1];
    SumZero(front, (c: Label) => 0);
    SumLeq(front, (c: Label) => 0, f);
    if i < |front| {
      PositiveMember(front, f, i);
    }
  }

  // ---- Votes ----

  function Count(row: seq<Label>, c: Label): nat {
    if row == [] then 0 else Count(row[..|row| - 1], c) + if row[|row| - 1] == c then 1 else 0
  }

  /** Votes for c over all tasks, and the sum of the squares of c's votes per task. */
  function Total(rows: seq<seq<Label>>, c: Label): nat {
    if rows == [] then 0 else Total(rows[..|rows| - 1], c) + Count(rows[|rows| - 1], c)
  }

  function TotalSquares(rows: seq<seq<Label>>, c: Label): nat {
    if rows == [] then 0 else
      TotalSquares(rows[..|rows| - 1], c) + Count(rows[|rows| - 1], c) * Count(rows[|rows| - 1], c)
  }

  function Squares(row: seq<Label>): Label -> int {
    (c: Label) => Count(row, c) * Count(row, c)
  }

  function RowSquares(row: seq<Label>, cats: seq<Label>): int {
    Sum(cats, Squares(row))
  }

  function AllSquares(rows: seq<seq<Label>>, cats: seq<Label>): int {
    if rows == [] then 0 else AllSquares(rows[..|rows| - 1], cats) + RowSquares(rows[|rows| - 1], cats)
  }

  function TotalsSquared(rows: seq<seq<Label>>, cats: seq<Label>): int {
    Sum(cats, (c: Label) => Total(rows, c) * Total(rows, c))
  }

  /** The list names every label that occurs, once. */
  predicate Covers(cats: seq<Label>, rows: seq<seq<Label>>) {
    && Distinct(cats)
    && (forall i :: 0 <= i < |rows| ==> CoversRow(cats, rows[i]))
  }

  predicate CoversRow(cats: seq<Label>, row: seq<Label>) {
    forall j :: 0 <= j < |row| ==> row[j] in cats
  }

  predicate Unanimous(row: seq<Label>) {
    forall j :: 0 <= j < |row| ==> row[j] == row[0]
  }

  predicate AllOfLength(rows: seq<seq<Label>>, n: nat) {
    forall i :: 0 <= i < |rows| ==> |rows[i]| == n
  }

  // ---- Every vote is counted once ----

  lemma {:induction false} SumIndicator(cats: seq<Label>, x: Label)
    requires Distinct(cats)
    ensures Sum(cats, (c: Label) => if x == c then 1 else 0) == if x in cats then 1 else 0
  {
    if cats != [] {
      SumIndicator(cats[..|cats| - 1], x);
    }
  }

  lemma {:induction false} RowTotal(row: seq<Label>, cats: seq<Label>)
    requires Covers(cats, [row])
    ensures Sum(cats, (c: Label) => Count(row, c)) == |row|
  {
    assert CoversRow(cats, [row][0]);
    if row == [] {
      SumZero(cats, (c: Label) => Count(row, c));
    } else {
      var front, x := row[..|row| - 1], row[|row| - 1];
      RowTotal(front, cats);
      SumIndicator(cats, x);
      SumAdd(cats, (c: Label) => Count(front, c), (c: Label) => if x == c then 1 else 0, (c: Label) => Count(row, c));
    }
  }

  lemma {:induction false} GrandTotal(rows: seq<seq<Label>>, cats: seq<Label>, n: nat)
    requires Covers(cats, rows) && AllOfLength(rows, n)
    ensures Sum(cats, (c: Label) => Total(rows, c)) == |rows| * n
  {
    if rows == [] {
      SumZero(cats, (c: Label) => Total(rows, c));
    } else {
      var front, last := rows[..|rows| - 1], rows[|rows| - 1];
      GrandTotal(front, cats, n);
      RowTotal(last, cats);
      SumAdd(cats, (c: Label) => Total(front, c), (c: Label) => Count(last, c), (c: Label) => Total(rows, c));
    }
  }

  /** Summing squares by task or by category is the same. */
  lemma {:induction false} ExchangeSums(rows: seq<seq<Label>>, cats: seq<Label>)
    ensures AllSquares(rows, cats) == Sum(cats, (c: Label) => TotalSquares(rows, c))
  {
    if rows == [] {
      SumZero(cats, (c: Label) => TotalSquares(rows, c));
    } else {
      var front, last := rows[..|rows| - 1], rows[|rows| - 1];
      ExchangeSums(front, cats);
      SumAdd(cats, (c: Label) => TotalSquares(front, c), Squares(last), (c: Label) => TotalSquares(rows, c));
    }
  }

  // ---- Agreement within a task is at most n squared, and exactly that for unanimous tasks ----

  lemma {:induction false} CountPositive(row: seq<Label>, j: nat)
    requires j < |row|
    ensures Count(row, row[j]) > 0
  {
    if j < |row| - 1 {
      CountPositive(row[..|row| - 1], j);
    }
  }

  lemma {:induction false} CountAll(row: seq<Label>, x: Label)
    requires forall j :: 0 <= j < |row| ==> row[j] == x
    ensures Count(row, x) == |row| && forall c :: c != x ==> Count(row, c) == 0
  {
    if row != [] {
      CountAll(row[..|row| - 1], x);
    }
  }

  lemma {:induction false} UnanimousRow(row: seq<Label>, cats: seq<Label>)
    requires Covers(cats, [row]) && row != [] && Unanimous(row)
    ensures RowSquares(row, cats) == |row| * |row|
  {
    var x := row[0];
    CountAll(row, x);
    assert CoversRow(cats, [row][0]);
    SumIndicator(cats, x);
    SumScale(cats, (c: Label) => if x == c then 1 else 0, Squares(row), |row| * |row|);
  }

  lemma {:induction false} RowAgreement(row: seq<Label>, cats: seq<Label>)
    requires Covers(cats, [row]) && row != []
    ensures RowSquares(row, cats) <= |row| * |row|
    ensures RowSquares(row, cats) == |row| * |row| <==> Unanimous(row)
  {
    RowTotal(row, cats);
    SquaresBelowSquare(cats, (c: Label) => Count(row, c), Squares(row));
    if Unanimous(row) {
      UnanimousRow(row, cats);
    } else {
      var j :| 0 <= j < |row| && row[j] != row[0];
      CountPositive(row, 0);
      CountPositive(row, j);
      assert CoversRow(cats, [row][0]);
      var a :| 0 <= a < |cats| && cats[a] == row[0];
      var b :| 0 <= b < |cats| && cats[b] == row[j];
      var f := (c: Label) => Count(row, c);
      if a < b {
        assert f(cats[a]) > 0 && f(cats[b]) > 0;
      } else {
        assert f(cats[b]) > 0 && f(cats[a]) > 0;
      }
    }
  }

  lemma {:induction false} OneMore(k: int, m: int, a: int, x: int)
    requires a <= k * m && x <= m
    ensures a + x <= (k + 1) * m && (a + x == (k + 1) * m <==> a == k * m && x == m)
  {
    assert (k + 1) * m == k * m + m;
  }

  lemma {:induction false} TotalAgreement(rows: seq<seq<Label>>, cats: seq<Label>, n: nat)
    requires Covers(cats, rows) && AllOfLength(rows, n) && n > 0
    ensures AllSquares(rows, cats) <= |rows| * (n * n)
    ensures AllSquares(rows, cats) == |rows| * (n * n) <==> forall i :: 0 <= i < |rows| ==> Unanimous(rows[i])
  {
    if rows != [] {
      var front, last := rows[..|rows| - 1], rows[|rows| - 1];
      TotalAgreement(front, cats, n);
      RowAgreement(last, cats);
      OneMore(|front|, n * n, AllSquares(front, cats), RowSquares(last, cats));
      assert (forall i :: 0 <= i < |rows| ==> Unanimous(rows[i])) <==>
        Unanimous(last) && forall i :: 0 <= i < |front| ==> Unanimous(front[i]);
    }
  }

  // ---- Chance agreement ----

  lemma {:induction false} Distribute(x: int, y: int, z: int)
    ensures x * (y + z) == x * y + x * z
  {
  }

  lemma {:induction false} SquaredDifference(k: int, x: int)
    ensures k * k - 2 * (x * k) + x * x >= 0
  {
    var d := k - x;
    assert d * d == k * k - 2 * (x * k) + x * x by {
      assert d * d == d * k - d * x;
      assert d * k == k * k - x * k;
      assert d * x == k * x - x * x;
    }
    NonNegativeSquare(d);
  }

  lemma {:induction false} NonNegativeSquare(d: int)
    ensures d * d >= 0
  {
  }

  lemma {:induction false} DeviationStep(q: int, s: int, m: int, k: int, x: int)
    requires q - 2 * (x * s) + m * (x * x) >= 0
    ensures (q + k * k) - 2 * (x * (s + k)) + (m + 1) * (x * x) >= 0
  {
    Distribute(x, s, k);
    SquaredDifference(k, x);
    Distribute(x * x, m, 1);
  }

  lemma {:induction false} SquareStep(q: int, s: int, m: int, x: int)
    requires s * s <= m * q && q - 2 * (x * s) + m * (x * x) >= 0
    ensures (s + x) * (s + x) <= (m + 1) * (q + x * x)
  {
    assert (s + x) * (s + x) == s * s + 2 * (x * s) + x * x;
    assert (m + 1) * (q + x * x) == m * q + q + m * (x * x) + x * x;
  }

  /** Deviations of the votes for c from the number x, squared and summed over the tasks. */
  lemma {:induction false} DeviationsNonNegative(rows: seq<seq<Label>>, c: Label, x: int)
    ensures TotalSquares(rows, c) - 2 * (x * Total(rows, c)) + |rows| * (x * x) >= 0
  {
    if rows != [] {
      var front, k := rows[..|rows| - 1], Count(rows[|rows| - 1], c);
      DeviationsNonNegative(front, c, x);
      DeviationStep(TotalSquares(front, c), Total(front, c), |front|, k, x);
    }
  }

  /** Cauchy-Schwarz for one category: the square of its total is at most tasks times the sum of its squares. */
  lemma {:induction false} TotalSquaredBound(rows: seq<seq<Label>>, c: Label)
    ensures Total(rows, c) * Total(rows, c) <= |rows| * TotalSquares(rows, c)
  {
    if rows != [] {
      var front, x := rows[..|rows| - 1], Count(rows[|rows| - 1], c);
      TotalSquaredBound(front, c);
      DeviationsNonNegative(front, c, x);
      SquareStep(TotalSquares(front, c), Total(front, c), |front|, x);
    }
  }

  lemma {:induction false} ChanceBound(rows: seq<seq<Label>>, cats: seq<Label>)
    ensures TotalsSquared(rows, cats) <= |rows| * AllSquares(rows, cats)
  {
    var n := |rows|;
    ExchangeSums(rows, cats);
    forall c ensures Total(rows, c) * Total(rows, c) <= n * TotalSquares(rows, c) {
      TotalSquaredBound(rows, c);
    }
    SumLeq(cats, (c: Label) => Total(rows, c) * Total(rows, c), (c: Label) => n * TotalSquares(rows, c));
    SumScale(cats, (c: Label) => TotalSquares(rows, c), (c: Label) => n * TotalSquares(rows, c), n);
  }

  lemma {:induction false} TotalPositive(rows: seq<seq<Label>>, i: nat, j: nat)
    requires i < |rows| && j < |rows[i]|
    ensures Total(rows, rows[i][j]) > 0
  {
    if i < |rows| - 1 {
      TotalPositive(rows[..|rows| - 1], i, j);
    } else {
      CountPositive(rows[i], j);
    }
  }

  /** Every listed category occurs. */
  predicate Occurs(rows: seq<seq<Label>>, c: Label) {
    exists i :: 0 <= i < |rows| && c in rows[i]
  }

  lemma {:induction false} ChanceBelowOne(rows: seq<seq<Label>>, cats: seq<Label>, n: nat)
    requires Covers(cats, rows) && AllOfLength(rows, n) && |cats| >= 2
    requires forall j :: 0 <= j < |cats| ==> Occurs(rows, cats[j])
    ensures TotalsSquared(rows, cats) < (|rows| * n) * (|rows| * n)
  {
    GrandTotal(rows, cats, n);
    var f := (c: Label) => Total(rows, c);
    SquaresBelowSquare(cats, f, (c: Label) => Total(rows, c) * Total(rows, c));
    forall k | 0 <= k < 2 ensures f(cats[k]) > 0 {
      assert Occurs(rows, cats[k]);
      var i :| 0 <= i < |rows| && cats[k] in rows[i];
      var j :| 0 <= j < |rows[i]| && rows[i][j] == cats[k];
      TotalPositive(rows, i, j);
    }
    assert f(cats[0]) > 0 && f(cats[1]) > 0;
  }

  // ---- Kappa ----

  /** Mean observed agreement, from the sum a of squared votes over t = tasks * n votes. */
  function Observed(a: int, t: int, n: int): real
    requires t > 0 && n > 1
  {
    (a - t) as real / (t as real * (n - 1) as real)
  }

  function Chance(b: int, t: int): real
    requires t > 0
  {
    b as real / (t as real * t as real)
  }

  lemma {:induction false} DivLeq(x: real, y: real, d: real)
    requires d > 0.0 && x <= y
    ensures x / d <= y / d
  {
  }

  lemma {:induction false} DivSelf(d: real)
    requires d != 0.0
    ensures d / d == 1.0
  {
  }

  /** kappa = (P - E) / (1 - E) is at most 1, with equality exactly for full agreement, and at least -1/(n-1). */
  lemma {:induction false} KappaBounds(a: int, b: int, tasks: int, n: int)
    requires tasks > 0 && n > 1 && a <= tasks * (n * n) && b <= tasks * a && b < (tasks * n) * (tasks * n)
    ensures tasks * n > 0 && Chance(b, tasks * n) < 1.0
    ensures
      var t := tasks * n;
      var p, e := Observed(a, t, n), Chance(b, t);
      var k := (p - e) / (1.0 - e);
      -1.0 / (n - 1) as real <= k <= 1.0 && (k == 1.0 <==> a == tasks * (n * n))
  {
    var t := tasks * n;
    assert t > 0;
    var tr, nr := t as real, (n - 1) as real;
    var p, e := Observed(a, t, n), Chance(b, t);
    ChanceReal(b, t);
    ObservedReal(a, tasks, n);
    var d := 1.0 - e;
    DivSelf(d);
    DivLeq(p - e, d, d);
    assert (p - e) / d == 1.0 <==> p - e == d;
    LowerBound(a, b, tasks, n);
    assert nr * (p - e) + d >= 0.0;
    LowerDivision(p - e, d, nr);
  }

  lemma {:induction false} ChanceReal(b: int, t: int)
    requires t > 0 && b < t * t
    ensures Chance(b, t) < 1.0
  {
    SquareCast(t);
    BelowOne(b as real, t as real * t as real);
  }

  lemma {:induction false} SquareCast(t: int)
    requires t > 0
    ensures (t * t) as real == t as real * t as real > 0.0
  {
  }

  lemma {:induction false} BelowOne(x: real, q: real)
    requires q > 0.0 && x < q
    ensures x / q < 1.0
  {
  }

  lemma {:induction false} ObservedReal(a: int, tasks: int, n: int)
    requires tasks > 0 && n > 1 && tasks * n > 0 && a <= tasks * (n * n)
    ensures Observed(a, tasks * n, n) <= 1.0
    ensures Observed(a, tasks * n, n) == 1.0 <==> a == tasks * (n * n)
  {
    var t := tasks * n;
    FullVotes(tasks, n);
    var q := t * (n - 1);
    CastProduct(t, n - 1);
    CastQuotient(a - t, q);
    assert Observed(a, t, n) == (a - t) as real / q as real;
  }

  lemma {:induction false} FullVotes(tasks: int, n: int)
    requires tasks > 0 && n > 1
    ensures tasks * (n * n) == tasks * n + (tasks * n) * (n - 1) && (tasks * n) * (n - 1) > 0
  {
    assert tasks * (n * n) == (tasks * n) * n;
    assert (tasks * n) * n == (tasks * n) * (n - 1) + tasks * n;
  }

  lemma {:induction false} CastQuotient(x: int, q: int)
    requires q > 0 && x <= q
    ensures x as real / q as real <= 1.0 && (x as real / q as real == 1.0 <==> x == q)
  {
    Quotient(x as real, q as real);
  }

  lemma {:induction false} Quotient(x: real, q: real)
    requires q > 0.0 && x <= q
    ensures x / q <= 1.0 && (x / q == 1.0 <==> x == q)
  {
  }

  /** (n-1)(P - E) + (1 - E) = n (tasks * a - b) / t^2 >= 0 */
  lemma {:induction false} LowerBound(a: int, b: int, tasks: int, n: int)
    requires tasks > 0 && n > 1 && tasks * n > 0 && b <= tasks * a
    ensures
      var t := tasks * n;
      (n - 1) as real * (Observed(a, t, n) - Chance(b, t)) + (1.0 - Chance(b, t)) >= 0.0
  {
    var t := tasks * n;
    var p, e, m := Observed(a, t, n), Chance(b, t), (n - 1) as real;
    ObservedScaled(a, t, n);
    ScaledChance(a, b, tasks, n);
    assert n as real == m + 1.0;
    Combine(m, p, e, a as real / t as real);
  }

  lemma {:induction false} Combine(m: real, p: real, e: real, y: real)
    requires m * p + 1.0 == y && (m + 1.0) * e <= y
    ensures m * (p - e) + (1.0 - e) >= 0.0
  {
    assert m * (p - e) == m * p - m * e;
    assert (m + 1.0) * e == m * e + e;
  }

  lemma {:induction false} ObservedScaled(a: int, t: int, n: int)
    requires t > 0 && n > 1
    ensures (n - 1) as real * Observed(a, t, n) + 1.0 == a as real / t as real
  {
    var ar, tr := a as real, t as real;
    assert (a - t) as real == ar - tr;
    var m := (n - 1) as real;
    CancelFactor(ar - tr, tr, m);
    assert Observed(a, t, n) == (ar - tr) / (tr * m);
    assert m * Observed(a, t, n) == (ar - tr) / tr;
    var y := ar / tr;
    assert y * tr == ar;
    assert (y - 1.0) * tr == y * tr - tr;
    DivUnique(ar - tr, tr, y - 1.0);
  }

  lemma {:induction false} DivUnique(x: real, t: real, z: real)
    requires t > 0.0 && z * t == x
    ensures x / t == z
  {
  }

  lemma {:induction false} CancelFactor(x: real, t: real, m: real)
    requires t > 0.0 && m > 0.0
    ensures m * (x / (t * m)) == x / t
  {
    var y := x / (t * m);
    assert y * (t * m) == x;
    assert (m * y) * t == x;
  }

  lemma {:induction false} ScaledChance(a: int, b: int, tasks: int, n: int)
    requires tasks > 0 && n > 1 && tasks * n > 0 && b <= tasks * a
    ensures n as real * Chance(b, tasks * n) <= a as real / (tasks * n) as real
  {
    ScaledVotes(a, b, tasks, n);
    CastProduct(n, b);
    CastProduct(a, tasks * n);
    var t := (tasks * n) as real;
    MulPositive(t, t);
    ScaledShare(n as real, b as real, t, t * t, a as real);
  }

  lemma {:induction false} ScaledVotes(a: int, b: int, tasks: int, n: int)
    requires n > 1 && b <= tasks * a
    ensures n * b <= a * (tasks * n)
  {
    MulLeq(n, b, tasks * a);
    assert n * (tasks * a) == a * (tasks * n);
  }

  lemma {:induction false} ScaledShare(n: real, b: real, t: real, q: real, a: real)
    requires t > 0.0 && q > 0.0 && q == t * t && n * b <= a * t
    ensures n * (b / q) <= a / t
  {
    var e, y := b / q, a / t;
    DivMul(b, q);
    DivMul(a, t);
    MulAssoc(n, e, q);
    MulAssoc(y, t, t);
    CancelPositive(n * e, y, q);
  }

  // ---- One multiplication at a time ----

  lemma {:induction false} CastProduct(x: int, y: int)
    ensures (x * y) as real == x as real * y as real
  {
  }

  lemma {:induction false} MulLeq(k: int, x: int, y: int)
    requires k >= 0 && x <= y
    ensures k * x <= k * y
  {
  }

  lemma {:induction false} MulPositive(x: real, y: real)
    requires x > 0.0 && y > 0.0
    ensures x * y > 0.0
  {
  }

  lemma {:induction false} MulAssoc(x: real, y: real, z: real)
    ensures (x * y) * z == x * (y * z)
  {
  }

  lemma {:induction false} DivMul(x: real, d: real)
    requires d > 0.0
    ensures (x / d) * d == x
  {
  }

  lemma {:induction false} CancelPositive(x: real, y: real, q: real)
    requires q > 0.0 && x * q <= y * q
    ensures x <= y
  {
  }

  lemma {:induction false} LowerDivision(x: real, d: real, m: real)
    requires d > 0.0 && m > 0.0 && m * x + d >= 0.0
    ensures -1.0 / m <= x / d
  {
    var k, y := x / d, 1.0 / m;
    assert k * d == x && y * m == 1.0;
    if k < -y {
      assert (k + y) * (d * m) < 0.0;
      assert (k + y) * (d * m) == (k * d) * m + (y * m) * d;
    }
  }
}
