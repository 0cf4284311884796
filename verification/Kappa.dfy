/** Fleiss' kappa as it is computed, and the verdicts built on the same signatures. */
module Kappa {
  import opened Common
  import opened Agreement
  import opened AgreementCases

  /** The first n votes of every task. */
  function Trim(labels: seq<seq<Label>>, n: nat): (rows: seq<seq<Label>>)
    requires forall i :: 0 <= i < |labels| ==> |labels[i]| >= n
    ensures |rows| == |labels| && AllOfLength(rows, n)
    ensures forall i :: 0 <= i < |labels| ==> rows[i] == labels[i][..n]
  {
    seq(|labels|, i requires 0 <= i < |labels| => labels[i][..n])
  }

  ghost predicate IsCategoryList(cats: seq<Label>, rows: seq<seq<Label>>) {
    Covers(cats, rows) && forall j :: 0 <= j < |cats| ==> Occurs(rows, cats[j])
  }

  /** kappa = (P - E) / (1 - E): P the mean pairwise agreement per task, E the agreement expected by chance. */
  ghost function KappaOf(rows: seq<seq<Label>>, cats: seq<Label>, n: int): real
    requires |rows| > 0 && n > 1 && |rows| * n > 0 && Chance(TotalsSquared(rows, cats), |rows| * n) < 1.0
  {
    var e := Chance(TotalsSquared(rows, cats), |rows| * n);
    (Observed(AllSquares(rows, cats), |rows| * n, n) - e) / (1.0 - e)
  }

  /** Observed and chance agreement are equal, said of the squared vote counts. */
  predicate AgreesByChance(rows: seq<seq<Label>>, cats: seq<Label>, n: int) {
    var t := |rows| * n;
    t * (AllSquares(rows, cats) - t) == (n - 1) * TotalsSquared(rows, cats)
  }

  lemma {:induction false} KappaOfBounds(rows: seq<seq<Label>>, cats: seq<Label>, n: int)
    requires |rows| > 0 && n > 1 && AllOfLength(rows, n) && IsCategoryList(cats, rows) && |cats| >= 2
    ensures |rows| * n > 0 && Chance(TotalsSquared(rows, cats), |rows| * n) < 1.0
    ensures -1.0 / (n - 1) as real <= KappaOf(rows, cats, n) <= 1.0
    ensures KappaOf(rows, cats, n) == 1.0 <==> forall i :: 0 <= i < |rows| ==> Unanimous(rows[i])
  {
    TotalAgreement(rows, cats, n);
    ChanceBound(rows, cats);
    ChanceBelowOne(rows, cats, n);
    KappaBounds(AllSquares(rows, cats), TotalsSquared(rows, cats), |rows|, n);
  }

  /** Kappa is at its lower end exactly when every label is split evenly over the tasks, and zero exactly when
      observed and chance agreement are equal. */
  lemma {:induction false} KappaOfCases(rows: seq<seq<Label>>, cats: seq<Label>, n: int)
    requires |rows| > 0 && n > 1 && AllOfLength(rows, n) && IsCategoryList(cats, rows) && |cats| >= 2
    requires |rows| * n > 0 && Chance(TotalsSquared(rows, cats), |rows| * n) < 1.0
    ensures KappaOf(rows, cats, n) == -1.0 / (n - 1) as real <==> EvenlySplit(rows)
    ensures KappaOf(rows, cats, n) == 0.0 <==> AgreesByChance(rows, cats, n)
  {
    ChanceTight(rows, cats);
    ChanceBelowOne(rows, cats, n);
    KappaCases(AllSquares(rows, cats), TotalsSquared(rows, cats), |rows|, n);
  }

  /** Kappa is the only solution of the cleared equation. */
  lemma {:induction false} KappaOfSolves(rows: seq<seq<Label>>, cats: seq<Label>, n: int, k: real)
    requires |rows| > 0 && n > 1 && AllOfLength(rows, n) && IsCategoryList(cats, rows) && |cats| >= 2
    requires |rows| * n > 0 && Chance(TotalsSquared(rows, cats), |rows| * n) < 1.0
    ensures SolvesEquation(AllSquares(rows, cats), TotalsSquared(rows, cats), |rows| * n, n, k) <==>
      k == KappaOf(rows, cats, n)
  {
    ChanceBelowOne(rows, cats, n);
    KappaSolution(AllSquares(rows, cats), TotalsSquared(rows, cats), |rows| * n, n, k);
  }

  // ---- The computation ----

  method Categories(rows: seq<seq<Label>>) returns (cats: seq<Label>)
    ensures IsCategoryList(cats, rows)
  {
    cats := [];
    for i := 0 to |rows|
      invariant Covers(cats, rows[..i]) && forall j :: 0 <= j < |cats| ==> Occurs(rows, cats[j])
    {
      for j := 0 to |rows[i]|
        invariant Covers(cats, rows[..i]) && forall j :: 0 <= j < |cats| ==> Occurs(rows, cats[j])
        invariant CoversRow(cats, rows[i][..j])
      {
        var x := rows[i][j];
        if x !in cats {
          assert Occurs(rows, x) by { assert x in rows[i]; }
          AddCategory(cats, x, rows[..i]);
          cats := cats + [x];
        }
      }
      assert rows[i][..|rows[i]|] == rows[i];
      assert forall k :: 0 <= k < i + 1 ==> rows[..i + 1][k] == if k < i then rows[..i][k] else rows[i];
    }
    assert rows[..|rows|] == rows;
  }

  lemma {:induction false} AddCategory(cats: seq<Label>, x: Label, rows: seq<seq<Label>>)
    requires Covers(cats, rows) && x !in cats
    ensures Covers(cats + [x], rows)
  {
    forall i | 0 <= i < |rows| ensures CoversRow(cats + [x], rows[i]) {
      assert CoversRow(cats, rows[i]);
    }
  }

  /** Counts the votes of one task, adds them to the running totals, and returns the sum of their squares. */
  method CountVotes(row: seq<Label>, cats: seq<Label>, index: map<Label, nat>, totals: array<int>)
      returns (squares: int)
    requires totals.Length == |cats| && CoversRow(cats, row)
    requires Distinct(cats)
    requires forall c :: c in cats ==> c in index && index[c] < |cats| && cats[index[c]] == c
    modifies totals
    ensures forall j :: 0 <= j < |cats| ==> totals[j] == old(totals[j]) + Count(row, cats[j])
    ensures squares == RowSquares(row, cats)
  {
    var counts := new int[|cats|](_ => 0);
    for i := 0 to |row|
      invariant forall j :: 0 <= j < |cats| ==>
        counts[j] == Count(row[..i], cats[j]) && totals[j] == old(totals[j]) + Count(row[..i], cats[j])
    {
      assert row[..i + 1][..i] == row[..i];
      var k := index[row[i]];
      counts[k] := counts[k] + 1;
      totals[k] := totals[k] + 1;
    }
    assert row[..|row|] == row;
    squares := 0;
    for j := 0 to |cats|
      invariant squares == Sum(cats[..j], Squares(row))
    {
      assert cats[..j + 1][..j] == cats[..j];
      assert counts[j] == Count(row, cats[j]);
      squares := squares + counts[j] * counts[j];
    }
    assert cats[..|cats|] == cats;
  }

  lemma {:induction false} AddFraction(x: int, y: int, d: real)
    requires d > 0.0
    ensures x as real / d + y as real / d == (x + y) as real / d
  {
    var u, v := x as real / d, y as real / d;
    assert (u + v) * d == x as real + y as real;
    DivUnique((x + y) as real, d, u + v);
  }

  /** Squared votes in excess of the votes cast, summed over the tasks. */
  function Surplus(rows: seq<seq<Label>>, cats: seq<Label>, n: int): int {
    if rows == [] then 0 else Surplus(rows[..|rows| - 1], cats, n) + (RowSquares(rows[|rows| - 1], cats) - n)
  }

  lemma {:induction false} SurplusMeaning(rows: seq<seq<Label>>, cats: seq<Label>, n: int)
    ensures Surplus(rows, cats, n) == AllSquares(rows, cats) - |rows| * n
  {
    if rows != [] {
      SurplusMeaning(rows[..|rows| - 1], cats, n);
      assert |rows| * n == (|rows| - 1) * n + n;
    }
  }

  /** P, accumulated task by task and divided by the number of tasks, and the vote totals. */
  method ObservedAgreement(rows: seq<seq<Label>>, n: int, cats: seq<Label>, index: map<Label, nat>, totals: array<int>)
      returns (p: real)
    requires |rows| > 0 && n > 1 && |rows| * n > 0 && AllOfLength(rows, n) && Covers(cats, rows)
    requires totals.Length == |cats| && forall j :: 0 <= j < |cats| ==> totals[j] == 0
    requires forall c :: c in cats ==> c in index && index[c] < |cats| && cats[index[c]] == c
    modifies totals
    ensures p == Observed(AllSquares(rows, cats), |rows| * n, n)
    ensures forall j :: 0 <= j < |cats| ==> totals[j] == Total(rows, cats[j])
  {
    var d := VotePairs(n);
    p := SumAgreement(rows, n, d, cats, index, totals);
    SurplusMeaning(rows, cats, n);
    MeanAgreement(AllSquares(rows, cats), |rows|, n);
    p := p / |rows| as real;
  }

  method SumAgreement(rows: seq<seq<Label>>, n: int, d: real, cats: seq<Label>, index: map<Label, nat>,
      totals: array<int>) returns (p: real)
    requires d > 0.0 && Covers(cats, rows)
    requires totals.Length == |cats| && forall j :: 0 <= j < |cats| ==> totals[j] == 0
    requires forall c :: c in cats ==> c in index && index[c] < |cats| && cats[index[c]] == c
    modifies totals
    ensures p == Surplus(rows, cats, n) as real / d
    ensures forall j :: 0 <= j < |cats| ==> totals[j] == Total(rows, cats[j])
  {
    p := 0.0;
    for i := 0 to |rows|
      invariant forall j :: 0 <= j < |cats| ==> totals[j] == Total(rows[..i], cats[j])
      invariant p == Surplus(rows[..i], cats, n) as real / d
    {
      assert rows[..i + 1][..i] == rows[..i];
      var squares := CountVotes(rows[i], cats, index, totals);
      AddFraction(Surplus(rows[..i], cats, n), squares - n, d);
      p := p + (squares - n) as real / d;
    }
    assert rows[..|rows|] == rows;
  }

  function VotePairs(n: int): (d: real)
    requires n > 1
    ensures d > 0.0
  {
    assert n * (n - 1) > 0;
    (n * (n - 1)) as real
  }

  lemma {:induction false} MeanAgreement(a: int, tasks: int, n: int)
    requires tasks > 0 && n > 1 && tasks * n > 0
    ensures (a - tasks * n) as real / VotePairs(n) / tasks as real == Observed(a, tasks * n, n)
  {
    CastProduct(n, n - 1);
    CastProduct(tasks, n);
    DivideTwice((a - tasks * n) as real, tasks as real, n as real, (n - 1) as real);
  }

  lemma {:induction false} DivideTwice(x: real, t: real, n: real, m: real)
    requires t > 0.0 && n > 0.0 && m > 0.0 && n * m > 0.0
    ensures t * n * m > 0.0 && x / (n * m) / t == x / (t * n * m)
  {
    MulPositive(t, n);
    MulPositive(t * n, m);
    MulAssoc(t, n, m);
    var y := x / (n * m) / t;
    DivMul(x / (n * m), t);
    DivMul(x, n * m);
    MulAssoc(y, t, n * m);
    DivUnique(x, t * n * m, y);
  }

  /** E: the sum of the squared shares of the categories. */
  method ChanceAgreement(rows: seq<seq<Label>>, cats: seq<Label>, totals: array<int>, total: int) returns (e: real)
    requires total > 0 && totals.Length == |cats| && forall j :: 0 <= j < |cats| ==> totals[j] == Total(rows, cats[j])
    ensures e == Chance(TotalsSquared(rows, cats), total)
  {
    e := 0.0;
    ghost var f := (c: Label) => Total(rows, c) * Total(rows, c);
    var q := total as real * total as real;
    for j := 0 to |cats|
      invariant e == Sum(cats[..j], f) as real / q
    {
      assert cats[..j + 1][..j] == cats[..j];
      var share := totals[j] as real / total as real;
      SquaredShare(totals[j], total);
      AddFraction(Sum(cats[..j], f), totals[j] * totals[j], q);
      e := e + share * share;
    }
    assert cats[..|cats|] == cats;
  }

  lemma {:induction false} SquaredShare(c: int, total: int)
    requires total > 0
    ensures (c as real / total as real) * (c as real / total as real) ==
      (c * c) as real / (total as real * total as real)
  {
    var s, tr := c as real / total as real, total as real;
    assert s * tr == c as real;
    assert (s * s) * (tr * tr) == (s * tr) * (s * tr);
    assert (c * c) as real == c as real * c as real;
    DivUnique((c * c) as real, tr * tr, s * s);
  }

  /** k is Fleiss' formula on the first n votes per task, or 1 if they name fewer than two categories. */
  ghost predicate IsKappa(labels: seq<seq<Label>>, n: int, cats: seq<Label>, k: real) {
    && n > 1 && |labels| > 0 && |labels| * n > 0 && (forall i :: 0 <= i < |labels| ==> |labels[i]| >= n)
    && var rows := Trim(labels, n);
       IsCategoryList(cats, rows) &&
       if |cats| < 2 then k == 1.0
       else Chance(TotalsSquared(rows, cats), |rows| * n) < 1.0 && k == KappaOf(rows, cats, n)
  }

  /** Kappa of the first n votes per task. Nothing is computed when there are too few votes; otherwise the result is
      Fleiss' formula (1 for a single category), lies in [-1/(n-1), 1], is 1 exactly when every task is unanimous, is at
      its lower end exactly when every label is split evenly over the tasks, and solves the cleared equation. */
  method FleissKappa(labels: seq<seq<Label>>, n: int) returns (k: Option<real>, ghost cats: seq<Label>)
    ensures k.None? <==> n < 2 || labels == [] || exists i :: 0 <= i < |labels| && |labels[i]| < n
    ensures k.Some? ==> -1.0 / (n - 1) as real <= k.value <= 1.0
    ensures k.Some? ==> (k.value == 1.0 <==> forall i :: 0 <= i < |labels| ==> Unanimous(labels[i][..n]))
    ensures k.Some? ==> IsKappa(labels, n, cats, k.value)
    ensures k.Some? && |cats| >= 2 ==>
      (k.value == -1.0 / (n - 1) as real <==> EvenlySplit(Trim(labels, n))) &&
      (k.value == 0.0 <==> AgreesByChance(Trim(labels, n), cats, n)) &&
      SolvesEquation(AllSquares(Trim(labels, n), cats), TotalsSquared(Trim(labels, n), cats), |labels| * n, n, k.value)
  {
    cats := [];
    if n < 2 || labels == [] {
      return None, cats;
    }
    for i := 0 to |labels|
      invariant forall j :: 0 <= j < i ==> |labels[j]| >= n
    {
      if |labels[i]| < n {
        return None, cats;
      }
    }
    assert |labels| * n > 0;
    var value;
    value, cats := KappaOfRows(Trim(labels, n), n);
    k := Some(value);
  }

  /** Fleiss' formula on complete rows. */
  method KappaOfRows(rows: seq<seq<Label>>, n: int) returns (k: real, ghost cats: seq<Label>)
    requires n > 1 && |rows| > 0 && |rows| * n > 0 && AllOfLength(rows, n)
    ensures -1.0 / (n - 1) as real <= k <= 1.0
    ensures k == 1.0 <==> forall i :: 0 <= i < |rows| ==> Unanimous(rows[i])
    ensures IsCategoryList(cats, rows)
    ensures |cats| < 2 ==> k == 1.0
    ensures |cats| >= 2 ==> Chance(TotalsSquared(rows, cats), |rows| * n) < 1.0 && k == KappaOf(rows, cats, n)
    ensures |cats| >= 2 ==> (k == -1.0 / (n - 1) as real <==> EvenlySplit(rows))
    ensures |cats| >= 2 ==> (k == 0.0 <==> AgreesByChance(rows, cats, n))
    ensures |cats| >= 2 ==> SolvesEquation(AllSquares(rows, cats), TotalsSquared(rows, cats), |rows| * n, n, k)
  {
    var categories := Categories(rows);
    cats := categories;
    if |categories| < 2 {
      OneCategory(rows, categories);
      NegativeReciprocal(n);
      return 1.0, cats;
    }
    KappaOfBounds(rows, cats, n);
    KappaOfCases(rows, cats, n);
    KappaOfSolves(rows, cats, n, KappaOf(rows, cats, n));
    var index := IndexOf(categories);
    var totals := new int[|categories|](_ => 0);
    var p := ObservedAgreement(rows, n, categories, index, totals);
    var e := ChanceAgreement(rows, categories, totals, |rows| * n);
    if e >= 1.0 {
      assert false;
    }
    k := (p - e) / (1.0 - e);
  }

  method IndexOf(cats: seq<Label>) returns (index: map<Label, nat>)
    ensures forall c :: c in cats ==> c in index && index[c] < |cats| && cats[index[c]] == c
  {
    index := map[];
    for i := 0 to |cats|
      invariant forall c :: c in cats[..i] ==> c in index && index[c] < i && cats[index[c]] == c
    {
      index := index[cats[i] := i];
      assert forall c :: c in cats[..i + 1] <==> c in cats[..i] || c == cats[i];
    }
    assert cats[..|cats|] == cats;
  }

  lemma {:induction false} OneCategory(rows: seq<seq<Label>>, cats: seq<Label>)
    requires Covers(cats, rows) && |cats| < 2
    ensures forall i :: 0 <= i < |rows| ==> Unanimous(rows[i])
  {
    forall i | 0 <= i < |rows| ensures Unanimous(rows[i]) {
      assert CoversRow(cats, rows[i]);
    }
  }

  lemma {:induction false} NegativeReciprocal(n: int)
    requires n >= 2
    ensures -1.0 / (n - 1) as real <= 1.0
  {
  }

  // ---- Task verdicts ----

  /** What one annotator said about a row, reduced to its canonical signature. */
  datatype Annotation = Annotation(signature: Label, groundTruth: bool)

  datatype Verdict = Approved | Arbitration | Pending

  /** The agreement within the task: full, none, or unknown for too few annotators. */
  datatype Adjudication = Adjudication(status: Verdict, kappa: Option<real>, signatures: seq<Label>)

  function Signatures(anns: seq<Annotation>): (r: seq<Label>)
    ensures |r| == |anns| && forall i :: 0 <= i < |anns| ==> r[i] == anns[i].signature
  {
    seq(|anns|, i requires 0 <= i < |anns| => anns[i].signature)
  }

  predicate HasGroundTruth(anns: seq<Annotation>) {
    exists i :: 0 <= i < |anns| && anns[i].groundTruth
  }

  function MinRequired(minAnnotators: int): nat {
    if minAnnotators > 1 then minAnnotators else 1
  }

  /** Ground truth settles a task; otherwise agreement of enough annotators approves it, agreement of too few leaves it
      pending, and any disagreement goes to arbitration. */
  predicate VerdictFits(anns: seq<Annotation>, minAnnotators: int, adj: Adjudication) {
    var agree, v := anns != [] && Unanimous(Signatures(anns)), adj.status;
    && adj.signatures == Signatures(anns)
    && adj.kappa == (match v case Approved => Some(1.0) case Pending => None case Arbitration => Some(0.0))
    && (v == Approved <==> HasGroundTruth(anns) || (agree && |anns| >= MinRequired(minAnnotators)))
    && (v == Pending <==> !HasGroundTruth(anns) && agree && |anns| < MinRequired(minAnnotators))
    && (v == Arbitration <==> !HasGroundTruth(anns) && !agree)
  }

  /** Verdicts for a list of (row, annotations) with distinct rows. */
  method Adjudicate(tasks: seq<(string, seq<Annotation>)>, minAnnotators: int) returns (out: map<string, Adjudication>)
    requires forall i, j :: 0 <= i < j < |tasks| ==> tasks[i].0 != tasks[j].0
    ensures forall r :: r in out <==> exists i :: 0 <= i < |tasks| && tasks[i].0 == r
    ensures forall i :: 0 <= i < |tasks| ==>
      tasks[i].0 in out && VerdictFits(tasks[i].1, minAnnotators, out[tasks[i].0])
  {
    out := map[];
    for i := 0 to |tasks|
      invariant forall r :: r in out <==> exists j :: 0 <= j < i && tasks[j].0 == r
      invariant forall j :: 0 <= j < i ==> tasks[j].0 in out && VerdictFits(tasks[j].1, minAnnotators, out[tasks[j].0])
    {
      var (row, anns) := tasks[i];
      var v := VerdictOf(anns, minAnnotators);
      out := out[row := v];
    }
  }

  method VerdictOf(anns: seq<Annotation>, minAnnotators: int) returns (adj: Adjudication)
    ensures VerdictFits(anns, minAnnotators, adj)
  {
    var signatures := Signatures(anns);
    var truth := exists i :: 0 <= i < |anns| && anns[i].groundTruth;
    if truth {
      return Adjudication(Approved, Some(1.0), signatures);
    }
    var distinct := set i | 0 <= i < |anns| :: anns[i].signature;
    if |distinct| == 1 {
      OneSignature(anns, distinct);
      if |anns| >= MinRequired(minAnnotators) {
        return Adjudication(Approved, Some(1.0), signatures);
      }
      return Adjudication(Pending, None, signatures);
    }
    ManySignatures(anns, distinct);
    return Adjudication(Arbitration, Some(0.0), signatures);
  }

  lemma {:induction false} OneSignature(anns: seq<Annotation>, distinct: set<Label>)
    requires distinct == (set i | 0 <= i < |anns| :: anns[i].signature) && |distinct| == 1
    ensures anns != [] && Unanimous(Signatures(anns))
  {
    var x :| x in distinct;
    assert distinct - {x} == {} by {
      assert |distinct - {x}| == 0;
    }
    forall i | 0 <= i < |anns| ensures anns[i].signature == x {
      assert anns[i].signature in distinct;
    }
  }

  lemma {:induction false} ManySignatures(anns: seq<Annotation>, distinct: set<Label>)
    requires distinct == (set i | 0 <= i < |anns| :: anns[i].signature) && |distinct| != 1
    ensures anns == [] || !Unanimous(Signatures(anns))
  {
    var same := anns != [] && forall i :: 0 <= i < |anns| ==> Signatures(anns)[i] == Signatures(anns)[0];
    assert same ==> forall i :: 0 <= i < |anns| ==> anns[i].signature == anns[0].signature;
    var x := if anns == [] then "" else anns[0].signature;
    assert same ==> distinct == {x};
  }

  /** Tasks that count: at least two annotations, and at least n. */
  predicate Eligible(task: seq<Annotation>, n: int) {
    |task| >= 2 && |task| >= n
  }

  /** The smallest number of annotations among the tasks that have at least two; 0 if there is none. */
  method FewestRaters(tasks: seq<seq<Annotation>>) returns (least: nat)
    ensures least == 0 <==> forall i :: 0 <= i < |tasks| ==> |tasks[i]| < 2
    ensures least != 0 ==> least >= 2 && exists i :: 0 <= i < |tasks| && |tasks[i]| == least
    ensures forall i :: 0 <= i < |tasks| && |tasks[i]| >= 2 ==> least <= |tasks[i]|
  {
    least := 0;
    for i := 0 to |tasks|
      invariant least == 0 <==> forall j :: 0 <= j < i ==> |tasks[j]| < 2
      invariant least != 0 ==> least >= 2 && exists j :: 0 <= j < i && |tasks[j]| == least
      invariant forall j :: 0 <= j < i && |tasks[j]| >= 2 ==> least <= |tasks[j]|
    {
      if |tasks[i]| >= 2 && (least == 0 || |tasks[i]| < least) {
        least := |tasks[i]|;
      }
    }
  }

  /** The signatures of the eligible tasks, in task order. */
  function EligibleRows(tasks: seq<seq<Annotation>>, n: int): seq<seq<Label>> {
    if tasks == [] then [] else
      var last := tasks[|tasks| - 1];
      EligibleRows(tasks[..|tasks| - 1], n) + if Eligible(last, n) then [Signatures(last)] else []
  }

  lemma {:induction false} EligibleIsRow(tasks: seq<seq<Annotation>>, n: int, i: nat)
    requires i < |tasks| && Eligible(tasks[i], n)
    ensures Signatures(tasks[i]) in EligibleRows(tasks, n)
  {
    if i < |tasks| - 1 {
      EligibleIsRow(tasks[..|tasks| - 1], n, i);
    }
  }

  lemma {:induction false} RowIsEligible(tasks: seq<seq<Annotation>>, n: int, r: seq<Label>) returns (i: nat)
    requires r in EligibleRows(tasks, n)
    ensures i < |tasks| && Eligible(tasks[i], n) && r == Signatures(tasks[i])
  {
    i := |tasks| - 1;
    if !(Eligible(tasks[i], n) && r == Signatures(tasks[i])) {
      i := RowIsEligible(tasks[..i], n, r);
    }
  }

  lemma {:induction false} EligibleAgreement(tasks: seq<seq<Annotation>>, n: int)
    ensures var rows := EligibleRows(tasks, n);
      && (rows == [] <==> forall i :: 0 <= i < |tasks| ==> !Eligible(tasks[i], n))
      && (forall r :: 0 <= r < |rows| ==> |rows[r]| >= n)
      && (n >= 0 ==> ((forall r :: 0 <= r < |rows| ==> Unanimous(rows[r][..n])) <==>
                      forall i :: 0 <= i < |tasks| && Eligible(tasks[i], n) ==> Unanimous(Signatures(tasks[i])[..n])))
  {
    var rows := EligibleRows(tasks, n);
    forall i | 0 <= i < |tasks| && Eligible(tasks[i], n) ensures Signatures(tasks[i]) in rows {
      EligibleIsRow(tasks, n, i);
    }
    forall r | 0 <= r < |rows|
      ensures |rows[r]| >= n && exists i :: 0 <= i < |tasks| && Eligible(tasks[i], n) && rows[r] == Signatures(tasks[i])
    {
      var i := RowIsEligible(tasks, n, rows[r]);
    }
    if rows != [] {
      var i := RowIsEligible(tasks, n, rows[0]);
    }
  }

  /** Kappa of the eligible tasks, each trimmed to n raters: the given number, or (given 0, for none) the smallest
      number
      of annotations among the tasks with at least two. It is the value of Fleiss' formula on those rows, and 1 exactly
      when all of them, trimmed, are unanimous. */
  method ProjectKappa(tasks: seq<seq<Annotation>>, raters: int)
      returns (k: Option<real>, n: int, ghost cats: seq<Label>)
    ensures raters != 0 ==> n == raters
    ensures raters == 0 ==> (forall i :: 0 <= i < |tasks| && |tasks[i]| >= 2 ==> n <= |tasks[i]|) &&
                            ((exists i :: 0 <= i < |tasks| && |tasks[i]| >= 2) ==>
                              exists i :: 0 <= i < |tasks| && |tasks[i]| == n >= 2)
    ensures k.None? <==> n < 2 || forall i :: 0 <= i < |tasks| ==> !Eligible(tasks[i], n)
    ensures k.Some? ==> -1.0 / (n - 1) as real <= k.value <= 1.0
    ensures k.Some? ==>
      (k.value == 1.0 <==> forall i :: 0 <= i < |tasks| && Eligible(tasks[i], n) ==>
        Unanimous(Signatures(tasks[i])[..n]))
    ensures k.Some? ==> IsKappa(EligibleRows(tasks, n), n, cats, k.value)
  {
    var least := FewestRaters(tasks);
    n, cats := if raters != 0 then raters else least, [];
    if least == 0 {
      return None, n, cats;
    }
    var rows := CollectRows(tasks, n);
    k, cats := FleissKappa(rows, n);
    EligibleAgreement(tasks, n);
  }

  method CollectRows(tasks: seq<seq<Annotation>>, n: int) returns (rows: seq<seq<Label>>)
    ensures rows == EligibleRows(tasks, n)
  {
    rows := [];
    for i := 0 to |tasks|
      invariant rows == EligibleRows(tasks[..i], n)
    {
      assert tasks[..i + 1][..i] == tasks[..i];
      if Eligible(tasks[i], n) {
        rows := rows + [Signatures(tasks[i])];
      }
    }
    assert tasks[..|tasks|] == tasks;
  }
}
