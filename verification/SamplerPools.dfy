/** What the pools hold and in which order, said of the request alone. */
module SamplerPools {
  import opened Common
  import opened KCenter
  import opened Quotas
  import opened Sampler

  /** Where an id first occurs in a list; the length of the list if it does not. */
  function FirstAt(s: seq<Id>, x: Id): (k: nat)
    ensures k <= |s| && (k < |s| <==> x in s) && (k < |s| ==> s[k] == x)
  {
    if s == [] then 0 else if s[0] == x then 0 else 1 + FirstAt(s[1..], x)
  }

  lemma {:induction false} FirstAtSnoc(s: seq<Id>, y: Id, x: Id)
    ensures FirstAt(s + [y], x) == if x in s then FirstAt(s, x) else if x == y then |s| else |s| + 1
  {
    if s == [] {
      assert s + [y] == [y] && [y][1..] == [];
    } else {
      FirstAtSnoc(s[1..], y, x);
      assert (s + [y])[1..] == s[1..] + [y];
    }
  }

  /** The elements of r appear in the order of their first occurrence in s. */
  predicate InOrderOf(r: seq<Id>, s: seq<Id>) {
    forall i, j :: 0 <= i < j < |r| ==> FirstAt(s, r[i]) < FirstAt(s, r[j])
  }

  lemma {:induction false} DedupInOrder(s: seq<Id>)
    ensures InOrderOf(Dedup(s), s)
  {
    if s != [] {
      var front, last := s[..|s| - 1], s[|s| - 1];
      DedupInOrder(front);
      assert s == front + [last];
      var d := Dedup(front);
      forall i, j | 0 <= i < j < |Dedup(s)| ensures FirstAt(s, Dedup(s)[i]) < FirstAt(s, Dedup(s)[j]) {
        assert d[i] in d;
        FirstAtSnoc(front, last, Dedup(s)[i]);
        FirstAtSnoc(front, last, Dedup(s)[j]);
        assert j < |d| ==> d[j] in d;
      }
    }
  }

  lemma {:induction false} WhereInOrder(s: seq<Id>, keep: set<Id>, base: seq<Id>)
    requires InOrderOf(s, base)
    ensures InOrderOf(Where(s, keep), base)
  {
    if s != [] {
      var front, last := s[..|s| - 1], s[|s| - 1];
      WhereInOrder(front, keep, base);
      var w := Where(front, keep);
      forall i | 0 <= i < |w| ensures FirstAt(base, w[i]) < FirstAt(base, last) {
        assert w[i] in w;
        var k :| 0 <= k < |front| && front[k] == w[i];
        assert s[k] == front[k];
      }
    }
  }

  /** Lower scores first, ties in the order of s. */
  predicate SortedStably(r: seq<Id>, s: seq<Id>, scores: map<Id, real>) {
    forall i, j :: 0 <= i < j < |r| ==>
      r[i] in scores && r[j] in scores &&
      (scores[r[i]] < scores[r[j]] || (scores[r[i]] == scores[r[j]] && FirstAt(s, r[i]) < FirstAt(s, r[j])))
  }

  lemma {:induction false} ConsStable(x: Id, r: seq<Id>, s: seq<Id>, scores: map<Id, real>)
    requires SortedStably(r, s, scores) && x in scores
    requires forall y :: y in r ==>
      y in scores && (scores[x] < scores[y] || (scores[x] == scores[y] && FirstAt(s, x) < FirstAt(s, y)))
    ensures SortedStably([x] + r, s, scores)
  {
    assert forall i :: 0 <= i < |r| ==> r[i] in r;
  }

  /** Inserting an id that comes before all others of the list keeps the order stable. */
  lemma {:induction false} InsertStable(x: Id, r: seq<Id>, s: seq<Id>, scores: map<Id, real>)
    requires x in scores && (forall y :: y in r ==> y in scores && FirstAt(s, x) < FirstAt(s, y))
    requires SortedStably(r, s, scores)
    ensures SortedStably(InsertByScore(x, r, scores), s, scores)
  {
    if r == [] || scores[x] <= scores[r[0]] {
      forall y | y in r ensures scores[x] <= scores[y] {
        var k :| 0 <= k < |r| && r[k] == y;
      }
      ConsStable(x, r, s, scores);
    } else {
      assert forall y :: y in r[1..] ==> y in r;
      InsertStable(x, r[1..], s, scores);
      HeadIsLeast(r, s, scores);
      ConsStable(r[0], InsertByScore(x, r[1..], scores), s, scores);
    }
  }

  lemma {:induction false} HeadIsLeast(r: seq<Id>, s: seq<Id>, scores: map<Id, real>)
    requires r != [] && SortedStably(r, s, scores)
    ensures forall y :: y in r[1..] ==>
      y in scores && r[0] in scores &&
      (scores[r[0]] < scores[y] || (scores[r[0]] == scores[y] && FirstAt(s, r[0]) < FirstAt(s, y)))
  {
    forall y | y in r[1..]
      ensures y in scores && r[0] in scores &&
        (scores[r[0]] < scores[y] || (scores[r[0]] == scores[y] && FirstAt(s, r[0]) < FirstAt(s, y)))
    {
      var k :| 0 <= k < |r[1..]| && r[1..][k] == y;
      var i, j := 0, k + 1;
      assert r[j] == y && r[i] in scores && r[j] in scores;
    }
  }

  lemma {:induction false} SortStable(s: seq<Id>, base: seq<Id>, scores: map<Id, real>)
    requires (forall y :: y in s ==> y in scores) && InOrderOf(s, base)
    ensures SortedStably(SortByScore(s, scores), base, scores)
  {
    if s != [] {
      assert forall i, j :: 0 <= i < j < |s[1..]| ==> s[1..][i] == s[i + 1] && s[1..][j] == s[j + 1];
      SortStable(s[1..], base, scores);
      forall y | y in s[1..] ensures FirstAt(base, s[0]) < FirstAt(base, y) {
        var k :| 0 <= k < |s[1..]| && s[1..][k] == y;
        assert s[k + 1] == y;
      }
      InsertStable(s[0], SortByScore(s[1..], scores), base, scores);
    }
  }

  predicate Knows<P>(req: Request<P>, s: Strategy, x: Id) {
    match s
    case Uncertainty => x in req.scores
    case Diversity => x in req.vec
    case FailureCase => x in req.dead
    case Committee => x in req.committee
    case Sequential => true
  }

  /** Each pool holds exactly the requested rows that its strategy knows. */
  lemma {:induction false} PoolMembers<P>(req: Request<P>, s: Strategy, x: Id)
    ensures x in Pool(req, s) <==> x in req.rows && Knows(req, s, x)
  {
  }

  /** Uncertainty: lowest score first, ties in request order. Failed rows and disagreements: in the order given.
      Diversity
      and the rest: in request order. */
  lemma {:induction false} PoolOrder<P>(req: Request<P>)
    ensures SortedStably(Pool(req, Uncertainty), req.rows, req.scores)
    ensures InOrderOf(Pool(req, Diversity), req.rows) && InOrderOf(Pool(req, Sequential), req.rows)
    ensures InOrderOf(Pool(req, FailureCase), req.dead) && InOrderOf(Pool(req, Committee), req.committee)
  {
    var all := Candidates(req);
    DedupInOrder(req.rows);
    DedupInOrder(req.dead);
    DedupInOrder(req.committee);
    WhereInOrder(all, req.scores.Keys, req.rows);
    WhereInOrder(all, req.vec.Keys, req.rows);
    WhereInOrder(Dedup(req.dead), Elements(all), req.dead);
    WhereInOrder(Dedup(req.committee), Elements(all), req.committee);
    SortStable(Where(all, req.scores.Keys), req.rows, req.scores);
  }
}
