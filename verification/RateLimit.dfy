/** The sliding-window request counter, against the full log of admitted requests. */
module RateLimit {

  // ---- Windows over a log of admission times ----

  /** Admissions later than the cutoff, in order. */
  function After(log: seq<real>, cutoff: real): seq<real> {
    if log == [] then [] else
      After(log[..|log| - 1], cutoff) + if log[|log| - 1] > cutoff then [log[|log| - 1]] else []
  }

  /** Admissions in the half-open window (end - window, end]. */
  function InWindow(log: seq<real>, end: real, window: real): nat {
    if log == [] then 0 else
      InWindow(log[..|log| - 1], end, window) + if end - window < log[|log| - 1] <= end then 1 else 0
  }

  predicate Sorted(log: seq<real>) {
    forall i, j :: 0 <= i < j < |log| ==> log[i] <= log[j]
  }

  predicate NoneAfter(log: seq<real>, t: real) {
    forall i :: 0 <= i < |log| ==> log[i] <= t
  }

  lemma {:induction false} StillNoneAfter(log: seq<real>, t: real, later: real)
    requires NoneAfter(log, t) && t <= later
    ensures NoneAfter(log, later)
  {
  }

  lemma {:induction false} AfterSnoc(log: seq<real>, t: real, cutoff: real)
    ensures After(log + [t], cutoff) == After(log, cutoff) + if t > cutoff then [t] else []
  {
    assert (log + [t])[..|log|] == log;
  }

  lemma {:induction false} WindowSnoc(log: seq<real>, t: real, end: real, window: real)
    ensures InWindow(log + [t], end, window) == InWindow(log, end, window) + if end - window < t <= end then 1 else 0
  {
    assert (log + [t])[..|log|] == log;
  }

  /** Pruning with an earlier cutoff first loses nothing. */
  lemma {:induction false} PruneTwice(log: seq<real>, early: real, late: real)
    requires early <= late
    ensures After(After(log, early), late) == After(log, late)
  {
    if log == [] {
    } else {
      var front, t := log[..|log| - 1], log[|log| - 1];
      PruneTwice(front, early, late);
      if t > early {
        AfterSnoc(After(front, early), t, late);
      } else {
        assert After(log, early) == After(front, early);
        assert After(log, late) == After(front, late);
      }
    }
  }

  /** From `early` on, no cutoff tells the list from the full log. */
  ghost predicate Agrees(list: seq<real>, log: seq<real>, early: real) {
    forall cutoff :: cutoff >= early ==> After(list, cutoff) == After(log, cutoff)
  }

  lemma {:induction false} PruneAgrees(list: seq<real>, log: seq<real>, early: real, late: real)
    requires Agrees(list, log, early) && early <= late
    ensures After(list, late) == After(log, late) && Agrees(After(list, late), log, late)
  {
    forall cutoff | cutoff >= late ensures After(After(list, late), cutoff) == After(log, cutoff) {
      PruneTwice(list, late, cutoff);
    }
  }

  lemma {:induction false} AdmitAgrees(list: seq<real>, log: seq<real>, t: real, early: real)
    requires Agrees(list, log, early)
    ensures Agrees(list + [t], log + [t], early)
  {
    forall cutoff | cutoff >= early ensures After(list + [t], cutoff) == After(log + [t], cutoff) {
      AfterSnoc(list, t, cutoff);
      AfterSnoc(log, t, cutoff);
    }
  }

  /** Once nothing is later than `now`, the pruned list is the window that ends now. */
  lemma {:induction false} WindowIsAfter(log: seq<real>, now: real, window: real)
    requires NoneAfter(log, now)
    ensures |After(log, now - window)| == InWindow(log, now, window)
  {
    if log != [] {
      WindowIsAfter(log[..|log| - 1], now, window);
    }
  }

  lemma {:induction false} LaterWindowSmaller(log: seq<real>, a: real, b: real, window: real)
    requires a <= b && forall i :: 0 <= i < |log| ==> log[i] <= a
    ensures InWindow(log, b, window) <= InWindow(log, a, window)
  {
    if log != [] {
      LaterWindowSmaller(log[..|log| - 1], a, b, window);
    }
  }

  /** Every admission found room: the window ending at it, itself included, holds at most `limit`. */
  predicate EachAdmissionFits(log: seq<real>, window: real, limit: int) {
    log == [] || (EachAdmissionFits(log[..|log| - 1], window, limit) && InWindow(log, log[|log| - 1], window) <= limit)
  }

  /** Hence every window of that length, wherever it ends, holds at most `limit`. */
  lemma {:induction false} EveryWindowBounded(log: seq<real>, window: real, limit: int, end: real)
    requires Sorted(log) && EachAdmissionFits(log, window, limit) && limit >= 0
    ensures InWindow(log, end, window) <= limit
  {
    if log != [] {
      var n := |log| - 1;
      if log[n] <= end {
        LaterWindowSmaller(log, log[n], end, window);
      } else {
        EveryWindowBounded(log[..n], window, limit, end);
      }
    }
  }

  // ---- The counter ----

  class Counter {
    var timestamps: seq<real>
    var lastHit: real
    /** every admitted request, and the latest time at which the counter was used */
    ghost var log: seq<real>
    ghost var clock: real

    constructor (ghost start: real)
      ensures timestamps == [] && log == [] && lastHit == 0.0 && clock == start
    {
      timestamps, lastHit, log, clock := [], 0.0, [], start;
    }

    /** For a fixed window: the list holds every admission that any later query can still see. */
    ghost predicate Valid(window: real)
      reads this
    {
      && window > 0.0 && Sorted(log) && NoneAfter(log, clock)
      && Agrees(timestamps, log, clock - window)
    }

    method Prune(now: real, window: real)
      requires Valid(window) && now >= clock
      modifies this`timestamps, this`clock
      ensures Valid(window) && clock == now
      ensures timestamps == After(log, now - window) && |timestamps| == InWindow(log, now, window)
    {
      StillNoneAfter(log, clock, now);
      PruneAgrees(timestamps, log, clock - window, now - window);
      timestamps := After(timestamps, now - window);
      clock := now;
      WindowIsAfter(log, now, window);
    }

    /** Admits the request unless a positive limit is already met in the window ending now. A refusal names the earliest
        admission in the window. */
    method Hit(now: real, window: real, limit: int) returns (allowed: bool, earliest: real)
      requires Valid(window) && now >= clock
      modifies this
      ensures Valid(window) && clock == now && lastHit == now
      ensures allowed <==> limit <= 0 || InWindow(old(log), now, window) < limit
      ensures log == if allowed then old(log) + [now] else old(log)
      ensures !allowed ==> After(log, now - window) != [] && earliest == After(log, now - window)[0]
      ensures limit > 0 && old(EachAdmissionFits(log, window, limit)) ==> EachAdmissionFits(log, window, limit)
    {
      Prune(now, window);
      lastHit := now;
      if limit > 0 && |timestamps| >= limit {
        return false, timestamps[0];
      }
      AdmissionFits(log, now, window, limit);
      AdmitAgrees(timestamps, log, now, now - window);
      timestamps := timestamps + [now];
      log := log + [now];
      return true, 0.0;
    }

    method Remaining(now: real, window: real, limit: int) returns (r: int)
      requires Valid(window) && now >= clock
      modifies this`timestamps, this`clock
      ensures Valid(window) && clock == now
      ensures r == if limit > InWindow(log, now, window) then limit - InWindow(log, now, window) else 0
    {
      Prune(now, window);
      r := if limit - |timestamps| > 0 then limit - |timestamps| else 0;
    }

    method Count(now: real, window: real) returns (r: nat)
      requires Valid(window) && now >= clock
      modifies this`timestamps, this`clock
      ensures Valid(window) && clock == now && r == InWindow(log, now, window)
    {
      Prune(now, window);
      r := |timestamps|;
    }
  }

  lemma {:induction false} AfterBelow(log: seq<real>, cutoff: real, bound: real)
    requires forall i :: 0 <= i < |log| ==> log[i] <= bound
    ensures forall i :: 0 <= i < |After(log, cutoff)| ==> cutoff < After(log, cutoff)[i] <= bound
  {
    if log != [] {
      AfterBelow(log[..|log| - 1], cutoff, bound);
    }
  }

  lemma {:induction false} EarliestFirst(log: seq<real>, cutoff: real)
    requires Sorted(log)
    ensures Sorted(After(log, cutoff))
  {
    if log != [] {
      var front, last := log[..|log| - 1], log[|log| - 1];
      EarliestFirst(front, cutoff);
      AfterBelow(front, cutoff, last);
    }
  }

  lemma {:induction false} AdmissionFits(log: seq<real>, now: real, window: real, limit: int)
    requires window > 0.0 && NoneAfter(log, now)
    ensures InWindow(log, now, window) < limit && EachAdmissionFits(log, window, limit) ==>
      EachAdmissionFits(log + [now], window, limit)
  {
    WindowSnoc(log, now, now, window);
    assert (log + [now])[..|log|] == log;
  }

  // ---- Whole runs ----

  /** A run of hits under a fixed window and limit: the admitted times. */
  function Admitted(hits: seq<real>, window: real, limit: int): seq<real> {
    if hits == [] then [] else
      var prev, now := Admitted(hits[..|hits| - 1], window, limit), hits[|hits| - 1];
      if limit <= 0 || InWindow(prev, now, window) < limit then prev + [now] else prev
  }

  lemma {:induction false} AdmittedKeeps(hits: seq<real>, window: real, limit: int)
    requires Sorted(hits) && window > 0.0 && limit > 0
    ensures var log := Admitted(hits, window, limit);
      Sorted(log) && EachAdmissionFits(log, window, limit) && forall i :: 0 <= i < |log| ==> log[i] in hits
  {
    if hits != [] {
      var front, now := hits[..|hits| - 1], hits[|hits| - 1];
      AdmittedKeeps(front, window, limit);
      AdmissionFits(Admitted(front, window, limit), now, window, limit);
    }
  }

  /** At hit k the window still has room among those admitted before. */
  predicate HasRoom(hits: seq<real>, k: nat, window: real, limit: int)
    requires k < |hits|
  {
    InWindow(Admitted(hits[..k], window, limit), hits[k], window) < limit
  }

  lemma {:induction false} AdmittedSnoc(hits: seq<real>, k: nat, window: real, limit: int)
    requires k < |hits| && limit > 0
    ensures var prev := Admitted(hits[..k], window, limit);
      Admitted(hits[..k + 1], window, limit) == if HasRoom(hits, k, window, limit) then prev + [hits[k]] else prev
  {
    assert hits[..k + 1][..k] == hits[..k];
  }

  method HitNext(c: Counter, hits: seq<real>, k: nat, window: real, limit: int) returns (ok: bool)
    requires k < |hits| && limit > 0 && c.Valid(window) && c.clock <= hits[k] &&
      c.log == Admitted(hits[..k], window, limit)
    modifies c
    ensures c.Valid(window) && c.clock == hits[k] && c.log == Admitted(hits[..k + 1], window, limit)
    ensures ok <==> HasRoom(hits, k, window, limit)
  {
    AdmittedSnoc(hits, k, window, limit);
    var earliest;
    ok, earliest := c.Hit(hits[k], window, limit);
  }

  /** The real counter run over the hits admits exactly those, and no window of the given length, wherever it ends,
      holds
      more than the limit. */
  method RunHits(hits: seq<real>, window: real, limit: int) returns (admitted: seq<bool>)
    requires Sorted(hits) && window > 0.0 && limit > 0
    ensures |admitted| == |hits|
    ensures forall k :: 0 <= k < |hits| ==> (admitted[k] <==> HasRoom(hits, k, window, limit))
    ensures forall end :: InWindow(Admitted(hits, window, limit), end, window) <= limit
  {
    admitted := [];
    var c := new Counter(if hits == [] then 0.0 else hits[0]);
    for k := 0 to |hits|
      invariant |admitted| == k && c.Valid(window) && c.log == Admitted(hits[..k], window, limit)
      invariant k < |hits| ==> c.clock <= hits[k]
      invariant forall j :: 0 <= j < k ==> (admitted[j] <==> HasRoom(hits, j, window, limit))
    {
      var ok := HitNext(c, hits, k, window, limit);
      admitted := admitted + [ok];
    }
    assert hits[..|hits|] == hits;
    AdmittedBounded(hits, window, limit);
  }

  lemma {:induction false} AdmittedBounded(hits: seq<real>, window: real, limit: int)
    requires Sorted(hits) && window > 0.0 && limit > 0
    ensures forall end :: InWindow(Admitted(hits, window, limit), end, window) <= limit
  {
    AdmittedKeeps(hits, window, limit);
    forall end ensures InWindow(Admitted(hits, window, limit), end, window) <= limit {
      EveryWindowBounded(Admitted(hits, window, limit), window, limit, end);
    }
  }

  /** The earliest admission reported with a refusal tells exactly when the key opens again: until then every window
      still
      holds the limit, from then on it does not. */
  lemma {:induction false} RetryAfterIsExact(log: seq<real>, now: real, window: real, limit: int, earliest: real,
      later: real)
    requires Sorted(log) && window > 0.0 && limit > 0 && EachAdmissionFits(log, window, limit) && now <= later
    requires NoneAfter(log, now) && InWindow(log, now, window) >= limit
    requires After(log, now - window) != [] && earliest == After(log, now - window)[0]
    ensures later < earliest + window <==> InWindow(log, later, window) >= limit
  {
    var w := After(log, now - window);
    FullWindow(log, now, window, limit);
    LaterWindow(log, now, later, window);
    FirstIsLeast(log, now - window);
    OpensWithFirst(w, later - window);
  }

  lemma {:induction false} FullWindow(log: seq<real>, now: real, window: real, limit: int)
    requires Sorted(log) && limit > 0 && EachAdmissionFits(log, window, limit)
    requires NoneAfter(log, now) && InWindow(log, now, window) >= limit
    ensures |After(log, now - window)| == limit
  {
    EveryWindowBounded(log, window, limit, now);
    WindowIsAfter(log, now, window);
  }

  /** Pruning a list that starts with its least element keeps all of it exactly while it keeps that one. */
  lemma {:induction false} OpensWithFirst(w: seq<real>, cutoff: real)
    requires w != [] && forall i :: 0 <= i < |w| ==> w[0] <= w[i]
    ensures cutoff < w[0] <==> |After(w, cutoff)| >= |w|
  {
    if cutoff < w[0] {
      KeepsAll(w, cutoff);
    } else {
      DropsFirst(w, cutoff);
    }
  }

  /** A window that ends later, with nothing admitted since, sees what is left of the present one. */
  lemma {:induction false} LaterWindow(log: seq<real>, now: real, later: real, window: real)
    requires now <= later && NoneAfter(log, now)
    ensures InWindow(log, later, window) == |After(After(log, now - window), later - window)|
  {
    WindowIsAfter(log, later, window);
    PruneTwice(log, now - window, later - window);
  }

  lemma {:induction false} FirstIsLeast(log: seq<real>, cutoff: real)
    requires Sorted(log)
    ensures var w := After(log, cutoff); forall i :: 0 <= i < |w| ==> w[0] <= w[i]
  {
    EarliestFirst(log, cutoff);
  }

  lemma {:induction false} KeepsAll(w: seq<real>, cutoff: real)
    requires forall i :: 0 <= i < |w| ==> w[i] > cutoff
    ensures After(w, cutoff) == w
  {
    if w != [] {
      KeepsAll(w[..|w| - 1], cutoff);
    }
  }

  lemma {:induction false} DropsFirst(w: seq<real>, cutoff: real)
    requires w != [] && w[0] <= cutoff
    ensures |After(w, cutoff)| < |w|
  {
    if |w| > 1 {
      DropsFirst(w[..|w| - 1], cutoff);
    } else {
      assert w[..0] == [];
    }
  }
}
