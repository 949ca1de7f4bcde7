/** The score of a server and the rounds of the updater thread (scheduler.c). */
module Scheduler {
  import opened Common
  import opened Servers
  import W = WeightedPattern

  const WEIGHT_DEFAULT := 1
  const WEIGHT_MAXIMUM := 5

  // ------------------------------------------------------------------ the score formula

  /** C division: truncates toward zero. */
  function CDiv(a: int, d: int): int
    requires d != 0
  {
    var q := (if a < 0 then -a else a) / (if d < 0 then -d else d);
    if (a < 0) == (d < 0) then q else -q
  }

  /** The score formula of apache_score; it divides by zero when the total is 1. */
  function Score(idle: int, total: int): int
    requires total != 1
  {
    CDiv((idle - WEIGHT_DEFAULT) * (WEIGHT_MAXIMUM - WEIGHT_DEFAULT), total - WEIGHT_DEFAULT) + WEIGHT_DEFAULT
  }

  /** q is a / d with the fraction cut off: the remainder is smaller than d and has the sign of a. */
  predicate Truncated(q: int, a: int, d: int) {
    var rem := a - q * d;
    Abs(rem) < Abs(d) && (rem == 0 || (rem < 0 <==> a < 0))
  }

  /** The score that a report of these counts stands for: four steps of the weight over the idle workers. */
  predicate IsScore(w: int, idle: int, total: int) { Truncated(w - 1, 4 * (idle - 1), total - 1) }

  lemma QuotientIs(a: nat, d: nat, q: int)
    requires d > 0
    ensures 0 <= a - q * d < d <==> q == a / d
  {
    var k := a / d;
    assert a == k * d + a % d;
    assert a - q * d == (k - q) * d + a % d;
    assert k - q >= 1 ==> (k - q) * d >= d;
    assert k - q <= -1 ==> (k - q) * d <= 0 - d;
  }

  lemma CDivIff(a: int, d: int, q: int)
    requires d != 0
    ensures Truncated(q, a, d) <==> q == CDiv(a, d)
  {
    hide CDiv;
    var k := if (a < 0) == (d < 0) then q else 0 - q;
    var r := Abs(a) - k * Abs(d);
    Signs(a, d, q, k);
    assert Truncated(q, a, d) <==> 0 <= r < Abs(d);
    QuotientIs(Abs(a), Abs(d), k);
    CDivIs(a, d);
  }

  lemma Signs(a: int, d: int, q: int, k: int)
    requires k == if (a < 0) == (d < 0) then q else 0 - q
    ensures a - q * d == if a < 0 then 0 - (Abs(a) - k * Abs(d)) else Abs(a) - k * Abs(d)
  {
    assert (0 - q) * d == 0 - q * d && q * (0 - d) == 0 - q * d && (0 - q) * (0 - d) == q * d;
  }

  lemma CDivIs(a: int, d: int)
    requires d != 0
    ensures CDiv(a, d) == var k := Abs(a) / Abs(d); if (a < 0) == (d < 0) then k else 0 - k
  {
  }

  /** The formula computes exactly that number, for all counts but a total of 1. */
  lemma ScoreIff(w: int, idle: int, total: int)
    requires total != 1
    ensures IsScore(w, idle, total) <==> w == Score(idle, total)
  {
    hide CDiv, Truncated;
    CDivIff((idle - 1) * 4, total - 1, w - 1);
  }

  /** For real counts: the share of idle workers among all but one, in quarters, rounded down. */
  lemma ScoreBetween(idle: int, total: int)
    requires total >= 2 && 1 <= idle <= total
    ensures var w := Score(idle, total); (w - 1) * (total - 1) <= 4 * (idle - 1) < w * (total - 1)
  {
    hide Score;
    var w := Score(idle, total);
    ScoreIff(w, idle, total);
    assert w * (total - 1) == (w - 1) * (total - 1) + (total - 1);
  }

  predicate WeightInRange(w: int) { WEIGHT_DEFAULT <= w <= WEIGHT_MAXIMUM }

  lemma DivBetween(a: nat, d: nat, q: nat)
    requires d > 0
    ensures a / d <= q <==> a < (q + 1) * d
  {
    var k := a / d;
    assert a == k * d + a % d;
    if k <= q {
      assert (q + 1) * d == k * d + (q - k) * d + d;
      assert (q - k) * d >= 0;
    } else {
      assert k * d == (q + 1) * d + (k - q - 1) * d;
      assert (k - q - 1) * d >= 0;
    }
  }

  function Abs(x: int): nat { if x < 0 then -x else x }

  /** C division by its sign, its zeros and where it stays below 5. */
  lemma CDivBounds(a: int, d: int)
    requires d != 0
    ensures CDiv(a, d) == 0 <==> Abs(a) < Abs(d)
    ensures CDiv(a, d) >= 0 <==> Abs(a) < Abs(d) || (a < 0) == (d < 0)
    ensures -4 <= CDiv(a, d) <= 4 <==> Abs(a) < 5 * Abs(d)
  {
    DivBetween(Abs(a), Abs(d), 0);
    DivBetween(Abs(a), Abs(d), 4);
  }

  /** Exactly when the formula stays between the two weights, for any report with idle >= 0. */
  lemma ScoreInRangeIff(idle: int, total: int)
    requires idle >= 0 && total != 1
    ensures WeightInRange(Score(idle, total)) <==>
            if total >= 2 then (if idle == 0 then total >= 6 else 4 * (idle - 1) < 5 * (total - 1))
            else idle <= 1 || 4 * (idle - 1) < 1 - total
  {
    hide CDiv;
    CDivBounds((idle - 1) * 4, total - 1);
  }

  /** With worker counts that are really counts, the formula leaves [1, 5] only for a server without idle workers
      that has between 2 and 5 of them. */
  lemma ScoreOfCounts(idle: nat, busy: nat)
    requires idle + busy != 1
    ensures WeightInRange(Score(idle, idle + busy)) <==> !(idle == 0 && 2 <= busy <= 5)
  {
    ScoreInRangeIff(idle, idle + busy);
  }

  /** More idle workers out of the same total never lower the score. */
  lemma ScoreIsMonotone(idle: nat, more: nat, total: int)
    requires total >= 2 && idle <= more <= total
    ensures Score(idle, total) <= Score(more, total)
  {
    hide CDiv;
    CDivMonotone((idle - 1) * 4, (more - 1) * 4, total - 1);
  }

  lemma DivIsNat(a: nat, d: nat)
    requires d > 0
    ensures a / d >= 0
  {
    assert a == (a / d) * d + a % d;
  }

  lemma CDivOfNat(a: nat, d: nat)
    requires d > 0
    ensures CDiv(a, d) == a / d && CDiv(a, d) >= 0
  {
    DivIsNat(a, d);
  }

  lemma CDivOfNegative(a: int, d: nat)
    requires d > 0 && a < 0
    ensures CDiv(a, d) <= 0
  {
    DivIsNat(-a, d);
  }

  lemma CDivMonotone(a: int, b: int, d: nat)
    requires d > 0 && (a == b || (a < b && b >= 0))
    ensures CDiv(a, d) <= CDiv(b, d)
  {
    hide CDiv;
    if a < b {
      CDivOfNat(b, d);
      if a < 0 {
        CDivOfNegative(a, d);
      } else {
        CDivOfNat(a, d);
        DivMonotone(a, b, d);
      }
    }
  }

  lemma DivMonotone(a: nat, b: nat, d: nat)
    requires d > 0 && a <= b
    ensures a / d <= b / d
  {
    DivBetween(b, d, b / d);
    DivBetween(a, d, b / d);
  }

  // ------------------------------------------------------------------ one updater round

  /** What apache_score learns from a server. */
  datatype Report =
    | BadUrl                          // set_url failed
    | Down                            // retrieve failed
    | BadPage                         // the status page did not parse
    | Page(idle: int, busy: int)      // parsed; -1 where a line was missing

  /** apache_score as a function of the pool entry and the report. */
  function Scored(s: Server, r: Report): (Ending, Server) {
    match r
    case BadUrl => (ERROR, s)
    case Down => (ERROR, s.(weight := WEIGHT_DEFAULT, status := BROKEN))
    case BadPage => (ERROR, s.(status := READY))
    case Page(idle, busy) =>
      if idle < 0 then (OK, s.(status := READY))
      else if busy + idle == 1 then (DIVISION_BY_ZERO, s.(status := READY))
      else (OK, s.(status := READY, weight := Score(idle, busy + idle)))
  }

  /** A report that makes apache_score divide by zero: one worker in all. */
  predicate Crashes(r: Report) { r.Page? && r.idle >= 0 && r.idle + r.busy == 1 }

  /** What a report means for a pool entry s that becomes t. */
  predicate Reported(s: Server, t: Server, r: Report, outcome: Ending) {
    && t.ip == s.ip && t.address == s.address
    && (t.status == BROKEN <==> r.Down? || (r.BadUrl? && s.status == BROKEN))
    && (if r.Down? then t.weight == WEIGHT_DEFAULT
        else if r.Page? && r.idle >= 0 && !Crashes(r) then IsScore(t.weight, r.idle, r.idle + r.busy)
        else t.weight == s.weight)
    && (outcome == DIVISION_BY_ZERO <==> Crashes(r)) && (outcome == ERROR <==> !r.Page?)
    && outcome in {OK, ERROR, DIVISION_BY_ZERO}
  }

  /** apache_score does what its report means, and nothing else is what it means. */
  lemma ScoredIff(s: Server, t: Server, r: Report, outcome: Ending)
    ensures Reported(s, t, r, outcome) <==> (outcome, t) == Scored(s, r)
  {
    hide Score, IsScore;
    if r.Page? && r.idle >= 0 && !Crashes(r) {
      ScoreIff(t.weight, r.idle, r.idle + r.busy);
    }
  }

  method ApacheScore(pool: array<Server>, i: nat, report: Report) returns (outcome: Ending)
    requires i < pool.Length
    modifies pool
    ensures Reported(old(pool[i]), pool[i], report, outcome) && (outcome, pool[i]) == Scored(old(pool[i]), report)
    ensures pool[..] == old(pool[..])[i := pool[i]]
  {
    hide Score, IsScore;
    ScoredIff(pool[i], Scored(pool[i], report).1, report, Scored(pool[i], report).0);
    match report
    case BadUrl =>
      return ERROR;
    case Down =>
      pool[i] := pool[i].(weight := WEIGHT_DEFAULT);
      pool[i] := pool[i].(status := BROKEN);
      return ERROR;
    case BadPage =>
      pool[i] := pool[i].(status := READY);
      return ERROR;
    case Page(idle, busy) =>
      pool[i] := pool[i].(status := READY);
      if idle < 0 {
        return OK;
      }
      var total := busy + idle;
      if total - WEIGHT_DEFAULT == 0 {
        return DIVISION_BY_ZERO;
      }
      pool[i] := pool[i].(weight := Score(idle, total));
      return OK;
  }

  /** The pool after the first k servers of a round have been scored. */
  function RoundUpTo(pool: seq<Server>, reports: seq<Report>, k: nat): (after: seq<Server>)
    requires k <= |pool| == |reports|
    ensures |after| == |pool|
  {
    seq(|pool|, i requires 0 <= i < |pool| => if i < k then Scored(pool[i], reports[i]).1 else pool[i])
  }

  /** A report that counts against the round: the server could not be asked though it is not known to be down, or its
      page could not be read. */
  predicate Spoils(s: Server, r: Report) { r.BadPage? || (r.BadUrl? && s.status == READY) }

  lemma SpoilsIff(s: Server, r: Report)
    ensures Spoils(s, r) <==> Scored(s, r).0 == ERROR && Scored(s, r).1.status != BROKEN
    ensures Crashes(r) <==> Scored(s, r).0 == DIVISION_BY_ZERO
  {
  }

  /** One pass of the updater over the pool.  `reset` tells whether the round may install a new pattern: no
      server failed other than by being down.  `crashed` is the division by zero. */
  method UpdateRound(pool: array<Server>, reports: seq<Report>) returns (reset: bool, crashed: bool)
    requires |reports| == pool.Length
    modifies pool
    ensures crashed <==> exists i :: 0 <= i < pool.Length && Crashes(reports[i])
    ensures !crashed ==> pool[..] == RoundUpTo(old(pool[..]), reports, pool.Length)
    ensures !crashed ==> (reset <==> forall i :: 0 <= i < pool.Length ==> !Spoils(old(pool[..])[i], reports[i]))
  {
    ghost var before := pool[..];
    var proceed := 0;
    var i := 0;
    reset, crashed := false, false;
    while i < pool.Length
      invariant 0 <= i <= pool.Length == |before|
      invariant pool[..] == RoundUpTo(before, reports, i)
      invariant proceed <= 0
      invariant proceed == 0 <==> forall j :: 0 <= j < i ==> !Spoils(before[j], reports[j])
      invariant forall j :: 0 <= j < i ==> !Crashes(reports[j])
    {
      assert pool[i] == pool[..][i] == before[i];
      var outcome := ApacheScore(pool, i, reports[i]);
      SpoilsIff(before[i], reports[i]);
      if outcome == DIVISION_BY_ZERO {
        assert Crashes(reports[i]);
        crashed := true;
        return;
      }
      if outcome == ERROR && pool[i].status != BROKEN {
        proceed := proceed - 1;
      }
      assert pool[..] == RoundUpTo(before, reports, i + 1);
      i := i + 1;
    }
    reset := proceed == 0;
  }

  /** What a round makes of an entry: a server is BROKEN afterwards exactly when it could not be reached, or could not
      be asked and was BROKEN before; an unreachable one has the least weight; names never change. */
  lemma RoundStatus(pool: seq<Server>, reports: seq<Report>, i: nat)
    requires i < |pool| == |reports|
    ensures var before, after := pool[i], RoundUpTo(pool, reports, |pool|)[i];
            && (after.status == BROKEN <==> reports[i].Down? || (reports[i].BadUrl? && before.status == BROKEN))
            && (reports[i].Down? ==> after.weight == WEIGHT_DEFAULT)
            && after.ip == before.ip && after.address == before.address
            && (after.weight != before.weight ==> reports[i].Down? || (reports[i].Page? && reports[i].idle >= 0))
            && (reports[i].Page? && reports[i].idle >= 0 && !Crashes(reports[i]) ==>
                  IsScore(after.weight, reports[i].idle, reports[i].idle + reports[i].busy))
  {
    hide Score, IsScore;
    var (outcome, after) := Scored(pool[i], reports[i]);
    ScoredIff(pool[i], after, reports[i], outcome);
  }

  /** A report that does not spoil the round comes from a server that was reached, or leaves it BROKEN. */
  lemma SpoilsNot(s: Server, r: Report)
    requires !Spoils(s, r) && Scored(s, r).1.status == READY
    ensures r.Page?
  {
  }

  /** After a round and the reset that it allows, every server that get_server hands out as READY was reached in that
      round and its status page was read. */
  lemma ReadyMeansReached(pool: seq<Server>, reports: seq<Report>, pattern: seq<Server>, sorted: seq<Server>,
                          weightSum: int, fuel: nat, k: nat)
    requires |pool| == |reports| && forall i :: 0 <= i < |pool| ==> !Spoils(pool[i], reports[i])
    requires multiset(sorted) == multiset(RoundUpTo(pool, reports, |pool|))
    requires W.Laid(pattern, true, sorted, weightSum, fuel) && k < |pattern| && pattern[k].status == READY
    ensures exists i :: 0 <= i < |pool| && pattern[k].ip == pool[i].ip && reports[i].Page?
  {
    hide W.SpinFor, W.Emitted, Scored, Spoils;
    var q := W.SpinFor(Weights(sorted), weightSum, fuel);
    var taken := W.Emitted(Weights(sorted), q.r, q.s);
    var entry := sorted[taken[k]];
    assert pattern[k].status == entry.status && pattern[k].ip == entry.ip;
    assert entry in multiset(sorted);
    var after := RoundUpTo(pool, reports, |pool|);
    assert entry in after;
    var i :| 0 <= i < |after| && after[i] == entry;
    RoundStatus(pool, reports, i);
    SpoilsNot(pool[i], reports[i]);
    assert pattern[k].ip == pool[i].ip && reports[i].Page?;
  }

  // ------------------------------------------------------------------ all rounds

  predicate PoolInRange(pool: seq<Server>) { forall i :: 0 <= i < |pool| ==> WeightInRange(pool[i].weight) }

  /** A report after which the entry's weight is in range, whatever the entry was, with no division by zero. */
  predicate ReportInRange(r: Report) {
    r.Page? && r.idle >= 0 ==>
      && r.idle + r.busy != 1
      && (if r.idle + r.busy >= 2 then
            (if r.idle == 0 then r.busy >= 6 else 4 * (r.idle - 1) < 5 * (r.idle + r.busy - 1))
          else r.idle <= 1 || 4 * (r.idle - 1) < 1 - r.idle - r.busy)
  }

  /** A report keeps the weight in range exactly when it is in range itself. */
  lemma ReportKeepsRangeIff(s: Server, r: Report)
    requires WeightInRange(s.weight)
    ensures !Crashes(r) && WeightInRange(Scored(s, r).1.weight) <==> ReportInRange(r)
  {
    if r.Page? && r.idle >= 0 && r.idle + r.busy != 1 {
      ScoreInRangeIff(r.idle, r.busy + r.idle);
    }
  }

  function Rounds(pool: seq<Server>, rounds: seq<seq<Report>>): (after: seq<Server>)
    requires forall k :: 0 <= k < |rounds| ==> |rounds[k]| == |pool|
    ensures |after| == |pool|
    decreases |rounds|
  {
    if rounds == [] then pool else Rounds(RoundUpTo(pool, rounds[0], |pool|), rounds[1..])
  }

  /** The pool built by init_scheduler, and every later one, has its weights in [1, 5] as long as all reports are in
      range, including the rounds in which servers are down or report nothing new. */
  lemma {:induction false} WeightsStayInRange(pool: seq<Server>, rounds: seq<seq<Report>>)
    requires PoolInRange(pool)
    requires forall k :: 0 <= k < |rounds| ==>
               |rounds[k]| == |pool| && (forall r :: r in rounds[k] ==> ReportInRange(r))
    ensures PoolInRange(Rounds(pool, rounds))
    decreases |rounds|
  {
    if rounds != [] {
      var next := RoundUpTo(pool, rounds[0], |pool|);
      forall i | 0 <= i < |pool|
        ensures WeightInRange(next[i].weight)
      {
        ReportKeepsRangeIff(pool[i], rounds[0][i]);
        assert rounds[0][i] in rounds[0];
      }
      WeightsStayInRange(next, rounds[1..]);
    }
  }

  /** The state-aware updater and its reset together: with the pool in range, the reset that follows a round comes
      to an end if and only if the new weights are already in non-decreasing pool order. */
  lemma ResetAfterRoundsEndsIff(pool: seq<Server>, rounds: seq<seq<Report>>, sorted: seq<Server>, weightSum: int)
    requires |pool| >= 1 && PoolInRange(pool)
    requires forall k :: 0 <= k < |rounds| ==>
               |rounds[k]| == |pool| && (forall r :: r in rounds[k] ==> ReportInRange(r))
    requires var now := Rounds(pool, rounds);
             && multiset(sorted) == multiset(now) && Sum(Weights(sorted)) == Sum(Weights(now))
             && weightSum >= Sum(Weights(now)) && (weightSum == Sum(Weights(now)) <==> Sorted(now))
    ensures |sorted| == |pool|
    ensures (exists fuel :: W.SpinFor(Weights(sorted), weightSum, fuel).halted) <==> Sorted(Rounds(pool, rounds))
  {
    WeightsStayInRange(pool, rounds);
    W.WeightServersTerminatesIff(Rounds(pool, rounds), sorted, weightSum);
  }

  /** Such a round exists: two servers, the first one idle and the second one busy.  The reset that follows it computes
      a weight sum with which the pattern loop never ends. */
  lemma ResetNeedNotEnd(a: Server, b: Server, sorted: seq<Server>, weightSum: int)
    requires a.weight == b.weight == WEIGHT_DEFAULT
    requires var now := Rounds([a, b], [[Page(10, 0), Page(1, 9)]]);
             && multiset(sorted) == multiset(now) && Sum(Weights(sorted)) == Sum(Weights(now))
             && weightSum >= Sum(Weights(now)) && (weightSum == Sum(Weights(now)) <==> Sorted(now))
    ensures (forall r :: r in [Page(10, 0), Page(1, 9)] ==> ReportInRange(r))
    ensures |sorted| == 2 && !exists fuel :: W.SpinFor(Weights(sorted), weightSum, fuel).halted
  {
    var reports := [Page(10, 0), Page(1, 9)];
    UnsortedRound(a, b);
    ResetAfterRoundsEndsIff([a, b], [reports], sorted, weightSum);
  }

  lemma UnsortedRound(a: Server, b: Server)
    requires a.weight == b.weight == WEIGHT_DEFAULT
    ensures !Sorted(Rounds([a, b], [[Page(10, 0), Page(1, 9)]]))
  {
    var reports := [Page(10, 0), Page(1, 9)];
    var now := RoundUpTo([a, b], reports, 2);
    assert Rounds([a, b], [reports]) == Rounds(now, []);
    assert Score(10, 10) == 5 && Score(1, 10) == 1;
    assert now[0].weight == 5 && now[1].weight == 1;
  }
}
