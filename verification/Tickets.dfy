/**
  The lottery picker as an allotment of draws: who wins on how many of the `total_tickets` draws,
  in any reachable state, whatever was created, exited and reused before.
 */
module Tickets {
  import opened Timekeeping
  import opened ThreadTable
  import opened Machine

  predicate Runnable(th: Thread) {
    th.state == Ready || th.state == Running
  }

  /** The slot the lottery picks on a draw. */
  ghost function Winner(s: Sys, draw: int): nat
    requires Suspended(s)
  {
    Lottery(s.table, s.cur, draw)
  }

  /** Where the draws that nobody owns go. */
  ghost function Fallback(s: Sys): nat
    requires Suspended(s)
  {
    RoundRobin(s.table, s.cur, s.cur)
  }

  /** The draws from `lo` to `hi`, both included. */
  function Interval(lo: int, hi: int): (r: set<int>)
    requires lo <= hi + 1
    ensures forall d :: d in r <==> lo <= d <= hi
    ensures |r| == hi + 1 - lo
    decreases hi + 1 - lo
  {
    if lo > hi then {} else Interval(lo, hi - 1) + {hi}
  }

  /** The draws that fall into a runnable thread's own range. */
  ghost function OwnDraws(s: Sys, i: nat): set<int>
    requires i < |s.table|
  {
    if Runnable(s.table[i]) && s.table[i].lo <= s.table[i].hi then Interval(s.table[i].lo, s.table[i].hi) else {}
  }

  ghost function AllDraws(s: Sys): set<int> {
    Interval(0, if s.tickets > 0 then s.tickets - 1 else -1)
  }

  /** The draws that fall into no runnable thread's range. */
  ghost function StrayDraws(s: Sys): set<int>
    requires Suspended(s)
  {
    set d | d in AllDraws(s) && forall i :: 0 <= i < |s.table| ==> d !in OwnDraws(s, i)
  }

  /** A runnable thread owns exactly P - priority + 1 of the draws; any other slot owns none. */
  lemma OwnShare(s: Sys, i: nat)
    requires Suspended(s) && i < |s.table|
    ensures OwnDraws(s, i) <= AllDraws(s)
    ensures |OwnDraws(s, i)| == if Runnable(s.table[i]) then s.lowest - s.table[i].priority + 1 else 0
  {
    hide Queued;
  }

  /** No draw belongs to two threads, so the order of the scan does not matter. */
  lemma OwnDrawsDisjoint(s: Sys, i: nat, j: nat)
    requires Suspended(s) && i < |s.table| && j < |s.table| && i != j
    ensures OwnDraws(s, i) !! OwnDraws(s, j)
  {
    hide Queued;
  }

  /** A draw in a thread's own range picks that thread, whatever slots come before it in the scan. */
  lemma OwnDrawWins(s: Sys, i: nat, draw: int)
    requires Suspended(s) && i < |s.table| && draw in OwnDraws(s, i)
    ensures Winner(s, draw) == i
  {
    var q := FirstWinner(s.table, draw, 0);
    assert q <= i && Wins(s.table[q], draw);
    hide Queued;
  }

  /** Any other draw falls to the one thread round robin would choose. */
  lemma StrayDrawFallsBack(s: Sys, draw: int)
    requires Suspended(s) && draw in StrayDraws(s)
    ensures Winner(s, draw) == Fallback(s)
  {
    var q := FirstWinner(s.table, draw, 0);
    assert q < |s.table| ==> draw in OwnDraws(s, q);
  }

  /** The draws that pick slot `i`. */
  ghost function WinningDraws(s: Sys, i: nat): set<int>
    requires Suspended(s)
  {
    set d | d in AllDraws(s) && Winner(s, d) == i
  }

  lemma DrawIsOwnOrStray(s: Sys, i: nat, d: int)
    requires Suspended(s) && i < |s.table| && d in AllDraws(s)
    ensures d in WinningDraws(s, i) <==>
            d in OwnDraws(s, i) || (i == Fallback(s) && d in StrayDraws(s))
    ensures !(d in OwnDraws(s, i) && d in StrayDraws(s))
  {
    if d in StrayDraws(s) {
      StrayDrawFallsBack(s, d);
    } else {
      var j :| 0 <= j < |s.table| && d in OwnDraws(s, j);
      OwnDrawWins(s, j, d);
      if d in OwnDraws(s, i) {
        OwnDrawWins(s, i, d);
      }
    }
  }

  lemma WinningDrawsAre(s: Sys, i: nat)
    requires Suspended(s) && i < |s.table|
    ensures WinningDraws(s, i) ==
            OwnDraws(s, i) + (if i == Fallback(s) then StrayDraws(s) else {})
    ensures OwnDraws(s, i) !! StrayDraws(s)
  {
    hide *;
    DrawsWithinAll(s, i);
    var all, own, stray := AllDraws(s), OwnDraws(s, i), StrayDraws(s);
    forall d | d in all
      ensures d in WinningDraws(s, i) <==> d in own || (i == Fallback(s) && d in stray)
      ensures !(d in own && d in stray)
    {
      DrawIsOwnOrStray(s, i, d);
    }
  }

  lemma DrawsWithinAll(s: Sys, i: nat)
    requires Suspended(s) && i < |s.table|
    ensures WinningDraws(s, i) <= AllDraws(s) && StrayDraws(s) <= AllDraws(s) && OwnDraws(s, i) <= AllDraws(s)
  {
    OwnShare(s, i);
    hide Suspended, Winner;
  }

  /** Shares of the runnable threads among the first `n` slots. */
  ghost function Shares(s: Sys, n: nat): int
    requires n <= |s.table|
  {
    if n == 0 then 0
    else Shares(s, n - 1) + (if Runnable(s.table[n - 1]) then s.lowest - s.table[n - 1].priority + 1 else 0)
  }

  ghost function DrawsOfFirst(s: Sys, n: nat): set<int>
    requires n <= |s.table|
  {
    if n == 0 then {} else DrawsOfFirst(s, n - 1) + OwnDraws(s, n - 1)
  }

  lemma {:induction false} DrawsOfFirstInclude(s: Sys, n: nat, i: nat)
    requires i < n <= |s.table|
    ensures OwnDraws(s, i) <= DrawsOfFirst(s, n)
  {
    hide OwnDraws;
    if i < n - 1 {
      DrawsOfFirstInclude(s, n - 1, i);
    }
  }

  lemma {:induction false} DrawsOfFirstAreOwned(s: Sys, n: nat, d: int)
    requires n <= |s.table| && d in DrawsOfFirst(s, n)
    ensures exists i :: 0 <= i < n && d in OwnDraws(s, i)
  {
    hide OwnDraws;
    if d !in OwnDraws(s, n - 1) {
      DrawsOfFirstAreOwned(s, n - 1, d);
    }
  }

  lemma DisjointUnion(a: set<int>, b: set<int>)
    requires a !! b
    ensures |a + b| == |a| + |b|
  {
  }

  lemma NextDrawsAreNew(s: Sys, n: nat)
    requires Suspended(s) && n < |s.table|
    ensures DrawsOfFirst(s, n) !! OwnDraws(s, n)
  {
    hide *;
    var before := DrawsOfFirst(s, n);
    forall d | d in before
      ensures d !in OwnDraws(s, n)
    {
      DrawsOfFirstAreOwned(s, n, d);
      var i :| 0 <= i < n && d in OwnDraws(s, i);
      OwnDrawsDisjoint(s, i, n);
    }
  }

  lemma {:induction false} DrawsOfFirstCount(s: Sys, n: nat)
    requires Suspended(s) && n <= |s.table|
    ensures |DrawsOfFirst(s, n)| == Shares(s, n)
  {
    hide Suspended, OwnDraws, Runnable;
    if n > 0 {
      DrawsOfFirstCount(s, n - 1);
      OwnShare(s, n - 1);
      NextDrawsAreNew(s, n - 1);
      DisjointUnion(DrawsOfFirst(s, n - 1), OwnDraws(s, n - 1));
    }
  }

  lemma DrawIsOwnedOrStray(s: Sys, d: int)
    requires Suspended(s)
    ensures d in AllDraws(s) <==> d in DrawsOfFirst(s, |s.table|) || d in StrayDraws(s)
    ensures !(d in DrawsOfFirst(s, |s.table|) && d in StrayDraws(s))
  {
    if d in DrawsOfFirst(s, |s.table|) {
      DrawsOfFirstAreOwned(s, |s.table|, d);
      var i :| 0 <= i < |s.table| && d in OwnDraws(s, i);
      OwnShare(s, i);
    } else if d in AllDraws(s) {
      forall i | 0 <= i < |s.table|
        ensures d !in OwnDraws(s, i)
      {
        DrawsOfFirstInclude(s, |s.table|, i);
      }
    }
  }

  lemma StrayCount(s: Sys)
    requires Suspended(s)
    ensures |StrayDraws(s)| == s.tickets - Shares(s, |s.table|)
  {
    var own := DrawsOfFirst(s, |s.table|);
    DrawsOfFirstCount(s, |s.table|);
    assert |AllDraws(s)| == s.tickets;
    hide Suspended, DrawsOfFirst, StrayDraws, AllDraws, Shares;
    forall d
      ensures d in AllDraws(s) <==> d in own || d in StrayDraws(s)
      ensures !(d in own && d in StrayDraws(s))
    {
      DrawIsOwnedOrStray(s, d);
    }
    assert AllDraws(s) == own + StrayDraws(s);
    DisjointUnion(own, StrayDraws(s));
  }

  /** The exact odds of the lottery in any reachable state: of the `total_tickets` equally likely draws
      a runnable thread wins its own P - priority + 1, and the draws nobody owns (those of blocked and
      of dead threads) all go to the round-robin choice. */
  lemma LotteryOdds(s: Sys, i: nat)
    requires Suspended(s) && i < |s.table|
    ensures |WinningDraws(s, i)| ==
            (if Runnable(s.table[i]) then s.lowest - s.table[i].priority + 1 else 0)
            + (if i == Fallback(s) then s.tickets - Shares(s, |s.table|) else 0)
  {
    OwnShare(s, i);
    WinningDrawsAre(s, i);
    StrayCount(s);
    hide Suspended, WinningDraws, OwnDraws, StrayDraws, Fallback, Shares;
  }

  /** The counts over all draws add up to the number of tickets. */
  ghost function Counts(s: Sys, n: nat): int
    requires Suspended(s) && n <= |s.table|
  {
    if n == 0 then 0 else Counts(s, n - 1) + |WinningDraws(s, n - 1)|
  }

  lemma {:induction false} CountsOfFirst(s: Sys, n: nat)
    requires Suspended(s) && n <= |s.table|
    ensures Counts(s, n) == Shares(s, n)
            + (if Fallback(s) < n then s.tickets - Shares(s, |s.table|) else 0)
  {
    hide Suspended, WinningDraws, Fallback;
    if n > 0 {
      CountsOfFirst(s, n - 1);
      LotteryOdds(s, n - 1);
    }
  }

  lemma EveryDrawIsWon(s: Sys)
    requires Suspended(s)
    ensures Counts(s, |s.table|) == s.tickets
  {
    RoundRobinIsFirstReady(s.table, s.cur);
    CountsOfFirst(s, |s.table|);
  }

  /** The draw of a schedule call is one of the draws counted here. */
  lemma ScheduleDraws(s: Sys, rand: nat)
    requires Suspended(s)
    ensures rand % s.tickets in AllDraws(s)
    ensures Pick(s.table, s.cur, s.tickets, ByLottery, rand).0 == Winner(s, rand % s.tickets)
  {
  }

  // ----- every ticket has an owner ------------------------------------------------------------------

  ghost predicate Owns(s: Sys, i: nat, ticket: int) {
    i < |s.table| && Live(s.table[i]) && s.table[i].lo <= ticket <= s.table[i].hi
  }

  ghost predicate Owned(s: Sys, ticket: int) {
    exists i: nat :: Owns(s, i, ticket)
  }

  ghost predicate AllOwned(s: Sys) {
    forall ticket :: 0 <= ticket < s.tickets ==> Owned(s, ticket)
  }

  lemma InitiallyOwned(n: nat, lowest: nat, values: seq<nat>, t0: Timeval, t1: Timeval)
    requires n > 0
    ensures AllOwned(Initial(n, lowest, values, t0, t1))
  {
    hide Inv;
    var s := Initial(n, lowest, values, t0, t1);
    forall ticket | 0 <= ticket < s.tickets
      ensures Owned(s, ticket)
    {
      assert Owns(s, 0, ticket);
    }
  }

  /** No call but an exit takes a ticket from its owner. */
  lemma OwnersKeep(s: Sys, e: Event, i: nat, ticket: int)
    requires Inv(s) && Enabled(s, e) && !e.Exit? && Owns(s, i, ticket)
    ensures Owns(Next(s, e), i, ticket)
  {
    if e.Schedule? {
      ScheduleStates(s, e.picker, e.rand, e.t0, e.t1);
      hide Inv, Queued, TicketsAllotted;
    } else if e.Post? && s.sems[e.sem].queue != [] {
      HeadIsBlocked(s, e.sem);
    }
  }

  lemma NewTicketsAreOwned(s: Sys, e: Event, ticket: int)
    requires Inv(s) && Enabled(s, e) && !e.Exit? && s.tickets <= ticket < Next(s, e).tickets
    ensures Owned(Next(s, e), ticket)
  {
    if e.Create? {
      var q := FirstUnused(s.table, 0);
      if e.hasMemory && q < |s.table| {
        CreateMakesThread(s, q, e.priority, e.t0, e.t1, e.t2);
        assert Owns(Next(s, e), q, ticket);
      }
    }
    hide Inv;
  }

  lemma StepKeepsOwned(s: Sys, e: Event)
    requires Inv(s) && Enabled(s, e) && !e.Exit? && AllOwned(s)
    ensures AllOwned(Next(s, e))
  {
    hide Next, Inv, Owns;
    var s' := Next(s, e);
    forall ticket | 0 <= ticket < s'.tickets
      ensures Owned(s', ticket)
    {
      if ticket < s.tickets {
        assert Owned(s, ticket);
        var i: nat :| Owns(s, i, ticket);
        OwnersKeep(s, e, i, ticket);
      } else {
        NewTicketsAreOwned(s, e, ticket);
      }
    }
  }

  lemma {:induction false} RunKeepsOwned(s: Sys, es: seq<Event>)
    requires Inv(s) && Legal(s, es) && AllOwned(s) && forall k :: 0 <= k < |es| ==> !es[k].Exit?
    ensures AllOwned(Run(s, es))
    decreases |es|
  {
    hide Next, Inv, AllOwned;
    if es != [] {
      StepKeepsOwned(s, es[0]);
      RunKeepsOwned(Next(s, es[0]), es[1..]);
    }
  }

  /** As long as no thread exits, the live threads share out all tickets: after any such run from start-up
      every ticket below the counter belongs to exactly one of them. */
  lemma TicketsArePartitioned(n: nat, lowest: nat, values: seq<nat>, t0: Timeval, t1: Timeval, es: seq<Event>,
                              ticket: int)
    requires n > 0 && Legal(Initial(n, lowest, values, t0, t1), es) && forall k :: 0 <= k < |es| ==> !es[k].Exit?
    ensures var s := Run(Initial(n, lowest, values, t0, t1), es);
            && (0 <= ticket < s.tickets <==> Owned(s, ticket))
            && forall i: nat, j: nat :: Owns(s, i, ticket) && Owns(s, j, ticket) ==> i == j
  {
    var s0 := Initial(n, lowest, values, t0, t1);
    InitiallyOwned(n, lowest, values, t0, t1);
    hide Next, Inv, Initial, Owns, Owned, Legal, Run;
    RunKeepsOwned(s0, es);
    OneOwner(Run(s0, es), ticket);
  }

  lemma OneOwner(s: Sys, ticket: int)
    requires Inv(s)
    ensures Owned(s, ticket) ==> 0 <= ticket < s.tickets
    ensures forall i: nat, j: nat :: Owns(s, i, ticket) && Owns(s, j, ticket) ==> i == j
  {
    hide Queued;
  }
}
