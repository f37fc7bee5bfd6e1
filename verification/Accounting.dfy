/**
  Time accounts over whole runs: what a live thread's record says about its running and waiting time
  is checked against its timeline, the plain list of states it entered and when the clock saw it.
 */
module Accounting {
  import opened Welford
  import opened Timekeeping
  import opened ThreadTable
  import opened Machine

  datatype Change = Change(state: State, at: Timeval)

  /** The slices of a timeline spent Running, or (with `running` false) spent Ready or Blocked. */
  function Slices(tl: seq<Change>, running: bool): seq<Timeval> {
    if |tl| <= 1 then []
    else
      var (before, after) := (tl[|tl| - 2], tl[|tl| - 1]);
      var rest := Slices(tl[..|tl| - 1], running);
      if (before.state == Running) == running then rest + [Subtract(after.at, before.at)] else rest
  }

  /** Running and waiting slices cover the whole timeline. */
  lemma {:induction false} SlicesTelescope(tl: seq<Change>)
    requires tl != []
    ensures Sum(Slices(tl, true)) + Sum(Slices(tl, false)) == Micros(tl[|tl| - 1].at) - Micros(tl[0].at)
  {
    if |tl| > 1 {
      hide Sum, Subtract, Micros;
      var rest, x := tl[..|tl| - 1], Subtract(tl[|tl| - 1].at, tl[|tl| - 2].at);
      SlicesTelescope(rest);
      SumExtend(Slices(rest, true), x);
      SumExtend(Slices(rest, false), x);
      assert rest[|rest| - 1] == tl[|tl| - 2];
    }
  }

  /** One statistics group, with its total, is that of the slices `xs`. */
  ghost predicate Reflects(total: Timeval, stats: SliceStats, xs: seq<Timeval>) {
    Micros(total) == Sum(xs) && stats == Replay(xs)
  }

  /** The thread's record is that of its timeline. */
  ghost predicate Accounted(th: Thread, tl: seq<Change>) {
    && tl != []
    && tl[|tl| - 1] == Change(th.state, th.account.lastChange)
    && th.state != Unused
    && Reflects(th.account.totalRunning, th.account.runs, Slices(tl, true))
    && Reflects(th.account.totalWaiting, th.account.waits, Slices(tl, false))
  }

  lemma SlicesExtend(tl: seq<Change>, next: Change, running: bool)
    requires tl != []
    ensures var last := tl[|tl| - 1];
            Slices(tl + [next], running) ==
            if (last.state == Running) == running then Slices(tl, running) + [Subtract(next.at, last.at)]
            else Slices(tl, running)
  {
    assert (tl + [next])[..|tl|] == tl;
    hide Subtract;
  }

  lemma ReflectsExtend(total: Timeval, stats: SliceStats, xs: seq<Timeval>, x: Timeval)
    requires Reflects(total, stats, xs)
    ensures Reflects(Add(total, x), RecordSlice(stats, x), xs + [x])
  {
    ReplayExtend(xs, x);
    SumExtend(xs, x);
    hide RecordSlice, Replay, Sum;
  }

  lemma MoveIsAccounted(th: Thread, tl: seq<Change>, state: State, now: Timeval)
    requires Accounted(th, tl) && state != th.state && state != Unused
    ensures Accounted(Move(th, state, now), tl + [Change(state, now)])
  {
    var a, elapsed := th.account, Subtract(now, th.account.lastChange);
    SlicesExtend(tl, Change(state, now), true);
    SlicesExtend(tl, Change(state, now), false);
    if th.state == Running {
      ReflectsExtend(a.totalRunning, a.runs, Slices(tl, true), elapsed);
    } else {
      ReflectsExtend(a.totalWaiting, a.waits, Slices(tl, false), elapsed);
    }
    hide Reflects, Slices, Subtract, Add, RecordSlice;
  }

  lemma NewThreadIsAccounted(priority: nat, lowest: nat, tickets: int, t0: Timeval, t1: Timeval, t2: Timeval)
    requires priority <= lowest
    ensures Accounted(NewThread(priority, lowest, tickets, t0, t1, t2), [Change(Ready, t2)])
  {
  }

  /** What a step adds to the timeline of slot `i`. */
  ghost function Observe(s: Sys, e: Event, i: nat, tl: seq<Change>): seq<Change>
    requires Inv(s) && Enabled(s, e) && i < |s.table|
  {
    var th, th' := s.table[i], Next(s, e).table[i];
    match e
    case Create(_, _, _, _, t2) =>
      if th.state == Unused && th'.state != Unused then [Change(Ready, t2)] else tl
    case Schedule(_, _, t0, t1) =>
      var stepped := if i == s.cur && th.state == Running then tl + [Change(Ready, t0)] else tl;
      if i == Next(s, e).cur then stepped + [Change(Running, t1)] else stepped
    case Exit(_, _, t1) =>
      if i == s.cur then []
      else if i == Next(s, e).cur then tl + [Change(Running, t1)]
      else tl
    case Wait(_, now) => if th.state != Blocked && th'.state == Blocked then tl + [Change(Blocked, now)] else tl
    case Post(_, now) => if th.state == Blocked && th'.state == Ready then tl + [Change(Ready, now)] else tl
    case TryWait(_) => tl
  }

  /** How a schedule call treats each slot: the old current thread steps down at the first clock
      reading, the pick starts at the second, and no other record changes. */
  lemma ScheduleMoves(s: Sys, picker: Picker, rand: nat, t0: Timeval, t1: Timeval, i: nat)
    requires Suspended(s) && i < |s.table|
    ensures |ScheduleStep(s, picker, rand, t0, t1).table| == |s.table|
    ensures var s' := ScheduleStep(s, picker, rand, t0, t1);
            var th := s.table[i].(skip := s'.table[i].skip);
            var down := if i == s.cur && th.state == Running then Move(th, Ready, t0) else th;
            && s'.table[i] == (if i == s'.cur then Move(down, Running, t1) else down)
            && (i == s'.cur ==> down.state == Ready)
  {
    PickInTable(s.table, s.cur, s.tickets, picker, rand);
    hide RoundRobin, PriorityScan, Lottery, Queued;
  }

  lemma SkipIsNotAccounted(th: Thread, tl: seq<Change>, skip: int)
    ensures Accounted(th, tl) ==> Accounted(th.(skip := skip), tl)
  {
  }

  lemma ScheduleIsAccounted(s: Sys, e: Event, i: nat, tl: seq<Change>)
    requires Inv(s) && Enabled(s, e) && IsSchedule(e) && i < |s.table|
    requires Live(s.table[i]) ==> Accounted(s.table[i], tl)
    ensures Live(Next(s, e).table[i]) ==> Accounted(Next(s, e).table[i], Observe(s, e, i, tl))
  {
    var z, t0 := Scanned(s, e), if e.Exit? then e.t1 else e.t0;
    ScannedSuspended(s, e);
    ScheduleNeverRevives(s, e);
    ScheduleMoves(z, e.picker, e.rand, t0, e.t1, i);
    assert z.cur == s.cur && (i != s.cur || e.Schedule? ==> z.table[i] == s.table[i]);
    hide Next, Inv, ScheduleStep, Suspended, Accounted, Move;
    var s' := Next(s, e);
    if Live(s.table[i]) && !(e.Exit? && i == s.cur) {
      var th := s.table[i].(skip := s'.table[i].skip);
      SkipIsNotAccounted(s.table[i], tl, s'.table[i].skip);
      if i == s.cur && th.state == Running {
        MoveIsAccounted(th, tl, Ready, t0);
        if i == s'.cur {
          MoveIsAccounted(Move(th, Ready, t0), tl + [Change(Ready, t0)], Running, e.t1);
        }
      } else if i == s'.cur {
        MoveIsAccounted(th, tl, Running, e.t1);
      }
    }
  }

  lemma OthersAreAccounted(s: Sys, e: Event, i: nat, tl: seq<Change>)
    requires Inv(s) && Enabled(s, e) && !IsSchedule(e) && i < |s.table|
    requires Live(s.table[i]) ==> Accounted(s.table[i], tl)
    ensures Live(Next(s, e).table[i]) ==> Accounted(Next(s, e).table[i], Observe(s, e, i, tl))
  {
    if e.Create? {
      CreateTouches(s, e, i);
      NewThreadIsAccounted(Clamp(e.priority, s.lowest), s.lowest, s.tickets, e.t0, e.t1, e.t2);
    } else if e.Post? && s.sems[e.sem].queue != [] {
      HeadIsBlocked(s, e.sem);
    }
    hide Accounted, Queued;
    if Live(s.table[i]) {
      if e.Wait? && i == s.cur {
        MoveIsAccounted(s.table[i], tl, Blocked, e.now);
      } else if e.Post? && s.table[i].state == Blocked {
        MoveIsAccounted(s.table[i], tl, Ready, e.now);
      }
    }
  }

  lemma CreateTouches(s: Sys, e: Event, i: nat)
    requires Inv(s) && Enabled(s, e) && e.Create? && i < |s.table|
    ensures var th, th' := s.table[i], Next(s, e).table[i];
            && (th' == th || (th.state == Unused &&
                  th' == NewThread(Clamp(e.priority, s.lowest), s.lowest, s.tickets, e.t0, e.t1, e.t2)))
  {
  }

  /** The timeline of slot `i` after a run. */
  ghost function Timeline(s: Sys, es: seq<Event>, i: nat, tl: seq<Change>): seq<Change>
    requires Inv(s) && Legal(s, es) && i < |s.table|
    decreases |es|
  {
    if es == [] then tl else Timeline(Next(s, es[0]), es[1..], i, Observe(s, es[0], i, tl))
  }

  lemma {:induction false} RunIsAccounted(s: Sys, es: seq<Event>, i: nat, tl: seq<Change>)
    requires Inv(s) && Legal(s, es) && i < |s.table|
    requires Live(s.table[i]) ==> Accounted(s.table[i], tl)
    ensures Live(Run(s, es).table[i]) ==> Accounted(Run(s, es).table[i], Timeline(s, es, i, tl))
    decreases |es|
  {
    hide Next, Inv, Accounted, Observe, Live;
    if es != [] {
      if IsSchedule(es[0]) {
        ScheduleIsAccounted(s, es[0], i, tl);
      } else {
        OthersAreAccounted(s, es[0], i, tl);
      }
      RunIsAccounted(Next(s, es[0]), es[1..], i, Observe(s, es[0], i, tl));
    }
  }

  /** The timelines at start-up: only the idle thread has begun. */
  function Begun(i: nat, t1: Timeval): seq<Change> {
    if i == 0 then [Change(Running, t1)] else []
  }

  /** The accounts of every live thread are exact after any run, whatever the clock does. */
  lemma AccountsAreExact(n: nat, lowest: nat, values: seq<nat>, t0: Timeval, t1: Timeval, es: seq<Event>, i: nat)
    requires n > 0 && i < n
    requires Legal(Initial(n, lowest, values, t0, t1), es)
    requires Live(Run(Initial(n, lowest, values, t0, t1), es).table[i])
    ensures var s0 := Initial(n, lowest, values, t0, t1);
            Accounted(Run(s0, es).table[i], Timeline(s0, es, i, Begun(i, t1)))
  {
    var s0 := Initial(n, lowest, values, t0, t1);
    assert Live(s0.table[i]) ==> Accounted(s0.table[i], Begun(i, t1));
    hide Next, Inv, Initial, Accounted, Live;
    RunIsAccounted(s0, es, i, Begun(i, t1));
  }

  /** Time conservation: running time plus waiting time is the time since the accounts were opened. */
  lemma TimeIsConserved(th: Thread, tl: seq<Change>)
    requires Accounted(th, tl)
    ensures Micros(th.account.totalRunning) + Micros(th.account.totalWaiting)
         == Micros(th.account.lastChange) - Micros(tl[0].at)
  {
    SlicesTelescope(tl);
  }

  /** An exiting thread is not charged for its last slice: its totals stay those of its last change of
      state, so they fall short of its running time by the time since then. */
  lemma ExitDropsLastSlice(s: Sys, e: Event)
    requires Inv(s) && Enabled(s, e) && e.Exit?
    ensures Next(s, e).table[s.cur].state == Unused && Next(s, e).table[s.cur].account == s.table[s.cur].account
  {
    ScannedSuspended(s, e);
    ScheduleNeverRevives(s, e);
    ScheduleMoves(Scanned(s, e), e.picker, e.rand, e.t1, e.t1, s.cur);
    hide ScheduleStep, Inv;
  }

  /** The averages agree with the totals, and the variances with the slices they summarise. */
  lemma StatisticsAgreeWithTotals(total: Timeval, stats: SliceStats, xs: seq<Timeval>)
    requires Reflects(total, stats, xs)
    ensures stats.count == |xs|
    ensures MeanOf(stats.moments.avg, stats.count as real, Micros(total) as real)
    ensures stats.moments.variance == Deviation(Values(xs), stats.moments.avg)
  {
    ReplayAccumulates(xs);
    MomentsExact(Values(xs));
    VarianceIsExact(Values(xs));
  }
}
