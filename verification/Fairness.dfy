/**
  Bounded waiting, proportional share and bounded wake-up, over whole runs of the library.

  A run is a legal list of steps from any state that satisfies the invariant; creates, exits,
  waits and posts may be interleaved with the schedule calls in any way.
 */
module Fairness {
  import opened ThreadTable
  import opened Machine
  import opened Semaphores

  ghost predicate AllBy(es: seq<Event>, picker: Picker) {
    forall k :: 0 <= k < |es| && IsSchedule(es[k]) ==> es[k].picker == picker
  }

  function Schedules(es: seq<Event>): nat {
    if es == [] then 0 else (if es[0].Schedule? || es[0].Exit? then 1 else 0) + Schedules(es[1..])
  }

  /** How many slots a schedule call moves the current position forward. */
  ghost function Advance(s: Sys, e: Event): nat
    requires Inv(s) && Enabled(s, e)
  {
    if IsSchedule(e) then
      ScheduleNeverRevives(s, e);
      Distance(s.cur, Next(s, e).cur, |s.table|)
    else 0
  }

  ghost function TotalAdvance(s: Sys, es: seq<Event>): nat
    requires Inv(s) && Legal(s, es)
    decreases |es|
  {
    if es == [] then 0 else Advance(s, es[0]) + TotalAdvance(Next(s, es[0]), es[1..])
  }

  /** Some schedule call of the run picks thread `i`. */
  ghost predicate PickedDuring(s: Sys, es: seq<Event>, i: nat)
    requires Inv(s) && Legal(s, es)
    decreases |es|
  {
    es != [] && ((IsSchedule(es[0]) && Next(s, es[0]).cur == i) || PickedDuring(Next(s, es[0]), es[1..], i))
  }

  /** The bounds every slot obeys. */
  lemma SlotBounds(s: Sys, i: nat)
    requires Inv(s) && i < |s.table|
    ensures s.cur < |s.table| && s.table[s.cur].state != Ready
    ensures 0 <= s.table[i].priority && 0 <= s.table[i].skip
    ensures i != 0 && Live(s.table[i]) ==> s.table[i].skip <= s.table[i].priority
  {
  }

  // ----- bounded waiting ----------------------------------------------------------------------

  /** How far the current position must advance until the Ready thread `i` is picked. */
  ghost function Remaining(s: Sys, picker: Picker, i: nat): nat
    requires Inv(s) && i < |s.table|
  {
    if picker == ByPriority then Residual(s.table, s.cur, i) else Distance(s.cur, i, |s.table|)
  }

  /** The current thread after a schedule call is the picker's choice. */
  lemma SchedulePicks(s: Sys, e: Event)
    requires Inv(s) && Enabled(s, e) && IsSchedule(e)
    ensures var z := Scanned(s, e);
            Next(s, e).cur == Pick(z.table, z.cur, z.tickets, e.picker, e.rand).0
  {
    ScannedSuspended(s, e);
  }

  /** A thread that is neither switched from nor switched to changes only in its skip count. */
  lemma ScheduleKeepsOthers(s: Sys, e: Event, i: nat)
    requires Inv(s) && Enabled(s, e) && IsSchedule(e) && i < |s.table|
    ensures var s', z := Next(s, e), Scanned(s, e);
            && |z.table| == |s.table| && |Pick(z.table, z.cur, z.tickets, e.picker, e.rand).1| == |s.table|
            && s'.table[i].priority == s.table[i].priority
            && s'.table[i].skip == Pick(z.table, z.cur, z.tickets, e.picker, e.rand).1[i].skip
            && (i != s.cur && i != s'.cur ==> s'.table[i] == s.table[i].(skip := s'.table[i].skip))
  {
    ScannedSuspended(s, e);
    hide Next, Inv, RoundRobin, PriorityScan;
    var z := Scanned(s, e);
    PickInTable(z.table, z.cur, z.tickets, e.picker, e.rand);
  }

  /** The residual of a slot depends on nothing but its position and its ageing. */
  lemma ResidualCongruence(t: Table, u: Table, from: nat, i: nat)
    requires from < |t| == |u| && i < |t|
    requires t[i].priority == u[i].priority && t[i].skip == u[i].skip
    ensures Residual(t, from, i) == Residual(u, from, i)
  {
  }

  lemma ScannedKeepsReady(s: Sys, e: Event, i: nat)
    requires Inv(s) && Enabled(s, e) && IsSchedule(e) && i < |s.table| && s.table[i].state == Ready
    ensures var z := Scanned(s, e);
            |z.table| == |s.table| && z.cur == s.cur && z.table[i] == s.table[i] && Anchored(z.table, z.cur)
  {
    ScannedSuspended(s, e);
  }

  lemma PriorityLowersRemaining(s: Sys, e: Event, i: nat)
    requires Inv(s) && Enabled(s, e) && IsSchedule(e) && e.picker == ByPriority
    requires i < |s.table| && s.table[i].state == Ready
    ensures var s' := Next(s, e);
            && 1 <= Advance(s, e) <= Remaining(s, ByPriority, i)
            && (s'.cur == i <==> Advance(s, e) == Remaining(s, ByPriority, i))
            && (s'.cur != i ==> Remaining(s', ByPriority, i) == Remaining(s, ByPriority, i) - Advance(s, e))
  {
    ScannedSuspended(s, e);
    SchedulePicks(s, e);
    ScheduleKeepsOthers(s, e, i);
    var s', z := Next(s, e), Scanned(s, e);
    ScannedKeepsReady(s, e, i);
    hide Next, Inv, Suspended, PriorityScan, Residual;
    var r := PriorityScan(z.table, z.cur, z.cur);
    PriorityScanFrame(z.table, z.cur, z.cur);
    PriorityScanExact(z.table, z.cur, i);
    ResidualCongruence(s.table, z.table, s.cur, i);
    if s'.cur != i {
      ResidualCongruence(s'.table, r.table, s'.cur, i);
    }
  }

  lemma TurnLowersRemaining(s: Sys, e: Event, i: nat)
    requires Inv(s) && Enabled(s, e) && IsSchedule(e) && e.picker == ByTurn
    requires i < |s.table| && s.table[i].state == Ready
    ensures var s' := Next(s, e);
            && 1 <= Advance(s, e) <= Remaining(s, ByTurn, i)
            && (s'.cur == i <==> Advance(s, e) == Remaining(s, ByTurn, i))
            && (s'.cur != i ==> Remaining(s', ByTurn, i) == Remaining(s, ByTurn, i) - Advance(s, e))
  {
    RoundRobinIsNext(s, e);
    ScannedKeepsReady(s, e, i);
    hide Next, Inv, RoundRobin, Anchored;
    RoundRobinIsFirstReady(Scanned(s, e).table, s.cur);
  }

  lemma RoundRobinIsNext(s: Sys, e: Event)
    requires Inv(s) && Enabled(s, e) && IsSchedule(e) && e.picker == ByTurn
    ensures var z, s' := Scanned(s, e), Next(s, e);
            z.cur == s.cur && Anchored(z.table, z.cur) && s'.cur == RoundRobin(z.table, z.cur, z.cur)
            && |s'.table| == |s.table|
  {
    ScannedSuspended(s, e);
    SchedulePicks(s, e);
    hide Next, Inv, RoundRobin;
  }

  /** One schedule call: the remaining distance of a Ready thread falls by exactly the slots passed,
      and the thread is picked exactly when it falls to zero. */
  lemma ScheduleLowersRemaining(s: Sys, e: Event, i: nat)
    requires Inv(s) && Enabled(s, e) && IsSchedule(e) && e.picker != ByLottery
    requires i < |s.table| && s.table[i].state == Ready
    ensures var s' := Next(s, e);
            && 1 <= Advance(s, e) <= Remaining(s, e.picker, i)
            && (s'.cur == i <==> Advance(s, e) == Remaining(s, e.picker, i))
            && (s'.cur != i ==>
                  && s'.table[i].state == Ready && s'.table[i].priority == s.table[i].priority
                  && Remaining(s', e.picker, i) == Remaining(s, e.picker, i) - Advance(s, e))
  {
    ScheduleKeepsOthers(s, e, i);
    assert s.table[s.cur].state != Ready;
    hide Next, Inv, Remaining, Advance;
    if e.picker == ByPriority {
      PriorityLowersRemaining(s, e, i);
    } else {
      TurnLowersRemaining(s, e, i);
    }
  }

  lemma OthersKeepReady(s: Sys, e: Event, i: nat)
    requires Inv(s) && Enabled(s, e) && !IsSchedule(e) && i < |s.table| && s.table[i].state == Ready
    ensures var s' := Next(s, e);
            |s'.table| == |s.table| && s'.cur == s.cur && s'.table[i] == s.table[i]
  {
    if e.Post? && s.sems[e.sem].queue != [] {
      HeadIsBlocked(s, e.sem);
    }
    hide Inv, Idle, Queued;
  }

  /** Any other call leaves a Ready thread where it is. */
  lemma OthersKeepRemaining(s: Sys, e: Event, i: nat, picker: Picker)
    requires Inv(s) && Enabled(s, e) && !IsSchedule(e)
    requires i < |s.table| && s.table[i].state == Ready
    ensures var s' := Next(s, e);
            && s'.cur == s.cur
            && s'.table[i] == s.table[i]
            && Remaining(s', picker, i) == Remaining(s, picker, i)
  {
    OthersKeepReady(s, e, i);
    hide Next, Inv;
  }

  /** Exact waiting time: a Ready thread is picked during a run exactly when the current position
      advances by its remaining distance, whatever else happens in between. */
  lemma {:induction false} PickedExactlyAtRemaining(s: Sys, es: seq<Event>, i: nat, picker: Picker)
    requires Inv(s) && Legal(s, es) && AllBy(es, picker) && picker != ByLottery
    requires i < |s.table| && s.table[i].state == Ready
    ensures PickedDuring(s, es, i) <==> TotalAdvance(s, es) >= Remaining(s, picker, i)
    decreases |es|
  {
    hide Next, Inv;
    SlotBounds(s, i);
    assert Remaining(s, picker, i) >= 1;
    if es != [] {
      var e, s' := es[0], Next(s, es[0]);
      if IsSchedule(e) {
        ScheduleLowersRemaining(s, e, i);
        if s'.cur != i {
          PickedExactlyAtRemaining(s', es[1..], i, picker);
        }
      } else {
        OthersKeepRemaining(s, e, i, picker);
        PickedExactlyAtRemaining(s', es[1..], i, picker);
      }
    }
  }

  lemma AdvanceBounds(s: Sys, e: Event)
    requires Inv(s) && Enabled(s, e)
    ensures if IsSchedule(e) then 1 <= Advance(s, e) <= |s.table| else Advance(s, e) == 0 && Next(s, e).cur == s.cur
  {
  }

  lemma TimesSuccessor(n: int, k: int)
    ensures (1 + k) * n == n + k * n && n * (1 + k) == n + n * k
  {
  }

  lemma {:induction false} EveryScheduleAdvances(s: Sys, es: seq<Event>)
    requires Inv(s) && Legal(s, es)
    ensures Schedules(es) <= TotalAdvance(s, es) <= Schedules(es) * |s.table|
    decreases |es|
  {
    hide Next, Inv, Advance;
    if es != [] {
      AdvanceBounds(s, es[0]);
      EveryScheduleAdvances(Next(s, es[0]), es[1..]);
      TimesSuccessor(|s.table|, Schedules(es[1..]));
    }
  }

  /** Bounded waiting: a Ready thread runs within as many schedule calls as its remaining distance. */
  lemma BoundedWaiting(s: Sys, es: seq<Event>, i: nat, picker: Picker)
    requires Inv(s) && Legal(s, es) && AllBy(es, picker) && picker != ByLottery
    requires i < |s.table| && s.table[i].state == Ready
    requires Schedules(es) >= Remaining(s, picker, i)
    ensures PickedDuring(s, es, i)
  {
    hide Next, Inv;
    EveryScheduleAdvances(s, es);
    PickedExactlyAtRemaining(s, es, i, picker);
  }

  /** One slot less than a turn of the table for plain round robin, than `priority + 1` turns with priorities. */
  function WorstWait(picker: Picker, n: nat, priority: int): int {
    (if picker == ByPriority then n * (priority + 1) else n) - 1
  }

  /** A bound that does not depend on the moment. */
  lemma RemainingBound(s: Sys, picker: Picker, i: nat)
    requires Inv(s) && i < |s.table| && s.table[i].state == Ready
    ensures Remaining(s, picker, i) <= WorstWait(picker, |s.table|, s.table[i].priority)
  {
    hide Inv;
    SlotBounds(s, i);
    var k, p, n := Max(0, s.table[i].priority - s.table[i].skip), s.table[i].priority, |s.table|;
    TurnsIsProduct(n, k);
    ProductsGrow(n, k, p);
  }

  lemma ProductsGrow(n: nat, k: int, p: int)
    requires k <= p
    ensures n * k + n <= n * (p + 1)
  {
    assert n * (p + 1) == n * p + n;
    assert n * (p - k) == n * p - n * k;
  }

  // ----- bounded wake-up ------------------------------------------------------------------------

  lemma ScheduleKeepsBlocked(s: Sys, e: Event, i: nat)
    requires Inv(s) && Enabled(s, e) && IsSchedule(e) && i < |s.table| && s.table[i].state == Blocked
    ensures Next(s, e).table[i].state == Blocked && Next(s, e).table[i].priority == s.table[i].priority
    ensures Next(s, e).sems == s.sems
  {
    ScheduleNeverRevives(s, e);
    ScannedSuspended(s, e);
    ScheduleStates(Scanned(s, e), e.picker, e.rand, if e.Exit? then e.t1 else e.t0, e.t1);
  }

  /** A Blocked thread only changes state when a post pops it. */
  lemma OthersKeepBlocked(s: Sys, e: Event, i: nat)
    requires Inv(s) && Enabled(s, e) && !IsSchedule(e) && i < |s.table| && s.table[i].state == Blocked
    ensures var popped := e.Post? && s.sems[e.sem].queue != [] && s.sems[e.sem].queue[0] == i;
            Next(s, e).table[i].state == (if popped then Ready else Blocked)
    ensures Next(s, e).table[i].priority == s.table[i].priority
  {
    hide Queued, TicketsAllotted, BlockedIffQueuedOnce;
  }

  /** What a call does to a queue: a post takes the head off, a wait may append. */
  lemma OthersMoveQueue(s: Sys, e: Event, k: nat)
    requires Inv(s) && Enabled(s, e) && !IsSchedule(e) && k < |s.sems|
    ensures var before, after := s.sems[k].queue, Next(s, e).sems[k].queue;
            if IsPost(e, k) && before != [] then after == before[1..]
            else |before| <= |after| && after[..|before|] == before
  {
    hide Queued, TicketsAllotted, BlockedIffQueuedOnce, Priorities;
  }

  /** One step moves a queued thread exactly one place forward when it is a post on that semaphore,
      wakes it when it was at the head, and otherwise leaves it where it is. */
  lemma QueuePlace(s: Sys, e: Event, k: nat, q: nat)
    requires Inv(s) && Enabled(s, e) && k < |s.sems| && q < |s.sems[k].queue|
    ensures var s', i := Next(s, e), s.sems[k].queue[q];
            && i < |s.table|
            && s.table[i].state == Blocked
            && s'.table[i].priority == s.table[i].priority
            && (!IsPost(e, k) ==>
                  s'.table[i].state == Blocked && q < |s'.sems[k].queue| && s'.sems[k].queue[q] == i)
            && (IsPost(e, k) && q > 0 ==>
                  s'.table[i].state == Blocked && q - 1 < |s'.sems[k].queue| && s'.sems[k].queue[q - 1] == i)
            && (IsPost(e, k) && q == 0 ==> s'.table[i].state == Ready)
  {
    hide Next, Inv;
    QueuedIsBlocked(s, k, q);
    var i := s.sems[k].queue[q];
    if IsSchedule(e) {
      ScheduleKeepsBlocked(s, e, i);
    } else {
      OthersKeepBlocked(s, e, i);
      OthersMoveQueue(s, e, k);
      var before, after := s.sems[k].queue, Next(s, e).sems[k].queue;
      if !IsPost(e, k) {
        assert after[..|before|][q] == before[q];
      }
      if e.Post? && s.sems[e.sem].queue != [] {
        PlaceIsUniqueIn(s, k, q, e.sem, 0);
      }
    }
  }

  lemma PlaceIsUniqueIn(s: Sys, k: nat, q: nat, h: nat, p: nat)
    requires Inv(s) && k < |s.sems| && q < |s.sems[k].queue| && h < |s.sems| && p < |s.sems[h].queue|
    ensures s.sems[k].queue[q] == s.sems[h].queue[p] ==> k == h && q == p
  {
    PlaceIsUnique(s, k, q, h, p);
  }

  /** The schedule calls of `es` that come after the `m`-th post on semaphore `k`. */
  function SchedulesAfterPosts(es: seq<Event>, k: nat, m: nat): nat
    decreases |es|
  {
    if m == 0 then Schedules(es)
    else if es == [] then 0
    else SchedulesAfterPosts(es[1..], k, if IsPost(es[0], k) then m - 1 else m)
  }

  /** A thread at place `q` of a queue stays Blocked, moving up one place per post, through any run
      with at most `q` posts on its semaphore: only the next post after those can wake it. */
  lemma {:induction false} BlockedUntilItsPost(s: Sys, es: seq<Event>, k: nat, q: nat)
    requires Inv(s) && Legal(s, es) && k < |s.sems| && q < |s.sems[k].queue| && Posts(es, k) <= q
    ensures var s', i, p := Run(s, es), s.sems[k].queue[q], q - Posts(es, k);
            && i < |s'.table| && s'.table[i].state == Blocked
            && k < |s'.sems| && p < |s'.sems[k].queue| && s'.sems[k].queue[p] == i
    decreases |es|
  {
    hide Next, Inv;
    QueuedIsBlocked(s, k, q);
    if es != [] {
      QueuePlace(s, es[0], k, q);
      BlockedUntilItsPost(Next(s, es[0]), es[1..], k, if IsPost(es[0], k) then q - 1 else q);
    }
  }

  /** ... and that next post does wake it. */
  lemma WokenByItsPost(s: Sys, es: seq<Event>, k: nat, q: nat, post: Event)
    requires Inv(s) && Legal(s, es) && k < |s.sems| && q < |s.sems[k].queue| && Posts(es, k) == q
    requires Enabled(Run(s, es), post) && IsPost(post, k)
    ensures var s', i := Next(Run(s, es), post), s.sems[k].queue[q];
            i < |s'.table| && s'.table[i].state == Ready
  {
    hide Next, Inv;
    BlockedUntilItsPost(s, es, k, q);
    QueuePlace(Run(s, es), post, k, 0);
  }

  /** End to end: a thread at place `q` of a queue has run once `q + 1` posts on its semaphore have
      been followed by N - 1 schedule calls of plain round robin, or N (priority + 1) - 1 with priorities. */
  lemma {:induction false} BoundedWakeup(s: Sys, es: seq<Event>, k: nat, q: nat, picker: Picker)
    requires Inv(s) && Legal(s, es) && AllBy(es, picker) && picker != ByLottery
    requires k < |s.sems| && q < |s.sems[k].queue| && s.sems[k].queue[q] < |s.table|
    requires SchedulesAfterPosts(es, k, q + 1) >= WorstWait(picker, |s.table|, s.table[s.sems[k].queue[q]].priority)
    ensures PickedDuring(s, es, s.sems[k].queue[q])
    decreases |es|
  {
    hide Next, Inv;
    var i := s.sems[k].queue[q];
    SlotBounds(s, i);
    QueuedIsBlocked(s, k, q);
    BlockedIsNotIdle(s, i);
    WorstWaitIsPositive(picker, |s.table|, s.table[i].priority);
    if es == [] {
      assert false;
    } else {
      var e, s' := es[0], Next(s, es[0]);
      QueuePlace(s, e, k, q);
      if IsPost(e, k) && q == 0 {
        RemainingBound(s', picker, i);
        BoundedWaiting(s', es[1..], i, picker);
      } else {
        BoundedWakeup(s', es[1..], k, if IsPost(e, k) then q - 1 else q, picker);
      }
    }
  }

  lemma WorstWaitIsPositive(picker: Picker, n: nat, p: int)
    requires n > 1 && p >= 0
    ensures WorstWait(picker, n, p) > 0
  {
    assert n * (p + 1) == n * p + n;
  }

  lemma BlockedIsNotIdle(s: Sys, i: nat)
    requires Inv(s) && i < |s.table| && s.table[i].state == Blocked
    ensures |s.table| > 1
  {
  }

  // ----- exact proportional share -----------------------------------------------------------------

  /** The scan of this call passes over, or stops at, slot `i`. */
  ghost predicate LandsOn(s: Sys, e: Event, i: nat)
    requires Inv(s) && Enabled(s, e) && i < |s.table|
  {
    IsSchedule(e) && Distance(s.cur, i, |s.table|) <= Advance(s, e)
  }

  ghost function Landings(s: Sys, es: seq<Event>, i: nat): nat
    requires Inv(s) && Legal(s, es) && i < |s.table|
    decreases |es|
  {
    if es == [] then 0
    else
      (if LandsOn(s, es[0], i) then 1 else 0) + Landings(Next(s, es[0]), es[1..], i)
  }

  /** Visits of the scan to slot `i` while its thread is Ready. */
  ghost function ReadyVisits(s: Sys, es: seq<Event>, i: nat): nat
    requires Inv(s) && Legal(s, es) && i < |s.table|
    decreases |es|
  {
    if es == [] then 0
    else
      (if LandsOn(s, es[0], i) && s.table[i].state == Ready then 1 else 0)
      + ReadyVisits(Next(s, es[0]), es[1..], i)
  }

  ghost function Picks(s: Sys, es: seq<Event>, i: nat): nat
    requires Inv(s) && Legal(s, es)
    decreases |es|
  {
    if es == [] then 0
    else (if IsSchedule(es[0]) && Next(s, es[0]).cur == i then 1 else 0) + Picks(Next(s, es[0]), es[1..], i)
  }

  /** Thread `i` does not exit during the run. */
  ghost predicate LiveThroughout(s: Sys, es: seq<Event>, i: nat)
    requires Inv(s) && Legal(s, es) && i < |s.table|
    decreases |es|
  {
    Live(s.table[i]) &&
    (es == [] || (LiveThroughout(Next(s, es[0]), es[1..], i)))
  }

  /** `priority + 1` per pick, plus the change of the skip count, is the number of visits while Ready. */
  ghost predicate ShareKept(s: Sys, e: Event, i: nat)
    requires Inv(s) && Enabled(s, e) && i < |s.table|
  {
    var s' := Next(s, e);
    && s'.table[i].priority == s.table[i].priority
    && (if IsSchedule(e) && s'.cur == i then s.table[i].priority + 1 else 0) + s'.table[i].skip
       == s.table[i].skip + (if LandsOn(s, e, i) && s.table[i].state == Ready then 1 else 0)
  }

  lemma ScanOf(s: Sys, e: Event, i: nat)
    requires Inv(s) && Enabled(s, e) && IsSchedule(e) && i < |s.table|
    ensures var z := Scanned(s, e);
            && |z.table| == |s.table| && z.cur == s.cur && Anchored(z.table, z.cur)
            && (i != s.cur ==> z.table[i] == s.table[i])
            && z.table[i].priority == s.table[i].priority && z.table[i].skip == s.table[i].skip
            && (i == s.cur ==> s.table[i].state != Ready && z.table[i].state != Ready)
  {
    ScannedSuspended(s, e);
  }

  lemma ScheduleKeepsShare(s: Sys, e: Event, i: nat)
    requires Inv(s) && Enabled(s, e) && IsSchedule(e) && e.picker == ByPriority
    requires 0 < i < |s.table| && Live(s.table[i]) && Live(Next(s, e).table[i])
    ensures ShareKept(s, e, i)
  {
    hide Next, Inv, Suspended, PriorityScan;
    ScanOf(s, e, i);
    SlotBounds(s, i);
    SchedulePicks(s, e);
    ScheduleNeverRevives(s, e);
    ScheduleKeepsOthers(s, e, i);
    var z := Scanned(s, e);
    PriorityScanFrame(z.table, z.cur, z.cur);
    PriorityScanSkip(z.table, z.cur, z.cur, i);
  }

  /** Every step keeps the share of a thread that stays live. */
  lemma ShareStep(s: Sys, e: Event, i: nat)
    requires Inv(s) && Enabled(s, e) && (IsSchedule(e) ==> e.picker == ByPriority)
    requires 0 < i < |s.table| && Live(s.table[i]) && Live(Next(s, e).table[i])
    ensures ShareKept(s, e, i)
  {
    if IsSchedule(e) {
      ScheduleKeepsShare(s, e, i);
    } else if e.Post? && s.sems[e.sem].queue != [] {
      HeadIsBlocked(s, e.sem);
    }
  }

  /** Exact share: over any window in which thread `i` stays live, `priority + 1` visits buy one pick,
      with the skip count as the change. */
  lemma {:induction false} ExactShare(s: Sys, es: seq<Event>, i: nat)
    requires Inv(s) && Legal(s, es) && AllBy(es, ByPriority)
    requires 0 < i < |s.table| && LiveThroughout(s, es, i)
    ensures var s' := Run(s, es);
            && s'.table[i].priority == s.table[i].priority
            && (s.table[i].priority + 1) * Picks(s, es, i) + s'.table[i].skip
               == s.table[i].skip + ReadyVisits(s, es, i)
            && 0 <= s'.table[i].skip <= s'.table[i].priority
    decreases |es|
  {
    hide Next, Inv;
    SlotBounds(s, i);
    if es != [] {
      var s' := Next(s, es[0]);
      ShareStep(s, es[0], i);
      ExactShare(s', es[1..], i);
      var p, rest := s.table[i].priority + 1, Picks(s', es[1..], i);
      assert p * (1 + rest) == p + p * rest;
    }
  }

  lemma CreateStartsFresh(s: Sys, e: Event, i: nat)
    requires Inv(s) && Enabled(s, e) && e.Create?
    requires i < |s.table| && s.table[i].state == Unused && Live(Next(s, e).table[i])
    ensures var th := Next(s, e).table[i];
            th.priority == Clamp(e.priority, s.lowest) && th.skip == 0 && th.state == Ready
  {
  }

  /** Since its creation a thread has been picked once for every `priority + 1` visits, rounded down. */
  lemma ShareSinceCreation(s: Sys, create: Event, es: seq<Event>, i: nat)
    requires Inv(s) && Enabled(s, create) && create.Create?
    requires 0 < i < |s.table| && s.table[i].state == Unused && Live(Next(s, create).table[i])
    requires Legal(Next(s, create), es) && AllBy(es, ByPriority) && LiveThroughout(Next(s, create), es, i)
    ensures var s1 := Next(s, create);
            && s1.table[i].priority == Clamp(create.priority, s.lowest)
            && Picks(s1, es, i) == ReadyVisits(s1, es, i) / (s1.table[i].priority + 1)
  {
    CreateStartsFresh(s, create, i);
    hide Next, Inv;
    var s1 := Next(s, create);
    ExactShare(s1, es, i);
    QuotientIs(ReadyVisits(s1, es, i), s1.table[i].priority + 1, Picks(s1, es, i), Run(s1, es).table[i].skip);
  }

  lemma ProductGrows(d: int, k: int)
    requires d > 0
    ensures k >= 1 ==> d * k >= d
    ensures k <= -1 ==> d * k <= -d
  {
  }

  lemma QuotientIs(v: int, d: int, q: int, r: int)
    requires d > 0 && d * q + r == v && 0 <= r < d
    ensures q == v / d
  {
    var f := v / d;
    assert d * f + v % d == v;
    assert d * (q - f) == d * q - d * f;
    ProductGrows(d, q - f);
  }

  /** Thread `i` is neither dead nor blocked at any point of the run. */
  ghost predicate RunnableThroughout(s: Sys, es: seq<Event>, i: nat)
    requires Inv(s) && Legal(s, es) && i < |s.table|
    decreases |es|
  {
    (s.table[i].state == Ready || s.table[i].state == Running) &&
    (es == [] || (RunnableThroughout(Next(s, es[0]), es[1..], i)))
  }

  lemma LandingIsReady(s: Sys, e: Event, i: nat)
    requires Inv(s) && Enabled(s, e) && 0 < i < |s.table| && (IsSchedule(e) ==> e.picker == ByPriority)
    requires s.table[i].state == Ready || s.table[i].state == Running
    ensures LandsOn(s, e, i) ==> s.table[i].state == Ready
  {
    if IsSchedule(e) {
      ScannedSuspended(s, e);
      SchedulePicks(s, e);
      hide Next, PriorityScan;
      var z := Scanned(s, e);
      PriorityScanFrame(z.table, z.cur, z.cur);
    }
  }

  /** While a thread other than the idle one is runnable, every visit finds it Ready. */
  lemma {:induction false} EveryLandingIsReady(s: Sys, es: seq<Event>, i: nat)
    requires Inv(s) && Legal(s, es) && AllBy(es, ByPriority)
    requires 0 < i < |s.table| && RunnableThroughout(s, es, i)
    ensures LiveThroughout(s, es, i) && Landings(s, es, i) == ReadyVisits(s, es, i)
    decreases |es|
  {
    hide Next, Inv, LandsOn;
    if es != [] {
      LandingIsReady(s, es[0], i);
      EveryLandingIsReady(Next(s, es[0]), es[1..], i);
    }
  }

  lemma LandingFollowsAdvance(s: Sys, e: Event, i: nat)
    requires Inv(s) && Enabled(s, e) && i < |s.table|
    ensures var s', n := Next(s, e), |s.table|;
            && s.cur < n
            && (if LandsOn(s, e, i) then n else 0) == Advance(s, e) + Distance(s'.cur, i, n) - Distance(s.cur, i, n)
  {
    AdvanceBounds(s, e);
    SlotBounds(s, i);
    hide Next, Inv;
  }

  /** Slot visits follow the current position round the table. */
  lemma {:induction false} LandingsFollowAdvance(s: Sys, es: seq<Event>, i: nat)
    requires Inv(s) && Legal(s, es) && i < |s.table|
    ensures var s', n := Run(s, es), |s.table|;
            && s.cur < n
            && n * Landings(s, es, i) == TotalAdvance(s, es) + Distance(s'.cur, i, n) - Distance(s.cur, i, n)
    decreases |es|
  {
    hide Next, Inv, Advance, LandsOn, Distance;
    SlotBounds(s, i);
    if es != [] {
      LandingFollowsAdvance(s, es[0], i);
      LandingsFollowAdvance(Next(s, es[0]), es[1..], i);
      TimesSuccessor(|s.table|, Landings(Next(s, es[0]), es[1..], i));
    }
  }

  lemma DifferAtMostOne(n: int, x: int, y: int)
    requires n > 0 && -2 * n < n * x - n * y < 2 * n
    ensures -1 <= x - y <= 1
  {
    assert n * (x - y - 1) == n * x - n * y - n;
    assert n * (x - y + 1) == n * x - n * y + n;
    ProductGrows(n, x - y - 1);
    ProductGrows(n, x - y + 1);
  }

  /** Proportional share between two threads: over any window in which both stay runnable their picks,
      weighted by `priority + 1`, differ by at most one visit and the two skip counts. */
  lemma ProportionalShare(s: Sys, es: seq<Event>, i: nat, j: nat)
    requires Inv(s) && Legal(s, es) && AllBy(es, ByPriority)
    requires 0 < i < |s.table| && 0 < j < |s.table|
    requires RunnableThroughout(s, es, i) && RunnableThroughout(s, es, j)
    ensures var (p, q) := (s.table[i].priority, s.table[j].priority);
            -(1 + p + q) <= (p + 1) * Picks(s, es, i) - (q + 1) * Picks(s, es, j) <= 1 + p + q
  {
    hide Next, Inv, Picks, ReadyVisits, Landings, Legal, Run, AllBy, LiveThroughout;
    SlotBounds(s, i);
    SlotBounds(s, j);
    EveryLandingIsReady(s, es, i);
    EveryLandingIsReady(s, es, j);
    ExactShare(s, es, i);
    ExactShare(s, es, j);
    LandingsWithinOne(s, es, i, j);
  }

  lemma LandingsWithinOne(s: Sys, es: seq<Event>, i: nat, j: nat)
    requires Inv(s) && Legal(s, es) && i < |s.table| && j < |s.table|
    ensures -1 <= Landings(s, es, i) - Landings(s, es, j) <= 1
  {
    hide Next, Inv, Landings, TotalAdvance, Legal;
    LandingsFollowAdvance(s, es, i);
    LandingsFollowAdvance(s, es, j);
    DifferAtMostOne(|s.table|, Landings(s, es, i), Landings(s, es, j));
  }
}
