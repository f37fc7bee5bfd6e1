/**
  The green-thread library as a state machine: the thread table, the current thread, the ticket
  counter and any number of counting semaphores, changed by one call of the library at a time.
  Clock readings and `rand()` are inputs of a step.
 */
module Machine {
  import opened Timekeeping
  import opened ThreadTable

  datatype Picker = ByTurn | ByPriority | ByLottery

  datatype Sem = Sem(value: int, queue: seq<nat>)

  /** `lowest` is `MinPriority`, the numerically greatest priority a thread can have. */
  datatype Sys = Sys(table: Table, cur: nat, tickets: int, lowest: nat, sems: seq<Sem>)

  datatype Event =
    | Create(priority: int, hasMemory: bool, t0: Timeval, t1: Timeval, t2: Timeval)
    | Schedule(picker: Picker, rand: nat, t0: Timeval, t1: Timeval)
    | Exit(picker: Picker, rand: nat, t1: Timeval)
    | Wait(sem: nat, now: Timeval)
    | Post(sem: nat, now: Timeval)
    | TryWait(sem: nat)

  // ----- the steps ------------------------------------------------------------------------------

  function InitialTable(n: nat, lowest: nat, t0: Timeval, t1: Timeval): (t: Table)
    requires n > 0
    ensures |t| == n && t[0] == Thread(Running, 0, 0, 0, lowest, FreshAccount(t0, t1))
    ensures forall i :: 0 < i < n ==> t[i] == BLANK
  {
    [Thread(Running, 0, 0, 0, lowest, FreshAccount(t0, t1))] + seq(n - 1, _ => BLANK)
  }

  /** `gt_init` on `n` unused slots, with semaphores initialised to `values`. */
  function Initial(n: nat, lowest: nat, values: seq<nat>, t0: Timeval, t1: Timeval): (s: Sys)
    requires n > 0
    ensures Inv(s)
  {
    var s := Sys(InitialTable(n, lowest, t0, t1), 0, lowest + 1, lowest,
                 seq(|values|, k requires 0 <= k < |values| => Sem(values[k], [])));
    InitialInv(s);
    s
  }

  function FirstUnused(t: Table, p: nat): (q: nat)
    requires p <= |t|
    ensures p <= q <= |t|
    ensures q < |t| ==> t[q].state == Unused
    ensures forall i :: p <= i < q ==> t[i].state != Unused
    decreases |t| - p
  {
    if p == |t| || t[p].state == Unused then p else FirstUnused(t, p + 1)
  }

  function Gap(x: int, y: int): nat { if x < y then y - x else x - y }

  /** The allowed priority nearest to the one asked for. */
  function Clamp(priority: int, lowest: nat): (p: nat)
    ensures p <= lowest && forall q: nat :: q <= lowest ==> Gap(priority, p) <= Gap(priority, q)
  {
    if priority < 0 then 0 else if priority > lowest then lowest else priority
  }

  /** The thread `gt_create` puts into its slot. */
  function NewThread(priority: nat, lowest: nat, tickets: int, t0: Timeval, t1: Timeval, t2: Timeval): Thread
    requires priority <= lowest
  {
    Move(Thread(Unused, priority, 0, tickets, tickets + (lowest - priority), FreshAccount(t0, t1)), Ready, t2)
  }

  function CreateStep(s: Sys, priority: int, hasMemory: bool, t0: Timeval, t1: Timeval, t2: Timeval): Sys {
    var q := FirstUnused(s.table, 0);
    if q == |s.table| || !hasMemory then s
    else
      var p := Clamp(priority, s.lowest);
      s.(table := s.table[q := NewThread(p, s.lowest, s.tickets, t0, t1, t2)],
         tickets := s.tickets + (s.lowest - p) + 1)
  }

  /** The chosen slot, and the table with the skip counts the picker left behind. */
  function Pick(t: Table, cur: nat, tickets: int, picker: Picker, rand: nat): (nat, Table)
    requires Anchored(t, cur) && tickets > 0
  {
    match picker
    case ByTurn => (RoundRobin(t, cur, cur), t)
    case ByPriority => var r := PriorityScan(t, cur, cur); (r.pick, r.table)
    case ByLottery => (Lottery(t, cur, rand % tickets), t)
  }

  /** The current thread steps down, if it still can run, and thread `q` becomes Running. */
  function Switch(t: Table, cur: nat, q: nat, t0: Timeval, t1: Timeval): Table
    requires cur < |t| && q < |t|
  {
    var t' := if t[cur].state == Unused || t[cur].state == Blocked then t else t[cur := Move(t[cur], Ready, t0)];
    t'[q := Move(t'[q], Running, t1)]
  }

  lemma PickInTable(t: Table, cur: nat, tickets: int, picker: Picker, rand: nat)
    requires Anchored(t, cur) && tickets > 0
    ensures var (q, t') := Pick(t, cur, tickets, picker, rand);
            && q < |t| == |t'|
            && (t[q].state == Ready || t[q].state == Running)
            && forall i :: 0 <= i < |t| ==> t'[i] == t[i].(skip := t'[i].skip)
  {
    RoundRobinIsFirstReady(t, cur);
    PriorityScanFrame(t, cur, cur);
  }

  function ScheduleStep(s: Sys, picker: Picker, rand: nat, t0: Timeval, t1: Timeval): Sys
    requires Anchored(s.table, s.cur) && s.tickets > 0
  {
    PickInTable(s.table, s.cur, s.tickets, picker, rand);
    var (q, t) := Pick(s.table, s.cur, s.tickets, picker, rand);
    s.(table := Switch(t, s.cur, q, t0, t1), cur := q)
  }

  /** `gt_return` of a thread other than the idle one, up to its call of `gt_schedule`. */
  function Retire(s: Sys): Sys
    requires s.cur < |s.table|
  {
    s.(table := s.table[s.cur := s.table[s.cur].(state := Unused)])
  }

  function WaitStep(s: Sys, k: nat, now: Timeval): Sys
    requires s.cur < |s.table| && k < |s.sems|
  {
    var sem := s.sems[k];
    if sem.value > 0 then s.(sems := s.sems[k := sem.(value := sem.value - 1)])
    else s.(sems := s.sems[k := sem.(queue := sem.queue + [s.cur])],
            table := s.table[s.cur := Move(s.table[s.cur], Blocked, now)])
  }

  function PostStep(s: Sys, k: nat, now: Timeval): Sys
    requires k < |s.sems|
    requires s.sems[k].queue != [] ==> s.sems[k].queue[0] < |s.table|
  {
    var sem := s.sems[k];
    if sem.queue == [] then s.(sems := s.sems[k := sem.(value := sem.value + 1)])
    else
      var i := sem.queue[0];
      s.(sems := s.sems[k := sem.(queue := sem.queue[1..])], table := s.table[i := Move(s.table[i], Ready, now)])
  }

  function TryWaitStep(s: Sys, k: nat): Sys
    requires k < |s.sems|
  {
    var sem := s.sems[k];
    if sem.value > 0 then s.(sems := s.sems[k := sem.(value := sem.value - 1)]) else s
  }

  // ----- the invariant --------------------------------------------------------------------------

  ghost predicate Idle(s: Sys) {
    && s.cur < |s.table|
    && s.table[0].priority == 0
    && (s.table[0].state == Running || s.table[0].state == Ready)
  }

  ghost predicate Priorities(s: Sys) {
    forall i :: 0 <= i < |s.table| ==>
      && 0 <= s.table[i].priority <= s.lowest
      && 0 <= s.table[i].skip
      && (i != 0 && Live(s.table[i]) ==> s.table[i].skip <= s.table[i].priority)
  }

  ghost predicate OneRunner(s: Sys) {
    forall i :: 0 <= i < |s.table| && s.table[i].state == Running ==> i == s.cur
  }

  ghost predicate CurrentRunsOrBlocks(s: Sys) {
    s.cur < |s.table| && (s.table[s.cur].state == Running || s.table[s.cur].state == Blocked)
  }

  predicate Live(th: Thread) { th.state != Unused }

  ghost predicate TicketsAllotted(s: Sys) {
    && s.tickets > s.lowest
    && (forall i :: 0 <= i < |s.table| && Live(s.table[i]) ==>
          0 <= s.table[i].lo && s.table[i].hi == s.table[i].lo + s.lowest - s.table[i].priority < s.tickets)
    && (forall i, j :: 0 <= i < |s.table| && 0 <= j < |s.table| && i != j && Live(s.table[i]) && Live(s.table[j]) ==>
          s.table[i].hi < s.table[j].lo || s.table[j].hi < s.table[i].lo)
  }

  ghost predicate NeverBothPermitsAndWaiters(s: Sys) {
    forall k :: 0 <= k < |s.sems| ==> s.sems[k].value >= 0 && (s.sems[k].value > 0 ==> s.sems[k].queue == [])
  }

  /** How many times thread `i` occurs in the queues of all semaphores. */
  function Queued(sems: seq<Sem>, i: nat): nat {
    if sems == [] then 0 else multiset(sems[0].queue)[i] + Queued(sems[1..], i)
  }

  ghost predicate BlockedIffQueuedOnce(s: Sys) {
    forall i: nat :: Queued(s.sems, i) == if i < |s.table| && s.table[i].state == Blocked then 1 else 0
  }

  ghost predicate Inv(s: Sys) {
    && Idle(s) && Priorities(s) && OneRunner(s) && CurrentRunsOrBlocks(s)
    && TicketsAllotted(s) && NeverBothPermitsAndWaiters(s) && BlockedIffQueuedOnce(s)
  }

  /** What callers must respect: a Blocked current thread takes no step of its own until the next
      `gt_schedule`; the idle thread neither waits on a semaphore nor exits. */
  predicate Enabled(s: Sys, e: Event)
    requires s.cur < |s.table|
  {
    && (s.table[s.cur].state == Blocked ==> e.Schedule?)
    && (e.Exit? ==> s.cur != 0)
    && (e.Wait? ==> s.cur != 0 && e.sem < |s.sems|)
    && (e.Post? || e.TryWait? ==> e.sem < |s.sems|)
  }

  // ----- the invariant is kept -------------------------------------------------------------------

  lemma {:induction false} QueuedUpdate(sems: seq<Sem>, k: nat, sem: Sem, i: nat)
    requires k < |sems|
    ensures Queued(sems[k := sem], i) == Queued(sems, i) - multiset(sems[k].queue)[i] + multiset(sem.queue)[i]
    ensures Queued(sems, i) >= multiset(sems[k].queue)[i]
  {
    if k == 0 {
      assert sems[k := sem][1..] == sems[1..];
    } else {
      QueuedUpdate(sems[1..], k - 1, sem, i);
      assert sems[k := sem][1..] == sems[1..][k - 1 := sem];
    }
  }

  lemma {:induction false} NothingQueued(sems: seq<Sem>, i: nat)
    requires forall k :: 0 <= k < |sems| ==> sems[k].queue == []
    ensures Queued(sems, i) == 0
  {
    if sems != [] {
      NothingQueued(sems[1..], i);
    }
  }

  lemma InitialInv(s: Sys)
    requires s.table != [] && s.cur == 0 && s.tickets == s.lowest + 1
    requires s.table[0].state == Running && s.table[0].priority == s.table[0].skip == 0
    requires s.table[0].lo == 0 && s.table[0].hi == s.lowest
    requires forall i :: 0 < i < |s.table| ==> s.table[i] == BLANK
    requires forall k :: 0 <= k < |s.sems| ==> s.sems[k].value >= 0 && s.sems[k].queue == []
    ensures Inv(s)
  {
    forall i: nat
      ensures Queued(s.sems, i) == 0
    {
      NothingQueued(s.sems, i);
    }
  }

  /** After start-up slot 0 is the idle thread, current and Running, with the greatest priority and all tickets;
      every other slot is free, and nobody waits on a semaphore. */
  lemma StartUp(n: nat, lowest: nat, values: seq<nat>, t0: Timeval, t1: Timeval)
    requires n > 0
    ensures var s := Initial(n, lowest, values, t0, t1);
            && |s.table| == n && s.cur == 0 && s.lowest == lowest
            && s.table[0].state == Running && s.table[0].priority == 0 && s.table[0].skip == 0
            && s.table[0].lo == 0 && s.table[0].hi == s.tickets - 1 == lowest
            && s.table[0].account.created == t0 && s.table[0].account.lastChange == t1
            && (forall i :: 0 < i < n ==> s.table[i].state == Unused)
            && |s.sems| == |values|
            && forall k :: 0 <= k < |values| ==> s.sems[k].value == values[k] && s.sems[k].queue == []
  {
    hide Inv;
  }

  lemma CreateKeepsInv(s: Sys, priority: int, hasMemory: bool, t0: Timeval, t1: Timeval, t2: Timeval)
    requires Inv(s)
    ensures Inv(CreateStep(s, priority, hasMemory, t0, t1, t2))
  {
    hide Queued;
  }

  /** Between tables `t` and `u` slot `q`, the first that was free, has become a new Ready thread with the
      allowed priority nearest to the one asked for; its tickets start at `ticket`, and its accounts have
      been opened at `t0` and nothing has been charged to them up to `t2`. */
  ghost predicate Creates(t: Table, u: Table, q: nat, priority: int, lowest: nat, ticket: int,
                          t0: Timeval, t2: Timeval)
  {
    && q < |t| == |u|
    && t[q].state == Unused && (forall i :: 0 <= i < q ==> t[i].state != Unused)
    && (forall i :: 0 <= i < |t| && i != q ==> u[i] == t[i])
    && u[q].state == Ready && u[q].skip == 0
    && 0 <= u[q].priority <= lowest
    && (0 <= priority <= lowest ==> u[q].priority == priority)
    && (priority < 0 ==> u[q].priority == 0) && (priority > lowest ==> u[q].priority == lowest)
    && u[q].lo == ticket && u[q].hi == ticket + (lowest - u[q].priority)
    && u[q].account == Account(t0, t2, ZERO, ZERO, NO_SLICES, NO_SLICES)
  }

  /** A successful `gt_create` makes a thread of the first free slot, hands out the tickets from the counter
      on, and does nothing else. */
  lemma CreateMakesThread(s: Sys, q: nat, priority: int, t0: Timeval, t1: Timeval, t2: Timeval)
    requires q < |s.table| && s.table[q].state == Unused && forall i :: 0 <= i < q ==> s.table[i].state != Unused
    ensures var s' := CreateStep(s, priority, true, t0, t1, t2);
            && Creates(s.table, s'.table, q, priority, s.lowest, s.tickets, t0, t2)
            && s'.tickets == s'.table[q].hi + 1
            && s'.cur == s.cur && s'.lowest == s.lowest && s'.sems == s.sems
  {
    assert FirstUnused(s.table, 0) == q;
  }

  /** Without a free slot, or without memory for a stack, it changes nothing. */
  lemma CreateRefused(s: Sys, priority: int, hasMemory: bool, t0: Timeval, t1: Timeval, t2: Timeval)
    requires hasMemory ==> forall i :: 0 <= i < |s.table| ==> s.table[i].state != Unused
    ensures CreateStep(s, priority, hasMemory, t0, t1, t2) == s
  {
  }

  /** A state in which `gt_schedule` may be entered: between steps, or with the current thread retired. */
  ghost predicate Suspended(s: Sys) {
    && Anchored(s.table, s.cur) && Idle(s) && Priorities(s) && OneRunner(s)
    && TicketsAllotted(s) && NeverBothPermitsAndWaiters(s) && BlockedIffQueuedOnce(s)
  }

  lemma InvSuspended(s: Sys)
    requires Inv(s)
    ensures Suspended(s)
  {
  }

  lemma RetireSuspended(s: Sys)
    requires Inv(s) && s.cur != 0 && s.table[s.cur].state == Running
    ensures Suspended(Retire(s))
  {
  }

  /** States after a switch: the pick runs, the old current thread is Ready, Blocked or gone. */
  lemma ScheduleStates(s: Sys, picker: Picker, rand: nat, t0: Timeval, t1: Timeval)
    requires Suspended(s)
    ensures var s' := ScheduleStep(s, picker, rand, t0, t1);
            && |s'.table| == |s.table| && s'.cur < |s.table|
            && s'.sems == s.sems && s'.tickets == s.tickets && s'.lowest == s.lowest
            && s.table[s'.cur].state in {Ready, Running}
            && s'.table[s'.cur].state == Running
            && (s'.cur != s.cur ==>
                  s'.table[s.cur].state == if s.table[s.cur].state == Running then Ready else s.table[s.cur].state)
            && (forall i :: 0 <= i < |s.table| && i != s.cur && i != s'.cur ==> s'.table[i].state == s.table[i].state)
            && (forall i :: 0 <= i < |s.table| ==>
                  && s'.table[i].priority == s.table[i].priority
                  && s'.table[i].lo == s.table[i].lo && s'.table[i].hi == s.table[i].hi)
  {
    PickInTable(s.table, s.cur, s.tickets, picker, rand);
    hide Pick, Priorities, TicketsAllotted, NeverBothPermitsAndWaiters, BlockedIffQueuedOnce;
  }

  lemma SkipsStayBounded(s: Sys, picker: Picker, rand: nat, t0: Timeval, t1: Timeval)
    requires Suspended(s)
    ensures var s' := ScheduleStep(s, picker, rand, t0, t1);
            |s'.table| == |s.table| &&
            forall i :: 0 <= i < |s.table| ==>
              && 0 <= s'.table[i].skip
              && (i != 0 && Live(s.table[i]) ==> s'.table[i].skip <= s.table[i].priority)
  {
    var t := Pick(s.table, s.cur, s.tickets, picker, rand).1;
    PickInTable(s.table, s.cur, s.tickets, picker, rand);
    forall i | 0 <= i < |s.table|
      ensures 0 <= t[i].skip && (i != 0 && Live(s.table[i]) ==> t[i].skip <= s.table[i].priority)
    {
      PickKeepsSkipBounded(s, picker, rand, i);
    }
    hide Pick, Suspended;
  }

  lemma PickKeepsSkipBounded(s: Sys, picker: Picker, rand: nat, i: nat)
    requires Suspended(s) && i < |s.table|
    ensures var t := Pick(s.table, s.cur, s.tickets, picker, rand).1;
            && |t| == |s.table| && 0 <= t[i].skip
            && (i != 0 && Live(s.table[i]) ==> t[i].skip <= s.table[i].priority)
  {
    hide PriorityScan, RoundRobin, Lottery, Queued, TicketsAllotted, NeverBothPermitsAndWaiters, BlockedIffQueuedOnce;
    PriorityScanFrame(s.table, s.cur, s.cur);
    PriorityScanSkip(s.table, s.cur, s.cur, i);
  }

  lemma ScheduleKeepsInv(s: Sys, picker: Picker, rand: nat, t0: Timeval, t1: Timeval)
    requires Suspended(s)
    ensures Inv(ScheduleStep(s, picker, rand, t0, t1))
  {
    hide ScheduleStep, Queued;
    ScheduleStates(s, picker, rand, t0, t1);
    SkipsStayBounded(s, picker, rand, t0, t1);
    var s' := ScheduleStep(s, picker, rand, t0, t1);
    assert forall i :: 0 <= i < |s.table| ==> (Live(s'.table[i]) <==> Live(s.table[i]));
    TicketsCarryOver(s, s');
    hide TicketsAllotted;
  }

  /** Tickets stay allotted as long as no live thread's range changes. */
  lemma TicketsCarryOver(s: Sys, s': Sys)
    requires TicketsAllotted(s) && |s'.table| == |s.table| && s'.lowest == s.lowest && s'.tickets == s.tickets
    requires forall i :: 0 <= i < |s.table| && Live(s'.table[i]) ==>
      && Live(s.table[i]) && s'.table[i].lo == s.table[i].lo && s'.table[i].hi == s.table[i].hi
      && s'.table[i].priority == s.table[i].priority
    ensures TicketsAllotted(s')
  {
  }

  lemma WaitKeepsQueues(s: Sys, k: nat, now: Timeval)
    requires Inv(s) && k < |s.sems| && s.table[s.cur].state == Running
    ensures BlockedIffQueuedOnce(WaitStep(s, k, now))
  {
    hide Queued, TicketsAllotted, Priorities;
    var s' := WaitStep(s, k, now);
    forall i: nat
      ensures Queued(s'.sems, i) == if i < |s'.table| && s'.table[i].state == Blocked then 1 else 0
    {
      QueuedUpdate(s.sems, k, s'.sems[k], i);
    }
  }

  lemma WaitKeepsInv(s: Sys, k: nat, now: Timeval)
    requires Inv(s) && k < |s.sems| && s.cur != 0 && s.table[s.cur].state == Running
    ensures Inv(WaitStep(s, k, now))
  {
    WaitKeepsQueues(s, k, now);
    TicketsCarryOver(s, WaitStep(s, k, now));
    hide Queued, TicketsAllotted, BlockedIffQueuedOnce, RecordSlice, Subtract, Add;
  }

  /** The head of a queue is a Blocked thread. */
  lemma HeadIsBlocked(s: Sys, k: nat)
    requires BlockedIffQueuedOnce(s) && k < |s.sems| && s.sems[k].queue != []
    ensures s.sems[k].queue[0] < |s.table| && s.table[s.sems[k].queue[0]].state == Blocked
  {
    var i := s.sems[k].queue[0];
    assert i in multiset(s.sems[k].queue);
    QueuedUpdate(s.sems, k, s.sems[k], i);
    assert Queued(s.sems, i) > 0;
  }

  lemma PostKeepsQueues(s: Sys, k: nat, now: Timeval)
    requires BlockedIffQueuedOnce(s) && k < |s.sems|
    requires s.sems[k].queue != [] ==> s.sems[k].queue[0] < |s.table|
    ensures BlockedIffQueuedOnce(PostStep(s, k, now))
  {
    var s', q := PostStep(s, k, now), s.sems[k].queue;
    if q != [] {
      HeadIsBlocked(s, k);
      assert q == [q[0]] + q[1..];
    }
    hide Queued;
    forall i: nat
      ensures Queued(s'.sems, i) == if i < |s'.table| && s'.table[i].state == Blocked then 1 else 0
    {
      QueuedUpdate(s.sems, k, s'.sems[k], i);
    }
  }

  lemma PostKeepsInv(s: Sys, k: nat, now: Timeval)
    requires Inv(s) && k < |s.sems|
    requires s.sems[k].queue != [] ==> s.sems[k].queue[0] < |s.table|
    requires s.table[s.cur].state == Running
    ensures Inv(PostStep(s, k, now))
  {
    if s.sems[k].queue != [] {
      HeadIsBlocked(s, k);
    }
    PostKeepsQueues(s, k, now);
    TicketsCarryOver(s, PostStep(s, k, now));
    hide Queued, TicketsAllotted, BlockedIffQueuedOnce;
  }

  lemma TryWaitKeepsInv(s: Sys, k: nat)
    requires Inv(s) && k < |s.sems|
    ensures Inv(TryWaitStep(s, k))
  {
    var s' := TryWaitStep(s, k);
    forall i: nat
      ensures Queued(s'.sems, i) == Queued(s.sems, i)
    {
      QueuedUpdate(s.sems, k, s'.sems[k], i);
    }
  }

  ghost predicate SameShape(s: Sys, s': Sys) {
    |s'.table| == |s.table| && |s'.sems| == |s.sems| && s'.lowest == s.lowest && s'.cur < |s'.table|
  }

  // ----- runs -------------------------------------------------------------------------------------

  function Next(s: Sys, e: Event): (s': Sys)
    requires Inv(s) && Enabled(s, e)
    ensures Inv(s') && SameShape(s, s')
  {
    match e
    case Create(priority, hasMemory, t0, t1, t2) =>
      CreateKeepsInv(s, priority, hasMemory, t0, t1, t2);
      CreateStep(s, priority, hasMemory, t0, t1, t2)
    case Schedule(picker, rand, t0, t1) =>
      ScheduleKeepsInv(s, picker, rand, t0, t1);
      ScheduleStates(s, picker, rand, t0, t1);
      ScheduleStep(s, picker, rand, t0, t1)
    case Exit(picker, rand, t1) =>
      RetireSuspended(s);
      ScheduleKeepsInv(Retire(s), picker, rand, t1, t1);
      ScheduleStates(Retire(s), picker, rand, t1, t1);
      ScheduleStep(Retire(s), picker, rand, t1, t1)
    case Wait(k, now) =>
      WaitKeepsInv(s, k, now);
      WaitStep(s, k, now)
    case Post(k, now) =>
      if s.sems[k].queue != [] then HeadIsBlocked(s, k); PostKeepsInv(s, k, now); PostStep(s, k, now)
      else PostKeepsInv(s, k, now); PostStep(s, k, now)
    case TryWait(k) =>
      TryWaitKeepsInv(s, k);
      TryWaitStep(s, k)
  }

  /** `es` is a sequence of steps the library can take from `s`, in this order. */
  ghost predicate Legal(s: Sys, es: seq<Event>)
    requires Inv(s)
    decreases |es|
  {
    es == [] || (Enabled(s, es[0]) && Legal(Next(s, es[0]), es[1..]))
  }

  ghost function Run(s: Sys, es: seq<Event>): (s': Sys)
    requires Inv(s) && Legal(s, es)
    ensures Inv(s') && SameShape(s, s')
    decreases |es|
  {
    if es == [] then s else Run(Next(s, es[0]), es[1..])
  }

  ghost predicate IsSchedule(e: Event) {
    e.Schedule? || e.Exit?
  }

  /** The state whose table a schedule event scans: the current one, with an exiting thread retired. */
  function Scanned(s: Sys, e: Event): Sys
    requires s.cur < |s.table|
  {
    if e.Exit? then Retire(s) else s
  }

  lemma ScannedSuspended(s: Sys, e: Event)
    requires Inv(s) && Enabled(s, e) && IsSchedule(e)
    ensures Suspended(Scanned(s, e))
    ensures Next(s, e) ==
            ScheduleStep(Scanned(s, e), e.picker, e.rand, if e.Exit? then e.t1 else e.t0, e.t1)
  {
    if e.Exit? {
      RetireSuspended(s);
    }
  }

  /** Every picker, in every reachable state, returns a thread that can run, and never the one that
      is exiting; afterwards the current thread is the only Running one. */
  lemma ScheduleNeverRevives(s: Sys, e: Event)
    requires Inv(s) && Enabled(s, e) && IsSchedule(e)
    ensures var s' := Next(s, e);
            && (s.table[s'.cur].state == Ready || (s'.cur == s.cur && s.table[s.cur].state == Running && e.Schedule?))
            && (e.Exit? ==> s'.cur != s.cur && s'.table[s.cur].state == Unused)
            && forall i :: 0 <= i < |s.table| ==> (s'.table[i].state == Running <==> i == s'.cur)
  {
    ScannedSuspended(s, e);
    ScheduleStates(Scanned(s, e), e.picker, e.rand, if e.Exit? then e.t1 else e.t0, e.t1);
  }

  /** A dead slot only comes back through `gt_create`, and then as a new Ready thread. */
  lemma DeadStaysDead(s: Sys, e: Event, i: nat)
    requires Inv(s) && Enabled(s, e) && i < |s.table| && s.table[i].state == Unused
    ensures var s' := Next(s, e);
            && (s'.table[i].state == Unused || (e.Create? && s'.table[i].state == Ready && s'.table[i].skip == 0))
  {
    if IsSchedule(e) {
      ScheduleNeverRevives(s, e);
      ScannedSuspended(s, e);
      ScheduleStates(Scanned(s, e), e.picker, e.rand, if e.Exit? then e.t1 else e.t0, e.t1);
    } else if e.Post? && s.sems[e.sem].queue != [] {
      HeadIsBlocked(s, e.sem);
    }
    hide Queued, TicketsAllotted, BlockedIffQueuedOnce;
  }
}
