/**
  The thread library as it is written: one mutable table, changed in place by loops that advance a
  slot index.  Every call is shown to take exactly the step of the state machine in `Machine`, so
  what is proved of its runs holds of these methods.
 */
module Kernel {
  import opened Timekeeping
  import opened ThreadTable
  import opened Machine
  import opened WaitQueue

  class Semaphore {
    var value: int
    const queue: Queue

    /** `sem_init` */
    constructor (initialValue: nat)
      ensures value == initialValue && queue.Valid() && queue.contents == [] && queue.items == []
      ensures fresh(queue)
    {
      value := initialValue;
      queue := new Queue();
    }
  }

  class Library {
    const table: array<Thread>
    var current: nat
    var totalTickets: int
    const lowest: nat
    ghost var sems: seq<Semaphore>
    ghost var state: Sys
    /** The objects that make up the semaphores. */
    ghost var pool: set<object>

    /** The `k`-th semaphore's objects belong to this library and hold the value and queue of `sem`. */
    ghost predicate Holds(k: nat, sem: Sem)
      requires k < |sems|
      reads `sems, `pool, pool
    {
      && sems[k] in pool && sems[k].queue in pool
      && (forall j :: 0 <= j < |sems[k].queue.items| ==> sems[k].queue.items[j] in pool)
      && sems[k].queue.Valid()
      && sem == Sem(sems[k].value, sems[k].queue.contents)
    }

    /** The semaphores, all distinct, hold `abs`. */
    ghost predicate Match(abs: seq<Sem>)
      reads `sems, `pool, pool
    {
      && |abs| == |sems|
      && (forall k :: 0 <= k < |sems| ==> Holds(k, abs[k]))
      && (forall k, l :: 0 <= k < l < |sems| ==> sems[k] != sems[l] && sems[k].queue != sems[l].queue)
    }

    /** The ghost state is what the real fields hold. */
    ghost predicate Consistent()
      reads this, table, pool
    {
      && this !in pool && table !in pool
      && state.table == table[..] && state.cur == current && state.tickets == totalTickets && state.lowest == lowest
      && Match(state.sems)
    }

    ghost predicate Valid()
      reads this, table, pool
    {
      Consistent() && Inv(state)
    }

    /** The zeroed table after `gt_init`. */
    constructor (n: nat, lowest: nat, t0: Timeval, t1: Timeval)
      requires n > 0
      ensures Valid() && fresh(table) && pool == {} && sems == []
      ensures state == Initial(n, lowest, [], t0, t1)
    {
      var t := new Thread[n](_ => BLANK);
      t[0] := Thread(Running, 0, 0, 0, lowest, FreshAccount(t0, t1));
      table := t;
      current := 0;
      totalTickets := lowest + 1;
      this.lowest := lowest;
      sems := [];
      state := Initial(n, lowest, [], t0, t1);
      pool := {};
      new;
    }

    /** `update_thread_state`, with the clock reading it takes. */
    method UpdateThreadState(i: nat, newState: State, now: Timeval)
      requires i < table.Length
      modifies table
      ensures table[..] == old(table[..])[i := Move(old(table[i]), newState, now)]
    {
      var th := table[i];
      if th.state != newState {
        var elapsed := Subtract(now, th.account.lastChange);
        var a := th.account;
        if th.state == Running {
          a := a.(totalRunning := Add(a.totalRunning, elapsed), runs := RecordSlice(a.runs, elapsed));
        } else if th.state == Ready || th.state == Blocked {
          a := a.(totalWaiting := Add(a.totalWaiting, elapsed), waits := RecordSlice(a.waits, elapsed));
        }
        table[i] := th.(state := newState, account := a.(lastChange := now));
      }
    }

    /** `round_robin`: the loop ends in every reachable state, and always succeeds. */
    method RoundRobinPick() returns (ok: bool, thread: nat)
      requires Anchored(table[..], current)
      ensures ok && thread == RoundRobin(table[..], current, current)
    {
      ghost var t := table[..];
      thread := current;
      while table[thread].state != Ready
        invariant thread < |t| == table.Length
        invariant thread == 0 || current <= thread
        invariant thread == 0 ==> current == 0 || t[0].state == Ready
        invariant if t[thread].state == Ready then thread == RoundRobin(t, current, current)
                  else RoundRobin(t, current, thread) == RoundRobin(t, current, current)
        decreases if table[thread].state == Ready then 0 else |t| - thread
      {
        thread := thread + 1;
        if thread == table.Length {
          thread := 0;
        }
        if table[thread].state == Blocked {
          continue;
        }
        if thread == current {
          return true, thread;
        }
      }
      return true, thread;
    }

    /** `round_robin_prio`: the loop ends in every reachable state, and always succeeds. */
    method RoundRobinPrioPick() returns (ok: bool, thread: nat)
      requires Anchored(table[..], current)
      modifies table
      ensures ok
      ensures var r := PriorityScan(old(table[..]), current, current); thread == r.pick && table[..] == r.table
    {
      ghost var goal := PriorityScan(table[..], current, current);
      thread := current;
      while true
        invariant thread < table.Length && current <= thread
        invariant Anchored(table[..], current)
        invariant var r := PriorityScan(table[..], current, thread); r.pick == goal.pick && r.table == goal.table
        decreases table.Length - thread
      {
        ghost var t := table[..];
        thread := thread + 1;
        if thread == table.Length {
          thread := 0;
        }
        if table[thread].state == Blocked {
          continue;
        }
        if table[thread].state == Ready && table[thread].priority - table[thread].skip <= 0 {
          table[thread] := table[thread].(skip := 0);
          assert table[..] == t[thread := t[thread].(skip := 0)];
          return true, thread;
        } else {
          table[thread] := table[thread].(skip := table[thread].skip + 1);
          assert table[..] == t[thread := t[thread].(skip := t[thread].skip + 1)];
        }
        if thread == current {
          return true, thread;
        }
      }
    }

    /** `lottery`, with `rand` the number drawn by `rand()`. */
    method LotteryPick(rand: nat) returns (ok: bool, thread: nat)
      requires Anchored(table[..], current) && totalTickets > 0
      ensures ok && thread == Lottery(table[..], current, rand % totalTickets)
    {
      var winningTicket := rand % totalTickets;
      ghost var t := table[..];
      var p := 0;
      while p < table.Length
        invariant p <= |t| == table.Length
        invariant FirstWinner(t, winningTicket, p) == FirstWinner(t, winningTicket, 0)
      {
        if table[p].state != Blocked {
          if (table[p].state == Ready || table[p].state == Running)
             && winningTicket >= table[p].lo && winningTicket <= table[p].hi {
            return true, p;
          }
        }
        p := p + 1;
      }
      ok, thread := RoundRobinPick();
    }

    /** The picker installed by `set_scheduling_algorithm`. */
    method GetNextThread(picker: Picker, rand: nat) returns (ok: bool, thread: nat)
      requires Anchored(table[..], current) && totalTickets > 0
      modifies table
      ensures ok && (thread, table[..]) == Pick(old(table[..]), current, totalTickets, picker, rand)
    {
      match picker {
        case ByTurn =>
          ok, thread := RoundRobinPick();
        case ByPriority =>
          ok, thread := RoundRobinPrioPick();
        case ByLottery =>
          ok, thread := LotteryPick(rand);
      }
    }

    /** The switch itself: the current thread steps down if it still can run, and slot `p` takes over. */
    method SwitchTo(p: nat, t0: Timeval, t1: Timeval)
      requires current < table.Length && p < table.Length
      modifies this`current, table
      ensures current == p && table[..] == Switch(old(table[..]), old(current), p, t0, t1)
    {
      if table[current].state != Unused && table[current].state != Blocked {
        UpdateThreadState(current, Ready, t0);
      }
      UpdateThreadState(p, Running, t1);
      current := p;
    }

    /** `gt_schedule`: it always switches, so the idle thread's `while (gt_schedule())` never ends. */
    method GtSchedule(picker: Picker, rand: nat, t0: Timeval, t1: Timeval) returns (ok: bool)
      requires Consistent() && Suspended(state)
      modifies this, table
      ensures Valid() && pool == old(pool) && sems == old(sems)
      ensures ok && state == ScheduleStep(old(state), picker, rand, t0, t1)
    {
      hide Suspended, Inv, Pick, Switch, ScheduleStep;
      ghost var s := state;
      ScheduleUnfolds(s, picker, rand, t0, t1);
      var p: nat;
      ok, p := GetNextThread(picker, rand);
      if !ok {
        return false;
      }
      SwitchTo(p, t0, t1);
      state := ScheduleStep(s, picker, rand, t0, t1);
      assert Match(state.sems);
      return true;
    }

    /** `gt_alarm_handle`, and any call of `gt_schedule` by the current thread. */
    method GtAlarmHandle(picker: Picker, rand: nat, t0: Timeval, t1: Timeval)
      requires Valid()
      modifies this, table
      ensures Valid() && pool == old(pool) && sems == old(sems)
      ensures state == Next(old(state), Schedule(picker, rand, t0, t1))
    {
      InvSuspended(state);
      var _ := GtSchedule(picker, rand, t0, t1);
    }

    /** `gt_return` of a thread other than the idle one. */
    method GtReturn(picker: Picker, rand: nat, t1: Timeval)
      requires Valid() && current != 0 && table[current].state == Running
      modifies this, table
      ensures Valid() && pool == old(pool) && sems == old(sems)
      ensures state == Next(old(state), Exit(picker, rand, t1))
    {
      RetireSuspended(state);
      table[current] := table[current].(state := Unused);
      state := Retire(state);
      assert Match(state.sems);
      var _ := GtSchedule(picker, rand, t1, t1);
    }

    /** `gt_create`: 0 on success, -1 when the table is full or there is no memory for a stack. */
    method GtCreate(priority: int, hasMemory: bool, t0: Timeval, t1: Timeval, t2: Timeval) returns (r: int)
      requires Valid() && Enabled(state, Create(priority, hasMemory, t0, t1, t2))
      modifies this, table
      ensures Valid() && pool == old(pool) && sems == old(sems)
      ensures state == Next(old(state), Create(priority, hasMemory, t0, t1, t2))
      ensures r == (if hasMemory && exists i :: 0 <= i < table.Length && old(table[i]).state == Unused then 0 else -1)
      ensures r == 0 ==> exists q: nat ::
                Creates(old(table[..]), table[..], q, priority, lowest, old(totalTickets), t0, t2)
                && totalTickets == table[..][q].hi + 1
      ensures r == -1 ==> table[..] == old(table[..]) && totalTickets == old(totalTickets)
    {
      hide Inv, Next, Move;
      ghost var s := state;
      CreatorRuns(s, priority, hasMemory, t0, t1, t2);
      var p := 0;
      while true
        modifies {}
        invariant p <= table.Length
        invariant FirstUnused(s.table, p) == FirstUnused(s.table, 0)
        decreases table.Length - p
      {
        if p == table.Length {
          return -1;
        } else if table[p].state == Unused {
          break;
        }
        p := p + 1;
      }
      if !hasMemory {
        return -1;
      }
      var prio := priority;
      if prio < 0 {
        prio := 0;
      } else if prio > lowest {
        prio := lowest;
      }
      var lo, hi := totalTickets, totalTickets + (lowest - prio);
      totalTickets := totalTickets + (lowest - prio) + 1;
      table[p] := Thread(table[p].state, prio, 0, lo, hi, FreshAccount(t0, t1));
      UpdateThreadState(p, Ready, t2);
      state := CreateStep(s, priority, hasMemory, t0, t1, t2);
      assert Match(state.sems);
      CreateMakesThread(s, p, priority, t0, t1, t2);
      return 0;
    }

    /** `sem_init`: one more semaphore, with nobody waiting. */
    method SemInit(initialValue: nat) returns (sem: Semaphore)
      requires Valid()
      modifies this
      ensures Valid() && fresh(pool - old(pool)) && sems == old(sems) + [sem]
      ensures state == old(state).(sems := old(state).sems + [Sem(initialValue, [])])
    {
      sem := new Semaphore(initialValue);
      ghost var s := state;
      SemInitKeepsInv(s, initialValue);
      sems := sems + [sem];
      pool := pool + {sem, sem.queue};
      state := s.(sems := s.sems + [Sem(initialValue, [])]);
      forall k | 0 <= k < |sems|
        ensures Holds(k, state.sems[k])
      {
        if k < |sems| - 1 {
          assert old(Holds(k, state.sems[k]));
          sems[k].queue.StillValid();
        }
      }
    }

    /** Changing a semaphore's value, with its queue as it is. */
    method SetValue(sem: Semaphore, value: int, ghost k: nat, ghost abs: seq<Sem>)
      requires Match(abs) && k < |sems| && sems[k] == sem
      modifies sem
      ensures Match(abs[k := abs[k].(value := value)])
    {
      assert Holds(k, abs[k]);
      sem.value := value;
      sem.queue.StillValid();
      ghost var abs' := abs[k := abs[k].(value := value)];
      forall l | 0 <= l < |sems|
        ensures Holds(l, abs'[l])
      {
        if l != k {
          assert old(Holds(l, abs[l]));
        }
      }
    }

    /** Queueing a thread on a semaphore. */
    method PushWaiter(sem: Semaphore, threadIdx: nat, ghost k: nat, ghost abs: seq<Sem>)
      requires Match(abs) && k < |sems| && sems[k] == sem
      modifies `pool, sem.queue, sem.queue.items
      ensures Match(abs[k := abs[k].(queue := abs[k].queue + [threadIdx])])
      ensures old(pool) <= pool && fresh(pool - old(pool))
    {
      assert Holds(k, abs[k]);
      ghost var item := sem.queue.Push(threadIdx);
      pool := pool + {item};
      assert sem.queue.Valid();
      ghost var abs' := abs[k := abs[k].(queue := abs[k].queue + [threadIdx])];
      forall l | 0 <= l < |sems|
        ensures Holds(l, abs'[l])
      {
        if l != k {
          assert old(Holds(l, abs[l]));
        }
      }
    }

    /** Taking the thread at the head of a semaphore's queue. */
    method PopWaiter(sem: Semaphore, ghost k: nat, ghost abs: seq<Sem>) returns (threadIdx: int)
      requires Match(abs) && k < |sems| && sems[k] == sem && abs[k].queue != []
      modifies sem.queue
      ensures threadIdx == abs[k].queue[0]
      ensures Match(abs[k := abs[k].(queue := abs[k].queue[1..])])
    {
      assert Holds(k, abs[k]);
      threadIdx := sem.queue.Pop();
      assert sem.queue.Valid();
      ghost var abs' := abs[k := abs[k].(queue := abs[k].queue[1..])];
      forall l | 0 <= l < |sems|
        ensures Holds(l, abs'[l])
      {
        if l != k {
          assert old(Holds(l, abs[l]));
        }
      }
    }

    /** `sem_wait` on the `k`-th semaphore. */
    method SemWait(sem: Semaphore, ghost k: nat, now: Timeval)
      requires Valid() && k < |sems| && sems[k] == sem && Enabled(state, Wait(k, now))
      modifies this, table, pool
      ensures Valid() && fresh(pool - old(pool)) && sems == old(sems)
      ensures state == Next(old(state), Wait(k, now))
    {
      hide Inv, Move, Next;
      ghost var s := state;
      CallerRuns(s, k, now);
      WaitKeepsInv(s, k, now);
      assert Holds(k, s.sems[k]);
      if sem.value > 0 {
        SetValue(sem, sem.value - 1, k, s.sems);
      } else {
        PushWaiter(sem, current, k, s.sems);
        UpdateThreadState(current, Blocked, now);
        assert Match(WaitStep(s, k, now).sems);
      }
      state := WaitStep(s, k, now);
      assert Match(state.sems);
    }

    /** `sem_post` on the `k`-th semaphore. */
    method SemPost(sem: Semaphore, ghost k: nat, now: Timeval)
      requires Valid() && k < |sems| && sems[k] == sem && Enabled(state, Post(k, now))
      modifies this, table, pool
      ensures Valid() && pool == old(pool) && sems == old(sems)
      ensures state == Next(old(state), Post(k, now))
    {
      hide Inv, Move, Next;
      ghost var s := state;
      PosterRuns(s, k, now);
      assert Holds(k, s.sems[k]);
      if sem.queue.IsEmpty() {
        SetValue(sem, sem.value + 1, k, s.sems);
      } else {
        var threadIdx := PopWaiter(sem, k, s.sems);
        UpdateThreadState(threadIdx, Ready, now);
        assert Match(PostStep(s, k, now).sems);
      }
      state := PostStep(s, k, now);
      assert Match(state.sems);
    }

    /** `sem_try_wait` on the `k`-th semaphore. */
    method SemTryWait(sem: Semaphore, ghost k: nat)
      requires Valid() && k < |sems| && sems[k] == sem && Enabled(state, TryWait(k))
      modifies this, sem
      ensures Valid() && pool == old(pool) && sems == old(sems)
      ensures state == Next(old(state), TryWait(k))
    {
      hide Inv, Next;
      ghost var s := state;
      TryWaiterRuns(s, k);
      assert Holds(k, s.sems[k]);
      if sem.value > 0 {
        SetValue(sem, sem.value - 1, k, s.sems);
      }
      state := TryWaitStep(s, k);
      assert Match(state.sems);
    }
  }

  lemma CreatorRuns(s: Sys, priority: int, hasMemory: bool, t0: Timeval, t1: Timeval, t2: Timeval)
    requires Inv(s) && Enabled(s, Create(priority, hasMemory, t0, t1, t2))
    ensures var s' := CreateStep(s, priority, hasMemory, t0, t1, t2);
            Inv(s') && Next(s, Create(priority, hasMemory, t0, t1, t2)) == s'
  {
    CreateKeepsInv(s, priority, hasMemory, t0, t1, t2);
  }

  lemma ScheduleUnfolds(s: Sys, picker: Picker, rand: nat, t0: Timeval, t1: Timeval)
    requires Suspended(s)
    ensures Anchored(s.table, s.cur) && s.tickets > 0 && s.cur < |s.table|
    ensures var (q, t) := Pick(s.table, s.cur, s.tickets, picker, rand);
            var s' := ScheduleStep(s, picker, rand, t0, t1);
            && q < |t| == |s.table| && s' == s.(table := Switch(t, s.cur, q, t0, t1), cur := q) && Inv(s')
  {
    PickInTable(s.table, s.cur, s.tickets, picker, rand);
    ScheduleKeepsInv(s, picker, rand, t0, t1);
    hide Inv;
  }

  lemma TryWaiterRuns(s: Sys, k: nat)
    requires Inv(s) && Enabled(s, TryWait(k))
    ensures Inv(TryWaitStep(s, k)) && Next(s, TryWait(k)) == TryWaitStep(s, k)
  {
    TryWaitKeepsInv(s, k);
  }

  lemma PosterRuns(s: Sys, k: nat, now: Timeval)
    requires Inv(s) && Enabled(s, Post(k, now))
    ensures s.sems[k].queue != [] ==> s.sems[k].queue[0] < |s.table|
    ensures Next(s, Post(k, now)) == PostStep(s, k, now) && Inv(PostStep(s, k, now))
  {
    if s.sems[k].queue != [] {
      HeadIsBlocked(s, k);
    }
    PostKeepsInv(s, k, now);
  }

  /** A thread that may call `sem_wait` is the Running one. */
  lemma CallerRuns(s: Sys, k: nat, now: Timeval)
    requires Inv(s) && Enabled(s, Wait(k, now))
    ensures s.cur < |s.table| && s.table[s.cur].state == Running && Next(s, Wait(k, now)) == WaitStep(s, k, now)
  {
  }

  lemma SemInitKeepsInv(s: Sys, initialValue: nat)
    requires Inv(s)
    ensures Inv(s.(sems := s.sems + [Sem(initialValue, [])]))
  {
    var sems := s.sems + [Sem(initialValue, [])];
    forall i: nat
      ensures Queued(sems, i) == Queued(s.sems, i)
    {
      QueuedAppend(s.sems, Sem(initialValue, []), i);
    }
  }

  lemma {:induction false} QueuedAppend(sems: seq<Sem>, sem: Sem, i: nat)
    ensures Queued(sems + [sem], i) == Queued(sems, i) + multiset(sem.queue)[i]
  {
    if sems == [] {
      assert (sems + [sem])[1..] == [];
    } else {
      QueuedAppend(sems[1..], sem, i);
      assert (sems + [sem])[1..] == sems[1..] + [sem];
    }
  }
}
