/**
  The counting semaphores of scheduler/g_semaphore.c over whole runs: each one is a single integer
  in disguise, permits are conserved, a binary semaphore excludes, and waiting does not deadlock.
 */
module Semaphores {
  import opened Timekeeping
  import opened ThreadTable
  import opened Machine

  // ----- blocked threads and queues -------------------------------------------------------------

  lemma MemberIsBlocked(s: Sys, k: nat, q: nat)
    requires BlockedIffQueuedOnce(s) && k < |s.sems| && q < |s.sems[k].queue|
    ensures s.sems[k].queue[q] < |s.table| && s.table[s.sems[k].queue[q]].state == Blocked
  {
    var i := s.sems[k].queue[q];
    assert i in multiset(s.sems[k].queue);
    QueuedUpdate(s.sems, k, s.sems[k], i);
    assert Queued(s.sems, i) > 0;
  }

  lemma QueuedIsBlocked(s: Sys, k: nat, q: nat)
    requires Inv(s) && k < |s.sems| && q < |s.sems[k].queue|
    ensures s.sems[k].queue[q] < |s.table| && s.table[s.sems[k].queue[q]].state == Blocked
  {
    MemberIsBlocked(s, k, q);
  }

  lemma TwiceIsTwo(a: seq<nat>, p: nat, q: nat)
    requires p < q < |a|
    ensures a[p] == a[q] ==> multiset(a)[a[p]] >= 2
  {
    assert a == a[..q] + [a[q]] + a[q + 1..];
    assert a[p] in multiset(a[..q]) by {
      assert a[..q][p] == a[p];
    }
  }

  /** No thread is queued twice, be it on one semaphore or on two. */
  lemma PlaceIsUnique(s: Sys, k: nat, q: nat, h: nat, p: nat)
    requires BlockedIffQueuedOnce(s) && k < |s.sems| && q < |s.sems[k].queue| && h < |s.sems| && p < |s.sems[h].queue|
    ensures s.sems[k].queue[q] == s.sems[h].queue[p] ==> k == h && q == p
  {
    var i, a, b := s.sems[k].queue[q], s.sems[k].queue, s.sems[h].queue;
    MemberIsBlocked(s, k, q);
    QueuedUpdate(s.sems, h, Sem(0, []), i);
    if h != k {
      QueuedUpdate(s.sems[h := Sem(0, [])], k, Sem(0, []), i);
      assert i in multiset(a) && b[p] in multiset(b);
    } else if p < q {
      TwiceIsTwo(a, p, q);
    } else if q < p {
      TwiceIsTwo(a, q, p);
    }
  }

  lemma {:induction false} QueuedSomewhere(sems: seq<Sem>, i: nat)
    requires Queued(sems, i) > 0
    ensures exists k :: 0 <= k < |sems| && i in sems[k].queue
  {
    if i !in sems[0].queue {
      assert i !in multiset(sems[0].queue);
      QueuedSomewhere(sems[1..], i);
      var k :| 0 <= k < |sems[1..]| && i in sems[1..][k].queue;
      assert sems[k + 1] == sems[1..][k];
    }
  }

  /** In every reachable state the Blocked threads are exactly those in the queues (and `PlaceIsUnique`
      says each is there once). */
  lemma BlockedIffQueued(s: Sys, i: nat)
    requires Inv(s) && i < |s.table|
    ensures s.table[i].state == Blocked <==> exists k :: 0 <= k < |s.sems| && i in s.sems[k].queue
  {
    if s.table[i].state == Blocked {
      QueuedSomewhere(s.sems, i);
    }
    if k :| 0 <= k < |s.sems| && i in s.sems[k].queue {
      var q :| 0 <= q < |s.sems[k].queue| && s.sems[k].queue[q] == i;
      MemberIsBlocked(s, k, q);
    }
  }

  // ----- one integer ----------------------------------------------------------------------------

  predicate IsPost(e: Event, k: nat) {
    e.Post? && e.sem == k
  }

  function Posts(es: seq<Event>, k: nat): nat {
    if es == [] then 0 else (if IsPost(es[0], k) then 1 else 0) + Posts(es[1..], k)
  }

  function Waits(es: seq<Event>, k: nat): nat {
    if es == [] then 0 else (if es[0].Wait? && es[0].sem == k then 1 else 0) + Waits(es[1..], k)
  }

  /** The `sem_try_wait` calls of the run that find a permit. */
  ghost function Taken(s: Sys, es: seq<Event>, k: nat): nat
    requires Inv(s) && Legal(s, es) && k < |s.sems|
    decreases |es|
  {
    if es == [] then 0
    else (if es[0] == TryWait(k) && s.sems[k].value > 0 then 1 else 0) + Taken(Next(s, es[0]), es[1..], k)
  }

  /** The integer a semaphore stands for: permits count up, waiting threads count down. */
  function Level(sem: Sem): int {
    sem.value - |sem.queue|
  }

  lemma LevelStep(s: Sys, e: Event, k: nat)
    requires Inv(s) && Enabled(s, e) && k < |s.sems|
    ensures Level(Next(s, e).sems[k]) == Level(s.sems[k])
            + (if IsPost(e, k) then 1 else 0)
            - (if e.Wait? && e.sem == k then 1 else 0)
            - (if e == TryWait(k) && s.sems[k].value > 0 then 1 else 0)
  {
    if IsSchedule(e) {
      ScannedSuspended(s, e);
      ScheduleStates(Scanned(s, e), e.picker, e.rand, if e.Exit? then e.t1 else e.t0, e.t1);
    }
  }

  lemma {:induction false} LevelOfRun(s: Sys, es: seq<Event>, k: nat)
    requires Inv(s) && Legal(s, es) && k < |s.sems|
    ensures Level(Run(s, es).sems[k]) == Level(s.sems[k]) + Posts(es, k) - Waits(es, k) - Taken(s, es, k)
    decreases |es|
  {
    hide Next, Inv, Level;
    if es != [] {
      LevelStep(s, es[0], k);
      LevelOfRun(Next(s, es[0]), es[1..], k);
    }
  }

  lemma LevelDecides(s: Sys, k: nat)
    requires Inv(s) && k < |s.sems|
    ensures s.sems[k].value == Max(0, Level(s.sems[k])) && |s.sems[k].queue| == Max(0, -Level(s.sems[k]))
  {
  }

  lemma InitialLevel(n: nat, lowest: nat, values: seq<nat>, t0: Timeval, t1: Timeval, k: nat)
    requires n > 0 && k < |values|
    ensures |Initial(n, lowest, values, t0, t1).sems| == |values|
    ensures Level(Initial(n, lowest, values, t0, t1).sems[k]) == values[k]
  {
    hide Inv;
  }

  /** A semaphore refines one integer: after any run from start-up, with c = initial value + posts
      - waits - successful try-waits, its value is max(0, c) and its queue has max(0, -c) threads. */
  lemma SemaphoreIsOneInteger(n: nat, lowest: nat, values: seq<nat>, t0: Timeval, t1: Timeval, es: seq<Event>, k: nat)
    requires n > 0 && k < |values|
    requires Legal(Initial(n, lowest, values, t0, t1), es)
    ensures var s0 := Initial(n, lowest, values, t0, t1);
            var c, sem := values[k] + Posts(es, k) - Waits(es, k) - Taken(s0, es, k), Run(s0, es).sems[k];
            sem.value == Max(0, c) && |sem.queue| == Max(0, -c)
  {
    hide Next, Inv, Initial, Level, Legal, Run, Posts, Waits, Taken, Enabled;
    var s0 := Initial(n, lowest, values, t0, t1);
    InitialLevel(n, lowest, values, t0, t1, k);
    LevelOfRun(s0, es, k);
    LevelDecides(Run(s0, es), k);
  }

  // ----- permits and their holders ---------------------------------------------------------------

  /** `held[i]` is the number of permits of semaphore `k` that thread `i` has been granted and has
      not posted back.  This is how a call changes it. */
  function Grant(s: Sys, held: seq<int>, e: Event, k: nat): seq<int>
    requires |held| == |s.table| && s.cur < |held| && k < |s.sems|
    requires s.sems[k].queue != [] ==> s.sems[k].queue[0] < |held|
  {
    var sem := s.sems[k];
    if ((e.Wait? && e.sem == k) || e == TryWait(k)) && sem.value > 0 then held[s.cur := held[s.cur] + 1]
    else if IsPost(e, k) then
      var returned := held[s.cur := held[s.cur] - 1];
      if sem.queue == [] then returned
      else returned[sem.queue[0] := returned[sem.queue[0]] + 1]
    else held
  }

  function Sum(xs: seq<int>): int {
    if xs == [] then 0 else xs[0] + Sum(xs[1..])
  }

  lemma {:induction false} SumUpdate(xs: seq<int>, i: nat, x: int)
    requires i < |xs|
    ensures Sum(xs[i := x]) == Sum(xs) - xs[i] + x
  {
    if i == 0 {
      assert xs[i := x][1..] == xs[1..];
    } else {
      SumUpdate(xs[1..], i - 1, x);
      assert xs[i := x][1..] == xs[1..][i - 1 := x];
    }
  }

  lemma {:induction false} SumPositive(xs: seq<int>)
    requires forall i :: 0 <= i < |xs| ==> xs[i] >= 0
    ensures Sum(xs) >= 0
    ensures Sum(xs) > 0 <==> exists i :: 0 <= i < |xs| && xs[i] > 0
  {
    if xs != [] {
      SumPositive(xs[1..]);
      if exists i :: 0 <= i < |xs| && xs[i] > 0 {
        var i :| 0 <= i < |xs| && xs[i] > 0;
        assert i > 0 ==> xs[1..][i - 1] > 0;
      }
    }
  }

  /** The books balance: nobody holds a negative number, dead slots hold none, and permits in the
      semaphore and in threads' hands together are `total`. */
  ghost predicate Balanced(s: Sys, held: seq<int>, k: nat, total: int) {
    && |held| == |s.table| && k < |s.sems|
    && (forall i :: 0 <= i < |held| ==> held[i] >= 0 && (s.table[i].state == Unused ==> held[i] == 0))
    && s.sems[k].value + Sum(held) == total
  }

  /** What a well-behaved thread does: it posts only what it was granted and does not exit holding it.
      A caller of `sem_try_wait` gets no answer (the function returns nothing), so it cannot know whether
      it holds a permit: the rule is stated on the books, and code that uses `sem_try_wait` can keep it
      only when other knowledge tells it the outcome. */
  predicate Honest(s: Sys, held: seq<int>, e: Event, k: nat)
    requires |held| == |s.table| && s.cur < |held|
  {
    (IsPost(e, k) ==> held[s.cur] > 0) && (e.Exit? ==> held[s.cur] == 0)
  }

  /** Grant, with the facts that make it defined in every reachable state. */
  ghost function Books(s: Sys, held: seq<int>, e: Event, k: nat): (h: seq<int>)
    requires Inv(s) && |held| == |s.table| && k < |s.sems|
    ensures |h| == |s.table|
  {
    if s.sems[k].queue != [] then HeadIsBlocked(s, k); Grant(s, held, e, k) else Grant(s, held, e, k)
  }

  /** What the books say of a post that hands a permit over to the head of the queue. */
  lemma HandOver(held: seq<int>, from: nat, to: nat)
    requires from < |held| && to < |held| && held[from] > 0 && forall i :: 0 <= i < |held| ==> held[i] >= 0
    ensures var returned := held[from := held[from] - 1];
            var h := returned[to := returned[to] + 1];
            && Sum(returned) == Sum(held) - 1 && Sum(h) == Sum(held)
            && forall i :: 0 <= i < |held| ==> h[i] >= 0 && (i != to && i != from ==> h[i] == held[i])
  {
    var returned := held[from := held[from] - 1];
    SumUpdate(held, from, held[from] - 1);
    SumUpdate(returned, to, returned[to] + 1);
  }

  /** How a call changes the value of a semaphore. */
  lemma ValueStep(s: Sys, e: Event, k: nat)
    requires Inv(s) && Enabled(s, e) && k < |s.sems|
    ensures Next(s, e).sems[k].value == s.sems[k].value
            + (if IsPost(e, k) && s.sems[k].queue == [] then 1 else 0)
            - (if ((e.Wait? && e.sem == k) || e == TryWait(k)) && s.sems[k].value > 0 then 1 else 0)
  {
    StatesAfter(s, e);
  }

  lemma GrantSum(s: Sys, held: seq<int>, e: Event, k: nat)
    requires |held| == |s.table| && s.cur < |held| && k < |s.sems| && Honest(s, held, e, k)
    requires s.sems[k].queue != [] ==> s.sems[k].queue[0] < |held|
    requires forall i :: 0 <= i < |held| ==> held[i] >= 0
    ensures var h, sem := Grant(s, held, e, k), s.sems[k];
            && Sum(h) == Sum(held)
               - (if IsPost(e, k) && sem.queue == [] then 1 else 0)
               + (if ((e.Wait? && e.sem == k) || e == TryWait(k)) && sem.value > 0 then 1 else 0)
            && (forall i :: 0 <= i < |held| ==> h[i] >= 0)
            && (forall i :: 0 <= i < |held| && h[i] != held[i] ==>
                  i == s.cur || (IsPost(e, k) && sem.queue != [] && i == sem.queue[0]))
  {
    hide Sum;
    if IsPost(e, k) {
      HandOver(held, s.cur, if s.sems[k].queue == [] then s.cur else s.sems[k].queue[0]);
    } else {
      SumUpdate(held, s.cur, held[s.cur] + 1);
    }
  }

  /** The permits in hand change by what the semaphore's value gives or takes. */
  lemma BooksMatchValue(s: Sys, held: seq<int>, e: Event, k: nat)
    requires Inv(s) && Enabled(s, e) && |held| == |s.table| && k < |s.sems| && Honest(s, held, e, k)
    requires forall i :: 0 <= i < |held| ==> held[i] >= 0
    ensures var h := Books(s, held, e, k);
            && Next(s, e).sems[k].value + Sum(h) == s.sems[k].value + Sum(held)
            && (forall i :: 0 <= i < |held| ==> h[i] >= 0)
            && (forall i :: 0 <= i < |held| && held[i] == 0 && h[i] != 0 ==> s.table[i].state != Unused)
  {
    if s.sems[k].queue != [] {
      HeadIsBlocked(s, k);
    }
    assert s.table[s.cur].state != Unused;
    ValueStep(s, e, k);
    GrantSum(s, held, e, k);
    hide Next, Inv, Grant;
  }

  lemma BooksStayBalanced(s: Sys, held: seq<int>, e: Event, k: nat, total: int)
    requires Inv(s) && Enabled(s, e) && Balanced(s, held, k, total) && Honest(s, held, e, k)
    ensures Balanced(Next(s, e), Books(s, held, e, k), k, total)
  {
    BooksMatchValue(s, held, e, k);
    StatesAfter(s, e);
    if e.Exit? {
      ExitChangesNoBooks(s, held, e, k);
    }
    hide Next, Inv, Books;
  }

  lemma ExitChangesNoBooks(s: Sys, held: seq<int>, e: Event, k: nat)
    requires Inv(s) && |held| == |s.table| && k < |s.sems| && e.Exit?
    ensures Books(s, held, e, k) == held
  {
  }

  /** A schedule call blocks nobody, wakes no Blocked thread and removes at most the exiting one. */
  lemma ScheduleAfter(s: Sys, e: Event)
    requires Inv(s) && Enabled(s, e) && IsSchedule(e)
    ensures Next(s, e).sems == s.sems
    ensures forall i :: 0 <= i < |s.table| ==>
              && (Next(s, e).table[i].state == Unused <==> s.table[i].state == Unused || (e.Exit? && i == s.cur))
              && (Next(s, e).table[i].state == Blocked <==> s.table[i].state == Blocked)
  {
    ScannedSuspended(s, e);
    SwitchKeepsUnrunnable(Scanned(s, e), e.picker, e.rand, if e.Exit? then e.t1 else e.t0, e.t1);
    hide Next, Inv, Suspended, ScheduleStep;
  }

  lemma SwitchKeepsUnrunnable(s: Sys, picker: Picker, rand: nat, t0: Timeval, t1: Timeval)
    requires Suspended(s)
    ensures var s' := ScheduleStep(s, picker, rand, t0, t1);
            && s'.sems == s.sems && |s'.table| == |s.table|
            && forall i :: 0 <= i < |s.table| ==>
                 && (s'.table[i].state == Unused <==> s.table[i].state == Unused)
                 && (s'.table[i].state == Blocked <==> s.table[i].state == Blocked)
  {
    ScheduleStates(s, picker, rand, t0, t1);
    hide Suspended, ScheduleStep;
  }

  /** Which slots a step can leave Unused: those that were, and the exiting one. */
  lemma StatesAfter(s: Sys, e: Event)
    requires Inv(s) && Enabled(s, e)
    ensures forall i :: 0 <= i < |s.table| && Next(s, e).table[i].state == Unused ==>
              s.table[i].state == Unused || (e.Exit? && i == s.cur)
    ensures IsSchedule(e) ==> Next(s, e).sems == s.sems
  {
    if IsSchedule(e) {
      ScheduleAfter(s, e);
    } else if e.Post? && s.sems[e.sem].queue != [] {
      HeadIsBlocked(s, e.sem);
    }
    hide Inv, Queued;
  }

  // ----- whole runs --------------------------------------------------------------------------------

  ghost predicate HonestRun(s: Sys, held: seq<int>, es: seq<Event>, k: nat)
    requires Inv(s) && Legal(s, es) && |held| == |s.table| && k < |s.sems|
    decreases |es|
  {
    es == [] ||
    (Honest(s, held, es[0], k) && HonestRun(Next(s, es[0]), Books(s, held, es[0], k), es[1..], k))
  }

  ghost function FinalBooks(s: Sys, held: seq<int>, es: seq<Event>, k: nat): (h: seq<int>)
    requires Inv(s) && Legal(s, es) && |held| == |s.table| && k < |s.sems|
    ensures |h| == |s.table|
    decreases |es|
  {
    if es == [] then held else FinalBooks(Next(s, es[0]), Books(s, held, es[0], k), es[1..], k)
  }

  /** Permits are neither made nor lost in any run of honest threads. */
  lemma {:induction false} PermitsAreConserved(s: Sys, held: seq<int>, es: seq<Event>, k: nat, total: int)
    requires Inv(s) && Legal(s, es) && Balanced(s, held, k, total) && HonestRun(s, held, es, k)
    ensures Balanced(Run(s, es), FinalBooks(s, held, es, k), k, total)
    decreases |es|
  {
    hide Next, Inv, Balanced, Books;
    if es != [] {
      BalancedShape(s, held, k, total);
      BooksStayBalanced(s, held, es[0], k, total);
      PermitsAreConserved(Next(s, es[0]), Books(s, held, es[0], k), es[1..], k, total);
    }
  }

  lemma BalancedShape(s: Sys, held: seq<int>, k: nat, total: int)
    requires Balanced(s, held, k, total)
    ensures |held| == |s.table| && k < |s.sems|
  {
  }

  /** A post by an honest thread takes the permit out of its hands: into those of the thread it wakes, the
      head of the queue, or back into the semaphore. */
  lemma PostHandsOver(s: Sys, held: seq<int>, k: nat, now: Timeval)
    requires Inv(s) && |held| == |s.table| && k < |s.sems| && Enabled(s, Post(k, now))
    ensures var h, q := Books(s, held, Post(k, now), k), s.sems[k].queue;
            if q == [] then h == held[s.cur := held[s.cur] - 1]
            else && q[0] < |held| && q[0] != s.cur
                 && h == held[s.cur := held[s.cur] - 1][q[0] := held[q[0]] + 1]
                 && Next(s, Post(k, now)).table[q[0]].state == Ready
  {
    if s.sems[k].queue != [] {
      HeadIsBlocked(s, k);
    }
    hide Queued, TicketsAllotted, Priorities;
  }

  /** What an observer sees: thread `i` is granted a permit of semaphore `k` when its own wait or try-wait
      lowers the value, or when a post on `k` wakes it. */
  ghost predicate Granted(s: Sys, e: Event, i: nat, k: nat)
    requires Inv(s) && Enabled(s, e) && i < |s.table| && k < |s.sems|
  {
    var s' := Next(s, e);
    || (i == s.cur && (e.Wait? || e.TryWait?) && s'.sems[k].value < s.sems[k].value)
    || (IsPost(e, k) && s.table[i].state == Blocked && s'.table[i].state == Ready)
  }

  ghost function Grants(s: Sys, es: seq<Event>, i: nat, k: nat): nat
    requires Inv(s) && Legal(s, es) && i < |s.table| && k < |s.sems|
    decreases |es|
  {
    if es == [] then 0 else (if Granted(s, es[0], i, k) then 1 else 0) + Grants(Next(s, es[0]), es[1..], i, k)
  }

  ghost function PostsBy(s: Sys, es: seq<Event>, i: nat, k: nat): nat
    requires Inv(s) && Legal(s, es)
    decreases |es|
  {
    if es == [] then 0
    else (if IsPost(es[0], k) && s.cur == i then 1 else 0) + PostsBy(Next(s, es[0]), es[1..], i, k)
  }

  lemma WokenIsHead(s: Sys, e: Event, i: nat, k: nat)
    requires Inv(s) && Enabled(s, e) && i < |s.table| && k < |s.sems| && IsPost(e, k)
    ensures Granted(s, e, i, k) <==> s.sems[k].queue != [] && i == s.sems[k].queue[0]
  {
    if s.sems[k].queue != [] {
      HeadIsBlocked(s, k);
    }
    hide Queued, TicketsAllotted, Priorities;
  }

  lemma GrantedByWait(s: Sys, e: Event, i: nat, k: nat)
    requires Inv(s) && Enabled(s, e) && i < |s.table| && k < |s.sems| && !IsPost(e, k)
    ensures Granted(s, e, i, k) <==>
            i == s.cur && ((e.Wait? && e.sem == k) || e == TryWait(k)) && s.sems[k].value > 0
  {
    ValueStep(s, e, k);
    hide Next, Inv;
  }

  lemma BooksStep(s: Sys, held: seq<int>, e: Event, i: nat, k: nat)
    requires Inv(s) && Enabled(s, e) && |held| == |s.table| && i < |held| && k < |s.sems|
    ensures Books(s, held, e, k)[i]
         == held[i] + (if Granted(s, e, i, k) then 1 else 0) - (if IsPost(e, k) && s.cur == i then 1 else 0)
  {
    if IsPost(e, k) {
      WokenIsHead(s, e, i, k);
      PostHandsOver(s, held, k, e.now);
      hide Next, Inv, Granted, Books;
    } else {
      GrantedByWait(s, e, i, k);
      hide Next, Inv, Granted;
    }
  }

  /** The books record what an observer counts: what a thread holds after any run is what it held before,
      plus the permits it was granted, minus its own posts. */
  lemma {:induction false} BooksCountGrants(s: Sys, held: seq<int>, es: seq<Event>, i: nat, k: nat)
    requires Inv(s) && Legal(s, es) && |held| == |s.table| && i < |held| && k < |s.sems|
    ensures FinalBooks(s, held, es, k)[i] == held[i] + Grants(s, es, i, k) - PostsBy(s, es, i, k)
    decreases |es|
  {
    hide Next, Inv, Books, Granted;
    if es != [] {
      BooksStep(s, held, es[0], i, k);
      BooksCountGrants(Next(s, es[0]), Books(s, held, es[0], k), es[1..], i, k);
    }
  }

  function NoPermits(n: nat): (held: seq<int>)
    ensures |held| == n && forall i :: 0 <= i < n ==> held[i] == 0
  {
    seq(n, _ => 0)
  }

  /** Initially nobody holds anything. */
  lemma InitiallyBalanced(n: nat, lowest: nat, values: seq<nat>, t0: Timeval, t1: Timeval, k: nat)
    requires n > 0 && k < |values|
    ensures Balanced(Initial(n, lowest, values, t0, t1), NoPermits(n), k, values[k])
  {
    SumPositive(NoPermits(n));
  }

  /** With one permit in all there is never more than one holder. */
  lemma AtMostOneHolder(s: Sys, held: seq<int>, k: nat, i: nat, j: nat)
    requires Inv(s) && Balanced(s, held, k, 1)
    requires i < |held| && j < |held| && held[i] > 0 && held[j] > 0
    ensures i == j && held[i] == 1 && s.sems[k].value == 0
  {
    var less := held[i := held[i] - 1];
    assert i != j ==> less[j] > 0;
    assert i == j ==> less[i] == held[i] - 1;
    SumUpdate(held, i, held[i] - 1);
    SumPositive(less);
  }

  /** Mutual exclusion of permits granted: on a semaphore initialised to one, after any honest run from
      start-up, at most one thread is between its grant and its post, in the books as well as by counting
      the grants and posts of the run.  (A caller of `sem_wait` that was not
      granted one runs on until the next tick: `WaitGrantsIff`, `WindowClosesAtTick`.) */
  lemma MutualExclusion(n: nat, lowest: nat, values: seq<nat>, t0: Timeval, t1: Timeval,
                        es: seq<Event>, k: nat, i: nat, j: nat)
    requires n > 0 && k < |values| && values[k] == 1 && i < n && j < n
    requires Legal(Initial(n, lowest, values, t0, t1), es)
    requires HonestRun(Initial(n, lowest, values, t0, t1), NoPermits(n), es, k)
    ensures var held := FinalBooks(Initial(n, lowest, values, t0, t1), NoPermits(n), es, k);
            held[i] > 0 && held[j] > 0 ==> i == j
    ensures var s0 := Initial(n, lowest, values, t0, t1);
            Grants(s0, es, i, k) > PostsBy(s0, es, i, k) && Grants(s0, es, j, k) > PostsBy(s0, es, j, k) ==> i == j
  {
    var s0 := Initial(n, lowest, values, t0, t1);
    var held := FinalBooks(s0, NoPermits(n), es, k);
    InitiallyBalanced(n, lowest, values, t0, t1, k);
    hide Next, Inv, Initial;
    PermitsAreConserved(s0, NoPermits(n), es, k, 1);
    BooksCountGrants(s0, NoPermits(n), es, i, k);
    BooksCountGrants(s0, NoPermits(n), es, j, k);
    if held[i] > 0 && held[j] > 0 {
      AtMostOneHolder(Run(s0, es), held, k, i, j);
    }
  }

  /** `sem_wait` returns to its caller in either case, but with a permit if and only if the value was
      positive.  Otherwise the caller goes on, queued and marked Blocked, without one. */
  lemma WaitGrantsIff(s: Sys, held: seq<int>, k: nat, now: Timeval)
    requires Inv(s) && k < |s.sems| && |held| == |s.table| && Enabled(s, Wait(k, now))
    ensures var s', h := Next(s, Wait(k, now)), Books(s, held, Wait(k, now), k);
            && s'.cur == s.cur
            && (h[s.cur] == held[s.cur] + 1 <==> s.sems[k].value > 0)
            && (s'.table[s.cur].state == Running <==> s.sems[k].value > 0)
            && (s.sems[k].value <= 0 ==>
                  h == held && s'.table[s.cur].state == Blocked && s'.sems[k].queue == s.sems[k].queue + [s.cur])
  {
    hide Queued, TicketsAllotted, Priorities;
  }

  /** It goes on until the next tick, which takes the processor from it; it stays Blocked. */
  lemma WindowClosesAtTick(s: Sys, e: Event)
    requires Inv(s) && s.table[s.cur].state == Blocked && Enabled(s, e)
    ensures e.Schedule? && Next(s, e).cur != s.cur && Next(s, e).table[s.cur].state == Blocked
  {
    ScheduleNeverRevives(s, e);
    ScannedSuspended(s, e);
    ScheduleStates(s, e.picker, e.rand, e.t0, e.t1);
    hide Next, Queued, TicketsAllotted;
  }

  // ----- deadlock ------------------------------------------------------------------------------------

  /** A permit is in the hands of a thread that can still post it. */
  ghost predicate SomeHolderCanRun(s: Sys, held: seq<int>)
    requires |held| == |s.table|
  {
    exists i :: 0 <= i < |held| && held[i] > 0 && (s.table[i].state == Ready || s.table[i].state == Running)
  }

  ghost predicate SomeThreadBlocked(s: Sys) {
    exists i :: 0 <= i < |s.table| && s.table[i].state == Blocked
  }

  ghost predicate BlockedHoldNothing(s: Sys, held: seq<int>) {
    |held| == |s.table| && forall i :: 0 <= i < |held| && s.table[i].state == Blocked ==> held[i] == 0
  }

  /** The caller's rule that rules deadlock out: a thread holding a permit does not wait for another. */
  predicate WaitsEmptyHanded(s: Sys, held: seq<int>, e: Event)
    requires |held| == |s.table| && s.cur < |held|
  {
    e.Wait? ==> held[s.cur] == 0
  }

  /** The books change for the caller of a post, a try-wait or a granted wait, and for the thread woken. */
  lemma BooksTouch(s: Sys, held: seq<int>, e: Event, k: nat)
    requires Inv(s) && Enabled(s, e) && |held| == |s.table| && k < |s.sems|
    ensures var h := Books(s, held, e, k);
            forall i :: 0 <= i < |held| && h[i] != held[i] ==>
              || (i == s.cur && !IsSchedule(e) && !(e.Wait? && e.sem == k && s.sems[k].value <= 0))
              || (IsPost(e, k) && s.sems[k].queue != [] && i == s.sems[k].queue[0])
  {
    if s.sems[k].queue != [] {
      HeadIsBlocked(s, k);
    }
    hide Inv, Queued;
  }

  lemma BlockedStayEmptyHanded(s: Sys, held: seq<int>, e: Event, total: int)
    requires Inv(s) && |s.sems| == 1 && Enabled(s, e) && Balanced(s, held, 0, total)
    requires BlockedHoldNothing(s, held) && WaitsEmptyHanded(s, held, e)
    ensures BlockedHoldNothing(Next(s, e), Books(s, held, e, 0))
  {
    BooksTouch(s, held, e, 0);
    BlockedAfter(s, e);
    hide Next, Inv, Books, Balanced;
  }

  /** Which threads are Blocked after a step: those that were, less the one a post wakes, plus a caller
      of `sem_wait` that finds no permit. */
  lemma BlockedAfter(s: Sys, e: Event)
    requires Inv(s) && Enabled(s, e)
    ensures forall i :: 0 <= i < |s.table| ==>
              (Next(s, e).table[i].state == Blocked <==>
                 || (i == s.cur && e.Wait? && s.sems[e.sem].value <= 0)
                 || (s.table[i].state == Blocked
                     && !(e.Post? && s.sems[e.sem].queue != [] && i == s.sems[e.sem].queue[0])))
  {
    if IsSchedule(e) {
      ScheduleAfter(s, e);
    } else if e.Post? && s.sems[e.sem].queue != [] {
      HeadIsBlocked(s, e.sem);
    }
    hide Queued, TicketsAllotted, Priorities;
  }

  /** When somebody is blocked on the only semaphore, all its permits are handed out. */
  lemma BlockedMeansHandedOut(s: Sys, held: seq<int>, total: int)
    requires Inv(s) && |s.sems| == 1 && Balanced(s, held, 0, total) && SomeThreadBlocked(s)
    ensures s.sems[0].value == 0 && Sum(held) == total
  {
    var i :| 0 <= i < |s.table| && s.table[i].state == Blocked;
    assert Queued(s.sems, i) == 1;
    assert s.sems[1..] == [];
    assert multiset(s.sems[0].queue)[i] == 1;
  }

  /** No deadlock in a state: if blocked threads hold nothing, somebody who can run holds a permit. */
  lemma BlockedWaitForRunnable(s: Sys, held: seq<int>, total: int)
    requires Inv(s) && |s.sems| == 1 && total >= 1 && Balanced(s, held, 0, total) && BlockedHoldNothing(s, held)
    ensures SomeThreadBlocked(s) ==> SomeHolderCanRun(s, held)
  {
    if SomeThreadBlocked(s) {
      BlockedMeansHandedOut(s, held, total);
      SumPositive(held);
      var i :| 0 <= i < |held| && held[i] > 0;
      assert s.table[i].state != Unused && s.table[i].state != Blocked;
    }
  }

  ghost predicate EmptyHandedRun(s: Sys, held: seq<int>, es: seq<Event>)
    requires Inv(s) && Legal(s, es) && |held| == |s.table| && 0 < |s.sems|
    decreases |es|
  {
    es == [] ||
    (SlotOfCurrent(s);
     WaitsEmptyHanded(s, held, es[0]) && EmptyHandedRun(Next(s, es[0]), Books(s, held, es[0], 0), es[1..]))
  }

  lemma SlotOfCurrent(s: Sys)
    requires Inv(s)
    ensures s.cur < |s.table|
  {
  }

  /** No deadlock in any run: with a single semaphore of at least one permit, honest threads that wait
      only empty-handed always leave a permit with a thread that can run while any thread is blocked. */
  lemma {:induction false} NoDeadlock(s: Sys, held: seq<int>, es: seq<Event>, total: int)
    requires Inv(s) && |s.sems| == 1 && total >= 1 && Legal(s, es) && Balanced(s, held, 0, total)
    requires BlockedHoldNothing(s, held) && HonestRun(s, held, es, 0) && EmptyHandedRun(s, held, es)
    ensures var s', held' := Run(s, es), FinalBooks(s, held, es, 0);
            SomeThreadBlocked(s') ==> SomeHolderCanRun(s', held')
    decreases |es|
  {
    hide Next, Inv, Balanced, BlockedHoldNothing, Books;
    if es == [] {
      BlockedWaitForRunnable(s, held, total);
    } else {
      BalancedShape(s, held, 0, total);
      BooksStayBalanced(s, held, es[0], 0, total);
      BlockedStayEmptyHanded(s, held, es[0], total);
      NoDeadlock(Next(s, es[0]), Books(s, held, es[0], 0), es[1..], total);
    }
  }

  /** Exactly when a `sem_wait` on the only semaphore leaves a permit with a thread that can run while
      any thread is blocked: it finds a permit, or some other thread that can run holds one. */
  lemma WaitKeepsHopeIff(s: Sys, held: seq<int>, total: int, now: Timeval)
    requires Inv(s) && |s.sems| == 1 && Enabled(s, Wait(0, now)) && Balanced(s, held, 0, total)
    ensures var s', held' := Next(s, Wait(0, now)), Books(s, held, Wait(0, now), 0);
            (SomeThreadBlocked(s') ==> SomeHolderCanRun(s', held')) <==>
            || s.sems[0].value > 0
            || exists i :: 0 <= i < |held| && i != s.cur && held[i] > 0 && s.table[i].state in {Ready, Running}
  {
    var e := Wait(0, now);
    var s', held' := Next(s, e), Books(s, held, e, 0);
    if s.sems[0].value > 0 {
      if SomeThreadBlocked(s) {
        BlockedMeansHandedOut(s, held, total);
      }
      assert s'.table == s.table;
    } else {
      BlockedAfter(s, e);
      assert s'.table[s.cur].state == Blocked && held' == held;
      assert forall i :: 0 <= i < |held| && i != s.cur ==> s'.table[i] == s.table[i];
    }
  }

  /** The rule of waiting empty-handed can be broken only while another thread that can run holds a
      permit, or one is left in the semaphore: then, and only then, does the wait keep hope alive. */
  lemma WaitKeepsHopeIffEmptyHanded(s: Sys, held: seq<int>, total: int, now: Timeval)
    requires Inv(s) && |s.sems| == 1 && total >= 1 && Enabled(s, Wait(0, now))
    requires Balanced(s, held, 0, total) && BlockedHoldNothing(s, held)
    ensures var s', held' := Next(s, Wait(0, now)), Books(s, held, Wait(0, now), 0);
            (SomeThreadBlocked(s') ==> SomeHolderCanRun(s', held')) <==>
            || s.sems[0].value > 0 || held[s.cur] == 0
            || exists i :: 0 <= i < |held| && i != s.cur && held[i] > 0 && s.table[i].state != Blocked
  {
    WaitKeepsHopeIff(s, held, total, now);
    SumPositive(held);
    assert forall i :: 0 <= i < |held| && held[i] > 0 ==> s.table[i].state in {Ready, Running};
    hide Next, Queued;
  }

  /** With a single permit in all, the wait keeps hope alive if and only if the caller holds nothing. */
  lemma OnlyPermitKeepsHopeIff(s: Sys, held: seq<int>, now: Timeval)
    requires Inv(s) && |s.sems| == 1 && Enabled(s, Wait(0, now))
    requires Balanced(s, held, 0, 1) && BlockedHoldNothing(s, held)
    ensures var s', held' := Next(s, Wait(0, now)), Books(s, held, Wait(0, now), 0);
            (SomeThreadBlocked(s') ==> SomeHolderCanRun(s', held')) <==> held[s.cur] == 0
  {
    WaitKeepsHopeIffEmptyHanded(s, held, 1, now);
    if held[s.cur] > 0 {
      forall i | 0 <= i < |held| && held[i] > 0
        ensures i == s.cur && s.sems[0].value == 0
      {
        AtMostOneHolder(s, held, 0, i, s.cur);
      }
    }
    hide Next, Inv, Books;
  }

  /** Semaphore `k` has no permit left, and every thread that holds one is queued on `k` itself. */
  ghost predicate Stuck(s: Sys, held: seq<int>, k: nat) {
    && |held| == |s.table| && k < |s.sems| && s.sems[k].value == 0
    && forall i :: 0 <= i < |held| && held[i] > 0 ==> i in s.sems[k].queue
  }

  /** Only a post shortens a queue. */
  lemma QueueGrows(s: Sys, e: Event, k: nat)
    requires Inv(s) && Enabled(s, e) && k < |s.sems| && !IsPost(e, k)
    ensures s.sems[k].queue <= Next(s, e).sems[k].queue
  {
    if IsSchedule(e) {
      StatesAfter(s, e);
    }
    hide Inv, Queued;
  }

  lemma StuckBooks(s: Sys, held: seq<int>, e: Event, k: nat)
    requires Inv(s) && Enabled(s, e) && Stuck(s, held, k) && Honest(s, held, e, k)
    ensures !IsPost(e, k) && Books(s, held, e, k) == held
  {
    if IsPost(e, k) {
      var q :| 0 <= q < |s.sems[k].queue| && s.sems[k].queue[q] == s.cur;
      MemberIsBlocked(s, k, q);
    }
    hide Queued, TicketsAllotted, Next;
  }

  /** No honest call changes the books of a stuck semaphore; its queue can only grow. */
  lemma StuckStep(s: Sys, held: seq<int>, e: Event, k: nat)
    requires Inv(s) && Enabled(s, e) && Stuck(s, held, k) && Honest(s, held, e, k)
    ensures Books(s, held, e, k) == held && Stuck(Next(s, e), held, k)
    ensures s.sems[k].queue <= Next(s, e).sems[k].queue
  {
    StuckBooks(s, held, e, k);
    ValueStep(s, e, k);
    QueueGrows(s, e, k);
    hide Next, Inv, Books;
    assert forall i: nat :: i in s.sems[k].queue ==> i in Next(s, e).sems[k].queue;
  }

  /** A stuck semaphore stays stuck for good: whatever honest threads do, on any number of semaphores,
      no permit ever changes hands again and nobody ever leaves the queue. */
  lemma {:induction false} StuckForGood(s: Sys, held: seq<int>, es: seq<Event>, k: nat)
    requires Inv(s) && Legal(s, es) && Stuck(s, held, k) && HonestRun(s, held, es, k)
    ensures FinalBooks(s, held, es, k) == held && Stuck(Run(s, es), held, k)
    ensures s.sems[k].queue <= Run(s, es).sems[k].queue
    ensures forall i: nat :: i in s.sems[k].queue ==> i < |s.table| && Run(s, es).table[i].state == Blocked
    decreases |es|
  {
    hide Next, Inv, Books;
    if es == [] {
      forall i: nat | i in s.sems[k].queue
        ensures i < |s.table| && s.table[i].state == Blocked
      {
        var q :| 0 <= q < |s.sems[k].queue| && s.sems[k].queue[q] == i;
        QueuedIsBlocked(s, k, q);
      }
    } else {
      StuckStep(s, held, es[0], k);
      assert forall i: nat :: i in s.sems[k].queue ==> i in Next(s, es[0]).sems[k].queue;
      StuckForGood(Next(s, es[0]), held, es[1..], k);
    }
  }

  lemma LostHopeIsStuck(s: Sys, held: seq<int>, total: int)
    requires Inv(s) && |s.sems| == 1 && Balanced(s, held, 0, total)
    requires SomeThreadBlocked(s) && !SomeHolderCanRun(s, held)
    ensures Stuck(s, held, 0)
    ensures forall i :: 0 <= i < |s.table| && s.table[i].state == Blocked ==> i in s.sems[0].queue
  {
    BlockedMeansHandedOut(s, held, total);
    forall i | 0 <= i < |s.table| && s.table[i].state == Blocked
      ensures i in s.sems[0].queue
    {
      BlockedIffQueued(s, i);
    }
    hide Inv;
    assert forall i :: 0 <= i < |held| && held[i] > 0 ==> s.table[i].state == Blocked;
  }

  /** With a single semaphore, lost hope never returns: the threads blocked then stay Blocked, and no
      run of honest threads ever brings a permit into the hands of a thread that can run. */
  lemma LostHopeNeverReturns(s: Sys, held: seq<int>, es: seq<Event>, total: int)
    requires Inv(s) && |s.sems| == 1 && Legal(s, es) && Balanced(s, held, 0, total) && HonestRun(s, held, es, 0)
    requires SomeThreadBlocked(s) && !SomeHolderCanRun(s, held)
    ensures var s' := Run(s, es);
            && FinalBooks(s, held, es, 0) == held && !SomeHolderCanRun(s', held)
            && forall i :: 0 <= i < |s.table| && s.table[i].state == Blocked ==> s'.table[i].state == Blocked
  {
    hide Next, Inv, Legal, Run, HonestRun, FinalBooks, Balanced, SomeThreadBlocked;
    LostHopeIsStuck(s, held, total);
    StuckForGood(s, held, es, 0);
  }

  // ----- a run that shows it ----------------------------------------------------------------------

  lemma RunUnfolds(s: Sys, held: seq<int>, e: Event, es: seq<Event>, k: nat)
    requires Inv(s) && |held| == |s.table| && k < |s.sems| && Enabled(s, e) && Honest(s, held, e, k)
    requires Legal(Next(s, e), es) && HonestRun(Next(s, e), Books(s, held, e, k), es, k)
    ensures Legal(s, [e] + es) && HonestRun(s, held, [e] + es, k)
    ensures Run(s, [e] + es) == Run(Next(s, e), es)
    ensures FinalBooks(s, held, [e] + es, k) == FinalBooks(Next(s, e), Books(s, held, e, k), es, k)
  {
    hide Next, Inv, Books, Honest;
    assert ([e] + es)[0] == e && ([e] + es)[1..] == es;
  }

  /** One idle thread and one other, which is Running: the other takes the only permit and waits again. */
  lemma SecondWaitBlocks(s: Sys)
    requires Inv(s) && |s.table| == 2 && s.cur == 1 && s.table[1].state == Running && s.sems == [Sem(1, [])]
    ensures var w := Wait(0, ZERO);
            && Enabled(s, w) && Enabled(Next(s, w), w)
            && Honest(s, [0, 0], w, 0) && Honest(Next(s, w), Books(s, [0, 0], w, 0), w, 0)
            && Books(Next(s, w), Books(s, [0, 0], w, 0), w, 0) == [0, 1]
            && Next(Next(s, w), w).table[1].state == Blocked
  {
    var w := Wait(0, ZERO);
    assert Next(s, w).sems == [Sem(0, [])];
  }

  /** Start-up, one creation and one yield lead there. */
  lemma SecondThreadRuns()
    ensures var s0 := Initial(2, 0, [1], ZERO, ZERO);
            var create, schedule := Create(0, true, ZERO, ZERO, ZERO), Schedule(ByTurn, 0, ZERO, ZERO);
            && Enabled(s0, create) && Enabled(Next(s0, create), schedule)
            && var s2 := Next(Next(s0, create), schedule);
            && |s2.table| == 2 && s2.cur == 1 && s2.table[1].state == Running && s2.sems == [Sem(1, [])]
  {
    var s0, create := Initial(2, 0, [1], ZERO, ZERO), Create(0, true, ZERO, ZERO, ZERO);
    var s1, schedule := Next(s0, create), Schedule(ByTurn, 0, ZERO, ZERO);
    assert FirstUnused(s0.table, 0) == 1;
    assert s1.table[1].state == Ready && s1.cur == 0 && s1.sems == [Sem(1, [])];
    RoundRobinIsFirstReady(s1.table, 0);
    hide RoundRobin, Queued, TicketsAllotted;
  }

  lemma NothingGranted(s: Sys, e: Event)
    requires Inv(s) && |s.table| == 2 && 0 < |s.sems| && (e.Create? || e.Schedule?)
    ensures Books(s, [0, 0], e, 0) == [0, 0] && Honest(s, [0, 0], e, 0)
  {
  }

  /** The promise "somebody who can run holds a permit" fails for a thread that waits twice: a legal run
      of honest threads, from start-up with one permit, that ends with the only holder blocked. */
  lemma DoubleWaitDeadlocks() returns (es: seq<Event>)
    ensures var s0 := Initial(2, 0, [1], ZERO, ZERO);
            && Legal(s0, es) && HonestRun(s0, [0, 0], es, 0)
            && FinalBooks(s0, [0, 0], es, 0) == [0, 1] && Run(s0, es).table[1].state == Blocked
  {
    var s0 := Initial(2, 0, [1], ZERO, ZERO);
    var create, schedule, w := Create(0, true, ZERO, ZERO, ZERO), Schedule(ByTurn, 0, ZERO, ZERO), Wait(0, ZERO);
    assert |s0.table| == 2 && |s0.sems| == 1;
    hide *;
    SecondThreadRuns();
    var s1 := Next(s0, create);
    var s2 := Next(s1, schedule);
    SecondWaitBlocks(s2);
    var s3 := Next(s2, w);
    NothingGranted(s0, create);
    NothingGranted(s1, schedule);
    var none: seq<int> := [0, 0];
    var one := Books(s2, none, w, 0);
    EmptyRun(Next(s3, w), Books(s3, one, w, 0), 0);
    RunUnfolds(s3, one, w, [], 0);
    RunUnfolds(s2, none, w, [w] + [], 0);
    RunUnfolds(s1, none, schedule, [w] + ([w] + []), 0);
    RunUnfolds(s0, none, create, [schedule] + ([w] + ([w] + [])), 0);
    es := [create] + ([schedule] + ([w] + ([w] + [])));
  }

  lemma EmptyRun(s: Sys, held: seq<int>, k: nat)
    requires Inv(s) && |held| == |s.table| && k < |s.sems|
    ensures Legal(s, []) && HonestRun(s, held, [], k) && Run(s, []) == s && FinalBooks(s, held, [], k) == held
  {
  }
}
