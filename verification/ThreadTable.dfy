/**
  The thread table of scheduler/gthr.c and the three pickers as functions of it.
  `MaxGThreads` is the length of the table; `MaxPriority` is 0.
 */
module ThreadTable {
  import opened Timekeeping

  datatype State = Unused | Running | Ready | Blocked

  datatype Account = Account(
    created: Timeval,
    lastChange: Timeval,
    totalRunning: Timeval,
    totalWaiting: Timeval,
    runs: SliceStats,
    waits: SliceStats)

  datatype Thread = Thread(state: State, priority: int, skip: int, lo: int, hi: int, account: Account)

  type Table = seq<Thread>

  /** `init_thread_stats`: the clock is read twice. */
  function FreshAccount(t0: Timeval, t1: Timeval): Account {
    Account(t0, t1, ZERO, ZERO, NO_SLICES, NO_SLICES)
  }

  /** A statically allocated slot. */
  const BLANK := Thread(Unused, 0, 0, 0, 0, FreshAccount(ZERO, ZERO))

  /** `update_thread_state` at the instant `now`. */
  function Move(th: Thread, state: State, now: Timeval): Thread {
    if th.state == state then th
    else
      var a, elapsed := th.account, Subtract(now, th.account.lastChange);
      var charged :=
        match th.state
        case Running => a.(totalRunning := Add(a.totalRunning, elapsed), runs := RecordSlice(a.runs, elapsed))
        case Unused => a
        case _ => a.(totalWaiting := Add(a.totalWaiting, elapsed), waits := RecordSlice(a.waits, elapsed));
      th.(state := state, account := charged.(lastChange := now))
  }

  // ----- cyclic order -----------------------------------------------------------------------

  function Succ(p: nat, n: nat): nat
    requires p < n
  {
    if p + 1 == n then 0 else p + 1
  }

  /** How many slots a scan starting after `from` visits until it is at `to`: 1 for the next slot,
      `n` for `from` itself. */
  function Distance(from: nat, to: nat, n: nat): nat
    requires from < n && to < n
  {
    if to > from then to - from else to + n - from
  }

  /** What a picker may rely on: slot 0 is the idle thread, always eligible unless it is current. */
  ghost predicate Anchored(t: Table, cur: nat) {
    && cur < |t|
    && t[cur].state != Ready
    && t[0].priority == 0 && t[0].skip >= 0
    && (if cur == 0 then t[0].state == Running else t[0].state == Ready)
  }

  // ----- round robin --------------------------------------------------------------------------

  /** The slot `round_robin` returns once its scan stands at `p`, a slot that is not Ready. */
  function RoundRobin(t: Table, cur: nat, p: nat): nat
    requires Anchored(t, cur) && p < |t|
    decreases |t| - p
  {
    var q := Succ(p, |t|);
    if t[q].state == Blocked then RoundRobin(t, cur, q)
    else if q == cur || t[q].state == Ready then q
    else RoundRobin(t, cur, q)
  }

  lemma {:induction false} RoundRobinScan(t: Table, cur: nat, p: nat)
    requires Anchored(t, cur) && cur <= p < |t|
    requires forall i :: cur <= i <= p ==> t[i].state != Ready
    ensures var q := RoundRobin(t, cur, p);
            && (q == 0 || p < q < |t|)
            && (t[q].state == Ready || (q == cur == 0))
            && forall i :: cur <= i < (if q == 0 then |t| else q) ==> t[i].state != Ready
    decreases |t| - p
  {
    var q := Succ(p, |t|);
    if t[q].state == Blocked || (q != cur && t[q].state != Ready) {
      RoundRobinScan(t, cur, q);
    }
  }

  /** Plain round robin returns the first Ready slot in cyclic order after the current one, and the
      current one only when no slot is Ready. */
  lemma RoundRobinIsFirstReady(t: Table, cur: nat)
    requires Anchored(t, cur)
    ensures var q := RoundRobin(t, cur, cur);
            && q < |t|
            && (t[q].state == Ready || (q == cur == 0 && forall i :: 0 <= i < |t| ==> t[i].state != Ready))
            && forall i :: 0 <= i < |t| && t[i].state == Ready ==> Distance(cur, q, |t|) <= Distance(cur, i, |t|)
  {
    RoundRobinScan(t, cur, cur);
  }

  /** On an arbitrary table: the scan of `round_robin`, standing at `p`, returns within `d` further moves. */
  predicate ScanReturns(t: Table, cur: nat, p: nat, d: nat)
    requires p < |t|
    decreases d
  {
    || t[p].state == Ready
    || (d > 0 &&
        var q := Succ(p, |t|);
        (t[q].state != Blocked && q == cur) || ScanReturns(t, cur, q, d - 1))
  }

  lemma {:induction false} ScanStopsAt(t: Table, cur: nat, p: nat, i: nat, d: nat)
    requires p < |t| && i < |t| && Distance(p, i, |t|) <= d
    requires t[i].state == Ready || (i == cur && t[i].state != Blocked)
    ensures ScanReturns(t, cur, p, d)
    decreases d
  {
    if Succ(p, |t|) != i {
      ScanStopsAt(t, cur, Succ(p, |t|), i, d - 1);
    }
  }

  lemma {:induction false} ScanSpins(t: Table, cur: nat, p: nat, d: nat)
    requires cur < |t| && p < |t| && t[cur].state == Blocked
    requires forall i :: 0 <= i < |t| ==> t[i].state != Ready
    ensures !ScanReturns(t, cur, p, d)
    decreases d
  {
    if d > 0 {
      ScanSpins(t, cur, Succ(p, |t|), d - 1);
    }
  }

  /** `round_robin` returns if and only if some thread is Ready or the current one is not Blocked, and
      then within one turn; otherwise it spins for ever.  Hence the rule that the idle thread never waits. */
  lemma RoundRobinReturnsIff(t: Table, cur: nat, d: nat)
    requires cur < |t| <= d
    ensures var fine := t[cur].state != Blocked || exists i :: 0 <= i < |t| && t[i].state == Ready;
            && (ScanReturns(t, cur, cur, d) <==> fine)
            && ((exists m: nat :: ScanReturns(t, cur, cur, m)) <==> fine)
  {
    if t[cur].state != Blocked {
      ScanStopsAt(t, cur, cur, cur, d);
    } else if i :| 0 <= i < |t| && t[i].state == Ready {
      ScanStopsAt(t, cur, cur, i, d);
    } else {
      forall m: nat
        ensures !ScanReturns(t, cur, cur, m)
      {
        ScanSpins(t, cur, cur, m);
      }
    }
  }

  // ----- round robin with ageing priorities ---------------------------------------------------

  /** Outcome of a priority scan: the slot picked, the table with its skip counts, the slots visited. */
  datatype Scan = Scan(pick: nat, table: Table, steps: nat)

  function PriorityScan(t: Table, cur: nat, p: nat): (r: Scan)
    requires Anchored(t, cur) && p < |t|
    decreases |t| - p
  {
    var q := Succ(p, |t|);
    if t[q].state == Blocked then
      OneMore(PriorityScan(t, cur, q))
    else if t[q].state == Ready && t[q].priority - t[q].skip <= 0 then
      Scan(q, t[q := t[q].(skip := 0)], 1)
    else
      var t' := t[q := t[q].(skip := t[q].skip + 1)];
      if q == cur then Scan(q, t', 1) else OneMore(PriorityScan(t', cur, q))
  }

  function OneMore(r: Scan): Scan {
    r.(steps := r.steps + 1)
  }

  /** A scan touches nothing but skip counts, ends at slot 0 at the latest, and picks a Ready slot
      (or the idle thread, if that is current). */
  lemma {:induction false} PriorityScanFrame(t: Table, cur: nat, p: nat)
    requires Anchored(t, cur) && cur <= p < |t|
    ensures var r := PriorityScan(t, cur, p);
            && |r.table| == |t| && r.pick < |t|
            && (t[r.pick].state == Ready || (r.pick == cur == 0))
            && 1 <= r.steps == Distance(p, r.pick, |t|) <= |t| - p
            && forall i :: 0 <= i < |t| ==> r.table[i] == t[i].(skip := r.table[i].skip)
    decreases |t| - p
  {
    var q := Succ(p, |t|);
    if t[q].state == Blocked {
      PriorityScanFrame(t, cur, q);
    } else if !(t[q].state == Ready && t[q].priority - t[q].skip <= 0) && q != cur {
      PriorityScanFrame(t[q := t[q].(skip := t[q].skip + 1)], cur, q);
    }
  }

  /** What a scan does to one skip count: a Ready slot is picked when visited and due, and ages by one
      when visited and not due; slots that are not visited, and Blocked ones, keep their count. */
  lemma {:induction false} PriorityScanSkip(t: Table, cur: nat, p: nat, i: nat)
    requires Anchored(t, cur) && cur <= p < |t| && i < |t|
    ensures var r := PriorityScan(t, cur, p);
            && |r.table| == |t|
            && r.table[i].skip ==
               if Distance(p, i, |t|) > r.steps || t[i].state == Blocked then t[i].skip
               else if t[i].state == Ready && t[i].priority - t[i].skip <= 0 then 0
               else t[i].skip + 1
    ensures var r := PriorityScan(t, cur, p);
            t[i].state == Ready ==> (r.pick == i <==> Distance(p, i, |t|) <= r.steps && t[i].priority <= t[i].skip)
    decreases |t| - p
  {
    PriorityScanFrame(t, cur, p);
    var q := Succ(p, |t|);
    if t[q].state == Blocked {
      PriorityScanSkip(t, cur, q, i);
    } else if !(t[q].state == Ready && t[q].priority - t[q].skip <= 0) && q != cur {
      var t' := t[q := t[q].(skip := t[q].skip + 1)];
      PriorityScanSkip(t', cur, q, i);
      PriorityScanFrame(t', cur, q);
    }
  }

  function Max(x: int, y: int): int { if x > y then x else y }

  /** The length, in visited slots, of `k` full turns. */
  function Turns(n: nat, k: nat): nat {
    if k == 0 then 0 else n + Turns(n, k - 1)
  }

  lemma {:induction false} TurnsIsProduct(n: nat, k: nat)
    ensures Turns(n, k) == n * k
  {
    if k > 0 {
      TurnsIsProduct(n, k - 1);
      assert n * k == n + n * (k - 1);
    }
  }

  /** How many slots will be visited, over this and later scans, until slot `i` is picked. */
  function Residual(t: Table, from: nat, i: nat): nat
    requires from < |t| && i < |t|
  {
    Distance(from, i, |t|) + Turns(|t|, Max(0, t[i].priority - t[i].skip))
  }

  /** The residual falls by exactly one for every slot visited, and the slot is picked exactly when it
      reaches zero. */
  lemma PriorityScanExact(t: Table, cur: nat, i: nat)
    requires Anchored(t, cur) && i < |t| && t[i].state == Ready
    ensures var r := PriorityScan(t, cur, cur);
            && r.pick < |t| == |r.table|
            && 1 <= r.steps <= Residual(t, cur, i)
            && (r.pick == i <==> r.steps == Residual(t, cur, i))
            && (r.pick != i ==> Residual(r.table, r.pick, i) == Residual(t, cur, i) - r.steps)
  {
    PriorityScanFrame(t, cur, cur);
    PriorityScanSkip(t, cur, cur, i);
  }

  /** In closed form: the pick is the Ready slot of least residual, unless every residual exceeds one
      full turn, when the idle thread keeps the processor. */
  lemma PriorityPickIsLeastResidual(t: Table, cur: nat)
    requires Anchored(t, cur)
    ensures var r := PriorityScan(t, cur, cur);
            && r.pick < |t|
            && (t[r.pick].state == Ready ==>
                  forall i :: 0 <= i < |t| && t[i].state == Ready && i != r.pick ==>
                    Residual(t, cur, r.pick) < Residual(t, cur, i))
            && (t[r.pick].state != Ready ==>
                  r.pick == cur == 0 && forall i :: 0 <= i < |t| && t[i].state == Ready ==> |t| < Residual(t, cur, i))
  {
    var r := PriorityScan(t, cur, cur);
    PriorityScanFrame(t, cur, cur);
    forall i | 0 <= i < |t| && t[i].state == Ready
      ensures i != r.pick ==> r.steps < Residual(t, cur, i)
      ensures i == r.pick ==> r.steps == Residual(t, cur, i)
    {
      PriorityScanExact(t, cur, i);
    }
  }

  // ----- lottery --------------------------------------------------------------------------------

  predicate Wins(th: Thread, ticket: int) {
    (th.state == Ready || th.state == Running) && th.lo <= ticket <= th.hi
  }

  /** The first slot from `p` on that wins with `ticket`, or the table's length if there is none. */
  function FirstWinner(t: Table, ticket: int, p: nat): (q: nat)
    requires p <= |t|
    ensures p <= q <= |t|
    ensures q < |t| ==> Wins(t[q], ticket)
    ensures forall i :: p <= i < q ==> !Wins(t[i], ticket)
    decreases |t| - p
  {
    if p == |t| || Wins(t[p], ticket) then p else FirstWinner(t, ticket, p + 1)
  }

  function Lottery(t: Table, cur: nat, ticket: int): nat
    requires Anchored(t, cur)
  {
    var q := FirstWinner(t, ticket, 0);
    if q < |t| then q else RoundRobin(t, cur, cur)
  }
}
