/**
  The worker pool of http_server/core/Server.cpp: the parent accepts connections and hands each to a
  worker process whose pid it takes from the queue of available workers; a worker puts its pid back
  when it has served the connection.  Parent and workers interleave freely, one queue or socket
  operation at a time.
 */
module WorkerPool {
  import opened Options

  /** Where the parent stands in its loop. */
  datatype Parent = Waiting | HasConnection(conn: nat) | Holding(conn: nat, pid: int)

  /** Worker `w` has pid `pids[w]`; `sockets[w]` are the connections sent to it and not yet received.
      `taken` remembers, for every connection, the pid that was taken for it. */
  datatype Pool = Pool(
    capacity: nat,
    pids: seq<int>,
    free: seq<int>,
    parent: Parent,
    sockets: seq<seq<nat>>,
    serving: seq<Option<nat>>,
    accepted: nat,
    taken: map<nat, int>)

  datatype Event =
    | Start(pid: int)
    | Accept
    | Take
    | Refuse
    | Send(ok: bool)
    | Receive(worker: nat)
    | Garble(worker: nat)
    | Finish(worker: nat, returned: bool)

  /** `std::find` over the worker pids. */
  function IndexOf(pids: seq<int>, pid: int): (w: nat)
    ensures w <= |pids|
    ensures w < |pids| ==> pids[w] == pid
    ensures forall j :: 0 <= j < w ==> pids[j] != pid
  {
    if pids == [] || pids[0] == pid then 0 else 1 + IndexOf(pids[1..], pid)
  }

  ghost predicate Shaped(s: Pool) {
    |s.sockets| == |s.serving| == |s.pids| <= s.capacity
  }

  predicate Enabled(s: Pool, e: Event)
    requires Shaped(s)
  {
    match e
    case Start(pid) => |s.pids| < s.capacity && s.parent == Waiting && pid !in s.pids
    case Accept => s.parent == Waiting
    case Take => s.parent.HasConnection? && s.free != []
    case Refuse => s.parent.HasConnection?
    case Send(_) => s.parent.Holding? && s.parent.pid in s.pids
    case Receive(w) => w < |s.pids| && s.serving[w] == None && s.sockets[w] != []
    case Garble(w) => w < |s.pids| && s.serving[w] == None && s.sockets[w] != []
    case Finish(w, _) => w < |s.pids| && s.serving[w].Some?
  }

  function Step(s: Pool, e: Event): (s': Pool)
    requires Shaped(s) && Enabled(s, e)
    ensures Shaped(s')
  {
    match e
    case Start(pid) =>
      s.(pids := s.pids + [pid], free := s.free + [pid], sockets := s.sockets + [[]], serving := s.serving + [None])
    case Accept => s.(parent := HasConnection(s.accepted), accepted := s.accepted + 1)
    case Take =>
      s.(parent := Holding(s.parent.conn, s.free[0]), free := s.free[1..], taken := s.taken[s.parent.conn := s.free[0]])
    case Refuse => s.(parent := Waiting)
    case Send(ok) =>
      if ok then
        var w := IndexOf(s.pids, s.parent.pid);
        s.(parent := Waiting, sockets := s.sockets[w := s.sockets[w] + [s.parent.conn]])
      else s.(parent := Waiting, free := s.free + [s.parent.pid])
    case Receive(w) =>
      s.(sockets := s.sockets[w := s.sockets[w][1..]], serving := s.serving[w := Some(s.sockets[w][0])])
    case Garble(w) => s.(sockets := s.sockets[w := s.sockets[w][1..]])
    case Finish(w, returned) =>
      s.(serving := s.serving[w := None], free := if returned then s.free + [s.pids[w]] else s.free)
  }

  // ----- the invariant ------------------------------------------------------------------------------

  /** In how many places worker `w` currently is: free, in the parent's hand, with a connection on its
      socket, serving. */
  ghost function Tokens(s: Pool, w: nat): nat
    requires Shaped(s) && w < |s.pids|
  {
    multiset(s.free)[s.pids[w]]
    + (if s.parent.Holding? && s.parent.pid == s.pids[w] then 1 else 0)
    + |s.sockets[w]|
    + (if s.serving[w].Some? then 1 else 0)
  }

  ghost predicate Distinct(pids: seq<int>) {
    forall i, j :: 0 <= i < j < |pids| ==> pids[i] != pids[j]
  }

  ghost predicate KnownPids(s: Pool) {
    (forall p :: p in s.free ==> p in s.pids) && (s.parent.Holding? ==> s.parent.pid in s.pids)
  }

  ghost predicate OneToken(s: Pool)
    requires Shaped(s)
  {
    forall w :: 0 <= w < |s.pids| ==> Tokens(s, w) <= 1
  }

  /** Connection `c` is with worker `w`: on its socket or being served. */
  predicate With(s: Pool, c: nat, w: nat)
    requires Shaped(s) && w < |s.pids|
  {
    c in s.sockets[w] || s.serving[w] == Some(c)
  }

  /** A connection is only ever with the worker whose pid was taken for it. */
  ghost predicate AsTaken(s: Pool)
    requires Shaped(s)
  {
    && (forall c, w :: 0 <= w < |s.pids| && With(s, c, w) ==> c in s.taken && s.taken[c] == s.pids[w])
    && (s.parent.Holding? ==> s.parent.conn in s.taken && s.taken[s.parent.conn] == s.parent.pid)
    && (s.parent.HasConnection? ==> s.parent.conn !in s.taken && s.parent.conn < s.accepted)
    && (forall c :: c in s.taken ==> c < s.accepted)
  }

  ghost predicate Inv(s: Pool) {
    Shaped(s) && Distinct(s.pids) && KnownPids(s) && OneToken(s) && AsTaken(s)
  }

  function Initial(capacity: nat): Pool {
    Pool(capacity, [], [], Waiting, [], [], 0, map[])
  }

  lemma InitialHolds(capacity: nat)
    ensures Inv(Initial(capacity))
  {
  }

  lemma IndexOfWorker(pids: seq<int>, w: nat)
    requires Distinct(pids) && w < |pids|
    ensures IndexOf(pids, pids[w]) == w
  {
  }

  lemma NewWorkerToken(s: Pool, pid: int)
    requires Inv(s) && Enabled(s, Start(pid))
    ensures Tokens(Step(s, Start(pid)), |s.pids|) == 1
  {
    assert pid !in s.free;
    assert pid !in multiset(s.free);
  }

  lemma TakeMovesToken(s: Pool, w: nat)
    requires Inv(s) && Enabled(s, Take) && w < |s.pids|
    ensures Tokens(Step(s, Take), w) == Tokens(s, w)
  {
    hide Inv;
    assert s.free == [s.free[0]] + s.free[1..];
  }

  lemma SendMovesToken(s: Pool, ok: bool, w: nat)
    requires Inv(s) && Enabled(s, Send(ok)) && w < |s.pids|
    ensures Tokens(Step(s, Send(ok)), w) == Tokens(s, w)
  {
    var v := IndexOf(s.pids, s.parent.pid);
    assert v == w <==> s.parent.pid == s.pids[w] by {
      IndexOfWorker(s.pids, v);
    }
    hide Inv, IndexOf;
  }

  lemma StartKeepsToken(s: Pool, pid: int, w: nat)
    requires Inv(s) && Enabled(s, Start(pid)) && w < |s.pids|
    ensures Tokens(Step(s, Start(pid)), w) == Tokens(s, w)
  {
    hide Inv;
    assert s.pids[w] != pid;
  }

  lemma WorkerMovesToken(s: Pool, e: Event, w: nat)
    requires Inv(s) && Enabled(s, e) && w < |s.pids| && (e.Receive? || e.Garble? || e.Finish?)
    ensures Tokens(Step(s, e), w) == Tokens(s, w) - if Loses(e, w) then 1 else 0
  {
    assert e.worker != w ==> s.pids[e.worker] != s.pids[w];
    hide Inv;
  }

  /** Neither a message without a descriptor nor a failed return of a pid. */
  predicate Faultless(e: Event) {
    !e.Garble? && (e.Finish? ==> e.returned)
  }

  predicate Loses(e: Event, w: nat) {
    !Faultless(e) && e.worker == w
  }

  /** A step only moves a worker's token, except that a fault of that worker destroys it. */
  lemma TokenMoves(s: Pool, e: Event, w: nat)
    requires Inv(s) && Enabled(s, e) && w < |s.pids|
    ensures w < |Step(s, e).pids|
    ensures Tokens(Step(s, e), w) == Tokens(s, w) - if Loses(e, w) then 1 else 0
  {
    match e {
      case Start(pid) => StartKeepsToken(s, pid, w);
      case Take => TakeMovesToken(s, w);
      case Send(ok) => SendMovesToken(s, ok, w);
      case Accept => hide Inv;
      case Refuse => hide Inv;
      case _ => WorkerMovesToken(s, e, w);
    }
  }

  lemma StepKeepsTokens(s: Pool, e: Event)
    requires Inv(s) && Enabled(s, e)
    ensures OneToken(Step(s, e))
  {
    hide AsTaken, Tokens;
    forall w | 0 <= w < |Step(s, e).pids|
      ensures Tokens(Step(s, e), w) <= 1
    {
      if w < |s.pids| {
        TokenMoves(s, e, w);
      } else {
        NewWorkerToken(s, e.pid);
      }
    }
  }

  lemma StepKeepsPids(s: Pool, e: Event)
    requires Inv(s) && Enabled(s, e)
    ensures Distinct(Step(s, e).pids) && KnownPids(Step(s, e))
  {
    hide AsTaken, Tokens;
  }

  lemma StepKeepsTaken(s: Pool, e: Event)
    requires Inv(s) && Enabled(s, e)
    ensures AsTaken(Step(s, e))
  {
    var s' := Step(s, e);
    forall c, w | 0 <= w < |s'.pids| && With(s', c, w)
      ensures c in s'.taken && s'.taken[c] == s'.pids[w]
    {
      if w < |s.pids| {
        assert s'.pids[w] == s.pids[w];
        assert With(s, c, w) || (e == Send(true) && s.parent.conn == c && w == IndexOf(s.pids, s.parent.pid));
      }
    }
  }

  // ----- interleavings ----------------------------------------------------------------------------

  function Next(s: Pool, e: Event): (s': Pool)
    requires Inv(s) && Enabled(s, e)
    ensures Inv(s')
  {
    StepKeepsTokens(s, e);
    StepKeepsPids(s, e);
    StepKeepsTaken(s, e);
    Step(s, e)
  }

  ghost predicate Legal(s: Pool, es: seq<Event>)
    requires Inv(s)
    decreases |es|
  {
    es == [] || (Enabled(s, es[0]) && Legal(Next(s, es[0]), es[1..]))
  }

  ghost function Run(s: Pool, es: seq<Event>): (s': Pool)
    requires Inv(s) && Legal(s, es)
    ensures Inv(s')
    decreases |es|
  {
    if es == [] then s else Run(Next(s, es[0]), es[1..])
  }

  /** In every interleaving a worker is in at most one place. */
  lemma TokenInOnePlace(s: Pool, w: nat)
    requires Inv(s) && w < |s.pids|
    ensures multiset(s.free)[s.pids[w]] <= 1 && |s.sockets[w]| <= 1
    ensures s.pids[w] in s.free ==> !(s.parent.Holding? && s.parent.pid == s.pids[w]) && forall c :: !With(s, c, w)
    ensures s.parent.Holding? && s.parent.pid == s.pids[w] ==> forall c :: !With(s, c, w)
    ensures s.serving[w].Some? ==> s.sockets[w] == []
  {
    assert Tokens(s, w) <= 1;
    if s.pids[w] in s.free {
      assert s.pids[w] in multiset(s.free);
    }
  }

  ghost predicate NobodyLost(s: Pool)
    requires Shaped(s)
  {
    forall w :: 0 <= w < |s.pids| ==> Tokens(s, w) == 1
  }

  lemma {:induction false} LostStaysLost(s: Pool, es: seq<Event>, w: nat)
    requires Inv(s) && Legal(s, es) && w < |s.pids| && Tokens(s, w) == 0
    ensures w < |Run(s, es).pids| && Tokens(Run(s, es), w) == 0
    decreases |es|
  {
    hide Tokens, Enabled, Inv, Loses;
    if es != [] {
      TokenMoves(s, es[0], w);
      LostStaysLost(Next(s, es[0]), es[1..], w);
    }
  }

  /** An interleaving leaves each worker in exactly one place if and only if it has no fault: a worker
      whose message or pid is lost never comes back. */
  lemma {:induction false} NoWorkerIsLost(s: Pool, es: seq<Event>)
    requires Inv(s) && Legal(s, es) && NobodyLost(s)
    ensures NobodyLost(Run(s, es)) <==> forall k :: 0 <= k < |es| ==> Faultless(es[k])
    decreases |es|
  {
    hide Tokens, Inv;
    if es != [] {
      var e, s' := es[0], Next(s, es[0]);
      if Faultless(e) {
        forall w | 0 <= w < |s'.pids|
          ensures Tokens(s', w) == 1
        {
          if w < |s.pids| {
            TokenMoves(s, e, w);
          } else {
            NewWorkerToken(s, e.pid);
          }
        }
        NoWorkerIsLost(s', es[1..]);
        assert forall k :: 0 < k < |es| ==> es[k] == es[1..][k - 1];
      } else {
        TokenMoves(s, e, e.worker);
        LostStaysLost(s', es[1..], e.worker);
      }
    }
  }

  /** A parent that holds a connection waits for a pid as long as the queue is empty.  Unless the queue
      fails, something can still happen if and only if some worker is left. */
  lemma ParentWaitsInVainIff(s: Pool)
    requires Inv(s) && s.parent.HasConnection?
    ensures (exists e: Event :: Enabled(s, e) && !e.Refuse?) <==> exists w :: 0 <= w < |s.pids| && Tokens(s, w) > 0
  {
    if e: Event :| Enabled(s, e) && !e.Refuse? {
      if e.Take? {
        assert s.free[0] in s.free && s.free[0] in multiset(s.free);
        assert Tokens(s, IndexOf(s.pids, s.free[0])) > 0;
      } else {
        assert Tokens(s, e.worker) > 0;
      }
    }
    if w :| 0 <= w < |s.pids| && Tokens(s, w) > 0 {
      var e := if s.serving[w].Some? then Finish(w, true) else if s.sockets[w] != [] then Receive(w) else Take;
      assert e.Take? ==> s.pids[w] in multiset(s.free);
      assert e.Take? ==> s.pids[w] in s.free;
      assert Enabled(s, e) && !e.Refuse?;
    }
  }

  // ----- first free, first taken --------------------------------------------------------------------

  function Takes(es: seq<Event>): nat {
    if es == [] then 0 else (if es[0].Take? then 1 else 0) + Takes(es[1..])
  }

  lemma FreePlaceStep(s: Pool, e: Event, q: nat)
    requires Inv(s) && Enabled(s, e) && q < |s.free| && (e.Take? ==> q > 0)
    ensures var p, free := if e.Take? then q - 1 else q, Next(s, e).free;
            p < |free| && free[p] == s.free[q]
  {
    hide Inv;
  }

  /** A free worker at place `q` of the queue moves up one place with every `Take`, and with nothing else. */
  lemma {:induction false} FreePlace(s: Pool, es: seq<Event>, q: nat)
    requires Inv(s) && Legal(s, es) && q < |s.free| && Takes(es) <= q
    ensures var p, free := q - Takes(es), Run(s, es).free;
            p < |free| && free[p] == s.free[q]
    decreases |es|
  {
    hide Inv, Enabled;
    if es != [] {
      FreePlaceStep(s, es[0], q);
      FreePlace(Next(s, es[0]), es[1..], if es[0].Take? then q - 1 else q);
    }
  }

  /** Workers are taken in the order in which they became free: the one at place `q` by the (q+1)-th `Take`. */
  lemma TakenInOrder(s: Pool, es: seq<Event>, q: nat)
    requires Inv(s) && Legal(s, es) && q < |s.free| && Takes(es) == q && Enabled(Run(s, es), Take)
    ensures var before, after := Run(s, es), Next(Run(s, es), Take);
            && before.parent.HasConnection?
            && after.parent == Holding(before.parent.conn, s.free[q])
            && before.parent.conn in after.taken && after.taken[before.parent.conn] == s.free[q]
  {
    FreePlace(s, es, q);
    hide Inv;
  }

  // ----- connections are neither lost nor doubled ----------------------------------------------------

  function One(here: bool): nat { if here then 1 else 0 }

  /** How often connection `c` is on a worker's socket or being served. */
  ghost function AtWorkers(sockets: seq<seq<nat>>, serving: seq<Option<nat>>, c: nat): nat
    requires |sockets| == |serving|
  {
    if sockets == [] then 0
    else multiset(sockets[0])[c] + One(serving[0] == Some(c)) + AtWorkers(sockets[1..], serving[1..], c)
  }

  function AtParent(p: Parent, c: nat): nat {
    One((p.HasConnection? || p.Holding?) && p.conn == c)
  }

  /** In how many places connection `c` is. */
  ghost function InFlight(s: Pool, c: nat): nat
    requires Shaped(s)
  {
    AtParent(s.parent, c) + AtWorkers(s.sockets, s.serving, c)
  }

  /** The step brings connection `c` to its end: refused, not sent, received without a descriptor, or served. */
  predicate Ends(s: Pool, e: Event, c: nat)
    requires Shaped(s) && Enabled(s, e)
  {
    match e
    case Refuse => s.parent.conn == c
    case Send(ok) => !ok && s.parent.conn == c
    case Garble(w) => s.sockets[w][0] == c
    case Finish(w, _) => s.serving[w] == Some(c)
    case _ => false
  }

  lemma {:induction false} WorkerChanges(sockets: seq<seq<nat>>, serving: seq<Option<nat>>, w: nat, socket: seq<nat>,
                                          o: Option<nat>, c: nat)
    requires |sockets| == |serving| && w < |sockets|
    ensures AtWorkers(sockets[w := socket], serving[w := o], c)
         == AtWorkers(sockets, serving, c)
            - multiset(sockets[w])[c] - One(serving[w] == Some(c)) + multiset(socket)[c] + One(o == Some(c))
    decreases w
  {
    if w == 0 {
      assert sockets[w := socket][1..] == sockets[1..] && serving[w := o][1..] == serving[1..];
    } else {
      WorkerChanges(sockets[1..], serving[1..], w - 1, socket, o, c);
      assert sockets[w := socket][1..] == sockets[1..][w - 1 := socket];
      assert serving[w := o][1..] == serving[1..][w - 1 := o];
    }
  }

  lemma {:induction false} WorkerJoins(sockets: seq<seq<nat>>, serving: seq<Option<nat>>, c: nat)
    requires |sockets| == |serving|
    ensures AtWorkers(sockets + [[]], serving + [None], c) == AtWorkers(sockets, serving, c)
  {
    if sockets == [] {
      assert sockets + [[]] == [[]] && serving + [None] == [None];
      assert AtWorkers([[]], [None], c) == AtWorkers([], [], c);
    } else {
      WorkerJoins(sockets[1..], serving[1..], c);
      assert (sockets + [[]])[1..] == sockets[1..] + [[]] && (serving + [None])[1..] == serving[1..] + [None];
    }
  }

  lemma SocketChanges(s: Pool, e: Event, c: nat)
    requires Shaped(s) && Enabled(s, e) && (e.Receive? || e.Garble?)
    ensures multiset(s.sockets[e.worker])[c] == multiset(s.sockets[e.worker][1..])[c] + One(s.sockets[e.worker][0] == c)
  {
    var socket := s.sockets[e.worker];
    assert socket == [socket[0]] + socket[1..];
  }

  /** A step of the workers, or one that hands a connection to a worker. */
  lemma WorkerConnections(s: Pool, e: Event, c: nat)
    requires Inv(s) && Enabled(s, e) && (e.Receive? || e.Garble? || e.Finish?)
    ensures InFlight(Step(s, e), c) + One(Ends(s, e, c)) == InFlight(s, c)
  {
    assert Shaped(s);
    hide Inv, AtWorkers;
    var w, s' := e.worker, Step(s, e);
    if !e.Finish? {
      SocketChanges(s, e, c);
    }
    WorkerChanges(s.sockets, s.serving, w, s'.sockets[w], s'.serving[w], c);
    assert s.sockets[w := s'.sockets[w]] == s'.sockets && s.serving[w := s'.serving[w]] == s'.serving;
  }

  lemma SentConnections(s: Pool, ok: bool, c: nat)
    requires Inv(s) && Enabled(s, Send(ok))
    ensures InFlight(Step(s, Send(ok)), c) + One(Ends(s, Send(ok), c)) == InFlight(s, c)
  {
    hide AtWorkers, IndexOf;
    if ok {
      var w, s' := IndexOf(s.pids, s.parent.pid), Step(s, Send(ok));
      assert w < |s.sockets|;
      WorkerChanges(s.sockets, s.serving, w, s'.sockets[w], s.serving[w], c);
      assert s.serving[w := s.serving[w]] == s.serving;
    }
  }

  /** Every step only moves a connection about, except that accepting brings in the next one, and that a step
      can bring one to its end. */
  lemma ConnectionsStep(s: Pool, e: Event, c: nat)
    requires Inv(s) && Enabled(s, e)
    ensures InFlight(Step(s, e), c) + One(Ends(s, e, c)) == InFlight(s, c) + One(e.Accept? && c == s.accepted)
    ensures Step(s, e).accepted == s.accepted + One(e.Accept?)
  {
    match e {
      case Start(pid) => WorkerJoins(s.sockets, s.serving, c);
      case Send(ok) => SentConnections(s, ok, c);
      case Accept =>
      case Take =>
      case Refuse =>
      case _ => WorkerConnections(s, e, c);
    }
    hide AtWorkers, Inv;
  }

  /** How many steps of the run bring `c` to its end. */
  ghost function Endings(s: Pool, es: seq<Event>, c: nat): nat
    requires Inv(s) && Legal(s, es)
    decreases |es|
  {
    if es == [] then 0 else One(Ends(s, es[0], c)) + Endings(Next(s, es[0]), es[1..], c)
  }

  /** Over every interleaving no connection is lost or doubled: the places it is in at the end, and its endings,
      are as many as the places it was in at the start, and one more if it has been accepted in between. */
  lemma {:induction false} ConnectionsAreConserved(s: Pool, es: seq<Event>, c: nat)
    requires Inv(s) && Legal(s, es)
    ensures s.accepted <= Run(s, es).accepted
    ensures InFlight(Run(s, es), c) + Endings(s, es, c)
         == InFlight(s, c) + One(s.accepted <= c < Run(s, es).accepted)
    decreases |es|
  {
    hide Inv, Enabled, InFlight, Ends;
    if es != [] {
      ConnectionsStep(s, es[0], c);
      ConnectionsAreConserved(Next(s, es[0]), es[1..], c);
    }
  }

  /** From the empty pool on: every connection accepted has ended exactly once or is in exactly one place, and
      no other has or is. */
  lemma EveryConnectionIsAccountedFor(capacity: nat, es: seq<Event>, c: nat)
    requires Legal(Initial(capacity), es)
    ensures var s := Run(Initial(capacity), es);
            InFlight(s, c) + Endings(Initial(capacity), es, c) == One(c < s.accepted)
  {
    var s0 := Initial(capacity);
    assert InFlight(s0, c) == 0 && s0.accepted == 0;
    hide Inv, InFlight, Legal, Run, Endings, Initial;
    ConnectionsAreConserved(s0, es, c);
  }

  /** A sequence of distinct members of a set is no longer than the set. */
  lemma {:induction false} Pigeonhole(xs: seq<int>, ys: set<int>)
    requires forall x :: x in xs ==> x in ys && multiset(xs)[x] <= 1
    ensures |xs| <= |ys|
    decreases |xs|
  {
    if xs != [] {
      var rest, x := xs[1..], xs[0];
      assert xs == [x] + rest;
      assert x !in rest by {
        assert multiset(xs)[x] == 1 + multiset(rest)[x];
      }
      forall y | y in rest
        ensures y in ys - {x} && multiset(rest)[y] <= 1
      {
        assert multiset(xs)[y] <= 1;
      }
      Pigeonhole(rest, ys - {x});
    }
  }

  lemma {:induction false} SetOfPids(pids: seq<int>)
    ensures |set p | p in pids| <= |pids|
  {
    if pids != [] {
      var rest := pids[1..];
      SetOfPids(rest);
      assert (set p | p in pids) == (set p | p in rest) + {pids[0]};
    }
  }

  /** The queue of available workers never holds more than `max_connections` pids, its size. */
  lemma FreeQueueFits(s: Pool)
    requires Inv(s)
    ensures |s.free| <= s.capacity
  {
    var known := set p | p in s.pids;
    forall p | p in s.free
      ensures p in known && multiset(s.free)[p] <= 1
    {
      var w := IndexOf(s.pids, p);
      assert Tokens(s, w) <= 1;
    }
    Pigeonhole(s.free, known);
    SetOfPids(s.pids);
  }

  /** At any moment a connection is with at most one worker. */
  lemma OneWorkerAtATime(s: Pool, c: nat, v: nat, w: nat)
    requires Inv(s) && v < |s.pids| && w < |s.pids| && With(s, c, v) && With(s, c, w)
    ensures v == w
  {
    assert s.taken[c] == s.pids[v] == s.pids[w];
  }

  lemma TakenIsForGood(s: Pool, e: Event, c: nat)
    requires Inv(s) && Enabled(s, e) && c in s.taken
    ensures c in Next(s, e).taken && Next(s, e).taken[c] == s.taken[c]
    ensures |Next(s, e).pids| >= |s.pids| && Next(s, e).pids[..|s.pids|] == s.pids
  {
  }

  lemma {:induction false} TakenIsForGoodInRuns(s: Pool, es: seq<Event>, c: nat)
    requires Inv(s) && Legal(s, es) && c in s.taken
    ensures var s' := Run(s, es);
            && c in s'.taken && s'.taken[c] == s.taken[c]
            && |s'.pids| >= |s.pids| && s'.pids[..|s.pids|] == s.pids
    decreases |es|
  {
    hide Inv, Next, Enabled;
    if es != [] {
      TakenIsForGood(s, es[0], c);
      TakenIsForGoodInRuns(Next(s, es[0]), es[1..], c);
      var s1, s' := Next(s, es[0]), Run(s, es);
      assert s'.pids[..|s.pids|] == s'.pids[..|s1.pids|][..|s.pids|];
    }
  }

  /** Over time, too: a connection that is with one worker is with no other at any later point of any
      interleaving, and that worker is the one whose pid was taken for it. */
  lemma OneWorkerForEver(s: Pool, es: seq<Event>, c: nat, v: nat, w: nat)
    requires Inv(s) && Legal(s, es) && v < |s.pids| && With(s, c, v)
    requires w < |Run(s, es).pids| && With(Run(s, es), c, w)
    ensures v == w && c in s.taken && s.taken[c] == s.pids[v]
  {
    var s' := Run(s, es);
    TakenIsForGoodInRuns(s, es, c);
    assert s'.pids[..|s.pids|][v] == s.pids[v];
    assert s'.pids[v] == s'.pids[w];
  }

  // ----- the program ------------------------------------------------------------------------------

  datatype Received = Got | Failed | WouldBlock

  /** The processes' shared state, changed in place. */
  class Server {
    const capacity: nat
    var clientProcesses: seq<int>
    var availableClients: seq<int>
    var parent: Parent
    var sockets: seq<seq<nat>>
    var serving: seq<Option<nat>>
    var accepted: nat
    ghost var taken: map<nat, int>

    ghost function View(): Pool
      reads this
    {
      Pool(capacity, clientProcesses, availableClients, parent, sockets, serving, accepted, taken)
    }

    constructor (maxConnections: nat)
      ensures View() == Initial(maxConnections) && Inv(View())
    {
      capacity := maxConnections;
      clientProcesses, availableClients, sockets, serving := [], [], [], [];
      parent, accepted := Waiting, 0;
      taken := map[];
    }

    /** One turn of `start_client_processes`, with the pid `fork` returned. */
    method StartClientProcess(pid: int)
      requires Inv(View()) && Enabled(View(), Start(pid))
      modifies this
      ensures View() == Next(old(View()), Start(pid))
    {
      sockets, serving := sockets + [[]], serving + [None];
      availableClients := availableClients + [pid];
      clientProcesses := clientProcesses + [pid];
    }

    /** `accept` in the parent's loop. */
    method AcceptConnection()
      requires Inv(View()) && Enabled(View(), Accept)
      modifies this
      ensures View() == Next(old(View()), Accept)
    {
      parent, accepted := HasConnection(accepted), accepted + 1;
    }

    /** `mq_receive` in the parent's loop.  When it fails, the parent itself answers the connection with
        "service unavailable".  On an empty queue it blocks: `O_NONBLOCK` is set in `mq_flags`, which `mq_open`
        ignores.  `WouldBlock` stands for a call that has not returned yet. */
    method ReceivePid(fails: bool) returns (r: Received)
      requires Inv(View()) && parent.HasConnection?
      modifies this
      ensures r == if fails then Failed else if old(availableClients) == [] then WouldBlock else Got
      ensures View() == match r
                        case Got => Next(old(View()), Take)
                        case Failed => Next(old(View()), Refuse)
                        case WouldBlock => old(View())
    {
      if fails {
        parent := Waiting;
        return Failed;
      }
      if availableClients == [] {
        return WouldBlock;
      }
      var pid := availableClients[0];
      availableClients := availableClients[1..];
      taken := taken[parent.conn := pid];
      parent := Holding(parent.conn, pid);
      return Got;
    }

    /** The position of the first worker with the pid. */
    method FindClient(pid: int) returns (index: nat)
      ensures index == IndexOf(clientProcesses, pid)
    {
      index := 0;
      while index < |clientProcesses| && clientProcesses[index] != pid
        invariant index <= |clientProcesses|
        invariant index + IndexOf(clientProcesses[index..], pid) == IndexOf(clientProcesses, pid)
      {
        index := index + 1;
      }
    }

    /** `send_fd` in the parent's loop; when it fails the pid goes back. */
    method SendToClient(ok: bool)
      requires Inv(View()) && Enabled(View(), Send(ok))
      modifies this
      ensures View() == Next(old(View()), Send(ok))
    {
      var clientIndex := FindClient(parent.pid);
      if ok {
        sockets := sockets[clientIndex := sockets[clientIndex] + [parent.conn]];
      } else {
        availableClients := availableClients + [parent.pid];
      }
      parent := Waiting;
    }

    /** `recv_fd` in worker `w`; a message without a descriptor is dropped. */
    method ReceiveConnection(w: nat, hasDescriptor: bool)
      requires Inv(View()) && Enabled(View(), Receive(w))
      modifies this
      ensures View() == Next(old(View()), if hasDescriptor then Receive(w) else Garble(w))
    {
      var conn := sockets[w][0];
      sockets := sockets[w := sockets[w][1..]];
      if hasDescriptor {
        serving := serving[w := Some(conn)];
      }
    }

    /** The end of a turn of `handle_communication` in worker `w`: its pid goes back, if `mq_send` works. */
    method FinishConnection(w: nat, sent: bool)
      requires Inv(View()) && Enabled(View(), Finish(w, sent))
      modifies this
      ensures View() == Next(old(View()), Finish(w, sent))
    {
      serving := serving[w := None];
      if sent {
        availableClients := availableClients + [clientProcesses[w]];
      }
    }
  }
}
