/** Whole runs of the connection hand-over: the accept loop of the main process, the dispatcher thread and the
    workers, interleaved in any way with the updater's resets.  Connections carry unique numbers, since descriptor
    numbers are reused; sending a descriptor to a worker is a rendezvous with the worker's receive_fd. */
module Switch {
  import opened Common
  import opened Servers
  import C = CircularBuffer
  import D = Dispatcher
  import W = WeightedPattern

  datatype AcceptorPc =
    | Accepting
    | Storing(conn: int)                    // retries add_fd_to_array until it succeeds

  datatype DispatcherPc =
    | Getting
    | Holding(conn: int)                    // retries the scan until a worker is idle
    | Sending(conn: int, worker: nat)       // retries send_fd until the worker listens

  datatype WorkerPc =
    | Preparing                             // on the way to receive_fd
    | Listening
    | Serving(conn: int)
    | Closed(conn: int)                     // connection closed, busy flag not yet cleared

  datatype Claim = Claim(conn: int, worker: nat, server: Server)

  datatype State = State(
    table: seq<int>,                        // fd_array
    acceptor: AcceptorPc,
    dispatcher: DispatcherPc,
    busy: seq<bool>,
    counter: seq<nat>,
    server: seq<Server>,
    cursor: C.Cursor,                       // the scheduler's circular buffer
    workers: seq<WorkerPc>,
    accepted: seq<int>,                     // history: connections in accept order
    claims: seq<Claim>,                     // history: dispatches
    delivered: seq<int>)                    // history: connections received by a worker

  datatype Action =
    | Accept(conn: int)
    | Store
    | Get
    | Dispatch
    | Deliver
    | Finish(w: nat)
    | Release(w: nat)
    | Listen(w: nat)
    | Reset(pattern: seq<Server>)           // the updater has installed a new pattern

  function Init(maxFd: nat, servers: seq<Server>, pattern: seq<Server>): State
    requires pattern != []
  {
    var n := |servers|;
    State(seq(maxFd, _ => 0), Accepting, Getting, seq(n, _ => false), seq(n, _ => 0), servers,
          C.Cursor(pattern, 0, 0, |pattern| - 1), seq(n, _ => Preparing), [], [], [])
  }

  predicate Shape(s: State) { |s.busy| == |s.counter| == |s.server| == |s.workers| && C.Inside(s.cursor) }

  predicate Enabled(s: State, a: Action)
    requires Shape(s)
  {
    match a
    case Accept(conn) => s.acceptor.Accepting? && conn !in s.accepted
    case Store => s.acceptor.Storing? && D.FirstFree(s.table, 0) < |s.table|
    case Get => s.dispatcher.Getting? && D.FirstTaken(s.table, 0) < |s.table|
    case Dispatch => s.dispatcher.Holding? && D.LeastUsed(s.busy, s.counter, |s.busy|) != -1
    case Deliver =>
      s.dispatcher.Sending? && s.dispatcher.worker < |s.workers| && s.workers[s.dispatcher.worker].Listening?
    case Finish(w) => w < |s.workers| && s.workers[w].Serving?
    case Release(w) => w < |s.workers| && s.workers[w].Closed?
    case Listen(w) => w < |s.workers| && s.workers[w].Preparing?
    case Reset(pattern) => pattern != []
  }

  function Apply(s: State, a: Action): (t: State)
    requires Shape(s) && Enabled(s, a)
    ensures Shape(t)
  {
    match a
    case Accept(conn) => s.(acceptor := Storing(conn), accepted := s.accepted + [conn])
    case Store =>
      s.(table := s.table[D.FirstFree(s.table, 0) := s.acceptor.conn], acceptor := Accepting)
    case Get =>
      var f := D.FirstTaken(s.table, 0);
      s.(table := s.table[f := 0], dispatcher := Holding(s.table[f]))
    case Dispatch =>
      var w, next := D.LeastUsed(s.busy, s.counter, |s.busy|), C.Handed(s.cursor);
      C.StepInside(s.cursor, C.Select);
      s.(cursor := C.Step(s.cursor, C.Select),
         busy := s.busy[w := true], counter := s.counter[w := s.counter[w] + 1], server := s.server[w := next],
         claims := s.claims + [Claim(s.dispatcher.conn, w, next)],
         dispatcher := Sending(s.dispatcher.conn, w))
    case Deliver =>
      s.(workers := s.workers[s.dispatcher.worker := Serving(s.dispatcher.conn)],
         delivered := s.delivered + [s.dispatcher.conn], dispatcher := Getting)
    case Finish(w) => s.(workers := s.workers[w := Closed(s.workers[w].conn)])
    case Release(w) => s.(workers := s.workers[w := Preparing], busy := s.busy[w := false])
    case Listen(w) => s.(workers := s.workers[w := Listening])
    case Reset(pattern) =>
      C.StepInside(s.cursor, C.Install(pattern));
      s.(cursor := C.Step(s.cursor, C.Install(pattern)))
  }

  // ------------------------------------------------------------------ conservation

  function One(held: bool): nat { if held then 1 else 0 }

  predicate HeldByAcceptor(s: State, c: int) { s.acceptor.Storing? && s.acceptor.conn == c }

  predicate HeldByDispatcher(s: State, c: int) { !s.dispatcher.Getting? && s.dispatcher.conn == c }

  /** Every accepted connection is in exactly one place: with the acceptor, in the table, with the dispatcher, or
      delivered.  0 marks a free slot, so it is no connection here. */
  predicate ConservedFor(s: State, c: int) {
    multiset(s.accepted)[c]
    == One(HeldByAcceptor(s, c)) + multiset(s.table)[c] + One(HeldByDispatcher(s, c)) + multiset(s.delivered)[c]
  }

  ghost predicate Conserved(s: State) { forall c :: c != 0 ==> ConservedFor(s, c) }

  lemma CountUpdate(t: seq<int>, i: nat, v: int, c: int)
    requires i < |t|
    ensures multiset(t[i := v])[c] == multiset(t)[c] - One(t[i] == c) + One(v == c)
  {
    assert t == t[..i] + [t[i]] + t[i + 1..];
    assert t[i := v] == t[..i] + [v] + t[i + 1..];
  }

  lemma ConservedKept(s: State, a: Action, c: int)
    requires Shape(s) && Enabled(s, a) && c != 0 && ConservedFor(s, c)
    ensures ConservedFor(Apply(s, a), c)
  {
    match a
    case Accept(conn) => CountAppend(s.accepted, conn, c);
    case Store => CountUpdate(s.table, D.FirstFree(s.table, 0), s.acceptor.conn, c);
    case Get => CountUpdate(s.table, D.FirstTaken(s.table, 0), 0, c);
    case Deliver => CountAppend(s.delivered, s.dispatcher.conn, c);
    case _ =>
  }

  // ------------------------------------------------------------------ exclusivity and affinity

  predicate Occupied(p: WorkerPc) { p.Serving? || p.Closed? }

  /** The busy flag of a worker is up exactly while it has a connection or is about to be sent one. */
  predicate FlagInv(s: State)
    requires Shape(s)
  {
    && (s.dispatcher.Sending? ==> s.dispatcher.worker < |s.workers| && !Occupied(s.workers[s.dispatcher.worker]))
    && forall w :: 0 <= w < |s.workers| ==>
         (s.busy[w] <==> Occupied(s.workers[w]) || (s.dispatcher.Sending? && s.dispatcher.worker == w))
  }

  /** A busy worker's server slot holds what was claimed with the connection it serves or is about to serve. */
  predicate SlotInv(s: State)
    requires Shape(s)
  {
    && (forall w :: 0 <= w < |s.workers| && Occupied(s.workers[w]) ==>
          Claim(s.workers[w].conn, w, s.server[w]) in s.claims)
    && (s.dispatcher.Sending? && s.dispatcher.worker < |s.server| ==>
          Claim(s.dispatcher.conn, s.dispatcher.worker, s.server[s.dispatcher.worker]) in s.claims)
  }

  function ClaimConns(claims: seq<Claim>): (cs: seq<int>)
    ensures |cs| == |claims| && forall k :: 0 <= k < |cs| ==> cs[k] == claims[k].conn
  {
    seq(|claims|, k requires 0 <= k < |claims| => claims[k].conn)
  }

  /** Dispatched connections are the delivered ones, in order, and the one being sent. */
  predicate ClaimInv(s: State) {
    ClaimConns(s.claims) == s.delivered + (if s.dispatcher.Sending? then [s.dispatcher.conn] else [])
  }

  predicate NonZero(s: State) {
    && (s.dispatcher.Holding? || s.dispatcher.Sending? ==> s.dispatcher.conn != 0)
    && (forall k :: 0 <= k < |s.delivered| ==> s.delivered[k] != 0)
  }

  predicate Distinct(cs: seq<int>) { forall i, j :: 0 <= i < j < |cs| ==> cs[i] != cs[j] }

  function Total(counter: seq<nat>): nat {
    if counter == [] then 0 else Total(counter[..|counter| - 1]) + counter[|counter| - 1]
  }

  lemma {:induction false} TotalUpdate(counter: seq<nat>, i: nat, c: nat)
    requires i < |counter|
    ensures Total(counter[i := c]) == Total(counter) - counter[i] + c
    decreases |counter|
  {
    var init := counter[..|counter| - 1];
    if i < |init| {
      TotalUpdate(init, i, c);
      assert counter[i := c][..|counter| - 1] == init[i := c];
    } else {
      assert counter[i := c][..|counter| - 1] == init;
    }
  }

  predicate Counted(s: State) { Total(s.counter) == |s.claims| }

  ghost predicate Inv(s: State) {
    && Shape(s) && Conserved(s) && FlagInv(s) && SlotInv(s) && ClaimInv(s) && NonZero(s)
    && Distinct(s.accepted) && Counted(s)
  }

  lemma {:induction false} TotalOfZeros(c: seq<nat>)
    requires forall i :: 0 <= i < |c| ==> c[i] == 0
    ensures Total(c) == 0
  {
    if c != [] {
      TotalOfZeros(c[..|c| - 1]);
    }
  }

  lemma InitInv(maxFd: nat, servers: seq<Server>, pattern: seq<Server>)
    requires pattern != []
    ensures Inv(Init(maxFd, servers, pattern))
  {
    TotalOfZeros(Init(maxFd, servers, pattern).counter);
    forall c | c != 0
      ensures ConservedFor(Init(maxFd, servers, pattern), c)
    {
      var t := Init(maxFd, servers, pattern).table;
      assert c !in t;
    }
  }

  lemma FlagKept(s: State, a: Action)
    requires Shape(s) && FlagInv(s) && Enabled(s, a)
    ensures FlagInv(Apply(s, a))
  {
  }

  lemma SlotKept(s: State, a: Action)
    requires Shape(s) && FlagInv(s) && SlotInv(s) && Enabled(s, a)
    ensures SlotInv(Apply(s, a))
  {
    var t := Apply(s, a);
    assert forall k :: k in s.claims ==> k in t.claims;
    if a.Dispatch? {
      var w := D.LeastUsed(s.busy, s.counter, |s.busy|);
      assert t.claims[|s.claims|] == Claim(s.dispatcher.conn, w, C.Handed(s.cursor));
    }
  }

  lemma HistoryKept(s: State, a: Action)
    requires Shape(s) && ClaimInv(s) && NonZero(s) && Distinct(s.accepted) && Counted(s) && Enabled(s, a)
    ensures var t := Apply(s, a); ClaimInv(t) && NonZero(t) && Distinct(t.accepted) && Counted(t)
  {
    if a.Dispatch? {
      var w := D.LeastUsed(s.busy, s.counter, |s.busy|);
      TotalUpdate(s.counter, w, s.counter[w] + 1);
    }
  }

  /** Every action of every process keeps the invariant. */
  lemma ActionInv(s: State, a: Action)
    requires Inv(s) && Enabled(s, a)
    ensures Inv(Apply(s, a))
  {
    hide Apply, Enabled, FlagInv, SlotInv, ClaimInv, NonZero, Distinct, Counted, ConservedFor;
    FlagKept(s, a);
    SlotKept(s, a);
    HistoryKept(s, a);
    forall c | c != 0
      ensures ConservedFor(Apply(s, a), c)
    {
      ConservedKept(s, a, c);
    }
  }

  predicate Legal(s: State, acts: seq<Action>)
    requires Shape(s)
    decreases |acts|
  {
    acts == [] || (Enabled(s, acts[0]) && Legal(Apply(s, acts[0]), acts[1..]))
  }

  function After(s: State, acts: seq<Action>): (t: State)
    requires Shape(s) && Legal(s, acts)
    ensures Shape(t)
    decreases |acts|
  {
    if acts == [] then s else After(Apply(s, acts[0]), acts[1..])
  }

  lemma {:induction false} RunInv(s: State, acts: seq<Action>)
    requires Inv(s) && Legal(s, acts)
    ensures Inv(After(s, acts))
    decreases |acts|
  {
    if acts != [] {
      ActionInv(s, acts[0]);
      RunInv(Apply(s, acts[0]), acts[1..]);
    }
  }

  lemma Reachable(maxFd: nat, servers: seq<Server>, pattern: seq<Server>, acts: seq<Action>)
    requires pattern != [] && Legal(Init(maxFd, servers, pattern), acts)
    ensures Inv(After(Init(maxFd, servers, pattern), acts))
  {
    InitInv(maxFd, servers, pattern);
    RunInv(Init(maxFd, servers, pattern), acts);
  }

  lemma {:induction false} DistinctCount(cs: seq<int>, c: int)
    requires Distinct(cs)
    ensures multiset(cs)[c] <= 1
  {
    if cs != [] {
      var init := cs[..|cs| - 1];
      DistinctCount(init, c);
      CountAppend(init, cs[|cs| - 1], c);
      assert cs == init + [cs[|cs| - 1]];
      assert c in multiset(init) ==> c in init;
    }
  }

  /** Connection conservation over whole runs: no connection is lost, not even while the table is full, none is
      delivered twice, and one that has been delivered is nowhere else. */
  lemma EachConnectionOnce(maxFd: nat, servers: seq<Server>, pattern: seq<Server>, acts: seq<Action>, c: int)
    requires pattern != [] && Legal(Init(maxFd, servers, pattern), acts) && c != 0
    ensures var s := After(Init(maxFd, servers, pattern), acts);
            && One(c in s.accepted)
               == One(HeldByAcceptor(s, c)) + multiset(s.table)[c]
                  + One(HeldByDispatcher(s, c)) + multiset(s.delivered)[c]
            && multiset(s.delivered)[c] <= 1
  {
    Reachable(maxFd, servers, pattern, acts);
    var s := After(Init(maxFd, servers, pattern), acts);
    DistinctCount(s.accepted, c);
    assert ConservedFor(s, c);
    assert c in s.accepted <==> c in multiset(s.accepted);
  }

  /** A descriptor numbered 0 is accepted by the table and lost, every other one is kept: storing c puts c
      into the table if and only if c is not 0. */
  lemma StoreKeepsIff(s: State)
    requires Shape(s) && Enabled(s, Store)
    ensures var c := s.acceptor.conn;
            multiset(Apply(s, Store).table)[c] == multiset(s.table)[c] + 1 <==> c != 0
  {
    CountUpdate(s.table, D.FirstFree(s.table, 0), s.acceptor.conn, s.acceptor.conn);
  }

  /** Dispatches are counted exactly, and follow the connections: the counters add up to the number of dispatches,
      which are the deliveries so far and the one under way. */
  lemma CountersAddUp(maxFd: nat, servers: seq<Server>, pattern: seq<Server>, acts: seq<Action>)
    requires pattern != [] && Legal(Init(maxFd, servers, pattern), acts)
    ensures var s := After(Init(maxFd, servers, pattern), acts);
            Total(s.counter) == |s.claims| == |s.delivered| + One(s.dispatcher.Sending?)
  {
    Reachable(maxFd, servers, pattern, acts);
  }

  /** Worker exclusivity: the dispatcher never picks, and never sends to, a worker that still has a connection. */
  lemma NeverTwoConnections(maxFd: nat, servers: seq<Server>, pattern: seq<Server>, acts: seq<Action>, w: nat)
    requires pattern != [] && Legal(Init(maxFd, servers, pattern), acts) && w < |servers|
    ensures var s := After(Init(maxFd, servers, pattern), acts);
            w < |s.workers|
            && (Occupied(s.workers[w]) ==>
                  && s.busy[w]
                  && D.LeastUsed(s.busy, s.counter, |s.busy|) != w
                  && !(s.dispatcher.Sending? && s.dispatcher.worker == w))
  {
    Reachable(maxFd, servers, pattern, acts);
    SameWorkers(Init(maxFd, servers, pattern), acts);
  }

  lemma {:induction false} SameWorkers(s: State, acts: seq<Action>)
    requires Shape(s) && Legal(s, acts)
    ensures |After(s, acts).workers| == |s.workers| && |After(s, acts).table| == |s.table|
    decreases |acts|
  {
    if acts != [] {
      SameWorkers(Apply(s, acts[0]), acts[1..]);
    }
  }

  lemma {:induction false} ClaimsGrow(s: State, acts: seq<Action>)
    requires Shape(s) && Legal(s, acts)
    ensures s.claims <= After(s, acts).claims
    decreases |acts|
  {
    if acts != [] {
      ClaimsGrow(Apply(s, acts[0]), acts[1..]);
    }
  }

  lemma CountedOnceIsDistinct(cs: seq<int>, i: nat, j: nat)
    requires i < j < |cs| && multiset(cs)[cs[i]] <= 1
    ensures cs[i] != cs[j]
  {
    assert cs == cs[..i] + [cs[i]] + cs[i + 1..j] + [cs[j]] + cs[j + 1..];
  }

  lemma ClaimsDistinct(s: State)
    requires Inv(s)
    ensures Distinct(ClaimConns(s.claims))
  {
    var cs := ClaimConns(s.claims);
    forall i, j | 0 <= i < j < |cs|
      ensures cs[i] != cs[j]
    {
      var c := cs[i];
      DistinctCount(s.accepted, c);
      assert c != 0 && ConservedFor(s, c);
      CountAppend(s.delivered, if s.dispatcher.Sending? then s.dispatcher.conn else 0, c);
      CountedOnceIsDistinct(cs, i, j);
    }
  }

  /** Affinity over whole runs: in any two states of one run in which a connection is being served, it is served by the
      same worker, and that worker's server slot holds the same backend. */
  lemma SameBackendThroughout(maxFd: nat, servers: seq<Server>, pattern: seq<Server>, acts: seq<Action>,
                              more: seq<Action>, w: nat, v: nat)
    requires pattern != [] && Legal(Init(maxFd, servers, pattern), acts)
    requires Legal(After(Init(maxFd, servers, pattern), acts), more)
    requires var s := After(Init(maxFd, servers, pattern), acts);
             var t := After(s, more);
             && w < |s.workers| && v < |t.workers| && Occupied(s.workers[w]) && Occupied(t.workers[v])
             && s.workers[w].conn == t.workers[v].conn
    ensures var s := After(Init(maxFd, servers, pattern), acts);
            w == v && After(s, more).server[v] == s.server[w]
  {
    Reachable(maxFd, servers, pattern, acts);
    var s := After(Init(maxFd, servers, pattern), acts);
    RunInv(s, more);
    var t := After(s, more);
    ClaimsGrow(s, more);
    ClaimsDistinct(t);
    var first, second := Claim(s.workers[w].conn, w, s.server[w]), Claim(t.workers[v].conn, v, t.server[v]);
    assert first in s.claims && second in t.claims;
    var i :| 0 <= i < |s.claims| && s.claims[i] == first;
    var j :| 0 <= j < |t.claims| && t.claims[j] == second;
    assert t.claims[i] == first;
    assert ClaimConns(t.claims)[i] == ClaimConns(t.claims)[j];
  }

  /** A server slot only changes by a dispatch to its worker, which needs the busy flag down. */
  lemma SlotFrozenWhileBusy(s: State, a: Action, w: nat)
    requires Inv(s) && Enabled(s, a) && w < |s.server| && s.busy[w]
    ensures Apply(s, a).server[w] == s.server[w]
  {
  }

  /** A delivery is a rendezvous: it waits until the worker that has been claimed for the connection listens, and leaves
      that worker with the connection and with the backend it was claimed with, and every other one as it was. */
  lemma DeliveryIsRendezvous(s: State)
    requires Inv(s) && s.dispatcher.Sending?
    ensures var c, w := s.dispatcher.conn, s.dispatcher.worker;
            && w < |s.workers| && (Enabled(s, Deliver) <==> s.workers[w] == Listening)
            && (Enabled(s, Deliver) ==>
                  var t := Apply(s, Deliver);
                  && t.workers == s.workers[w := Serving(c)] && t.busy == s.busy && t.busy[w]
                  && Claim(c, w, t.server[w]) in t.claims && t.delivered == s.delivered + [c])
  {
    hide Conserved, ClaimInv, NonZero, Distinct, Counted;
  }

  // ------------------------------------------------------------------ balance

  predicate AllIdle(s: State) { forall w :: 0 <= w < |s.busy| ==> !s.busy[w] }

  /** Every dispatch of the run finds all workers idle. */
  predicate Relaxed(s: State, acts: seq<Action>)
    requires Shape(s) && Legal(s, acts)
    decreases |acts|
  {
    acts == [] || ((acts[0].Dispatch? ==> AllIdle(s)) && Relaxed(Apply(s, acts[0]), acts[1..]))
  }

  predicate Balanced(counter: seq<nat>) {
    forall i, j :: 0 <= i < |counter| && 0 <= j < |counter| ==> counter[i] <= counter[j] + 1
  }

  lemma DispatchBalances(s: State)
    requires Shape(s) && Enabled(s, Dispatch) && AllIdle(s) && Balanced(s.counter)
    ensures Balanced(Apply(s, Dispatch).counter)
  {
    D.LeastUsedMeaning(s.busy, s.counter, |s.busy|);
  }

  /** Under light load the work is spread evenly: if all workers are idle at each dispatch, no worker is ever
      more than one connection ahead of another. */
  lemma {:induction false} RelaxedRunsBalance(s: State, acts: seq<Action>)
    requires Shape(s) && Legal(s, acts) && Relaxed(s, acts) && Balanced(s.counter)
    ensures Balanced(After(s, acts).counter)
    decreases |acts|
  {
    if acts != [] {
      if acts[0].Dispatch? {
        DispatchBalances(s);
      }
      RelaxedRunsBalance(Apply(s, acts[0]), acts[1..]);
    }
  }

  // ------------------------------------------------------------------ the share of each backend

  function Dispatches(acts: seq<Action>): nat {
    if acts == [] then 0 else (if acts[0].Dispatch? then 1 else 0) + Dispatches(acts[1..])
  }

  predicate NoReset(acts: seq<Action>) { forall a :: a in acts ==> !a.Reset? }

  function ClaimServers(claims: seq<Claim>): (r: seq<Server>)
    ensures |r| == |claims| && forall k :: 0 <= k < |r| ==> r[k] == claims[k].server
  {
    seq(|claims|, k requires 0 <= k < |claims| => claims[k].server)
  }

  lemma StepClaims(s: State, a: Action)
    requires Shape(s) && Enabled(s, a)
    ensures var t := Apply(s, a);
            && ClaimServers(t.claims) == ClaimServers(s.claims) + (if a.Dispatch? then [C.Handed(s.cursor)] else [])
            && (!a.Reset? ==> t.cursor == if a.Dispatch? then C.Step(s.cursor, C.Select) else s.cursor)
  {
    hide C.Step, C.Handed, D.LeastUsed, D.FirstFree, D.FirstTaken;
  }

  /** Without a reset the dispatches of a run hand out the servers of the cursor, one after the other. */
  lemma {:induction false} DispatchesFollowCursor(s: State, acts: seq<Action>)
    requires Shape(s) && Legal(s, acts) && NoReset(acts)
    ensures ClaimServers(After(s, acts).claims) == ClaimServers(s.claims) + C.HandedOut(s.cursor, Dispatches(acts))
    decreases |acts|
  {
    hide Enabled, Apply, C.Step, C.Handed, C.Inside;
    if acts != [] {
      StepClaims(s, acts[0]);
      DispatchesFollowCursor(Apply(s, acts[0]), acts[1..]);
      var m := Dispatches(acts[1..]);
      if acts[0].Dispatch? {
        assert C.HandedOut(s.cursor, m + 1) == [C.Handed(s.cursor)] + C.HandedOut(C.Step(s.cursor, C.Select), m);
      }
    }
  }

  /** A READY copy of a pool entry, whatever weight is left in it. */
  predicate IsBackend(claimed: Server, entry: Server) {
    claimed.status == READY && claimed.ip == entry.ip && claimed.address == entry.address
  }

  /** With an agreed cursor and a READY entry these are the entries of the calls. */
  lemma ClaimsFollowCalls(s: State, acts: seq<Action>)
    requires Shape(s) && Legal(s, acts) && NoReset(acts)
    requires s.cursor.head == s.cursor.position && C.HasReady(s.cursor.buffer)
    ensures var turn := C.Calls(s.cursor.buffer, s.cursor.head, Dispatches(acts));
            && |After(s, acts).claims| == |s.claims| + Dispatches(acts)
            && forall k :: 0 <= k < Dispatches(acts) ==>
                 && After(s, acts).claims[|s.claims| + k].server == s.cursor.buffer[turn[k]]
                 && s.cursor.buffer[turn[k]].status == READY
  {
    hide Legal, After, C.Calls, C.HandedOut, C.HasReady, C.Handed, Dispatches, NoReset;
    DispatchesFollowCursor(s, acts);
    C.HandedOutIsReady(s.cursor, Dispatches(acts));
    var b, now := s.cursor.buffer, After(s, acts).claims;
    var handed, turn := C.HandedOut(s.cursor, Dispatches(acts)), C.Calls(b, s.cursor.head, Dispatches(acts));
    assert |now| == |s.claims| + |handed| by {
      assert |ClaimServers(now)| == |ClaimServers(s.claims)| + |handed|;
    }
    forall k | 0 <= k < |handed|
      ensures now[|s.claims| + k].server == b[turn[k]] && b[turn[k]].status == READY
    {
      JoinedAt(ClaimServers(s.claims), handed, k);
      assert ClaimServers(now)[|s.claims| + k] == handed[k];
    }
  }

  lemma JoinedAt(a: seq<Server>, b: seq<Server>, k: nat)
    requires k < |b|
    ensures (a + b)[|a| + k] == b[k]
  {
  }

  /** Weighted share over whole runs.  From any state with an agreed cursor over the pattern of a completed reset of
      `pool`, and with r READY entries in it, the servers claimed by the next r dispatches, however they interleave with
      everything else, are all READY, and each READY backend of the pool is among them exactly its weight in times. */
  lemma DispatchesShareByWeight(s: State, acts: seq<Action>, pool: seq<Server>, sorted: seq<Server>, weightSum: int,
                                fuel: nat, i: nat)
    requires Shape(s) && Legal(s, acts) && NoReset(acts)
    requires s.cursor.head == s.cursor.position && C.HasReady(s.cursor.buffer)
    requires Dispatches(acts) == |C.ReadyFrom(s.cursor.buffer, s.cursor.head)|
    requires |pool| >= 1 && W.AllPositive(Weights(pool)) && i < |pool|
    requires multiset(sorted) == multiset(pool) && Sum(Weights(sorted)) == Sum(Weights(pool))
    requires Sorted(pool) ==> sorted == pool
    requires weightSum >= Sum(Weights(pool)) && (weightSum == Sum(Weights(pool)) <==> Sorted(pool))
    requires W.Laid(s.cursor.buffer, true, sorted, weightSum, fuel)
    ensures var q := W.SpinFor(Weights(pool), weightSum, fuel);
            var taken := W.Emitted(Weights(pool), q.r, q.s);
            var turn := C.Calls(s.cursor.buffer, s.cursor.head, Dispatches(acts));
            && |taken| == |s.cursor.buffer|
            && |After(s, acts).claims| == |s.claims| + Dispatches(acts)
            && (forall k :: 0 <= k < Dispatches(acts) ==>
                  && taken[turn[k]] < |pool|
                  && IsBackend(After(s, acts).claims[|s.claims| + k].server, pool[taken[turn[k]]]))
            && multiset(C.Through(taken, turn))[i] == if pool[i].status == READY then pool[i].weight else 0
  {
    hide Legal, After, W.SpinFor, W.Emitted, W.Laid, W.AllPositive, Sum, Sorted, C.Calls, C.ReadyFrom, C.Through;
    hide C.HasReady, Dispatches;
    ClaimsFollowCalls(s, acts);
    C.WeightedShare(pool, sorted, s.cursor.buffer, weightSum, fuel, s.cursor.head, i);
  }

  // ------------------------------------------------------------------ progress

  /** What the dispatcher side can do next for an undelivered connection: store it, take it from the table, dispatch it
      or deliver it, or let an idle worker come back for it. */
  lemma Progress(s: State, c: int, w: nat) returns (a: Action)
    requires Inv(s) && c in s.accepted && c != 0 && c !in s.delivered && |s.table| > 0
    requires w < |s.workers| && !s.workers[w].Serving?
    ensures Enabled(s, a) && (a in {Store, Get, Dispatch, Deliver} || a.Release? || a.Listen?)
  {
    match s.dispatcher
    case Sending(_, v) =>
      a := if s.workers[v].Listening? then Deliver else Listen(v);
    case Holding(_) =>
      if s.workers[w].Closed? {
        a := Release(w);
      } else {
        assert !s.busy[w];
        D.LeastUsedMeaning(s.busy, s.counter, |s.busy|);
        a := Dispatch;
      }
    case Getting =>
      if D.FirstTaken(s.table, 0) < |s.table| {
        a := Get;
      } else {
        HeldSomewhere(s, c);
        a := Store;
      }
  }

  /** An undelivered connection that is neither in the table nor with the dispatcher is with the acceptor. */
  lemma HeldSomewhere(s: State, c: int)
    requires Inv(s) && c in s.accepted && c != 0 && c !in s.delivered
    requires s.dispatcher.Getting? && D.FirstTaken(s.table, 0) == |s.table|
    ensures s.acceptor.Storing?
  {
    hide FlagInv, SlotInv, ClaimInv, NonZero, Distinct, Counted;
    assert ConservedFor(s, c);
    assert c in multiset(s.accepted) && c !in s.table && c !in multiset(s.table) && c !in multiset(s.delivered);
  }

  function AcceptorRank(a: AcceptorPc): nat { if a.Storing? then 7 else 0 }

  function DispatcherRank(d: DispatcherPc): nat { if d.Holding? then 5 else if d.Sending? then 4 else 0 }

  function WorkerRank(p: WorkerPc): nat {
    match p
    case Serving(_) => 3
    case Closed(_) => 2
    case Preparing => 1
    case Listening => 0
  }

  function WorkRank(ps: seq<WorkerPc>): nat {
    if ps == [] then 0 else WorkRank(ps[..|ps| - 1]) + WorkerRank(ps[|ps| - 1])
  }

  function TakenSlots(t: seq<int>): nat {
    if t == [] then 0 else TakenSlots(t[..|t| - 1]) + One(t[|t| - 1] != 0)
  }

  lemma {:induction false} WorkRankUpdate(ps: seq<WorkerPc>, i: nat, p: WorkerPc)
    requires i < |ps|
    ensures WorkRank(ps[i := p]) == WorkRank(ps) - WorkerRank(ps[i]) + WorkerRank(p)
    decreases |ps|
  {
    var init := ps[..|ps| - 1];
    if i < |init| {
      WorkRankUpdate(init, i, p);
      assert ps[i := p][..|ps| - 1] == init[i := p];
    } else {
      assert ps[i := p][..|ps| - 1] == init;
    }
  }

  lemma {:induction false} TakenSlotsUpdate(t: seq<int>, i: nat, v: int)
    requires i < |t|
    ensures TakenSlots(t[i := v]) == TakenSlots(t) - One(t[i] != 0) + One(v != 0)
    decreases |t|
  {
    var init := t[..|t| - 1];
    if i < |init| {
      TakenSlotsUpdate(init, i, v);
      assert t[i := v][..|t| - 1] == init[i := v];
    } else {
      assert t[i := v][..|t| - 1] == init;
    }
  }

  /** Actions that the connections accepted so far can still cause. */
  function WorkLeft(s: State): nat {
    AcceptorRank(s.acceptor) + 6 * TakenSlots(s.table) + DispatcherRank(s.dispatcher) + WorkRank(s.workers)
  }

  /** Every action works off one unit; a new connection brings seven, and resets are free. */
  lemma ActionWorks(s: State, a: Action)
    requires Shape(s) && Enabled(s, a)
    ensures WorkLeft(Apply(s, a)) + 1 <= WorkLeft(s) + (if a.Accept? then 8 else if a.Reset? then 1 else 0)
  {
    hide WorkRank, TakenSlots, C.Step, C.Handed, C.Inside;
    match a
    case Store => TakenSlotsUpdate(s.table, D.FirstFree(s.table, 0), s.acceptor.conn);
    case Get => TakenSlotsUpdate(s.table, D.FirstTaken(s.table, 0), 0);
    case Deliver => WorkRankUpdate(s.workers, s.dispatcher.worker, Serving(s.dispatcher.conn));
    case Finish(w) => WorkRankUpdate(s.workers, w, Closed(s.workers[w].conn));
    case Release(w) => WorkRankUpdate(s.workers, w, Preparing);
    case Listen(w) => WorkRankUpdate(s.workers, w, Listening);
    case _ =>
  }

  function Resets(acts: seq<Action>): nat {
    if acts == [] then 0 else (if acts[0].Reset? then 1 else 0) + Resets(acts[1..])
  }

  lemma {:induction false} RunWorks(s: State, acts: seq<Action>)
    requires Shape(s) && Legal(s, acts)
    ensures var t := After(s, acts);
            |acts| + WorkLeft(t) <= WorkLeft(s) + 8 * (|t.accepted| - |s.accepted|) + Resets(acts)
    decreases |acts|
  {
    hide Enabled, WorkLeft;
    if acts != [] {
      ActionWorks(s, acts[0]);
      AcceptCounts(s, acts[0]);
      RunWorks(Apply(s, acts[0]), acts[1..]);
    }
  }

  lemma AcceptCounts(s: State, a: Action)
    requires Shape(s) && Enabled(s, a)
    ensures |Apply(s, a).accepted| == |s.accepted| + (if a.Accept? then 1 else 0)
  {
  }

  lemma {:induction false} IdleWork(ps: seq<WorkerPc>)
    requires forall i :: 0 <= i < |ps| ==> ps[i] == Preparing
    ensures WorkRank(ps) == |ps|
  {
    if ps != [] {
      IdleWork(ps[..|ps| - 1]);
    }
  }

  lemma {:induction false} NoSlots(t: seq<int>)
    requires forall i :: 0 <= i < |t| ==> t[i] == 0
    ensures TakenSlots(t) == 0
  {
    if t != [] {
      NoSlots(t[..|t| - 1]);
    }
  }

  /** Every connection is served.  A run has at most one action per worker, eight per accepted connection and one per
      reset; and when, with at least one worker and one table slot, nothing is left to do but to accept another
      connection or to reset, every accepted connection has been delivered and finished. */
  lemma EveryConnectionServed(maxFd: nat, servers: seq<Server>, pattern: seq<Server>, acts: seq<Action>, c: int)
    requires pattern != [] && Legal(Init(maxFd, servers, pattern), acts)
    ensures var s := After(Init(maxFd, servers, pattern), acts);
            && |acts| <= |servers| + 8 * |s.accepted| + Resets(acts)
            && (maxFd > 0 && |servers| > 0 && c != 0 && c in s.accepted
                && (forall a :: Enabled(s, a) ==> a.Accept? || a.Reset?)
                ==> c in s.delivered && forall w :: 0 <= w < |s.workers| ==> s.workers[w].Listening?)
  {
    hide Enabled, WorkLeft, Apply, Inv;
    var s0 := Init(maxFd, servers, pattern);
    StartWork(maxFd, servers, pattern);
    Reachable(maxFd, servers, pattern, acts);
    RunWorks(s0, acts);
    SameWorkers(s0, acts);
    var s := After(s0, acts);
    if maxFd > 0 && |servers| > 0 && c != 0 && c in s.accepted && forall a :: Enabled(s, a) ==> a.Accept? || a.Reset? {
      forall w | 0 <= w < |s.workers|
        ensures s.workers[w].Listening?
      {
        if !s.workers[w].Listening? {
          WorkerMoves(s, w);
        }
      }
      if c !in s.delivered {
        var a := Progress(s, c, 0);
      }
    }
  }

  lemma StartWork(maxFd: nat, servers: seq<Server>, pattern: seq<Server>)
    requires pattern != []
    ensures WorkLeft(Init(maxFd, servers, pattern)) == |servers|
  {
    IdleWork(Init(maxFd, servers, pattern).workers);
    NoSlots(Init(maxFd, servers, pattern).table);
  }

  /** Every worker that does not listen has an action of its own. */
  lemma WorkerMoves(s: State, w: nat)
    requires Shape(s) && w < |s.workers| && !s.workers[w].Listening?
    ensures exists a :: Enabled(s, a) && !a.Accept? && !a.Reset?
  {
    var a := match s.workers[w]
      case Preparing => Listen(w)
      case Serving(_) => Finish(w)
      case Closed(_) => Release(w)
      case Listening => Store;
    assert Enabled(s, a);
  }
}
