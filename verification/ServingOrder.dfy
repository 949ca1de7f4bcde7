/** In which order accepted connections reach the workers.  Connections go into the lowest free slot of the table and
    come out of the lowest occupied one, which keeps their order in a table of one slot only. */
module ServingOrder {
  import opened Servers
  import opened Switch
  import C = CircularBuffer
  import D = Dispatcher

  // ------------------------------------------------------------------ first come, first served

  /** The connections among the given numbers: 0 marks a free slot and is never served. */
  function Conns(t: seq<int>): (r: seq<int>)
    ensures forall c :: c in r <==> c in t && c != 0
  {
    if t == [] then [] else Conns(t[..|t| - 1]) + (if t[|t| - 1] != 0 then [t[|t| - 1]] else [])
  }

  function AtAcceptor(s: State): seq<int> { if s.acceptor.Storing? then [s.acceptor.conn] else [] }

  function AtDispatcher(s: State): seq<int> { if s.dispatcher.Getting? then [] else [s.dispatcher.conn] }

  /** Connections have been delivered in the order in which they were accepted, none left out. */
  predicate FirstComeFirstServed(s: State) { s.delivered <= Conns(s.accepted) }

  /** The way of the connections through the switch, oldest first. */
  predicate Lined(s: State) {
    Conns(s.accepted) == s.delivered + AtDispatcher(s) + Conns(s.table) + Conns(AtAcceptor(s))
  }

  lemma ConnsOfOne(t: seq<int>)
    requires |t| <= 1
    ensures Conns(t) == if t == [] || t[0] == 0 then [] else t
  {
  }

  lemma ConnsAppend(t: seq<int>, c: int)
    ensures Conns(t + [c]) == Conns(t) + Conns([c])
  {
    assert (t + [c])[..|t|] == t;
    ConnsOfOne([c]);
  }

  lemma AcceptLined(s: State, conn: int)
    requires Shape(s) && Enabled(s, Accept(conn)) && Lined(s)
    ensures Lined(Apply(s, Accept(conn)))
  {
    hide Conns;
    ConnsAppend(s.accepted, conn);
    ConnsOfOne([]);
  }

  lemma StoreLined(s: State)
    requires Shape(s) && Enabled(s, Store) && Lined(s) && |s.table| <= 1
    ensures Lined(Apply(s, Store))
  {
    hide Conns;
    assert s.table == [0] && Apply(s, Store).table == AtAcceptor(s);
    ConnsOfOne([0]);
    ConnsOfOne([]);
  }

  lemma GetLined(s: State)
    requires Shape(s) && Enabled(s, Get) && Lined(s) && |s.table| <= 1
    ensures Lined(Apply(s, Get))
  {
    hide Conns;
    assert s.table == [s.table[0]] && s.table[0] != 0 && Apply(s, Get).table == [0];
    ConnsOfOne(s.table);
    ConnsOfOne([0]);
  }

  lemma LinedKept(s: State, a: Action)
    requires Shape(s) && Enabled(s, a) && Lined(s) && |s.table| <= 1
    ensures Lined(Apply(s, a)) && |Apply(s, a).table| <= 1
  {
    hide Conns, C.Step, C.Handed, C.Inside, D.LeastUsed;
    match a
    case Accept(conn) => AcceptLined(s, conn);
    case Store => StoreLined(s);
    case Get => GetLined(s);
    case _ =>
  }

  lemma {:induction false} RunLined(s: State, acts: seq<Action>)
    requires Shape(s) && Legal(s, acts) && Lined(s) && |s.table| <= 1
    ensures Lined(After(s, acts))
    decreases |acts|
  {
    hide Lined, Enabled, Apply;
    if acts != [] {
      LinedKept(s, acts[0]);
      RunLined(Apply(s, acts[0]), acts[1..]);
    }
  }

  /** Without a worker nothing is delivered. */
  lemma {:induction false} NobodyServes(s: State, acts: seq<Action>)
    requires Shape(s) && Legal(s, acts) && |s.workers| == 0 && !s.dispatcher.Sending? && s.delivered == []
    ensures After(s, acts).delivered == []
    decreases |acts|
  {
    if acts != [] {
      NobodyServes(Apply(s, acts[0]), acts[1..]);
    }
  }

  // ------------------------------------------------------------------ overtaking

  lemma {:induction false} Compose(s: State, acts: seq<Action>, more: seq<Action>)
    requires Shape(s) && Legal(s, acts) && Legal(After(s, acts), more)
    ensures Legal(s, acts + more) && After(s, acts + more) == After(After(s, acts), more)
    decreases |acts|
  {
    hide Enabled, Apply;
    if acts == [] {
      assert acts + more == more;
    } else {
      Compose(Apply(s, acts[0]), acts[1..], more);
      assert (acts + more)[1..] == acts[1..] + more;
    }
  }

  lemma First(s: State, a: Action)
    requires Shape(s) && Enabled(s, a)
    ensures Legal(s, [a]) && After(s, [a]) == Apply(s, a)
  {
    hide Enabled, Apply;
    assert Legal(Apply(s, a), []);
  }

  lemma OneMore(s: State, acts: seq<Action>, a: Action)
    requires Shape(s) && Legal(s, acts) && Enabled(After(s, acts), a)
    ensures Legal(s, acts + [a]) && After(s, acts + [a]) == Apply(After(s, acts), a)
  {
    hide Enabled, Apply;
    var t := After(s, acts);
    First(t, a);
    Compose(s, acts, [a]);
  }

  /** Between two connections: nothing is under way, and every worker is idle. */
  predicate Quiet(s: State) {
    && Shape(s) && s.acceptor.Accepting? && s.dispatcher.Getting? && |s.workers| >= 1
    && forall w :: 0 <= w < |s.workers| ==> !s.busy[w] && s.workers[w].Preparing?
  }

  /** The connection in slot 0 is on its way to worker w, which is not yet ready for it. */
  predicate Claimed(s: State, t: State, w: nat)
    requires Shape(s) && Shape(t) && s.table != []
  {
    && t.dispatcher == Sending(s.table[0], w) && t.table == s.table[0 := 0]
    && w < |s.workers| && t.workers == s.workers && t.busy == s.busy[w := true] && t.acceptor == s.acceptor
    && t.accepted == s.accepted && t.delivered == s.delivered
  }

  lemma ClaimLowest(s: State) returns (acts: seq<Action>, w: nat)
    requires Quiet(s) && s.table != [] && s.table[0] != 0
    ensures Legal(s, acts) && Claimed(s, After(s, acts), w)
  {
    hide Legal, After, C.Step, C.Handed, C.Inside;
    D.LeastUsedMeaning(s.busy, s.counter, |s.busy|);
    w := D.LeastUsed(s.busy, s.counter, |s.busy|);
    assert D.FirstTaken(s.table, 0) == 0;
    acts := [Get];
    First(s, Get);
    OneMore(s, acts, Dispatch);
    acts := acts + [Dispatch];
  }

  /** A preparing worker takes the connection it is being sent, serves it and becomes idle again. */
  lemma ServeClaimed(s: State) returns (acts: seq<Action>)
    requires Shape(s) && s.dispatcher.Sending?
    requires s.dispatcher.worker < |s.workers| && s.workers[s.dispatcher.worker].Preparing?
    ensures Legal(s, acts)
    ensures After(s, acts) == s.(dispatcher := Getting, delivered := s.delivered + [s.dispatcher.conn],
                                 busy := s.busy[s.dispatcher.worker := false])
  {
    hide Legal, After, C.Inside;
    var w := s.dispatcher.worker;
    acts := [Listen(w)];
    First(s, Listen(w));
    OneMore(s, acts, Deliver);
    acts := acts + [Deliver];
    OneMore(s, acts, Finish(w));
    acts := acts + [Finish(w)];
    OneMore(s, acts, Release(w));
    acts := acts + [Release(w)];
    assert After(s, acts).workers == s.workers;
  }

  /** From a quiet state the connection in slot 0 is served. */
  lemma ServeLowest(s: State) returns (acts: seq<Action>)
    requires Quiet(s) && s.table != [] && s.table[0] != 0
    ensures Legal(s, acts)
    ensures var t := After(s, acts);
            && Quiet(t) && t.table == s.table[0 := 0] && t.accepted == s.accepted
            && t.delivered == s.delivered + [s.table[0]]
  {
    hide Legal, After, C.Inside;
    var claim, w := ClaimLowest(s);
    var serve := ServeClaimed(After(s, claim));
    Compose(s, claim, serve);
    acts := claim + serve;
  }

  /** From a quiet state a new connection goes into the lowest free slot. */
  lemma TakeIn(s: State, c: int) returns (acts: seq<Action>)
    requires Quiet(s) && c !in s.accepted && D.FirstFree(s.table, 0) < |s.table|
    ensures Legal(s, acts)
    ensures After(s, acts) == s.(table := s.table[D.FirstFree(s.table, 0) := c], accepted := s.accepted + [c])
  {
    acts := [Accept(c)];
    First(s, Accept(c));
    OneMore(s, acts, Store);
    acts := acts + [Store];
  }

  /** The second connection waits in slot 1, and all the others have been served. */
  predicate Overtaken(s: State, n: nat) {
    && Quiet(s) && |s.table| >= 2 && s.table[0] == 0 && s.table[1] == 2
    && |s.accepted| == n + 2 && (forall k :: 0 <= k < n + 2 ==> s.accepted[k] == k + 1)
    && s.delivered == [1] + s.accepted[2..]
  }

  lemma OvertakeAgain(s: State, n: nat) returns (acts: seq<Action>)
    requires Overtaken(s, n)
    ensures Legal(s, acts) && Overtaken(After(s, acts), n + 1)
  {
    hide Legal, After;
    acts := TakeIn(s, n + 3);
    var t := After(s, acts);
    assert D.FirstFree(s.table, 0) == 0;
    var more := ServeLowest(t);
    Compose(s, acts, more);
    acts := acts + more;
    assert t.accepted[2..] == s.accepted[2..] + [n + 3];
  }

  lemma OvertakeOnce(s: State) returns (acts: seq<Action>)
    requires Quiet(s) && |s.table| >= 2 && s.table[0] == s.table[1] == 0 && s.accepted == [] && s.delivered == []
    ensures Legal(s, acts) && Overtaken(After(s, acts), 0)
  {
    hide Legal, After;
    acts := TakeIn(s, 1);
    var t := After(s, acts);
    assert D.FirstFree(s.table, 0) == 0;
    var more := TakeIn(t, 2);
    assert D.FirstFree(t.table, 0) == 1;
    Compose(s, acts, more);
    acts := acts + more;
    t := After(s, acts);
    more := ServeLowest(t);
    Compose(s, acts, more);
    acts := acts + more;
  }

  /** A connection in a higher slot can be overtaken for ever.  With at least two slots and any number of workers, for
      every n there is a run in which the second connection still waits in slot 1, with all workers idle, although the
      n connections accepted after it have all been served. */
  lemma {:induction false} Starvation(maxFd: nat, servers: seq<Server>, pattern: seq<Server>, n: nat)
    returns (acts: seq<Action>)
    requires pattern != [] && servers != [] && maxFd >= 2
    ensures Legal(Init(maxFd, servers, pattern), acts)
    ensures var s := After(Init(maxFd, servers, pattern), acts);
            && |s.accepted| == n + 2 && |s.table| == maxFd && s.accepted[1] == s.table[1] != 0
            && s.delivered == [s.accepted[0]] + s.accepted[2..] && s.accepted[1] !in s.delivered
            && AllIdle(s) && s.dispatcher.Getting?
  {
    hide Legal, After;
    var s0 := Init(maxFd, servers, pattern);
    acts := Overtaking(s0, n);
    SameWorkers(s0, acts);
  }

  lemma {:induction false} Overtaking(s: State, n: nat) returns (acts: seq<Action>)
    requires Quiet(s) && |s.table| >= 2 && s.table[0] == s.table[1] == 0 && s.accepted == [] && s.delivered == []
    ensures Legal(s, acts) && Overtaken(After(s, acts), n)
  {
    hide Legal, After, Overtaken;
    if n == 0 {
      acts := OvertakeOnce(s);
    } else {
      acts := Overtaking(s, n - 1);
      var more := OvertakeAgain(After(s, acts), n - 1);
      Compose(s, acts, more);
      acts := acts + more;
    }
  }

  /** Exactly when the switch serves its connections first come, first served: in every reachable state those delivered
      are the oldest accepted ones but for 0, in order, if and only if the table has at most one slot, or there is no
      worker. */
  lemma FirstComeFirstServedIff(maxFd: nat, servers: seq<Server>, pattern: seq<Server>)
    requires pattern != []
    ensures (forall acts :: Legal(Init(maxFd, servers, pattern), acts) ==>
               FirstComeFirstServed(After(Init(maxFd, servers, pattern), acts)))
            <==> maxFd <= 1 || servers == []
  {
    hide Legal, After;
    var s0 := Init(maxFd, servers, pattern);
    if maxFd <= 1 || servers == [] {
      forall acts | Legal(s0, acts)
        ensures FirstComeFirstServed(After(s0, acts))
      {
        if servers == [] {
          NobodyServes(s0, acts);
        } else {
          ConnsOfOne(s0.table);
          RunLined(s0, acts);
        }
      }
    } else {
      var acts := Starvation(maxFd, servers, pattern, 1);
      OutOfOrder(After(s0, acts));
    }
  }

  lemma OutOfOrder(s: State)
    requires |s.accepted| == 3 && s.accepted[1] != 0 && s.delivered == [s.accepted[0]] + s.accepted[2..]
    requires s.accepted[1] !in s.delivered
    ensures !FirstComeFirstServed(s)
  {
    var a := s.accepted;
    assert s.delivered == [a[0], a[2]];
    ConnsAppend(a[..2], a[2]);
    ConnsAppend(a[..1], a[1]);
    assert a == a[..2] + [a[2]] && a[..2] == a[..1] + [a[1]];
    ConnsOfOne([a[1]]);
    ConnsOfOne(a[..1]);
    assert a[1] in Conns(a[..2]) && Conns(a[..2]) <= Conns(a);
    assert |Conns(a[..2])| <= 2;
  }
}
