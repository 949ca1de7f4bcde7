/** What becomes of a connection: which actions are still possible, how many there can be at most, and what the client
    has when nothing more happens. */
module RelayProgress {
  import opened Common
  import C = Connection
  import M = ChunkMonitor
  import P = HttpParser
  import R = Response
  import opened Relay

  // ------------------------------------------------------------------ progress

  predicate WriterOk(w: WriterPc) { !w.WFailUnlock? && !w.WFailed? && !w.WFailedBody? }

  /** No thread of this node has failed. */
  predicate Sound(nd: Node) { !nd.qpc.QFailUnlock? && !nd.qpc.QFailed? && M.Calm(nd.mon) }

  predicate HealthyRelay(s: Relay) { WriterOk(s.writer) && forall j :: 0 <= j < |s.nodes| ==> Sound(s.nodes[j]) }

  /** Actions in which a call fails.  An answer that announces no length is no failure here. */
  predicate Failing(a: Action) {
    match a
    case FetchFailed(_, _) | WriterError | CloseFailed(_) => true
    case Body(_, mv) => M.Failure(mv)
    case WriterBody(mv) => M.Failure(mv)
    case _ => false
  }

  predicate SpuriousAction(a: Action) {
    match a
    case WriterSpurious => true
    case Body(_, mv) => M.Spurious(mv)
    case WriterBody(mv) => M.Spurious(mv)
    case _ => false
  }

  /** What the head node's request thread can do; the answer of the backend, `stream` here, is up to the backend. */
  function RequestMove(s: Relay, stream: string): Action
    requires HasFront(s)
  {
    if s.nodes[s.popped].qpc.QFetch? then Fetched(s.popped, stream) else RequestStep(s.popped)
  }

  /** The writer waits for more of a body that has ended, or of an answer without a length. */
  predicate Blocked(s: Relay) {
    HasFront(s) && s.writer.WBody? && M.Stopped(s.nodes[s.popped].mon) && !s.nodes[s.popped].mon.cpc.CDone?
  }

  /** An action that a healthy connection with a received, unanswered request can take until it blocks. */
  function NextAction(s: Relay, stream: string): Action
    requires HasFront(s) || s.writer.WDestroy?
  {
    if s.writer.WDestroy? then WriterStep
    else
      var nd := s.nodes[s.popped];
      match s.writer
      case WLock | WRelock => if nd.owner == Free then WriterStep else RequestMove(s, stream)
      case WWait => RequestMove(s, stream)
      case WHeader(sent) => if sent < |HeaderOf(nd)| then WriterWrite(1) else WriterStep
      case WBody =>
        if nd.mon.cpc.CDone? then WriterStep
        else if !nd.qpc.QBody? && !nd.qpc.QEnded? then RequestMove(s, stream)
        else
          var mv := M.Next(nd.mon);
          if M.ProducerMove(mv) then Body(s.popped, mv) else WriterBody(mv)
      case _ => WriterStep
  }

  lemma RequestCanMove(s: Relay, limit: nat, stream: string)
    requires R.Answerable(stream) && HasFront(s) && Sound(s.nodes[s.popped])
    requires s.nodes[s.popped].qpc in {QLock, QFetch, QSignal, QUnlock}
    requires s.nodes[s.popped].qpc == QLock ==> s.nodes[s.popped].owner == Free
    ensures Enabled(s, limit, RequestMove(s, stream)) && !Failing(RequestMove(s, stream))
  {
    hide R.Answerable, R.Announced, R.BodyWire, R.HeaderSent;
  }

  /** Once the producer has returned it is the consumer's turn. */
  lemma NextIsConsumers(m: M.Monitor)
    requires M.Enabled(m, M.Next(m)) && (BodyReturned(m) || m.ppc.PError?)
    ensures !M.ProducerMove(M.Next(m))
  {
  }

  lemma BodyCanMove(s: Relay, limit: nat, stream: string)
    requires HasFront(s) && s.writer.WBody? && (s.nodes[s.popped].qpc.QBody? || s.nodes[s.popped].qpc.QEnded?)
    requires M.Inv(s.nodes[s.popped].mon) && Sound(s.nodes[s.popped]) && NodeInv(s.nodes[s.popped]) && !Blocked(s)
    ensures var a := NextAction(s, stream);
            Enabled(s, limit, a) && !Failing(a) && !SpuriousAction(a) && !OfReader(a)
  {
    hide M.Inv, M.Enabled, M.Next, M.Calm, AnswerInv;
    var m := s.nodes[s.popped].mon;
    if !m.cpc.CDone? {
      M.NeverStuck(m);
      if s.nodes[s.popped].qpc.QEnded? {
        NextIsConsumers(m);
      }
    }
  }

  /** No deadlock: while the oldest unanswered request has been read and its answer has not run out, the writer or that
      request's own thread can act, whatever the reader and the other request threads do. */
  lemma NeverStuck(s: Relay, limit: nat, stream: string)
    requires Inv(s, limit) && HealthyRelay(s) && !Blocked(s) && R.Answerable(stream)
    requires s.writer.WDestroy? || (HasFront(s) && !s.nodes[s.popped].qpc.QNone?)
    ensures var a := NextAction(s, stream);
            Enabled(s, limit, a) && !Failing(a) && !SpuriousAction(a) && !OfReader(a)
  {
    hide M.Inv, M.Enabled, M.Next, M.Calm, M.Stopped;
    hide R.Answerable, R.Announced, R.BodyWire, R.HeaderSent;
    if !s.writer.WDestroy? {
      var nd := s.nodes[s.popped];
      assert Sound(nd) && NodeInv(nd);
      match s.writer {
        case WLock | WRelock => if nd.owner != Free { RequestCanMove(s, limit, stream); }
        case WWait => RequestCanMove(s, limit, stream);
        case WBody =>
          if nd.qpc.QBody? || nd.qpc.QEnded? {
            BodyCanMove(s, limit, stream);
          } else {
            RequestCanMove(s, limit, stream);
          }
        case _ =>
      }
    }
  }

  function RequestRank(q: RequestPc): nat {
    match q
    case QNone => 6
    case QLock => 5
    case QFetch => 4
    case QSignal => 3
    case QUnlock => 2
    case QEnded | QFailed => 0
    case _ => 1
  }

  function NodeRank(nd: Node): int {
    RequestRank(nd.qpc) + |Full(nd)| + M.Rank(nd.mon)
  }

  function SumRank(ns: seq<Node>): int {
    if ns == [] then 0 else SumRank(ns[..|ns| - 1]) + NodeRank(ns[|ns| - 1])
  }

  function WriterRank(w: WriterPc, headerSet: bool): nat {
    match w
    case WFront => 9
    case WLock | WRelock => 8
    case WTest => 7
    case WWait => if headerSet then 9 else 6
    case WHeader(_) => 5
    case WUnlock => 4
    case WBody => 3
    case WDestroy => 10
    case WFailUnlock(_) => 1
    case _ => 0
  }

  function ReaderRank(r: ReaderPc): nat {
    match r
    case RReceive => 2
    case RSpawn => 1
    case _ => 0
  }

  predicate FrontHeaderSet(s: Relay) { HasFront(s) && s.nodes[s.popped].header.Some? }

  /** Work still owed to the requests known so far. */
  function Debt(s: Relay): int {
    SumRank(s.nodes) + 12 * (|s.nodes| - s.popped) - |s.out|
    + WriterRank(s.writer, FrontHeaderSet(s)) + ReaderRank(s.reader)
  }

  /** What one action may add to the debt: a new request, a new response, or a spurious wake-up. */
  function Credit(a: Action): nat {
    match a
    case Enqueue => 36
    case Fetched(_, stream) => |R.HeaderSent(stream)| + 20 * |M.Owed(R.Announced(stream), R.BodyWire(stream))| + 3
    case FetchFailed(_, partialHeader) => (if partialHeader.Some? then |partialHeader.value| else 0) + 3
    case _ => if SpuriousAction(a) then 3 else 0
  }

  lemma {:induction false} SumRankUpdate(ns: seq<Node>, j: nat, nd: Node)
    requires j < |ns|
    ensures SumRank(ns[j := nd]) == SumRank(ns) - NodeRank(ns[j]) + NodeRank(nd)
    decreases |ns|
  {
    hide NodeRank;
    var init := ns[..|ns| - 1];
    if j < |init| {
      SumRankUpdate(init, j, nd);
      assert ns[j := nd][..|ns| - 1] == init[j := nd];
    } else {
      assert ns[j := nd][..|ns| - 1] == init;
    }
  }

  lemma {:induction false} SumRankCoversStream(ns: seq<Node>)
    requires forall j :: 0 <= j < |ns| ==> M.Inv(ns[j].mon)
    ensures |Stream(ns)| <= SumRank(ns)
  {
    if ns != [] {
      var nd := ns[|ns| - 1];
      M.RankIsNatural(nd.mon);
      hide M.Inv, M.Rank;
      SumRankCoversStream(ns[..|ns| - 1]);
    }
  }

  lemma DebtIsNatural(s: Relay, limit: nat)
    requires Inv(s, limit)
    ensures Debt(s) >= 0
  {
    hide M.Inv;
    OutShape(s, limit);
    SumRankCoversStream(s.nodes);
  }

  lemma ReplaceDebt(s: Relay, j: nat, nd: Node, w: WriterPc, extra: string)
    requires j < |s.nodes|
    ensures var t := SetNode(s, j, nd).(writer := w, out := s.out + extra);
            Debt(t) - WriterRank(w, FrontHeaderSet(t)) + NodeRank(s.nodes[j])
            == Debt(s) - WriterRank(s.writer, FrontHeaderSet(s)) + NodeRank(nd) - |extra|
  {
    hide NodeRank;
    SumRankUpdate(s.nodes, j, nd);
  }

  lemma StartRank(contentLen: int, wire: string)
    ensures M.Rank(M.Start(contentLen, wire)) == 19 * |M.Owed(contentLen, wire)| + 15
    ensures BodyOf(M.Start(contentLen, wire)) == M.Owed(contentLen, wire) && M.Owed(-1, "") == ""
  {
  }

  lemma RequestNodePays(nd: Node)
    requires NodeInv(nd) && nd.qpc in {QLock, QSignal, QUnlock, QFailUnlock}
    ensures var nd' := RequestAtNode(nd); NodeRank(nd') + 1 == NodeRank(nd) && nd'.header == nd.header
  {
    hide M.Rank, BodyOf;
  }

  lemma WakesHeader(s: Relay, limit: nat, j: nat)
    requires Control(s, limit) && Enabled(s, limit, RequestStep(j))
    ensures s.writer == WWait && j == s.popped && s.nodes[j].qpc.QSignal? ==> s.nodes[j].header.Some?
  {
    hide FrontInv, Ahead, Behind, Delivered, Partial;
  }

  lemma RequestPays(s: Relay, limit: nat, j: nat)
    requires Control(s, limit) && Enabled(s, limit, RequestStep(j))
    ensures Debt(Apply(s, limit, RequestStep(j))) + 1 <= Debt(s)
  {
    hide NodeRank, Debt, Control, NodeInv, FrontInv, RequestAtNode;
    RequestActionsAreAhead(s, limit, RequestStep(j));
    NodeParts(s, limit, j);
    var nd := s.nodes[j];
    RequestNodePays(nd);
    var t := RequestNext(s, j);
    WakesHeader(s, limit, j);
    ReplaceDebt(s, j, RequestAtNode(nd), t.writer, "");
    assert t == SetNode(s, j, RequestAtNode(nd)).(writer := t.writer, out := s.out + "");
  }

  /** The node of a request whose answer has come, or has not. */
  function AfterFetch(nd: Node, a: Action): Node
    requires a.Fetched? || a.FetchFailed?
  {
    if a.Fetched? then FetchedNode(nd, a.stream) else nd.(header := a.partialHeader, qpc := QFailUnlock)
  }

  lemma FetchNodePays(nd: Node, a: Action)
    requires NodeInv(nd) && nd.qpc.QFetch? && (a.Fetched? || a.FetchFailed?)
    ensures nd.header.None? && NodeRank(AfterFetch(nd, a)) + 4 <= NodeRank(nd) + Credit(a)
  {
    hide M.Rank, BodyOf, M.Owed, R.HeaderSent, R.Announced, R.BodyWire;
    if a.Fetched? {
      StartRank(R.Announced(a.stream), R.BodyWire(a.stream));
    }
    StartRank(-1, "");
  }

  lemma FetchIs(s: Relay, limit: nat, a: Action)
    requires Enabled(s, limit, a) && (a.Fetched? || a.FetchFailed?)
    ensures a.j < |s.nodes| && s.nodes[a.j].qpc.QFetch?
    ensures Apply(s, limit, a) == SetNode(s, a.j, AfterFetch(s.nodes[a.j], a)).(writer := s.writer, out := s.out + "")
  {
    hide R.Answerable, FetchedNode;
  }

  lemma HeaderArrives(s: Relay, j: nat, nd: Node)
    requires j < |s.nodes| && s.nodes[j].header.None?
    ensures WriterRank(s.writer, FrontHeaderSet(SetNode(s, j, nd).(writer := s.writer, out := s.out + "")))
            <= WriterRank(s.writer, FrontHeaderSet(s)) + 3
  {
  }

  lemma FetchPays(s: Relay, limit: nat, a: Action)
    requires Control(s, limit) && Enabled(s, limit, a) && (a.Fetched? || a.FetchFailed?)
    ensures Debt(Apply(s, limit, a)) + 1 <= Debt(s) + Credit(a)
  {
    hide NodeRank, Debt, Control, NodeInv, FrontInv, Apply, Enabled, WriterRank, FrontHeaderSet, AfterFetch, Credit;
    FetchIs(s, limit, a);
    RequestActionsAreAhead(s, limit, a);
    NodeParts(s, limit, a.j);
    var nd := s.nodes[a.j];
    FetchNodePays(nd, a);
    HeaderArrives(s, a.j, AfterFetch(nd, a));
    ReplaceDebt(s, a.j, AfterFetch(nd, a), s.writer, "");
  }

  lemma MonitorNodePays(nd: Node, mv: M.Move)
    requires M.Inv(nd.mon) && M.Enabled(nd.mon, mv)
    ensures var nd' := nd.(mon := M.Apply(nd.mon, mv));
            NodeRank(nd') + 1 <= NodeRank(nd) + (if M.Spurious(mv) then 3 else 0)
  {
    if M.ProducerMove(mv) {
      ProducerKeepsConsumer(nd.mon, mv);
    } else {
      ConsumerKeepsProducerStart(nd.mon, mv);
    }
    M.RankFalls(nd.mon, mv);
    hide M.Inv, M.Enabled, M.Rank, M.Apply;
  }

  lemma BodyPays(s: Relay, limit: nat, j: nat, mv: M.Move)
    requires Inv(s, limit) && Enabled(s, limit, Body(j, mv))
    ensures Debt(Apply(s, limit, Body(j, mv))) + 1 <= Debt(s) + Credit(Body(j, mv))
  {
    hide M.Inv, M.Rank, M.Apply, M.Enabled, Control, NodeInv, FrontInv, NodeRank, Debt;
    var nd := s.nodes[j];
    var nd' := nd.(mon := M.Apply(nd.mon, mv));
    MonitorNodePays(nd, mv);
    ReplaceDebt(s, j, nd', s.writer, "");
    assert Apply(s, limit, Body(j, mv)) == SetNode(s, j, nd').(writer := s.writer, out := s.out + "");
  }

  lemma WriterBodyPays(s: Relay, limit: nat, mv: M.Move)
    requires Inv(s, limit) && Enabled(s, limit, WriterBody(mv))
    ensures Debt(Apply(s, limit, WriterBody(mv))) + 1 <= Debt(s) + Credit(WriterBody(mv))
  {
    hide M.Inv, M.Rank, M.Apply, M.Enabled, Control, NodeInv, FrontInv, NodeRank, Debt, Written;
    var nd, extra := s.nodes[s.popped], Written(s.nodes[s.popped].mon, mv);
    var nd' := nd.(mon := M.Apply(nd.mon, mv));
    MonitorNodePays(nd, mv);
    ReplaceDebt(s, s.popped, nd', WBody, extra);
    assert Apply(s, limit, WriterBody(mv)) == SetNode(s, s.popped, nd').(writer := WBody, out := s.out + extra);
  }

  lemma WriterAtNodePays(w: WriterPc, nd: Node)
    requires FrontInv(w, nd) && !w.WDestroy? && !w.WWait? && !w.WFailed? && !w.WFailedBody?
    ensures var (w', nd') := WriterAtNode(w, nd);
            && nd'.header == nd.header && NodeRank(nd') == NodeRank(nd)
            && WriterRank(w', nd'.header.Some?) + 1 <= WriterRank(w, nd.header.Some?)
  {
    hide M.Rank;
  }

  lemma WriterStepPays(s: Relay, limit: nat)
    requires Control(s, limit) && Enabled(s, limit, WriterStep)
    ensures Debt(Apply(s, limit, WriterStep)) + 1 <= Debt(s)
  {
    hide NodeRank, Debt, Control, NodeInv, FrontInv, WriterAtNode;
    if s.writer.WDestroy? || Pops(s) {
      PopPays(s, limit);
    } else {
      QueueBounds(s, limit);
      NodeParts(s, limit, s.popped);
      var nd := s.nodes[s.popped];
      WriterAtNodePays(s.writer, nd);
      var (w, nd') := WriterAtNode(s.writer, nd);
      ReplaceDebt(s, s.popped, nd', w, "");
      assert WriterNext(s) == SetNode(s, s.popped, nd').(writer := w, out := s.out + "");
    }
  }

  lemma PopPays(s: Relay, limit: nat)
    requires Control(s, limit) && Enabled(s, limit, WriterStep) && (s.writer.WDestroy? || Pops(s))
    ensures Debt(WriterNext(s)) + 1 <= Debt(s)
  {
    hide NodeRank, NodeInv, FrontInv, Ahead, Behind;
  }

  lemma CloseNodePays(nd: Node)
    requires nd.qpc.QBody?
    ensures NodeRank(nd.(qpc := QEnded)) + 1 == NodeRank(nd)
  {
    hide M.Rank, BodyOf;
  }

  lemma ClosePays(s: Relay, limit: nat, a: Action)
    requires (a.Closed? || a.CloseFailed? || a.BodyFailed?) && Enabled(s, limit, a)
    ensures Debt(Apply(s, limit, a)) + 1 <= Debt(s)
  {
    hide NodeRank, Debt;
    var nd := s.nodes[a.j];
    var nd' := nd.(qpc := QEnded);
    CloseNodePays(nd);
    ReplaceDebt(s, a.j, nd', s.writer, "");
    assert Apply(s, limit, a) == SetNode(s, a.j, nd').(writer := s.writer, out := s.out + "");
  }

  lemma WriterPays(s: Relay, limit: nat, a: Action)
    requires Control(s, limit) && Enabled(s, limit, a)
    requires a.WriterWrite? || a.WriterSpurious? || a.WriterError?
    ensures Debt(Apply(s, limit, a)) + 1 <= Debt(s) + Credit(a)
  {
    hide Control, NodeInv, FrontInv, NodeRank, Debt;
    WriterHasNode(s, limit);
    NodeParts(s, limit, s.popped);
    var nd, t := s.nodes[s.popped], Apply(s, limit, a);
    var extra := if a.WriterWrite? then nd.header.value[s.writer.sent..s.writer.sent + a.n] else "";
    ReplaceDebt(s, s.popped, nd, t.writer, extra);
    assert s.nodes[s.popped := nd] == s.nodes;
    assert t == SetNode(s, s.popped, nd).(writer := t.writer, out := s.out + extra);
  }

  lemma SpawnNodePays(nd: Node)
    requires NodeInv(nd) && nd.qpc.QNone?
    ensures var nd' := nd.(qpc := QLock); NodeRank(nd') + 1 == NodeRank(nd) && nd'.header == nd.header
  {
    hide M.Rank, BodyOf;
  }

  /** The reader's own counters do not touch the queue. */
  lemma ReaderDebt(s: Relay, threads: nat, r: ReaderPc)
    ensures var t := s.(threads := threads, reader := r);
            Debt(t) - ReaderRank(r) == Debt(s) - ReaderRank(s.reader)
  {
    hide NodeRank;
  }

  lemma SpawnPays(s: Relay, limit: nat)
    requires Control(s, limit) && Enabled(s, limit, Spawned)
    ensures Debt(Apply(s, limit, Spawned)) + 1 <= Debt(s)
  {
    hide NodeRank, Debt, Control, NodeInv, FrontInv;
    var last := |s.nodes| - 1;
    var nd := s.nodes[last];
    LastIsNew(s, limit);
    NodeParts(s, limit, last);
    SpawnNodePays(nd);
    ReplaceDebt(s, last, nd.(qpc := QLock), s.writer, "");
    var u := SetNode(s, last, nd.(qpc := QLock)).(writer := s.writer, out := s.out + "");
    assert Apply(s, limit, Spawned) == u.(threads := s.threads + 1, reader := RTop);
    ReaderDebt(u, s.threads + 1, RTop);
  }

  lemma LastIsNew(s: Relay, limit: nat)
    requires Control(s, limit) && Enabled(s, limit, Spawned)
    ensures s.popped < |s.nodes| && s.nodes[|s.nodes| - 1].qpc.QNone?
  {
    hide NodeInv, FrontInv, Ahead, OutInv;
  }

  lemma NewNodeRank()
    ensures NodeRank(NewNode()) == 21 && NewNode().header.None?
  {
  }

  lemma QueueBounds(s: Relay, limit: nat)
    requires Control(s, limit)
    ensures s.popped <= |s.nodes| && (s.popped == |s.nodes| ==> s.writer.WFront? || s.writer.WDestroy?)
  {
    hide NodeInv, FrontInv, Ahead, Behind;
  }

  lemma ReaderPays(s: Relay, limit: nat, a: Action)
    requires Control(s, limit) && Enabled(s, limit, a)
    requires a.Enqueue? || a.Received? || a.ReceiveFailed?
    ensures Debt(Apply(s, limit, a)) + 1 <= Debt(s) + Credit(a)
  {
    hide NodeRank, NewNode, Control;
    NewNodeRank();
    assert (s.nodes + [NewNode()])[..|s.nodes|] == s.nodes;
    QueueBounds(s, limit);
  }

  /** Every action, failures included, pays one unit of debt, beyond what it is credited. */
  lemma ActionPays(s: Relay, limit: nat, a: Action)
    requires Inv(s, limit) && Enabled(s, limit, a)
    ensures Debt(Apply(s, limit, a)) + 1 <= Debt(s) + Credit(a)
  {
    hide Inv, Control, MonitorsInv, Debt, Apply, Enabled;
    InvControl(s, limit);
    match a
    case Spawned => SpawnPays(s, limit);
    case Enqueue | Received | ReceiveFailed => ReaderPays(s, limit, a);
    case RequestStep(j) => RequestPays(s, limit, j);
    case Fetched(_, _) | FetchFailed(_, _) => FetchPays(s, limit, a);
    case Body(j, mv) => BodyPays(s, limit, j, mv);
    case Closed(_) | CloseFailed(_) | BodyFailed(_) => ClosePays(s, limit, a);
    case WriterStep => WriterStepPays(s, limit);
    case WriterWrite(_) | WriterSpurious | WriterError => WriterPays(s, limit, a);
    case WriterBody(mv) => WriterBodyPays(s, limit, mv);
  }

  function Credits(acts: seq<Action>): nat {
    if acts == [] then 0 else Credit(acts[0]) + Credits(acts[1..])
  }

  lemma {:induction false} RunPays(s: Relay, limit: nat, acts: seq<Action>)
    requires Inv(s, limit) && Legal(s, limit, acts)
    ensures Inv(After(s, limit, acts), limit)
    ensures |acts| + Debt(After(s, limit, acts)) <= Debt(s) + Credits(acts)
    decreases |acts|
  {
    hide Inv, Debt, Apply, Enabled;
    if acts != [] {
      ActionInv(s, limit, acts[0]);
      ActionPays(s, limit, acts[0]);
      RunPays(Apply(s, limit, acts[0]), limit, acts[1..]);
    }
  }

  // ------------------------------------------------------------------ runs without failures

  lemma CalmMonitor(s: Relay, limit: nat, a: Action)
    requires MonitorsInv(s) && Enabled(s, limit, a) && !Failing(a) && Touches(s, a) < |s.nodes|
    requires M.Calm(s.nodes[Touches(s, a)].mon)
    ensures Touches(s, a) < |Apply(s, limit, a).nodes| && M.Calm(Apply(s, limit, a).nodes[Touches(s, a)].mon)
  {
    match a
    case Fetched(_, stream) => M.StartCalm(R.Announced(stream), R.BodyWire(stream));
    case Body(j, mv) => M.CalmKept(s.nodes[j].mon, mv);
    case WriterBody(mv) => M.CalmKept(s.nodes[s.popped].mon, mv);
    case _ =>
  }

  /** Without a failing action no thread of any node fails. */
  lemma NothingFails(s: Relay, limit: nat, a: Action, k: nat)
    requires HealthyRelay(s) && Enabled(s, limit, a) && !Failing(a) && k < |Apply(s, limit, a).nodes|
    ensures var qpc := Apply(s, limit, a).nodes[k].qpc; !qpc.QFailUnlock? && !qpc.QFailed?
    ensures WriterOk(Apply(s, limit, a).writer)
  {
    hide M.Apply, M.Enabled, R.Announced, R.BodyWire, R.HeaderSent;
    assert k < |s.nodes| ==> Sound(s.nodes[k]);
    assert HasFront(s) ==> Sound(s.nodes[s.popped]);
  }

  lemma HealthKept(s: Relay, limit: nat, a: Action)
    requires Inv(s, limit) && HealthyRelay(s) && Enabled(s, limit, a) && !Failing(a)
    ensures HealthyRelay(Apply(s, limit, a))
  {
    hide Apply, Enabled, Failing, M.Calm, M.Inv, Control, Touches;
    var t := Apply(s, limit, a);
    TouchesOnly(s, limit, a);
    forall k | 0 <= k < |t.nodes|
      ensures Sound(t.nodes[k])
    {
      NothingFails(s, limit, a, k);
      if k >= |s.nodes| {
        NewIsCalm(s, limit, a, k);
      } else {
        assert Sound(s.nodes[k]);
        if k == Touches(s, a) {
          CalmMonitor(s, limit, a);
        }
      }
    }
    if t.nodes == [] {
      WriterStaysOk(s, limit, a);
    } else {
      NothingFails(s, limit, a, 0);
    }
  }

  lemma NewIsCalm(s: Relay, limit: nat, a: Action, k: nat)
    requires Enabled(s, limit, a) && |s.nodes| <= k < |Apply(s, limit, a).nodes|
    ensures M.Calm(Apply(s, limit, a).nodes[k].mon)
  {
    M.StartCalm(-1, "");
  }

  lemma WriterStaysOk(s: Relay, limit: nat, a: Action)
    requires Enabled(s, limit, a) && Apply(s, limit, a).nodes == [] && WriterOk(s.writer)
    ensures WriterOk(Apply(s, limit, a).writer)
  {
  }

  lemma {:induction false} RunHealthy(s: Relay, limit: nat, acts: seq<Action>)
    requires Inv(s, limit) && HealthyRelay(s) && Legal(s, limit, acts) && forall a :: a in acts ==> !Failing(a)
    ensures Inv(After(s, limit, acts), limit) && HealthyRelay(After(s, limit, acts))
    decreases |acts|
  {
    hide Inv, HealthyRelay, Apply, Enabled, Failing;
    if acts != [] {
      ActionInv(s, limit, acts[0]);
      HealthKept(s, limit, acts[0]);
      RunHealthy(Apply(s, limit, acts[0]), limit, acts[1..]);
    }
  }

  /** Nothing can happen any more but reading, failing and spurious wake-ups. */
  ghost predicate Quiet(s: Relay, limit: nat) {
    forall a :: Enabled(s, limit, a) ==> Failing(a) || SpuriousAction(a) || OfReader(a)
  }

  /** The requests whose answers the client has got, as far as they go: the dequeued ones and a head that has been
      read. */
  function Reached(s: Relay): nat { if HasFront(s) && !s.nodes[s.popped].qpc.QNone? then s.popped + 1 else s.popped }

  /** The client holds the answers to the requests read, in request order, up to and including the first one that does
      not pass; of that one it holds the header and whatever body is owed, and of the others nothing. */
  ghost predicate Served(s: Relay) {
    var n := Reached(s);
    && n <= |s.nodes| && s.out == Answers(Streams(s.nodes[..n]))
    && (forall j :: 0 <= j < s.popped ==> Passes(s.nodes[j].stream))
    && (n > s.popped ==> !Passes(s.nodes[s.popped].stream))
    && (n == s.popped < |s.nodes| ==> n == |s.nodes| - 1)
  }

  /** Every run is finite, whatever fails, with an explicit bound: a fixed price per request, a price linear in the
      length of each response, and three actions per spurious wake-up.  And when nothing has failed and nothing more
      can happen, the client has been served. */
  lemma EveryFairRunAnswers(client: string, limit: nat, acts: seq<Action>)
    requires Legal(Init(client), limit, acts)
    ensures |acts| <= 9 + Credits(acts)
    ensures var s := After(Init(client), limit, acts);
            Quiet(s, limit) && (forall a :: a in acts ==> !Failing(a)) ==> Served(s)
  {
    hide Inv, HealthyRelay, Debt, Apply, Enabled, Quiet, Failing, Served;
    InitInv(client, limit);
    RunPays(Init(client), limit, acts);
    var s := After(Init(client), limit, acts);
    DebtIsNatural(s, limit);
    StartDebt(client);
    if Quiet(s, limit) && forall a :: a in acts ==> !Failing(a) {
      HealthyStart(client);
      RunHealthy(Init(client), limit, acts);
      Quiescent(s, limit);
    }
  }

  lemma StartDebt(client: string)
    ensures Debt(Init(client)) == 9
  {
  }

  /** The head node of a connection that has stopped with it: all that is owed of its answer is at the client. */
  lemma BlockedHead(s: Relay, limit: nat)
    requires Inv(s, limit) && HealthyRelay(s) && Blocked(s)
    ensures var nd := s.nodes[s.popped];
            Fetching(nd) && AnswerInv(nd) && !Passes(nd.stream) && Partial(s.writer, nd) == Full(nd)
  {
    hide FrontInv, Ahead, Behind, OutInv, ReaderInv, M.Inv, M.Calm, R.Announced, R.BodyWire, R.HeaderSent, M.Owed;
    var nd := s.nodes[s.popped];
    assert NodeInv(nd) && Sound(nd);
    M.StoppedWithAll(nd.mon);
  }

  /** A quiet connection is blocked, or has no node left that has been read. */
  lemma QuietMeans(s: Relay, limit: nat)
    requires Inv(s, limit) && HealthyRelay(s) && Quiet(s, limit) && !Blocked(s)
    ensures !s.writer.WDestroy? && Reached(s) == s.popped
  {
    hide Inv, HealthyRelay, Enabled, NextAction, Failing, Blocked, SpuriousAction, OfReader, R.Answerable;
    hide R.SampleStream;
    if s.writer.WDestroy? || Reached(s) != s.popped {
      R.SampleAnswer();
      NeverStuck(s, limit, R.SampleStream());
    }
  }

  lemma Quiescent(s: Relay, limit: nat)
    requires Inv(s, limit) && HealthyRelay(s) && Quiet(s, limit)
    ensures Served(s)
  {
    hide Inv, HealthyRelay, Quiet, Blocked, AnswerInv, Passes, Partial, Full, Answers, Stream, Control, MonitorsInv;
    OutShape(s, limit);
    InvControl(s, limit);
    PoppedInside(s, limit);
    forall j | 0 <= j < s.popped
      ensures Passes(s.nodes[j].stream) && AnswerInv(s.nodes[j])
    {
      DequeuedPasses(s, limit, j);
    }
    StreamIsAnswers(s.nodes[..s.popped]);
    if Blocked(s) {
      HeadIsThere(s);
      BlockedHead(s, limit);
      FullIsAnswer(s.nodes[s.popped]);
      AnswersAppend(s.nodes, s.popped);
    } else {
      QuietMeans(s, limit);
      if HasFront(s) {
        WaitsForNothing(s, limit);
      }
    }
  }

  lemma PoppedInside(s: Relay, limit: nat)
    requires Control(s, limit)
    ensures s.popped <= |s.nodes|
  {
    hide NodeInv, FrontInv, Ahead, Behind, OutInv, ReaderInv;
  }

  lemma HeadIsThere(s: Relay)
    requires Blocked(s)
    ensures HasFront(s)
  {
  }

  lemma AnswersAppend(ns: seq<Node>, k: nat)
    requires k < |ns|
    ensures Answers(Streams(ns[..k + 1])) == Answers(Streams(ns[..k])) + R.Answer(ns[k].stream)
  {
    hide R.Answer;
    assert Streams(ns[..k + 1])[..k] == Streams(ns[..k]);
  }

  /** A head node that has not been read is the last one, and nothing of it has been sent. */
  lemma WaitsForNothing(s: Relay, limit: nat)
    requires Inv(s, limit) && HasFront(s) && s.nodes[s.popped].qpc.QNone?
    ensures s.popped == |s.nodes| - 1 && Partial(s.writer, s.nodes[s.popped]) == ""
  {
    hide M.Inv, Ahead, Behind, OutInv;
    assert NodeInv(s.nodes[s.popped]) && FrontInv(s.writer, s.nodes[s.popped]);
  }

  // ------------------------------------------------------------------ after a failure

  predicate RequestFailed(nd: Node) { nd.qpc.QFailUnlock? || nd.qpc.QFailed? }

  lemma FailureStays(s: Relay, limit: nat, a: Action, j: nat)
    requires Inv(s, limit) && j < |s.nodes| && RequestFailed(s.nodes[j]) && Enabled(s, limit, a)
    ensures j < |Apply(s, limit, a).nodes| && RequestFailed(Apply(s, limit, a).nodes[j])
  {
    hide M.Apply, M.Enabled, M.Inv, QueueInv, OutInv, R.Answerable, R.HeaderSent, R.Announced, R.BodyWire, Written;
  }

  /** A request whose thread has failed is never dequeued, no byte of a body is ever sent for it, and no later request
      is answered. */
  lemma {:induction false} FailedRequestBlocks(s: Relay, limit: nat, acts: seq<Action>, j: nat)
    requires Inv(s, limit) && Legal(s, limit, acts) && j < |s.nodes| && RequestFailed(s.nodes[j])
    ensures var t := After(s, limit, acts);
            && t.popped <= j < |t.nodes| && RequestFailed(t.nodes[j]) && t.nodes[j].mon.client == ""
            && t.out <= Stream(t.nodes[..j + 1])
    decreases |acts|
  {
    hide Inv, Apply, Enabled, RequestFailed, Stream;
    if acts == [] {
      FailedIsUndequeued(s, limit, j);
      OutUpTo(s, limit, j);
    } else {
      ActionInv(s, limit, acts[0]);
      FailureStays(s, limit, acts[0], j);
      FailedRequestBlocks(Apply(s, limit, acts[0]), limit, acts[1..], j);
    }
  }

  lemma FailedIsUndequeued(s: Relay, limit: nat, j: nat)
    requires Inv(s, limit) && j < |s.nodes| && RequestFailed(s.nodes[j])
    ensures s.popped <= j && s.nodes[j].mon.client == ""
  {
    hide FrontInv, Ahead, OutInv, ReaderInv, AnswerInv, M.Inv;
    assert NodeInv(s.nodes[j]) && M.Inv(s.nodes[j].mon);
    assert j < s.popped ==> Behind(s.nodes[j]);
    NothingOwed(s.nodes[j].mon);
  }

  /** Nothing beyond the head node's answer has been sent. */
  lemma OutUpTo(s: Relay, limit: nat, j: nat)
    requires Inv(s, limit) && s.popped <= j < |s.nodes|
    ensures s.out <= Stream(s.nodes[..j + 1])
  {
    hide NodeInv, FrontInv, Ahead, Behind, OutInv, ReaderInv, M.Inv, Partial, Full, Stream;
    OutShape(s, limit);
    var ns, p := s.nodes[..j + 1], s.popped;
    assert ns[..p] == s.nodes[..p] && ns[p] == s.nodes[p];
    StreamPrefix(ns, p);
    PartialIsPrefix(s.writer, s.nodes[p]);
    PrefixJoins(Stream(ns[..p]), Partial(s.writer, ns[p]), Full(ns[p]), Stream(ns));
  }

  lemma WriterFailureStays(s: Relay, limit: nat, a: Action)
    requires !WriterOk(s.writer) && Enabled(s, limit, a)
    ensures !WriterOk(Apply(s, limit, a).writer) && Apply(s, limit, a).out == s.out
    ensures Apply(s, limit, a).popped == s.popped
  {
    hide M.Apply, M.Enabled, R.Answerable, R.HeaderSent, R.Announced, R.BodyWire, Written;
  }

  /** After a failed write to the client nothing more is sent and nothing is dequeued. */
  lemma {:induction false} FailedWriterStops(s: Relay, limit: nat, acts: seq<Action>)
    requires !WriterOk(s.writer) && Legal(s, limit, acts)
    ensures After(s, limit, acts).out == s.out && After(s, limit, acts).popped == s.popped
    decreases |acts|
  {
    hide Apply, Enabled, WriterOk;
    if acts != [] {
      WriterFailureStays(s, limit, acts[0]);
      FailedWriterStops(Apply(s, limit, acts[0]), limit, acts[1..]);
    }
  }

  // ------------------------------------------------------------------ every pipeline can be served

  /** The youngest request is on its way to this answer, or its node is about to be freed; and its request thread has
      not closed the connection to the backend. */
  predicate LastOpen(s: Relay, stream: string) {
    && s.nodes != [] && s.reader.RTop?
    && var nd := s.nodes[|s.nodes| - 1];
       && (Fetching(nd) ==> nd.stream == stream)
       && if s.writer.WDestroy? then s.popped == |s.nodes| && nd.qpc.QBody? && Fetching(nd)
          else s.popped == |s.nodes| - 1 && Begun(nd.qpc)
  }

  function Unfetched(s: Relay): nat { if s.nodes != [] then UnfetchedNode(s.nodes[|s.nodes| - 1].qpc) else 0 }

  predicate Begun(q: RequestPc) { !q.QNone? && !q.QEnded? }

  function UnfetchedNode(q: RequestPc): nat { if q in {QLock, QFetch} then 1 else 0 }

  lemma RequestKeepsBegun(nd: Node, stream: string)
    requires Begun(nd.qpc)
    ensures Begun(RequestAtNode(nd).qpc) && UnfetchedNode(RequestAtNode(nd).qpc) <= UnfetchedNode(nd.qpc)
    ensures RequestAtNode(nd).stream == nd.stream && (Fetching(RequestAtNode(nd)) ==> Fetching(nd))
    ensures FetchedNode(nd, stream).stream == stream
    ensures Begun(FetchedNode(nd, stream).qpc) && UnfetchedNode(FetchedNode(nd, stream).qpc) == 0
  {
    hide R.Announced, R.BodyWire, R.HeaderSent;
  }

  lemma WriterKeepsBegun(w: WriterPc, nd: Node)
    requires !w.WDestroy?
    ensures WriterAtNode(w, nd).1.qpc == nd.qpc && WriterAtNode(w, nd).1.stream == nd.stream
    ensures !WriterAtNode(w, nd).0.WDestroy?
  {
  }

  /** What serves the head node. */
  predicate OfHead(a: Action, k: nat) {
    a in {WriterStep, RequestStep(k)} || a.WriterWrite? || a.WriterBody? || ((a.Body? || a.Fetched?) && a.j == k)
  }

  /** What such actions, one at a time, leave true of the head, as long as it is not dequeued. */
  lemma ActionKeepsLast(s: Relay, limit: nat, a: Action)
    requires s.nodes != [] && s.popped == |s.nodes| - 1 && Begun(s.nodes[s.popped].qpc) && !s.writer.WDestroy?
    requires Enabled(s, limit, a) && OfHead(a, s.popped)
    ensures var t, k := Apply(s, limit, a), s.popped;
            && |t.nodes| == |s.nodes| && t.reader == s.reader && t.incoming == s.incoming && t.requests == s.requests
            && Begun(t.nodes[k].qpc) && UnfetchedNode(t.nodes[k].qpc) <= UnfetchedNode(s.nodes[k].qpc)
            && (a.Fetched? ==> UnfetchedNode(t.nodes[k].qpc) < UnfetchedNode(s.nodes[k].qpc))
            && (!a.Fetched? ==>
                  t.nodes[k].stream == s.nodes[k].stream && (Fetching(t.nodes[k]) ==> Fetching(s.nodes[k])))
            && (a.Fetched? ==> t.nodes[k].stream == a.stream)
            && (forall j :: 0 <= j < k ==> t.nodes[j] == s.nodes[j])
            && t.popped == if t.writer.WDestroy? then k + 1 else k
  {
    hide M.Apply, M.Enabled, R.Answerable, RequestAtNode, FetchedNode, WriterAtNode, Written;
    RequestKeepsBegun(s.nodes[s.popped], if a.Fetched? then a.stream else "");
    WriterKeepsBegun(s.writer, s.nodes[s.popped]);
  }

  lemma NextIsOfHead(s: Relay, stream: string)
    requires HasFront(s) && !s.writer.WDestroy?
    ensures var a := NextAction(s, stream); OfHead(a, s.popped) && (a.Fetched? ==> a.stream == stream)
  {
    hide M.Next;
  }

  lemma NextServes(s: Relay, limit: nat, stream: string)
    requires Inv(s, limit) && LastOpen(s, stream) && !s.writer.WDestroy?
    requires var a := NextAction(s, stream); Enabled(s, limit, a) && Inv(Apply(s, limit, a), limit)
    ensures var t := Apply(s, limit, NextAction(s, stream));
            && LastOpen(t, stream) && Unfetched(t) <= Unfetched(s)
            && |t.nodes| == |s.nodes| && t.incoming == s.incoming && t.requests == s.requests
            && (forall j :: 0 <= j < |s.nodes| - 1 ==> t.nodes[j] == s.nodes[j])
            && (NextAction(s, stream).Fetched? ==> Unfetched(t) < Unfetched(s))
  {
    hide Inv, Enabled, Apply, NextAction, Fetching;
    NextIsOfHead(s, stream);
    ActionKeepsLast(s, limit, NextAction(s, stream));
    var t := Apply(s, limit, NextAction(s, stream));
    if t.writer.WDestroy? {
      DequeuedIs(t, limit, |s.nodes| - 1);
    }
  }

  lemma DequeuedIs(s: Relay, limit: nat, j: nat)
    requires Inv(s, limit) && j < s.popped
    ensures j < |s.nodes| && (s.nodes[j].qpc.QBody? || s.nodes[j].qpc.QEnded?) && BodyReturned(s.nodes[j].mon)
    ensures Fetching(s.nodes[j]) && Passes(s.nodes[j].stream)
  {
    hide FrontInv, Ahead, OutInv, ReaderInv, NodeInv, AnswerInv, M.Inv, Passes;
    DequeuedPasses(s, limit, j);
    assert Behind(s.nodes[j]);
  }

  /** The youngest request has been served with this answer as far as that goes; if the answer passes, its node is
      freed with its request thread still about to close its socket. */
  predicate LastServed(s: Relay, stream: string) {
    && s.nodes != [] && s.reader.RTop?
    && var nd := s.nodes[|s.nodes| - 1];
       && Fetching(nd) && nd.stream == stream
       && if Passes(stream) then s.popped == |s.nodes| && s.writer.WFront? && nd.qpc.QBody?
          else s.popped == |s.nodes| - 1 && Blocked(s)
  }

  /** It can be served so with any answer that is accepted, all others unchanged. */
  lemma {:induction false} Serve(s: Relay, limit: nat, stream: string) returns (acts: seq<Action>)
    requires Inv(s, limit) && HealthyRelay(s) && LastOpen(s, stream) && R.Answerable(stream)
    ensures Legal(s, limit, acts) && (forall a :: a in acts ==> !Failing(a))
    ensures var t := After(s, limit, acts);
            && LastServed(t, stream) && |t.nodes| == |s.nodes| && t.incoming == s.incoming && t.requests == s.requests
            && (forall j :: 0 <= j < |s.nodes| - 1 ==> t.nodes[j] == s.nodes[j])
    decreases Unfetched(s), Debt(s), if s.writer.WDestroy? then 0 else 1
  {
    hide Inv, HealthyRelay, Debt, Enabled, Blocked, Failing, M.Enabled, M.Apply, M.Next, Fetching, Passes;
    hide R.Answerable, R.Announced, R.BodyWire, R.HeaderSent;
    if Blocked(s) {
      acts := [];
      HeadIsThere(s);
      BlockedHead(s, limit);
      return;
    }
    var a := NextAction(s, stream);
    NeverStuck(s, limit, stream);
    ActionInv(s, limit, a);
    if s.writer.WDestroy? {
      DequeuedIs(s, limit, |s.nodes| - 1);
      acts := [a];
      assert [a][1..] == [];
    } else {
      ActionPays(s, limit, a);
      HealthKept(s, limit, a);
      DebtIsNatural(s, limit);
      NextServes(s, limit, stream);
      NextCredit(a);
      var t := Apply(s, limit, a);
      hide Apply, NextAction, LastOpen, LastServed;
      var rest := Serve(t, limit, stream);
      acts := [a] + rest;
      assert acts[1..] == rest;
    }
  }

  lemma NextCredit(a: Action)
    requires !SpuriousAction(a) && !OfReader(a) && !Failing(a)
    ensures a.Fetched? || Credit(a) == 0
  {
  }

  /** Everything read so far has been served and dequeued. */
  predicate AllServed(s: Relay) { s.reader.RTop? && s.writer.WFront? && s.popped == |s.nodes| }

  /** From there the reader takes the next request. */
  lemma TakeNext(s: Relay, limit: nat, stream: string)
    requires Inv(s, limit) && HealthyRelay(s) && AllServed(s) && |s.nodes| <= limit && Requestable(s.incoming)
    ensures var acts := [Enqueue, Received, Spawned];
            && Legal(s, limit, acts) && (forall a :: a in acts ==> !Failing(a))
            && var t := After(s, limit, acts);
               && Inv(t, limit) && HealthyRelay(t) && LastOpen(t, stream) && t.out == s.out
               && |t.nodes| == |s.nodes| + 1 && (forall j :: 0 <= j < |s.nodes| ==> t.nodes[j] == s.nodes[j])
               && t.incoming == R.BodyWire(s.incoming) && t.requests == s.requests + [RequestOf(s.incoming)]
  {
    hide Inv, HealthyRelay, Requestable, RequestOf, R.BodyWire, NewNode;
    CanEnqueue(s, limit);
    NewIsUnfetched();
    var s1 := Taken(s, limit, Enqueue);
    var s2 := Taken(s1, limit, Received);
    var s3 := Taken(s2, limit, Spawned);
    var acts := [Enqueue, Received, Spawned];
    assert acts[1..] == [Received, Spawned] && acts[1..][1..] == [Spawned] && acts[1..][1..][1..] == [];
    assert Legal(s2, limit, [Spawned]) && After(s2, limit, [Spawned]) == s3;
    assert Legal(s1, limit, [Received, Spawned]) && After(s1, limit, [Received, Spawned]) == s3;
  }

  lemma CanEnqueue(s: Relay, limit: nat)
    requires Inv(s, limit) && s.reader.RTop? && |s.nodes| <= limit
    ensures Enabled(s, limit, Enqueue)
  {
    hide NodeInv, FrontInv, Ahead, Behind, OutInv, M.Inv;
  }

  lemma NewIsUnfetched()
    ensures !Fetching(NewNode().(qpc := QLock)) && Begun(QLock)
  {
  }

  lemma HealthyStart(client: string)
    ensures HealthyRelay(Init(client))
  {
  }

  lemma Taken(s: Relay, limit: nat, a: Action) returns (t: Relay)
    requires Inv(s, limit) && HealthyRelay(s) && Enabled(s, limit, a) && !Failing(a)
    ensures t == Apply(s, limit, a) && Inv(t, limit) && HealthyRelay(t)
  {
    hide Inv, HealthyRelay, Apply, Enabled, Failing;
    ActionInv(s, limit, a);
    HealthKept(s, limit, a);
    t := Apply(s, limit, a);
  }

  lemma {:induction false} RunJoins(s: Relay, limit: nat, acts: seq<Action>, more: seq<Action>)
    requires Legal(s, limit, acts) && Legal(After(s, limit, acts), limit, more)
    ensures Legal(s, limit, acts + more) && After(s, limit, acts + more) == After(After(s, limit, acts), limit, more)
    decreases |acts|
  {
    hide Apply, Enabled;
    if acts == [] {
      assert acts + more == more;
    } else {
      RunJoins(Apply(s, limit, acts[0]), limit, acts[1..], more);
      assert (acts + more)[1..] == acts[1..] + more;
    }
  }

  /** One more request of the stream is read and served. */
  lemma ServeNext(s: Relay, limit: nat, stream: string) returns (acts: seq<Action>)
    requires Inv(s, limit) && HealthyRelay(s) && AllServed(s) && |s.nodes| <= limit && Requestable(s.incoming)
    requires R.Answerable(stream)
    ensures Legal(s, limit, acts) && (forall a :: a in acts ==> !Failing(a))
    ensures var t := After(s, limit, acts);
            && LastServed(t, stream) && |t.nodes| == |s.nodes| + 1
            && (forall j :: 0 <= j < |s.nodes| ==> t.nodes[j] == s.nodes[j])
            && t.incoming == R.BodyWire(s.incoming) && t.requests == s.requests + [RequestOf(s.incoming)]
  {
    hide Inv, HealthyRelay, AllServed, LastOpen, LastServed, Failing, Requestable, RequestOf, R.Answerable, R.BodyWire;
    hide Legal, After;
    var begin := [Enqueue, Received, Spawned];
    TakeNext(s, limit, stream);
    var served := Serve(After(s, limit, begin), limit, stream);
    acts := begin + served;
    RunJoins(s, limit, begin, served);
  }

  /** The first n requests of the client's stream have been read and answered by `answer`, the last one as far as it
      goes. */
  ghost predicate Answered(s: Relay, client: string, answer: P.Fields -> string, n: nat)
  {
    && |s.nodes| == n <= |C.Received(client)| && s.requests == C.Received(client)[..n]
    && C.Received(s.incoming) == C.Received(client)[n..]
    && (forall j :: 0 <= j < n ==> Fetching(s.nodes[j]) && s.nodes[j].stream == answer(C.Received(client)[j]))
    && (n == 0 ==> AllServed(s)) && (n > 0 ==> LastServed(s, answer(C.Received(client)[n - 1])))
  }

  lemma AnsweredOneMore(s: Relay, t: Relay, client: string, answer: P.Fields -> string, n: nat)
    requires n < |C.Received(client)| && Answered(s, client, answer, n) && Requestable(s.incoming)
    requires LastServed(t, answer(C.Received(client)[n])) && |t.nodes| == n + 1
    requires forall j :: 0 <= j < n ==> t.nodes[j] == s.nodes[j]
    requires t.incoming == R.BodyWire(s.incoming) && t.requests == s.requests + [RequestOf(s.incoming)]
    ensures Answered(t, client, answer, n + 1)
  {
    hide C.Received, Requestable, RequestOf, R.BodyWire, Fetching, LastServed, AllServed;
    ReceivedUnfolds(s.incoming);
    LastIsFetched(t, answer(C.Received(client)[n]));
    NextOf(C.Received(client), n, RequestOf(s.incoming), C.Received(R.BodyWire(s.incoming)));
  }

  lemma LastIsFetched(s: Relay, stream: string)
    requires LastServed(s, stream)
    ensures s.nodes != [] && Fetching(s.nodes[|s.nodes| - 1]) && s.nodes[|s.nodes| - 1].stream == stream
  {
    hide Fetching, Blocked, Passes;
  }

  lemma NextOf(all: seq<P.Fields>, n: nat, first: P.Fields, rest: seq<P.Fields>)
    requires n < |all| && all[n..] == [first] + rest
    ensures all[n] == first && all[n + 1..] == rest && all[..n + 1] == all[..n] + [first]
  {
    assert all[n..][0] == all[n] && all[n..][1..] == all[n + 1..];
  }

  lemma MoreToRead(s: Relay, client: string, answer: P.Fields -> string, n: nat)
    requires n < |C.Received(client)| && Answered(s, client, answer, n)
    requires n > 0 ==> Passes(answer(C.Received(client)[n - 1]))
    ensures Requestable(s.incoming) && RequestOf(s.incoming) == C.Received(client)[n] && AllServed(s)
  {
    hide C.Received, Requestable, RequestOf, R.BodyWire, Fetching, Passes, Blocked;
    ReceivedUnfolds(s.incoming);
    assert C.Received(client)[n..] != [];
  }

  lemma NothingRead(client: string, answer: P.Fields -> string)
    ensures Answered(Init(client), client, answer, 0)
  {
    hide C.Received;
  }

  lemma {:induction false} ServeAll(client: string, limit: nat, answer: P.Fields -> string, n: nat)
    returns (acts: seq<Action>)
    requires n <= |C.Received(client)| && n <= limit + 1
    requires forall j :: 0 <= j < n ==> R.Answerable(answer(C.Received(client)[j]))
    requires forall j :: 0 <= j < n - 1 ==> Passes(answer(C.Received(client)[j]))
    ensures Legal(Init(client), limit, acts) && (forall a :: a in acts ==> !Failing(a))
    ensures Answered(After(Init(client), limit, acts), client, answer, n)
  {
    hide Init, Inv, HealthyRelay, AllServed, Answered, LastServed, Failing, Requestable, RequestOf, R.Answerable;
    hide R.BodyWire, Legal, After, Passes, C.Received;
    if n == 0 {
      acts := [];
      NothingRead(client, answer);
      assert Legal(Init(client), limit, []) && After(Init(client), limit, []) == Init(client) by {
        EmptyRun(Init(client), limit);
      }
    } else {
      acts := ServeAll(client, limit, answer, n - 1);
      var s := After(Init(client), limit, acts);
      ReachableInv(client, limit, acts);
      InitInv(client, limit);
      HealthyStart(client);
      RunHealthy(Init(client), limit, acts);
      MoreToRead(s, client, answer, n - 1);
      NodesOf(s, client, answer, n - 1);
      var more := ServeNext(s, limit, answer(C.Received(client)[n - 1]));
      AnsweredOneMore(s, After(s, limit, more), client, answer, n - 1);
      RunJoins(Init(client), limit, acts, more);
      acts := acts + more;
    }
  }

  lemma EmptyRun(s: Relay, limit: nat)
    ensures Legal(s, limit, []) && After(s, limit, []) == s
  {
  }

  lemma NodesOf(s: Relay, client: string, answer: P.Fields -> string, n: nat)
    requires Answered(s, client, answer, n)
    ensures |s.nodes| == n
  {
  }

  /** Every pipeline can be served, whatever the accepted answers.  For any n requests of the client's stream that the
      limit lets through, and any answers to them of which all but the last pass, some run without failures ends with
      exactly those answers at the client, and with the last request dequeued if and only if its answer passes. */
  lemma PipelineCanBeServed(client: string, limit: nat, answer: P.Fields -> string, n: nat) returns (acts: seq<Action>)
    requires n <= |C.Received(client)| && n <= limit + 1
    requires forall j :: 0 <= j < n ==> R.Answerable(answer(C.Received(client)[j]))
    requires forall j :: 0 <= j < n - 1 ==> Passes(answer(C.Received(client)[j]))
    ensures Legal(Init(client), limit, acts) && (forall a :: a in acts ==> !Failing(a))
    ensures var s, asked := After(Init(client), limit, acts), C.Received(client)[..n];
            && s.requests == asked && s.out == Answers(AnswersTo(asked, answer))
            && (n > 0 ==> (s.popped == n <==> Passes(answer(asked[n - 1]))))
  {
    hide Init, Inv, HealthyRelay, Failing, Legal, After, Passes, C.Received, R.Answerable, Answered, Answers;
    acts := ServeAll(client, limit, answer, n);
    ReachableInv(client, limit, acts);
    InitInv(client, limit);
    HealthyStart(client);
    RunHealthy(Init(client), limit, acts);
    AnsweredHas(After(Init(client), limit, acts), limit, client, answer, n);
  }

  lemma AnsweredHas(s: Relay, limit: nat, client: string, answer: P.Fields -> string, n: nat)
    requires Inv(s, limit) && HealthyRelay(s) && Answered(s, client, answer, n)
    ensures var asked := C.Received(client)[..n];
            && s.requests == asked && s.out == Answers(AnswersTo(asked, answer))
            && (n > 0 ==> (s.popped == n <==> Passes(answer(asked[n - 1]))))
  {
    hide Inv, HealthyRelay, Blocked, Fetching, Passes, C.Received, Answers, Stream, Partial, Full, AnswerInv;
    var asked := C.Received(client)[..n];
    OutShape(s, limit);
    forall j | 0 <= j < |s.nodes|
      ensures AnswerInv(s.nodes[j])
    {
      FetchedIsAnswer(s, limit, j);
    }
    StreamIsAnswers(s.nodes);
    assert Streams(s.nodes) == AnswersTo(asked, answer);
    assert s.nodes[..|s.nodes|] == s.nodes;
    if n > 0 && s.popped != n {
      HeadIsThere(s);
      BlockedHead(s, limit);
      LastOfStream(s.nodes);
    }
  }

  lemma FetchedIsAnswer(s: Relay, limit: nat, j: nat)
    requires Inv(s, limit) && j < |s.nodes| && Fetching(s.nodes[j])
    ensures AnswerInv(s.nodes[j])
  {
    hide FrontInv, Ahead, Behind, OutInv, ReaderInv, M.Inv, AnswerInv;
    assert NodeInv(s.nodes[j]);
  }

  lemma LastOfStream(ns: seq<Node>)
    requires ns != []
    ensures Stream(ns) == Stream(ns[..|ns| - 1]) + Full(ns[|ns| - 1])
  {
    hide Full;
  }

  // ------------------------------------------------------------------ a freed node can be written to

  /** A run that ends with the use of a freed node: the close_connection that fails there stores its error through the
      node of the first request, which the writer has freed. */
  lemma FreedUse(client: string, limit: nat) returns (acts: seq<Action>)
    requires Requestable(client)
    ensures Legal(Init(client), limit, acts)
    ensures var s := After(Init(client), limit, acts);
            Freed(s, 0) && Enabled(s, limit, CloseFailed(0)) && Uses(s, CloseFailed(0), 0)
  {
    hide Init, Inv, HealthyRelay, Legal, After, Apply, Enabled, Uses, Passes, Requestable, R.Answerable, R.SampleStream;
    hide Fetching, Blocked, AllServed, LastServed, Failing;
    InitInv(client, limit);
    HealthyStart(client);
    StartServed(client);
    SamplePasses();
    acts := ServeNext(Init(client), limit, R.SampleStream());
    ReachableInv(client, limit, acts);
    FreedAndOpen(After(Init(client), limit, acts), limit);
  }

  lemma StartServed(client: string)
    ensures AllServed(Init(client)) && |Init(client).nodes| == 0 && Init(client).incoming == client
  {
  }

  lemma FreedAndOpen(s: Relay, limit: nat)
    requires Inv(s, limit) && |s.nodes| == 1 && LastServed(s, R.SampleStream()) && Passes(R.SampleStream())
    ensures Freed(s, 0) && Enabled(s, limit, CloseFailed(0)) && Uses(s, CloseFailed(0), 0)
  {
    hide Inv, Passes, R.SampleStream, Fetching, Blocked;
    DequeuedIs(s, limit, 0);
  }

  lemma SamplePasses()
    ensures R.Answerable(R.SampleStream()) && Passes(R.SampleStream())
  {
    hide R.SampleStream, R.Announced, R.BodyWire, R.Answerable;
    R.SampleAnswer();
  }
}
