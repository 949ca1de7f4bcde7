/** One client connection inside a worker: the reader thread (`read_work`) appends a node per pipelined request
    and starts a request thread for it (`request_work`), the writer thread (`write_work`) serves the queue
    head: it waits for the node's response header, sends it, relays the body through the node's chunk
    monitor, then dequeues and destroys the node.

    `nodes` lists every node ever enqueued, in request order; the queue holds nodes[popped..].  A queue
    operation is one atomic step. */
module Relay {
  import opened Common
  import C = Connection
  import M = ChunkMonitor
  import P = HttpParser
  import R = Response

  datatype NodeOwner = Free | ByRequest | ByWriter

  /** Program counter of a request thread. */
  datatype RequestPc =
    | QNone             // not started: the reader is still receiving the request
    | QLock             // pthread_mutex_lock(&node->mutex)
    | QFetch            // sends the request, receives and parses the response header
    | QSignal           // pthread_cond_signal(&node->condition)
    | QUnlock
    | QBody             // in receive_http_chunks; the rest is in the monitor's producer counter
    | QEnded            // back from receive_http_chunks and done with the connection to the backend
    | QFailUnlock       // an error was logged; unlocks without a signal
    | QFailed

  datatype Node = Node(
    stream: string,          // history: what the backend answers, from the first byte to the end of the stream
    header: Option<string>,  // response->response->header, None while NULL
    owner: NodeOwner,        // node->mutex
    qpc: RequestPc,
    mon: M.Monitor)          // node->chunk and the two threads that use it

  datatype ReaderPc = RTop | RReceive | RSpawn | RStopped

  /** Program counter of the writer; all but WFront and WDestroy refer to the node at the queue head. */
  datatype WriterPc =
    | WFront            // queue->get_front
    | WLock | WTest | WWait | WRelock
    | WHeader(sent: nat)
    | WUnlock
    | WBody             // in send_http_chunks; the rest is in the monitor's consumer counter
    | WDestroy          // dequeued, about to free the node
    | WFailUnlock(sent: nat) | WFailed(sent: nat) | WFailedBody

  datatype Relay = Relay(
    nodes: seq<Node>,
    popped: nat,
    reader: ReaderPc,
    threads: nat,       // max_thr_request
    writer: WriterPc,
    out: string,        // every byte written to the client socket
    incoming: string,   // what the client still sends
    requests: seq<P.Fields>) // the requests received so far; the j-th one belongs to the j-th node

  datatype Action =
    | Enqueue | Received | ReceiveFailed | Spawned
    | RequestStep(j: nat)
    | Fetched(j: nat, stream: string)   // the header of this answer has been received and parsed
    | FetchFailed(j: nat, partialHeader: Option<string>)
    | Body(j: nat, mv: M.Move)
    | BodyFailed(j: nat)                // stores the error of receive_http_chunks through the node
    | Closed(j: nat)                    // close_connection succeeds; the node is not touched
    | CloseFailed(j: nat)               // close_connection fails; stores that through the node
    | WriterStep
    | WriterWrite(n: nat)
    | WriterError
    | WriterSpurious
    | WriterBody(cmv: M.Move)

  /** A connection on which the client sends the bytes of `client` and then closes its side. */
  function Init(client: string): Relay { Relay([], 0, RTop, 0, WFront, "", client, []) }

  function NewNode(): Node { Node("", None, Free, QNone, M.Start(-1, "")) }

  predicate HasFront(s: Relay) { s.popped < |s.nodes| }

  /** receive_http_request succeeds on the next frame of the client's stream. */
  predicate Requestable(incoming: string) {
    incoming != "" && P.ReadFields(R.Frame(incoming), P.NewFields(), P.RQST).0 == OK
  }

  function RequestOf(incoming: string): P.Fields { P.ReadFields(R.Frame(incoming), P.NewFields(), P.RQST).1 }

  /** receive_http_chunks has returned without an error. */
  predicate BodyReturned(m: M.Monitor) { m.ppc.PDone? || m.ppc.PEof? }

  predicate Enabled(s: Relay, limit: nat, a: Action) {
    match a
    case Enqueue => s.reader.RTop? && s.threads <= limit
    case Received => s.reader.RReceive? && Requestable(s.incoming)
    case ReceiveFailed => s.reader.RReceive?
    case Spawned => s.reader.RSpawn? && s.nodes != []
    case RequestStep(j) =>
      && j < |s.nodes|
      && (match s.nodes[j].qpc
          case QLock => s.nodes[j].owner == Free
          case QSignal | QUnlock | QFailUnlock => true
          case _ => false)
    case Fetched(j, stream) => j < |s.nodes| && s.nodes[j].qpc.QFetch? && R.Answerable(stream)
    case FetchFailed(j, _) => j < |s.nodes| && s.nodes[j].qpc.QFetch?
    case Body(j, mv) => j < |s.nodes| && s.nodes[j].qpc.QBody? && M.ProducerMove(mv) && M.Enabled(s.nodes[j].mon, mv)
    case BodyFailed(j) => j < |s.nodes| && s.nodes[j].qpc.QBody? && s.nodes[j].mon.ppc.PError?
    case Closed(j) => j < |s.nodes| && s.nodes[j].qpc.QBody? && BodyReturned(s.nodes[j].mon)
    case CloseFailed(j) => j < |s.nodes| && s.nodes[j].qpc.QBody? && BodyReturned(s.nodes[j].mon)
    case WriterStep =>
      && (HasFront(s) || s.writer.WDestroy?)
      && (match s.writer
          case WLock | WRelock => s.nodes[s.popped].owner == Free
          case WHeader(sent) => s.nodes[s.popped].header.Some? && sent >= |s.nodes[s.popped].header.value|
          case WBody => s.nodes[s.popped].mon.cpc.CDone? || s.nodes[s.popped].mon.cpc.CError?
          case WWait | WFailed(_) | WFailedBody => false
          case _ => true)
    case WriterWrite(n) =>
      && HasFront(s) && s.writer.WHeader? && s.nodes[s.popped].header.Some?
      && 1 <= n && s.writer.sent + n <= |s.nodes[s.popped].header.value|
    case WriterError => HasFront(s) && s.writer.WHeader?
    case WriterSpurious => s.writer.WWait?
    case WriterBody(mv) => HasFront(s) && s.writer.WBody? && !M.ProducerMove(mv) && M.Enabled(s.nodes[s.popped].mon, mv)
  }

  function SetNode(s: Relay, j: nat, nd: Node): Relay
    requires j < |s.nodes|
  {
    s.(nodes := s.nodes[j := nd])
  }

  /** One writer step at the head node; leaving WBody normally is the pop below. */
  function WriterAtNode(w: WriterPc, nd: Node): (WriterPc, Node)
    requires !w.WDestroy?
  {
    match w
    case WFront => (WLock, nd)
    case WLock | WRelock => (WTest, nd.(owner := ByWriter))
    case WTest => if nd.header == None then (WWait, nd.(owner := Free)) else (WHeader(0), nd)
    case WHeader(_) => (WUnlock, nd)
    case WUnlock => (WBody, nd.(owner := Free))
    case WBody => (WFailedBody, nd)
    case WFailUnlock(sent) => (WFailed(sent), nd.(owner := Free))
    case _ => (w, nd)
  }

  predicate Pops(s: Relay) { HasFront(s) && s.writer.WBody? && s.nodes[s.popped].mon.cpc.CDone? }

  function WriterNext(s: Relay): Relay
    requires HasFront(s) || s.writer.WDestroy?
  {
    if s.writer.WDestroy? then s.(writer := WFront)
    else if Pops(s) then s.(popped := s.popped + 1, writer := WDestroy)
    else
      var (w, nd) := WriterAtNode(s.writer, s.nodes[s.popped]);
      SetNode(s, s.popped, nd).(writer := w)
  }

  function RequestAtNode(nd: Node): Node {
    match nd.qpc
    case QLock => nd.(owner := ByRequest, qpc := QFetch)
    case QSignal => nd.(qpc := QUnlock)
    case QUnlock => nd.(owner := Free, qpc := QBody)
    case QFailUnlock => nd.(owner := Free, qpc := QFailed)
    case _ => nd
  }

  function RequestNext(s: Relay, j: nat): Relay
    requires j < |s.nodes|
  {
    var wakes := s.nodes[j].qpc.QSignal? && s.writer == WWait && j == s.popped;
    SetNode(s, j, RequestAtNode(s.nodes[j])).(writer := if wakes then WRelock else s.writer)
  }

  function FetchedNode(nd: Node, stream: string): Node {
    nd.(stream := stream, header := Some(R.HeaderSent(stream)),
        mon := M.Start(R.Announced(stream), R.BodyWire(stream)), qpc := QSignal)
  }

  function Apply(s: Relay, limit: nat, a: Action): Relay
    requires Enabled(s, limit, a)
  {
    match a
    case Enqueue => s.(nodes := s.nodes + [NewNode()], reader := RReceive)
    case Received =>
      s.(reader := RSpawn, incoming := R.BodyWire(s.incoming), requests := s.requests + [RequestOf(s.incoming)])
    case ReceiveFailed => s.(reader := RStopped)
    case Spawned =>
      SetNode(s, |s.nodes| - 1, s.nodes[|s.nodes| - 1].(qpc := QLock)).(threads := s.threads + 1, reader := RTop)
    case RequestStep(j) => RequestNext(s, j)
    case Fetched(j, stream) => SetNode(s, j, FetchedNode(s.nodes[j], stream))
    case FetchFailed(j, partialHeader) =>
      SetNode(s, j, s.nodes[j].(header := partialHeader, qpc := QFailUnlock))
    case Body(j, mv) => SetNode(s, j, s.nodes[j].(mon := M.Apply(s.nodes[j].mon, mv)))
    case BodyFailed(j) => SetNode(s, j, s.nodes[j].(qpc := QEnded))
    case Closed(j) => SetNode(s, j, s.nodes[j].(qpc := QEnded))
    case CloseFailed(j) => SetNode(s, j, s.nodes[j].(qpc := QEnded))
    case WriterStep => WriterNext(s)
    case WriterWrite(n) =>
      s.(out := s.out + s.nodes[s.popped].header.value[s.writer.sent..s.writer.sent + n],
         writer := WHeader(s.writer.sent + n))
    case WriterError => s.(writer := WFailUnlock(s.writer.sent))
    case WriterSpurious => s.(writer := WRelock)
    case WriterBody(mv) =>
      var nd := s.nodes[s.popped];
      var mon' := M.Apply(nd.mon, mv);
      SetNode(s, s.popped, nd.(mon := mon')).(out := s.out + Written(nd.mon, mv))
  }

  /** The bytes a consumer move passes to write(). */
  function Written(m: M.Monitor, mv: M.Move): string
    requires M.Enabled(m, mv)
  {
    if mv.CWrite? then m.data[m.cpc.sent..m.cpc.sent + mv.n] else ""
  }

  // ------------------------------------------------------------------ invariant

  function HeaderOf(nd: Node): string { if nd.header.Some? then nd.header.value else "" }

  /** What has reached the client of this node's response. */
  function Got(nd: Node): string { HeaderOf(nd) + nd.mon.client }

  function Delivered(ns: seq<Node>): string {
    if ns == [] then "" else Delivered(ns[..|ns| - 1]) + Got(ns[|ns| - 1])
  }

  predicate Fetching(nd: Node) { nd.qpc.QSignal? || nd.qpc.QUnlock? || nd.qpc.QBody? || nd.qpc.QEnded? }

  /** Header and monitor of a node are those of its backend's answer. */
  predicate AnswerInv(nd: Node) {
    && R.Answerable(nd.stream) && nd.header == Some(R.HeaderSent(nd.stream))
    && nd.mon.contentLen == R.Announced(nd.stream) && nd.mon.wire == R.BodyWire(nd.stream)
  }

  predicate NodeInv(nd: Node) {
    && (nd.qpc.QNone? || nd.qpc.QLock? || nd.qpc.QFetch? ==> nd.header.None? && nd.mon == M.Start(-1, ""))
    && (Fetching(nd) ==> AnswerInv(nd))
    && (nd.qpc.QFailUnlock? || nd.qpc.QFailed? ==> nd.mon.contentLen == -1)
    && (!nd.qpc.QBody? && !nd.qpc.QEnded? ==> nd.mon.ppc.PStart?)
    && (nd.qpc.QEnded? ==> BodyReturned(nd.mon) || nd.mon.ppc.PError?)
    && (nd.owner == ByRequest <==> nd.qpc.QFetch? || nd.qpc.QSignal? || nd.qpc.QUnlock? || nd.qpc.QFailUnlock?)
  }

  /** The writer has not come to this node yet. */
  predicate Ahead(nd: Node) { nd.mon.cpc.CLock? && nd.mon.client == "" && nd.owner != ByWriter }

  /** The writer has finished with this node. */
  predicate Behind(nd: Node) {
    nd.header.Some? && (nd.qpc.QBody? || nd.qpc.QEnded?) && nd.mon.cpc.CDone? && nd.mon.ppc.PDone?
  }

  predicate FrontInv(w: WriterPc, nd: Node) {
    && (nd.owner == ByWriter <==> w.WTest? || w.WHeader? || w.WUnlock? || w.WFailUnlock?)
    && (!w.WBody? && !w.WFailedBody? ==> nd.mon.cpc.CLock? && nd.mon.client == "")
    && (w.WHeader? || w.WUnlock? || w.WBody? || w.WFailUnlock? || w.WFailed? || w.WFailedBody? ==> nd.header.Some?)
    && (w.WHeader? || w.WFailUnlock? || w.WFailed? ==> w.sent <= |HeaderOf(nd)|)
    && (w.WWait? && nd.header.Some? ==> nd.qpc.QSignal? || nd.qpc.QFailUnlock? || nd.qpc.QFailed?)
  }

  /** The part of the head node's response that is already at the client. */
  function Partial(w: WriterPc, nd: Node): string {
    match w
    case WHeader(sent) => if sent <= |HeaderOf(nd)| then HeaderOf(nd)[..sent] else ""
    case WFailUnlock(sent) => if sent <= |HeaderOf(nd)| then HeaderOf(nd)[..sent] else ""
    case WFailed(sent) => if sent <= |HeaderOf(nd)| then HeaderOf(nd)[..sent] else ""
    case WUnlock => HeaderOf(nd)
    case WBody | WFailedBody => Got(nd)
    case _ => ""
  }

  predicate QueueInv(s: Relay) {
    && s.popped <= |s.nodes|
    && (s.writer.WDestroy? ==> s.popped > 0)
    && (!s.writer.WFront? && !s.writer.WDestroy? ==> HasFront(s))
    && (forall j :: 0 <= j < |s.nodes| ==> NodeInv(s.nodes[j]))
    && (forall j :: 0 <= j < s.popped ==> Behind(s.nodes[j]))
    && (forall j :: s.popped < j < |s.nodes| ==> Ahead(s.nodes[j]))
    && (HasFront(s) ==> FrontInv(s.writer, s.nodes[s.popped]))
  }

  predicate OutInv(s: Relay)
    requires s.popped <= |s.nodes|
  {
    s.out == Delivered(s.nodes[..s.popped]) + (if HasFront(s) then Partial(s.writer, s.nodes[s.popped]) else "")
  }

  predicate ReaderInv(s: Relay, limit: nat) {
    && s.threads <= limit + 1
    && (!s.reader.RTop? && !s.reader.RStopped? ==> s.threads <= limit)
    && (s.reader.RReceive? || s.reader.RSpawn? ==>
          |s.nodes| == s.threads + 1 && s.nodes[|s.nodes| - 1].qpc.QNone?)
    && (s.reader.RTop? ==> |s.nodes| == s.threads)
    && |s.nodes| <= limit + 1
    && (forall j :: 0 <= j < |s.nodes| - 1 ==> !s.nodes[j].qpc.QNone?)
    && (s.reader.RTop? && s.nodes != [] ==> !s.nodes[|s.nodes| - 1].qpc.QNone?)
  }

  predicate MonitorsInv(s: Relay) { forall j :: 0 <= j < |s.nodes| ==> M.Inv(s.nodes[j].mon) }

  /** Everything but the inside of the chunk monitors. */
  predicate Control(s: Relay, limit: nat) { QueueInv(s) && OutInv(s) && ReaderInv(s, limit) }

  predicate Inv(s: Relay, limit: nat) { MonitorsInv(s) && Control(s, limit) }

  lemma InitInv(client: string, limit: nat)
    ensures Inv(Init(client), limit)
  {
  }

  /** A request thread never touches a node the writer has dequeued. */
  lemma RequestActionsAreAhead(s: Relay, limit: nat, a: Action)
    requires Control(s, limit) && Enabled(s, limit, a)
    requires a.RequestStep? || a.Fetched? || a.FetchFailed? || a.Body? || a.BodyFailed?
    ensures s.popped <= a.j < |s.nodes|
  {
    hide NodeInv, FrontInv, Ahead, OutInv, ReaderInv;
    assert a.j < s.popped ==> Behind(s.nodes[a.j]);
  }

  /** Replacing the node at j >= popped keeps the queue invariant if the new node is locally right and the
      writer appends exactly what the new node adds to the head's partial response. */
  lemma ReplaceNode(s: Relay, limit: nat, j: nat, nd: Node, w: WriterPc, extra: string)
    requires Control(s, limit) && s.popped <= j < |s.nodes|
    requires NodeInv(nd) && (nd.qpc.QNone? <==> s.nodes[j].qpc.QNone?)
    requires j > s.popped ==> w == s.writer && Ahead(nd) && extra == ""
    requires j == s.popped ==> FrontInv(w, nd) && Partial(w, nd) == Partial(s.writer, s.nodes[j]) + extra
    requires w.WDestroy? <==> s.writer.WDestroy?
    ensures Control(SetNode(s, j, nd).(writer := w, out := s.out + extra), limit)
  {
    hide NodeInv, FrontInv, Ahead, Behind, Partial, Delivered, Got, HeaderOf;
    var t := SetNode(s, j, nd).(writer := w, out := s.out + extra);
    assert t.nodes[..t.popped] == s.nodes[..s.popped];
    assert forall k :: 0 <= k < |t.nodes| && k != j ==> t.nodes[k] == s.nodes[k];
    var done, part := Delivered(s.nodes[..s.popped]), Partial(s.writer, s.nodes[s.popped]);
    assert (done + part) + extra == done + (part + extra);
  }

  /** What the invariant says of one node of the queue. */
  lemma NodeParts(s: Relay, limit: nat, j: nat)
    requires Control(s, limit) && s.popped <= j < |s.nodes|
    ensures NodeInv(s.nodes[j])
    ensures j == s.popped ==> FrontInv(s.writer, s.nodes[j])
    ensures j > s.popped ==> Ahead(s.nodes[j])
  {
    hide NodeInv, FrontInv, Ahead, Behind;
  }

  lemma RequestNodeInv(nd: Node, w: WriterPc)
    requires NodeInv(nd) && nd.qpc in {QLock, QSignal, QUnlock, QFailUnlock}
    requires nd.qpc.QLock? ==> nd.owner == Free
    ensures NodeInv(RequestAtNode(nd)) && !RequestAtNode(nd).qpc.QNone?
    ensures Ahead(nd) ==> Ahead(RequestAtNode(nd))
    ensures var w' := if nd.qpc.QSignal? && w == WWait then WRelock else w;
            FrontInv(w, nd) ==> FrontInv(w', RequestAtNode(nd)) && Partial(w', RequestAtNode(nd)) == Partial(w, nd) + ""
  {
  }

  lemma RequestStepInv(s: Relay, limit: nat, j: nat)
    requires Control(s, limit) && Enabled(s, limit, RequestStep(j))
    ensures Control(RequestNext(s, j), limit)
  {
    hide Control, NodeInv, FrontInv, Ahead, Partial, RequestAtNode;
    RequestActionsAreAhead(s, limit, RequestStep(j));
    NodeParts(s, limit, j);
    var t := RequestNext(s, j);
    RequestNodeInv(s.nodes[j], s.writer);
    ReplaceNode(s, limit, j, RequestAtNode(s.nodes[j]), t.writer, "");
    assert t == SetNode(s, j, RequestAtNode(s.nodes[j])).(writer := t.writer, out := s.out + "");
  }

  lemma FetchedNodeInv(nd: Node, nd': Node, w: WriterPc)
    requires NodeInv(nd) && nd.qpc.QFetch? && nd'.owner == nd.owner
    requires (nd'.qpc.QSignal? && AnswerInv(nd')) || (nd'.qpc.QFailUnlock? && nd'.mon == nd.mon)
    requires nd'.mon == nd.mon || nd'.mon == M.Start(nd'.mon.contentLen, nd'.mon.wire)
    ensures NodeInv(nd') && (Ahead(nd) ==> Ahead(nd'))
    ensures FrontInv(w, nd) ==> FrontInv(w, nd') && Partial(w, nd') == Partial(w, nd) + ""
  {
  }

  lemma FetchInv(s: Relay, limit: nat, a: Action)
    requires Control(s, limit) && Enabled(s, limit, a) && (a.Fetched? || a.FetchFailed?)
    ensures Control(Apply(s, limit, a), limit)
  {
    hide Control, NodeInv, FrontInv, Ahead, Partial;
    RequestActionsAreAhead(s, limit, a);
    NodeParts(s, limit, a.j);
    var t := Apply(s, limit, a);
    FetchedNodeInv(s.nodes[a.j], t.nodes[a.j], s.writer);
    ReplaceNode(s, limit, a.j, t.nodes[a.j], s.writer, "");
    assert t == SetNode(s, a.j, t.nodes[a.j]).(writer := s.writer, out := s.out + "");
  }

  lemma ProducerKeepsConsumer(m: M.Monitor, mv: M.Move)
    requires M.Enabled(m, mv) && M.ProducerMove(mv)
    ensures M.Apply(m, mv).client == m.client
    ensures m.cpc.CLock? ==> M.Apply(m, mv).cpc.CLock?
    ensures M.Apply(m, mv).contentLen == m.contentLen && M.Apply(m, mv).wire == m.wire
  {
  }

  lemma BodyNodeInv(nd: Node, mv: M.Move, w: WriterPc)
    requires NodeInv(nd) && nd.qpc.QBody? && M.ProducerMove(mv) && M.Enabled(nd.mon, mv)
    ensures var nd' := nd.(mon := M.Apply(nd.mon, mv));
            && NodeInv(nd') && (Ahead(nd) ==> Ahead(nd'))
            && (FrontInv(w, nd) ==> FrontInv(w, nd') && Partial(w, nd') == Partial(w, nd) + "")
  {
    hide M.Apply, M.Enabled;
    ProducerKeepsConsumer(nd.mon, mv);
  }

  lemma BodyInv(s: Relay, limit: nat, j: nat, mv: M.Move)
    requires Control(s, limit) && Enabled(s, limit, Body(j, mv))
    ensures Control(Apply(s, limit, Body(j, mv)), limit)
  {
    hide Control, NodeInv, FrontInv, Ahead, Partial, M.Apply, M.Enabled;
    RequestActionsAreAhead(s, limit, Body(j, mv));
    NodeParts(s, limit, j);
    var nd' := s.nodes[j].(mon := M.Apply(s.nodes[j].mon, mv));
    BodyNodeInv(s.nodes[j], mv, s.writer);
    ReplaceNode(s, limit, j, nd', s.writer, "");
    assert Apply(s, limit, Body(j, mv)) == SetNode(s, j, nd').(writer := s.writer, out := s.out + "");
  }

  lemma {:induction false} DeliveredSame(ns: seq<Node>, ns': seq<Node>)
    requires |ns| == |ns'| && forall k :: 0 <= k < |ns| ==> Got(ns'[k]) == Got(ns[k])
    ensures Delivered(ns') == Delivered(ns)
  {
    if ns != [] {
      DeliveredSame(ns[..|ns| - 1], ns'[..|ns| - 1]);
    }
  }

  lemma EndedNodeInv(nd: Node, w: WriterPc)
    requires NodeInv(nd) && nd.qpc.QBody? && (BodyReturned(nd.mon) || nd.mon.ppc.PError?)
    ensures var nd' := nd.(qpc := QEnded);
            && NodeInv(nd') && (Ahead(nd) ==> Ahead(nd')) && (Behind(nd) ==> Behind(nd')) && Got(nd') == Got(nd)
            && (FrontInv(w, nd) ==> FrontInv(w, nd') && Partial(w, nd') == Partial(w, nd) + "")
  {
    hide R.HeaderSent, R.Announced, R.BodyWire;
  }

  /** The last action of a request thread, which may come long after the node has been dequeued. */
  lemma EndInv(s: Relay, limit: nat, j: nat)
    requires Control(s, limit) && j < |s.nodes| && s.nodes[j].qpc.QBody?
    requires BodyReturned(s.nodes[j].mon) || s.nodes[j].mon.ppc.PError?
    ensures Control(SetNode(s, j, s.nodes[j].(qpc := QEnded)), limit)
  {
    hide NodeInv, FrontInv, Ahead, Behind, Partial, Delivered, Got, HeaderOf;
    var nd' := s.nodes[j].(qpc := QEnded);
    EndedNodeInv(s.nodes[j], s.writer);
    if j < s.popped {
      var t := SetNode(s, j, nd');
      DeliveredSame(s.nodes[..s.popped], t.nodes[..s.popped]);
    } else {
      ReplaceNode(s, limit, j, nd', s.writer, "");
      assert SetNode(s, j, nd') == SetNode(s, j, nd').(writer := s.writer, out := s.out + "");
    }
  }

  lemma NewNodeInv()
    ensures NodeInv(NewNode()) && Ahead(NewNode()) && FrontInv(WFront, NewNode()) && FrontInv(WDestroy, NewNode())
    ensures Partial(WFront, NewNode()) == "" == Partial(WDestroy, NewNode()) && NewNode().qpc.QNone?
  {
  }

  lemma EnqueueInv(s: Relay, limit: nat)
    requires Control(s, limit) && Enabled(s, limit, Enqueue)
    ensures Control(Apply(s, limit, Enqueue), limit)
  {
    hide NodeInv, FrontInv, Ahead, Behind, Partial, Delivered, Got, HeaderOf, NewNode;
    NewNodeInv();
    var t := Apply(s, limit, Enqueue);
    assert t.nodes[..t.popped] == s.nodes[..s.popped];
  }

  lemma SpawnedNodeInv(nd: Node, w: WriterPc)
    requires NodeInv(nd) && nd.qpc.QNone?
    ensures var nd' := nd.(qpc := QLock);
            && NodeInv(nd') && !Behind(nd) && (Ahead(nd) ==> Ahead(nd'))
            && (FrontInv(w, nd) ==> FrontInv(w, nd')) && Partial(w, nd') == Partial(w, nd)
  {
  }

  lemma SpawnInv(s: Relay, limit: nat)
    requires Control(s, limit) && Enabled(s, limit, Spawned)
    ensures s.popped < |s.nodes| && s.nodes[|s.nodes| - 1].qpc.QNone?
    ensures Control(Apply(s, limit, Spawned), limit)
  {
    hide NodeInv, FrontInv, Ahead, Behind, Partial, Delivered, Got, HeaderOf;
    var last := |s.nodes| - 1;
    SpawnedNodeInv(s.nodes[last], s.writer);
    var t := Apply(s, limit, Spawned);
    assert t.nodes[..t.popped] == s.nodes[..s.popped];
  }

  lemma ReaderActionInv(s: Relay, limit: nat, a: Action)
    requires Control(s, limit) && Enabled(s, limit, a)
    requires a.Enqueue? || a.Received? || a.ReceiveFailed? || a.Spawned?
    ensures Control(Apply(s, limit, a), limit)
  {
    hide NodeInv, FrontInv, Ahead, Behind, Partial, Delivered, Got, HeaderOf;
    match a
    case Enqueue => EnqueueInv(s, limit);
    case Spawned => SpawnInv(s, limit);
    case _ =>
  }

  /** Leaving a node behind: the next one has not been touched by the writer. */
  lemma PopNodeInv(nd: Node)
    requires NodeInv(nd) && FrontInv(WBody, nd) && nd.mon.cpc.CDone? && nd.mon.ppc.PDone?
    ensures Behind(nd) && Partial(WBody, nd) == Got(nd)
  {
  }

  lemma NextFrontInv(nd: Node)
    requires Ahead(nd)
    ensures FrontInv(WDestroy, nd) && Partial(WDestroy, nd) == ""
  {
  }

  lemma PopInv(s: Relay, limit: nat)
    requires Control(s, limit) && Pops(s) && s.nodes[s.popped].mon.ppc.PDone?
    ensures Control(WriterNext(s), limit)
  {
    hide NodeInv, FrontInv, Ahead, Behind, Partial, Got, HeaderOf;
    var t, nd := WriterNext(s), s.nodes[s.popped];
    PopNodeInv(nd);
    if t.popped < |s.nodes| {
      NextFrontInv(s.nodes[t.popped]);
    }
    assert t.nodes[..t.popped][..s.popped] == s.nodes[..s.popped];
    assert Delivered(t.nodes[..t.popped]) == Delivered(s.nodes[..s.popped]) + Got(nd);
  }

  lemma DestroyInv(s: Relay, limit: nat)
    requires Control(s, limit) && s.writer.WDestroy?
    ensures Control(WriterNext(s), limit)
  {
    hide NodeInv, Ahead, Behind, Got, HeaderOf, Delivered;
  }

  lemma WriterAtNodeInv(w: WriterPc, nd: Node)
    requires FrontInv(w, nd) && NodeInv(nd) && !w.WDestroy?
    requires w.WLock? || w.WRelock? ==> nd.owner == Free
    requires w.WHeader? ==> w.sent >= |HeaderOf(nd)|
    ensures var (w', nd') := WriterAtNode(w, nd);
            && FrontInv(w', nd') && NodeInv(nd') && Partial(w', nd') == Partial(w, nd) + ""
            && nd'.qpc == nd.qpc && !w'.WDestroy?
  {
  }

  lemma HeaderIs(nd: Node)
    ensures nd.header.Some? ==> HeaderOf(nd) == nd.header.value
  {
  }

  lemma WriterStepInv(s: Relay, limit: nat)
    requires Control(s, limit) && Enabled(s, limit, WriterStep)
    requires Pops(s) ==> s.nodes[s.popped].mon.ppc.PDone?
    ensures Control(WriterNext(s), limit)
  {
    hide Control, NodeInv, FrontInv, Ahead, Partial, WriterAtNode, HeaderOf;
    if Pops(s) {
      PopInv(s, limit);
    } else if s.writer.WDestroy? {
      DestroyInv(s, limit);
    } else {
      NodeParts(s, limit, s.popped);
      HeaderIs(s.nodes[s.popped]);
      WriterAtNodeInv(s.writer, s.nodes[s.popped]);
      var (w, nd) := WriterAtNode(s.writer, s.nodes[s.popped]);
      ReplaceNode(s, limit, s.popped, nd, w, "");
      assert WriterNext(s) == SetNode(s, s.popped, nd).(writer := w, out := s.out + "");
    }
  }

  lemma WriterWriteInv(s: Relay, limit: nat, n: nat)
    requires Control(s, limit) && Enabled(s, limit, WriterWrite(n))
    ensures Control(Apply(s, limit, WriterWrite(n)), limit)
  {
    hide Control, FrontInv, NodeInv, Ahead, Partial;
    var nd, sent := s.nodes[s.popped], s.writer.sent;
    var h := nd.header.value;
    NodeParts(s, limit, s.popped);
    HeaderNodeInv(nd, sent, n);
    ReplaceNode(s, limit, s.popped, nd, WHeader(sent + n), h[sent..sent + n]);
    assert Apply(s, limit, WriterWrite(n))
        == SetNode(s, s.popped, nd).(writer := WHeader(sent + n), out := s.out + h[sent..sent + n]);
  }

  lemma HeaderNodeInv(nd: Node, sent: nat, n: nat)
    requires FrontInv(WHeader(sent), nd) && nd.header.Some? && sent + n <= |nd.header.value|
    ensures FrontInv(WHeader(sent + n), nd)
    ensures Partial(WHeader(sent + n), nd) == Partial(WHeader(sent), nd) + nd.header.value[sent..sent + n]
  {
    var h := nd.header.value;
    assert h[..sent] + h[sent..sent + n] == h[..sent + n];
  }

  lemma ConsumerKeepsProducerStart(m: M.Monitor, mv: M.Move)
    requires M.Enabled(m, mv) && !M.ProducerMove(mv)
    ensures M.Apply(m, mv).client == m.client + Written(m, mv)
    ensures m.ppc.PStart? ==> M.Apply(m, mv).ppc.PStart?
    ensures BodyReturned(m) || m.ppc.PError? ==> M.Apply(m, mv).ppc == m.ppc
    ensures M.Apply(m, mv).contentLen == m.contentLen && M.Apply(m, mv).wire == m.wire
  {
  }

  lemma WriterBodyInv(s: Relay, limit: nat, mv: M.Move)
    requires Control(s, limit) && Enabled(s, limit, WriterBody(mv))
    ensures Control(Apply(s, limit, WriterBody(mv)), limit)
  {
    hide Control, FrontInv, NodeInv, Ahead, Partial, M.Apply, M.Enabled, Written;
    var nd, extra := s.nodes[s.popped], Written(s.nodes[s.popped].mon, mv);
    var nd' := nd.(mon := M.Apply(nd.mon, mv));
    NodeParts(s, limit, s.popped);
    WriterBodyNodeInv(nd, mv);
    ReplaceNode(s, limit, s.popped, nd', WBody, extra);
    assert Apply(s, limit, WriterBody(mv)) == SetNode(s, s.popped, nd').(writer := WBody, out := s.out + extra);
  }

  lemma WriterBodyNodeInv(nd: Node, mv: M.Move)
    requires NodeInv(nd) && FrontInv(WBody, nd) && !M.ProducerMove(mv) && M.Enabled(nd.mon, mv)
    ensures var nd' := nd.(mon := M.Apply(nd.mon, mv));
            NodeInv(nd') && FrontInv(WBody, nd') && Partial(WBody, nd') == Partial(WBody, nd) + Written(nd.mon, mv)
  {
    hide M.Apply, M.Enabled, Written;
    ConsumerKeepsProducerStart(nd.mon, mv);
    assert HeaderOf(nd) + (nd.mon.client + Written(nd.mon, mv)) == (HeaderOf(nd) + nd.mon.client) + Written(nd.mon, mv);
  }

  /** A failed header write, or a wake-up without a signal. */
  lemma WriterSelfInv(s: Relay, limit: nat, a: Action)
    requires Control(s, limit) && Enabled(s, limit, a) && (a.WriterError? || a.WriterSpurious?)
    ensures Control(Apply(s, limit, a), limit)
  {
    hide Control, FrontInv, NodeInv, Ahead, Partial;
    WriterHasNode(s, limit);
    NodeParts(s, limit, s.popped);
    var nd := s.nodes[s.popped];
    var w := if a.WriterError? then WFailUnlock(s.writer.sent) else WRelock;
    WriterSelfNodeInv(s.writer, nd, w);
    ReplaceNode(s, limit, s.popped, nd, w, "");
    assert s.nodes[s.popped := nd] == s.nodes;
    assert Apply(s, limit, a) == SetNode(s, s.popped, nd).(writer := w, out := s.out + "");
  }

  lemma WriterHasNode(s: Relay, limit: nat)
    requires Control(s, limit) && !s.writer.WFront? && !s.writer.WDestroy?
    ensures HasFront(s)
  {
    hide NodeInv, FrontInv, Ahead, Behind;
  }

  lemma WriterSelfNodeInv(w: WriterPc, nd: Node, w': WriterPc)
    requires FrontInv(w, nd) && ((w.WHeader? && w' == WFailUnlock(w.sent)) || (w.WWait? && w' == WRelock))
    ensures FrontInv(w', nd) && Partial(w', nd) == Partial(w, nd) + ""
  {
  }

  lemma ControlKept(s: Relay, limit: nat, a: Action)
    requires Control(s, limit) && Enabled(s, limit, a)
    requires Pops(s) ==> s.nodes[s.popped].mon.ppc.PDone?
    ensures Control(Apply(s, limit, a), limit)
  {
    hide Control;
    match a
    case Enqueue | Received | ReceiveFailed | Spawned => ReaderActionInv(s, limit, a);
    case RequestStep(j) => RequestStepInv(s, limit, j);
    case Fetched(_, _) | FetchFailed(_, _) => FetchInv(s, limit, a);
    case Body(j, mv) => BodyInv(s, limit, j, mv);
    case BodyFailed(j) => EndInv(s, limit, j);
    case Closed(j) => EndInv(s, limit, j);
    case CloseFailed(j) => EndInv(s, limit, j);
    case WriterStep => WriterStepInv(s, limit);
    case WriterWrite(n) => WriterWriteInv(s, limit, n);
    case WriterBody(mv) => WriterBodyInv(s, limit, mv);
    case WriterError | WriterSpurious => WriterSelfInv(s, limit, a);
  }

  /** Replacing at most one monitor, by one that satisfies the monitor invariant. */
  lemma OneMonitor(ns: seq<Node>, ns': seq<Node>, j: nat)
    requires |ns| <= |ns'|
    requires forall k :: 0 <= k < |ns'| && k != j ==> k < |ns| && ns'[k].mon == ns[k].mon
    requires forall k :: 0 <= k < |ns| ==> M.Inv(ns[k].mon)
    requires j < |ns'| ==> M.Inv(ns'[j].mon)
    ensures forall k :: 0 <= k < |ns'| ==> M.Inv(ns'[k].mon)
  {
  }

  /** The node whose monitor an action changes; any index past the end when it changes none. */
  function Touches(s: Relay, a: Action): nat {
    match a
    case Fetched(j, _) => j
    case Body(j, _) => j
    case WriterBody(_) => s.popped
    case _ => |s.nodes|
  }

  lemma TouchesOnly(s: Relay, limit: nat, a: Action)
    requires Enabled(s, limit, a)
    ensures |s.nodes| <= |Apply(s, limit, a).nodes|
    ensures forall k :: 0 <= k < |Apply(s, limit, a).nodes| && k != Touches(s, a) ==>
              k < |s.nodes| && Apply(s, limit, a).nodes[k].mon == s.nodes[k].mon
  {
  }

  lemma TouchedMonitor(s: Relay, limit: nat, a: Action)
    requires MonitorsInv(s) && Enabled(s, limit, a) && Touches(s, a) < |Apply(s, limit, a).nodes|
    ensures M.Inv(Apply(s, limit, a).nodes[Touches(s, a)].mon)
  {
    match a
    case Enqueue => M.StartInv(-1, "");
    case Fetched(_, stream) => M.StartInv(R.Announced(stream), R.BodyWire(stream));
    case Body(j, mv) => M.MoveInv(s.nodes[j].mon, mv);
    case WriterBody(mv) => M.MoveInv(s.nodes[s.popped].mon, mv);
    case _ =>
  }

  lemma MonitorsKept(s: Relay, limit: nat, a: Action)
    requires MonitorsInv(s) && Enabled(s, limit, a)
    ensures MonitorsInv(Apply(s, limit, a))
  {
    hide M.Inv;
    TouchesOnly(s, limit, a);
    if Touches(s, a) < |Apply(s, limit, a).nodes| {
      TouchedMonitor(s, limit, a);
    }
    OneMonitor(s.nodes, Apply(s, limit, a).nodes, Touches(s, a));
  }

  /** Every action of every thread keeps the invariant. */
  lemma ActionInv(s: Relay, limit: nat, a: Action)
    requires Inv(s, limit) && Enabled(s, limit, a)
    ensures Inv(Apply(s, limit, a), limit)
  {
    hide Apply, Control, M.Inv;
    MonitorsKept(s, limit, a);
    if Pops(s) {
      M.ProducerIsGone(s.nodes[s.popped].mon, M.PStep);
    }
    ControlKept(s, limit, a);
  }

  // ------------------------------------------------------------------ whole runs

  predicate Legal(s: Relay, limit: nat, acts: seq<Action>)
    decreases |acts|
  {
    acts == [] || (Enabled(s, limit, acts[0]) && Legal(Apply(s, limit, acts[0]), limit, acts[1..]))
  }

  function After(s: Relay, limit: nat, acts: seq<Action>): Relay
    requires Legal(s, limit, acts)
    decreases |acts|
  {
    if acts == [] then s else After(Apply(s, limit, acts[0]), limit, acts[1..])
  }

  lemma {:induction false} RunInv(s: Relay, limit: nat, acts: seq<Action>)
    requires Inv(s, limit) && Legal(s, limit, acts)
    ensures Inv(After(s, limit, acts), limit)
    decreases |acts|
  {
    hide Apply, Inv;
    if acts != [] {
      ActionInv(s, limit, acts[0]);
      RunInv(Apply(s, limit, acts[0]), limit, acts[1..]);
    }
  }

  lemma ReachableInv(client: string, limit: nat, acts: seq<Action>)
    requires Legal(Init(client), limit, acts)
    ensures Inv(After(Init(client), limit, acts), limit)
  {
    InitInv(client, limit);
    hide Apply, Inv;
    RunInv(Init(client), limit, acts);
  }

  /** The body the client is owed: the announced part of what the backend delivers. */
  function BodyOf(m: M.Monitor): string { M.Owed(m.contentLen, m.wire) }

  /** The whole response of a node. */
  function Full(nd: Node): string { HeaderOf(nd) + BodyOf(nd.mon) }

  /** All responses in request order. */
  function Stream(ns: seq<Node>): string {
    if ns == [] then "" else Stream(ns[..|ns| - 1]) + Full(ns[|ns| - 1])
  }

  lemma GotIsPrefix(nd: Node)
    requires M.Inv(nd.mon)
    ensures nd.mon.client <= BodyOf(nd.mon) && Got(nd) <= Full(nd)
    ensures nd.mon.cpc.CDone? ==> Got(nd) == Full(nd)
  {
  }

  lemma {:induction false} DeliveredIsStream(ns: seq<Node>)
    requires forall j :: 0 <= j < |ns| ==> M.Inv(ns[j].mon) && Behind(ns[j])
    ensures Delivered(ns) == Stream(ns)
  {
    if ns != [] {
      GotIsPrefix(ns[|ns| - 1]);
      hide M.Inv;
      DeliveredIsStream(ns[..|ns| - 1]);
    }
  }

  lemma {:induction false} StreamPrefix(ns: seq<Node>, k: nat)
    requires k <= |ns|
    ensures Stream(ns[..k]) <= Stream(ns)
    ensures k < |ns| ==> Stream(ns[..k]) + Full(ns[k]) <= Stream(ns)
    decreases |ns|
  {
    if k < |ns| {
      var init := ns[..|ns| - 1];
      if k < |init| {
        StreamPrefix(init, k);
        assert init[..k] == ns[..k];
      } else {
        assert init == ns[..k];
      }
    } else {
      assert ns[..k] == ns;
    }
  }

  lemma PartialIsPrefix(w: WriterPc, nd: Node)
    requires M.Inv(nd.mon)
    ensures Partial(w, nd) <= Full(nd)
  {
    GotIsPrefix(nd);
  }

  /** In-order delivery, as one equation: the client has received exactly the complete responses of the
      dequeued requests, in request order, followed by a prefix of the head's response. */
  lemma OutShape(s: Relay, limit: nat)
    requires Inv(s, limit)
    ensures s.out == Stream(s.nodes[..s.popped]) + (if HasFront(s) then Partial(s.writer, s.nodes[s.popped]) else "")
    ensures s.out <= Stream(s.nodes)
  {
    hide M.Inv, NodeInv, FrontInv, Ahead, ReaderInv, Partial, Full, Stream, Delivered;
    var done := s.nodes[..s.popped];
    assert forall j :: 0 <= j < |done| ==> done[j] == s.nodes[j];
    DeliveredIsStream(done);
    StreamPrefix(s.nodes, s.popped);
    if HasFront(s) {
      PartialIsPrefix(s.writer, s.nodes[s.popped]);
      PrefixJoins(Stream(done), Partial(s.writer, s.nodes[s.popped]), Full(s.nodes[s.popped]), Stream(s.nodes));
    }
  }

  lemma PrefixJoins(a: string, b: string, c: string, whole: string)
    requires b <= c && a + c <= whole
    ensures a + b <= whole
  {
    assert (a + c)[..|a + b|] == a + b;
  }

  /** For every interleaving of the reader, the request threads and the writer, and any order in which the
      backends answer, the bytes at the client are the responses in request order, cut somewhere. */
  lemma InOrder(client: string, limit: nat, acts: seq<Action>)
    requires Legal(Init(client), limit, acts)
    ensures var s := After(Init(client), limit, acts);
            && s.popped <= |s.nodes| <= limit + 1
            && s.out == Stream(s.nodes[..s.popped]) + (if HasFront(s) then Partial(s.writer, s.nodes[s.popped]) else "")
            && (HasFront(s) ==> Partial(s.writer, s.nodes[s.popped]) <= Full(s.nodes[s.popped]))
            && s.out <= Stream(s.nodes)
            && (s.reader.RTop? ==> (Enabled(s, limit, Enqueue) <==> |s.nodes| <= limit))
  {
    ReachableInv(client, limit, acts);
    var s := After(Init(client), limit, acts);
    OutShape(s, limit);
    if HasFront(s) {
      PartialIsPrefix(s.writer, s.nodes[s.popped]);
    }
    if s.reader.RTop? {
      ReaderWaitsIff(s, limit);
    }
  }

  /** The reader at the top of its loop takes another request exactly when it has taken at most `limit` so far. */
  lemma ReaderWaitsIff(s: Relay, limit: nat)
    requires Control(s, limit) && s.reader.RTop?
    ensures Enabled(s, limit, Enqueue) <==> |s.nodes| <= limit
  {
    hide QueueInv, OutInv;
  }

  /** An answer with a length that is positive and delivered. */
  predicate Passes(stream: string) { 0 < R.Announced(stream) <= |R.BodyWire(stream)| }

  /** Head-of-line blocking: the writer only ever gets past a request whose answer has been accepted, with a body of
      positive announced length that the backend delivers.  A failed request, a missing or zero Content-Length or
      a short body keeps every later response from the client for ever. */
  lemma OnlyFullBodiesPass(client: string, limit: nat, acts: seq<Action>, j: nat)
    requires Legal(Init(client), limit, acts) && j < After(Init(client), limit, acts).popped
    ensures var s := After(Init(client), limit, acts);
            && j < |s.nodes| && Fetching(s.nodes[j]) && s.nodes[j].header == Some(R.HeaderSent(s.nodes[j].stream))
            && R.Answerable(s.nodes[j].stream) && Passes(s.nodes[j].stream)
  {
    hide Apply, Enabled;
    ReachableInv(client, limit, acts);
    DequeuedPasses(After(Init(client), limit, acts), limit, j);
  }

  lemma DequeuedPasses(s: Relay, limit: nat, j: nat)
    requires Inv(s, limit) && j < s.popped
    ensures j < |s.nodes| && Fetching(s.nodes[j]) && AnswerInv(s.nodes[j]) && Passes(s.nodes[j].stream)
  {
    hide FrontInv, Ahead, OutInv, ReaderInv, R.Announced, R.BodyWire, R.HeaderSent, R.Answerable;
    assert Behind(s.nodes[j]) && NodeInv(s.nodes[j]) && M.Inv(s.nodes[j].mon);
  }

  /** An answer without a Content-Length: no byte of its body is ever read, its node is never dequeued, and the client
      gets its header at most. */
  lemma NoLengthNoBody(client: string, limit: nat, acts: seq<Action>, j: nat)
    requires Legal(Init(client), limit, acts)
    requires var s := After(Init(client), limit, acts);
             j < |s.nodes| && Fetching(s.nodes[j]) && R.Announced(s.nodes[j].stream) == -1
    ensures var s := After(Init(client), limit, acts);
            && s.popped <= j && s.nodes[j].mon.received == 0 && s.nodes[j].mon.client == ""
            && (j == s.popped ==>
                  && Partial(s.writer, s.nodes[j]) <= R.HeaderSent(s.nodes[j].stream)
                  && s.out == Stream(s.nodes[..j]) + Partial(s.writer, s.nodes[j]))
  {
    hide Apply, Enabled, FrontInv, Ahead, Behind, OutInv, ReaderInv, R.Announced, R.BodyWire, R.HeaderSent, M.Inv;
    hide R.Answerable, Stream, Passes;
    ReachableInv(client, limit, acts);
    var s := After(Init(client), limit, acts);
    NeverPasses(s.nodes[j].stream);
    if j < s.popped {
      DequeuedPasses(s, limit, j);
    }
    assert NodeInv(s.nodes[j]);
    NothingOwed(s.nodes[j].mon);
    OutShape(s, limit);
    PartialIsPrefix(s.writer, s.nodes[j]);
    assert HeaderOf(s.nodes[j]) + "" == HeaderOf(s.nodes[j]);
  }

  lemma NeverPasses(stream: string)
    requires R.Announced(stream) == -1
    ensures !Passes(stream)
  {
  }

  lemma NothingOwed(m: M.Monitor)
    requires M.Inv(m) && m.contentLen == -1
    ensures m.received == 0 && m.client == "" && M.Owed(m.contentLen, m.wire) == ""
  {
    M.ReceivedIsOwed(m);
  }

  /** So it is with every backend that answers by a header without that line, whatever the bytes behind it. */
  lemma LengthlessBlocks(client: string, limit: nat, acts: seq<Action>, j: nat, m: R.H.Message, body: string)
    requires Legal(Init(client), limit, acts) && R.Lengthless(m)
    requires var s := After(Init(client), limit, acts);
             j < |s.nodes| && Fetching(s.nodes[j]) && s.nodes[j].stream == R.H.Render(m) + body
    ensures var s := After(Init(client), limit, acts);
            && s.popped <= j && s.nodes[j].mon.client == ""
            && (j == s.popped ==>
                  && Partial(s.writer, s.nodes[j]) <= R.H.Render(m)
                  && s.out == Stream(s.nodes[..j]) + Partial(s.writer, s.nodes[j]))
  {
    hide Apply, Enabled, Partial, Stream, R.Lengthless, R.Announced, R.BodyWire, R.Answerable, R.Answer, R.H.Render;
    R.LengthlessAnswer(m, body);
    NoLengthNoBody(client, limit, acts, j);
  }

  lemma OutGrows(s: Relay, limit: nat, a: Action)
    requires Enabled(s, limit, a)
    ensures s.out <= Apply(s, limit, a).out
    ensures |s.nodes| <= |Apply(s, limit, a).nodes|
  {
  }

  lemma ResponseFixed(s: Relay, limit: nat, a: Action, j: nat)
    requires Control(s, limit) && Enabled(s, limit, a) && j < |s.nodes| && s.nodes[j].header.Some?
    ensures j < |Apply(s, limit, a).nodes|
    ensures Apply(s, limit, a).nodes[j].header == s.nodes[j].header
    ensures Full(Apply(s, limit, a).nodes[j]) == Full(s.nodes[j])
  {
    hide M.Apply, M.Enabled, Control, RequestAtNode, WriterAtNode, Written;
    match a
    case Body(_, mv) =>
      if a.j == j {
        ProducerKeepsConsumer(s.nodes[j].mon, mv);
      }
    case WriterBody(mv) =>
      if s.popped == j {
        ConsumerKeepsProducerStart(s.nodes[j].mon, mv);
      }
    case Fetched(_, _) => HeaderIsFetchedOnce(s, limit, j);
    case FetchFailed(_, _) => HeaderIsFetchedOnce(s, limit, j);
    case RequestStep(_) => StepKeepsResponse(s.nodes[j], WFront);
    case WriterStep => if !s.writer.WDestroy? { StepKeepsResponse(s.nodes[j], s.writer); }
    case _ =>
  }

  lemma HeaderIsFetchedOnce(s: Relay, limit: nat, j: nat)
    requires Control(s, limit) && j < |s.nodes| && s.nodes[j].header.Some?
    ensures !s.nodes[j].qpc.QFetch?
  {
    hide FrontInv, Ahead, Behind;
  }

  lemma StepKeepsResponse(nd: Node, w: WriterPc)
    requires !w.WDestroy?
    ensures RequestAtNode(nd).header == nd.header && RequestAtNode(nd).mon == nd.mon
    ensures WriterAtNode(w, nd).1.header == nd.header && WriterAtNode(w, nd).1.mon == nd.mon
  {
  }

  /** Bytes are never taken back, and once a response header has arrived for the j-th request its response
      never changes: what the client has now is a prefix of the responses as they stand at any later time. */
  lemma {:induction false} InOrderForEver(s: Relay, limit: nat, acts: seq<Action>)
    requires Inv(s, limit) && Legal(s, limit, acts)
    ensures var t := After(s, limit, acts);
            && |s.nodes| <= |t.nodes|
            && s.out <= t.out <= Stream(t.nodes)
            && (forall j :: 0 <= j < |s.nodes| && s.nodes[j].header.Some? ==> Full(t.nodes[j]) == Full(s.nodes[j]))
    decreases |acts|
  {
    hide Apply, Inv, Enabled;
    if acts == [] {
      OutShape(s, limit);
    } else {
      var u := Apply(s, limit, acts[0]);
      ActionInv(s, limit, acts[0]);
      OutGrows(s, limit, acts[0]);
      forall j | 0 <= j < |s.nodes| && s.nodes[j].header.Some?
        ensures u.nodes[j].header.Some? && Full(u.nodes[j]) == Full(s.nodes[j])
      {
        assert Control(s, limit) by { InvControl(s, limit); }
        ResponseFixed(s, limit, acts[0], j);
      }
      InOrderForEver(u, limit, acts[1..]);
    }
  }

  lemma InvControl(s: Relay, limit: nat)
    requires Inv(s, limit)
    ensures Control(s, limit) && MonitorsInv(s)
  {
  }

  /** The node whose memory an action reads or writes. */
  predicate Uses(s: Relay, a: Action, j: nat) {
    match a
    case Enqueue => HasFront(s) && j + 1 == |s.nodes|   // the new node is linked to the last one
    case Received | ReceiveFailed | Spawned => j + 1 == |s.nodes|
    case RequestStep(i) => i == j
    case Fetched(i, _) => i == j
    case FetchFailed(i, _) => i == j
    case Body(i, _) => i == j
    case BodyFailed(i) => i == j
    case Closed(_) => false
    case CloseFailed(i) => i == j
    case WriterStep =>
      if s.writer.WDestroy? then j + 1 == s.popped
      else j == s.popped || (Pops(s) && j == s.popped + 1 < |s.nodes|)   // the second node becomes the first
    case WriterWrite(_) | WriterError | WriterSpurious | WriterBody(_) => j == s.popped
  }

  /** Freed nodes: all dequeued ones, but for the one that the writer is about to free. */
  predicate Freed(s: Relay, j: nat) { j < s.popped && !(s.writer.WDestroy? && j + 1 == s.popped) }

  /** Node lifetime: no thread touches a node that has been freed, but for a request thread whose close_connection fails
      after the writer has freed its node; and when the writer frees a node its request thread has left
      receive_http_chunks. */
  lemma NoUseAfterFree(client: string, limit: nat, acts: seq<Action>, a: Action, j: nat)
    requires Legal(Init(client), limit, acts)
    requires Enabled(After(Init(client), limit, acts), limit, a) && Uses(After(Init(client), limit, acts), a, j)
    ensures var s := After(Init(client), limit, acts);
            && (Freed(s, j) ==> a == CloseFailed(j))
            && (a.WriterStep? && s.writer.WDestroy? ==> j < |s.nodes| && s.nodes[j].mon.ppc.PDone?)
  {
    hide Apply, M.Inv, R.Answerable;
    ReachableInv(client, limit, acts);
    var s := After(Init(client), limit, acts);
    if a.RequestStep? || a.Fetched? || a.FetchFailed? || a.Body? || a.BodyFailed? {
      RequestActionsAreAhead(s, limit, a);
    }
    assert s.popped > 0 ==> Behind(s.nodes[s.popped - 1]);
  }

  /** The exception stays possible exactly as long as the request thread of the freed node has not come back from
      close_connection. */
  lemma FreedUseIff(client: string, limit: nat, acts: seq<Action>, j: nat)
    requires Legal(Init(client), limit, acts) && Freed(After(Init(client), limit, acts), j)
    ensures var s := After(Init(client), limit, acts);
            && j < |s.nodes|
            && ((exists a :: Enabled(s, limit, a) && Uses(s, a, j)) <==> s.nodes[j].qpc.QBody?)
            && (Enabled(s, limit, Closed(j)) <==> s.nodes[j].qpc.QBody?)
  {
    hide Apply, M.Inv;
    ReachableInv(client, limit, acts);
    var s := After(Init(client), limit, acts);
    assert Behind(s.nodes[j]);
    if s.nodes[j].qpc.QBody? {
      assert Enabled(s, limit, CloseFailed(j)) && Uses(s, CloseFailed(j), j);
    }
    forall a | Enabled(s, limit, a) && Uses(s, a, j)
      ensures s.nodes[j].qpc.QBody?
    {
      NoUseAfterFree(client, limit, acts, a, j);
    }
  }

  /** No lost wake-up at the header hand-off: the writer waits beside a received header only while the
      request thread is about to signal, or when that thread failed, which it does without a signal. */
  lemma NoLostHeaderWakeup(client: string, limit: nat, acts: seq<Action>)
    requires Legal(Init(client), limit, acts)
    ensures var s := After(Init(client), limit, acts);
            s.writer.WWait? && s.popped < |s.nodes| && s.nodes[s.popped].header.Some?
            ==> s.nodes[s.popped].qpc in {QSignal, QFailUnlock, QFailed}
  {
    hide Apply, M.Inv;
    ReachableInv(client, limit, acts);
  }

  /** What ends the wait of the writer: the signal of the head node's request thread, or a spurious wake-up; and nothing
      else does. */
  lemma WriterWakesIff(s: Relay, limit: nat, a: Action)
    requires s.writer.WWait? && HasFront(s) && Enabled(s, limit, a)
    ensures !Apply(s, limit, a).writer.WWait? <==>
            a == WriterSpurious || (a == RequestStep(s.popped) && s.nodes[s.popped].qpc.QSignal?)
  {
    hide M.Apply, M.Enabled, R.Answerable, R.Announced, R.BodyWire, R.HeaderSent, FetchedNode, RequestAtNode;
  }

  /** What backends and the client's side may do: a fetch brings any answer that is accepted, or fails with any part of
      a header stored; a close may fail once the body has been read; and a request may not come. */
  lemma BackendsAreFree(s: Relay, limit: nat, j: nat, stream: string, part: Option<string>)
    requires j < |s.nodes|
    ensures s.nodes[j].qpc.QFetch? ==>
              && (Enabled(s, limit, Fetched(j, stream)) <==> R.Answerable(stream))
              && Enabled(s, limit, FetchFailed(j, part))
              && Apply(s, limit, FetchFailed(j, part)).nodes[j].header == part
    ensures s.nodes[j].qpc.QBody? ==> (Enabled(s, limit, CloseFailed(j)) <==> s.nodes[j].mon.ppc in {M.PDone, M.PEof})
    ensures s.reader.RReceive? ==> Enabled(s, limit, ReceiveFailed)
  {
    hide R.Answerable, R.Announced, R.BodyWire, R.HeaderSent;
  }

  /** What the socket of the client and the scheduler may do to the writer: a write takes any number of bytes up to the
      rest of the header, or fails; and a waiting writer may wake at any time. */
  lemma WriterIsFree(s: Relay, limit: nat, n: nat)
    requires Control(s, limit) && n >= 1
    ensures s.writer.WHeader? ==>
              && HasFront(s) && Enabled(s, limit, WriterError)
              && (Enabled(s, limit, WriterWrite(n)) <==> s.writer.sent + n <= |HeaderOf(s.nodes[s.popped])|)
    ensures s.writer.WWait? ==> Enabled(s, limit, WriterSpurious)
  {
    hide NodeInv, Ahead, Behind, OutInv, ReaderInv;
  }

  // ------------------------------------------------------------------ what the backends sent

  function Streams(ns: seq<Node>): (ss: seq<string>)
    ensures |ss| == |ns| && forall j :: 0 <= j < |ns| ==> ss[j] == ns[j].stream
  {
    seq(|ns|, j requires 0 <= j < |ns| => ns[j].stream)
  }

  function Answers(streams: seq<string>): string {
    if streams == [] then "" else Answers(streams[..|streams| - 1]) + R.Answer(streams[|streams| - 1])
  }

  lemma FullIsAnswer(nd: Node)
    requires AnswerInv(nd)
    ensures Full(nd) == R.Answer(nd.stream)
  {
    hide R.HeaderSent, R.Announced, R.BodyWire, M.Owed;
  }

  lemma {:induction false} StreamIsAnswers(ns: seq<Node>)
    requires forall j :: 0 <= j < |ns| ==> AnswerInv(ns[j])
    ensures Stream(ns) == Answers(Streams(ns))
  {
    hide AnswerInv, Full, R.Answer;
    if ns != [] {
      var init := ns[..|ns| - 1];
      StreamIsAnswers(init);
      FullIsAnswer(ns[|ns| - 1]);
      assert Streams(ns)[..|ns| - 1] == Streams(init);
    }
  }

  /** In-order delivery in terms of what the backends sent: header and announced body of each dequeued request's answer,
      in request order, then a part of the next one. */
  lemma AnswersInOrder(client: string, limit: nat, acts: seq<Action>)
    requires Legal(Init(client), limit, acts)
    ensures var s := After(Init(client), limit, acts);
            && s.popped <= |s.nodes|
            && s.out == Answers(Streams(s.nodes[..s.popped]))
                        + (if HasFront(s) then Partial(s.writer, s.nodes[s.popped]) else "")
            && (HasFront(s) && Fetching(s.nodes[s.popped]) ==>
                  Partial(s.writer, s.nodes[s.popped]) <= R.Answer(s.nodes[s.popped].stream))
  {
    hide Apply, M.Inv, R.HeaderSent, R.Announced, R.BodyWire, M.Owed, Partial, FrontInv, Ahead, OutInv, ReaderInv;
    InOrder(client, limit, acts);
    ReachableInv(client, limit, acts);
    var s := After(Init(client), limit, acts);
    forall j | 0 <= j < s.popped
      ensures AnswerInv(s.nodes[j])
    {
      assert Behind(s.nodes[j]) && NodeInv(s.nodes[j]);
    }
    StreamIsAnswers(s.nodes[..s.popped]);
    if HasFront(s) {
      assert NodeInv(s.nodes[s.popped]);
    }
  }

  /** The streams of backends that each send one response with its body announced in full. */
  ghost predicate Sent(streams: seq<string>, ms: seq<R.H.Message>, bodies: seq<string>) {
    && |streams| == |ms| == |bodies|
    && forall j :: 0 <= j < |streams| ==>
         R.Announces(ms[j], |bodies[j]|) && streams[j] == R.H.Render(ms[j]) + bodies[j]
  }

  function Joined(streams: seq<string>): string {
    if streams == [] then "" else Joined(streams[..|streams| - 1]) + streams[|streams| - 1]
  }

  lemma {:induction false} AnswersAreStreams(streams: seq<string>, ms: seq<R.H.Message>, bodies: seq<string>)
    requires Sent(streams, ms, bodies)
    ensures Answers(streams) == Joined(streams)
  {
    hide R.Announces, R.Answer, R.Answerable;
    if streams != [] {
      var n := |streams| - 1;
      AnswersAreStreams(streams[..n], ms[..n], bodies[..n]);
      R.AnswerIsWhole(ms[n], bodies[n], "");
      assert bodies[n] + "" == bodies[n];
    }
  }

  /** The relay is transparent: when the backends of the dequeued requests have each sent one response with its length,
      the client has received those streams, byte for byte and in request order, and part of the next answer. */
  lemma Transparent(client: string, limit: nat, acts: seq<Action>, ms: seq<R.H.Message>, bodies: seq<string>)
    requires Legal(Init(client), limit, acts)
    requires var s := After(Init(client), limit, acts);
             s.popped <= |s.nodes| && Sent(Streams(s.nodes[..s.popped]), ms, bodies)
    ensures var s := After(Init(client), limit, acts);
            s.out == Joined(Streams(s.nodes[..s.popped]))
                     + (if HasFront(s) then Partial(s.writer, s.nodes[s.popped]) else "")
  {
    hide Partial, Sent, Answers, Joined;
    AnswersInOrder(client, limit, acts);
    var s := After(Init(client), limit, acts);
    AnswersAreStreams(Streams(s.nodes[..s.popped]), ms, bodies);
  }

  // ------------------------------------------------------------------ whose answers they are

  predicate OfReader(a: Action) { a.Enqueue? || a.Received? || a.ReceiveFailed? || a.Spawned? }

  /** The requests received are those of the client's stream, one for each node but the one that is being read. */
  predicate RequestsInv(s: Relay, client: string) {
    && s.requests + C.Received(s.incoming) == C.Received(client)
    && |s.requests| == |s.nodes| - (if s.reader.RReceive? || s.reader.RStopped? then 1 else 0)
    && (s.reader.RStopped? ==> s.nodes[|s.nodes| - 1].qpc.QNone?)
  }

  lemma ReceivedUnfolds(incoming: string)
    ensures C.Received(incoming)
         == if Requestable(incoming) then [RequestOf(incoming)] + C.Received(R.BodyWire(incoming)) else []
  {
    hide P.ReadFields, C.FrameEnd;
  }

  lemma ReaderKeepsRequests(s: Relay, limit: nat, a: Action, client: string)
    requires Control(s, limit) && RequestsInv(s, client) && Enabled(s, limit, a) && OfReader(a)
    ensures RequestsInv(Apply(s, limit, a), client)
  {
    hide C.Received, Requestable, RequestOf, R.BodyWire, NodeInv, FrontInv, Ahead, Behind, OutInv;
    if a.Received? {
      ReceivedUnfolds(s.incoming);
      var rest := C.Received(R.BodyWire(s.incoming));
      assert s.requests + ([RequestOf(s.incoming)] + rest) == (s.requests + [RequestOf(s.incoming)]) + rest;
    }
  }

  lemma OthersKeepRequests(s: Relay, limit: nat, a: Action, client: string)
    requires RequestsInv(s, client) && Enabled(s, limit, a) && !OfReader(a)
    ensures RequestsInv(Apply(s, limit, a), client)
  {
    hide C.Received, M.Apply, M.Enabled, R.Answerable, R.HeaderSent, R.Announced, R.BodyWire, Written;
  }

  lemma {:induction false} RequestsKept(s: Relay, limit: nat, acts: seq<Action>, client: string)
    requires Inv(s, limit) && RequestsInv(s, client) && Legal(s, limit, acts)
    ensures RequestsInv(After(s, limit, acts), client)
    decreases |acts|
  {
    hide Apply, Enabled, Inv, RequestsInv, OfReader;
    if acts != [] {
      InvControl(s, limit);
      ActionInv(s, limit, acts[0]);
      if OfReader(acts[0]) {
        ReaderKeepsRequests(s, limit, acts[0], client);
      } else {
        OthersKeepRequests(s, limit, acts[0], client);
      }
      RequestsKept(Apply(s, limit, acts[0]), limit, acts[1..], client);
    }
  }

  /** The j-th node carries the j-th request of the client's stream, and a dequeued node carries one; and a reader that
      has enqueued a node can read the next request as long as framer and parser have another one in that stream. */
  lemma RequestsAreTheClients(client: string, limit: nat, acts: seq<Action>)
    requires Legal(Init(client), limit, acts)
    ensures var s := After(Init(client), limit, acts);
            && s.popped <= |s.requests| && s.requests <= C.Received(client)
            && (s.reader.RReceive? ==> (Enabled(s, limit, Received) <==> |s.requests| < |C.Received(client)|))
  {
    hide Apply, Enabled, Inv, C.Received, Control;
    InitInv(client, limit);
    RequestsKept(Init(client), limit, acts, client);
    ReachableInv(client, limit, acts);
    var s := After(Init(client), limit, acts);
    DequeuedAreRead(s, limit);
    ReceivedUnfolds(s.incoming);
    if s.reader.RReceive? {
      ReceivesIff(s, limit);
    }
  }

  lemma ReceivesIff(s: Relay, limit: nat)
    requires s.reader.RReceive?
    ensures Enabled(s, limit, Received) <==> Requestable(s.incoming)
  {
  }

  lemma DequeuedAreRead(s: Relay, limit: nat)
    requires Inv(s, limit) && (s.reader.RStopped? ==> s.nodes != [] && s.nodes[|s.nodes| - 1].qpc.QNone?)
    ensures s.popped <= |s.nodes| - (if s.reader.RReceive? || s.reader.RStopped? then 1 else 0)
  {
    hide M.Inv, FrontInv, Ahead, OutInv;
    if s.popped > 0 {
      assert Behind(s.nodes[s.popped - 1]);
    }
  }

  /** What the backends answer to requests, in their order. */
  function AnswersTo(requests: seq<P.Fields>, answer: P.Fields -> string): (streams: seq<string>)
    ensures |streams| == |requests| && forall j :: 0 <= j < |requests| ==> streams[j] == answer(requests[j])
  {
    seq(|requests|, j requires 0 <= j < |requests| => answer(requests[j]))
  }

  /** In-order delivery from the client's bytes to the client's bytes: if the backends answer each request by `answer`,
      the client has received the answers to the first requests of its own stream, in its order, and part of the
      next. */
  lemma ClientGetsItsAnswers(client: string, limit: nat, acts: seq<Action>, answer: P.Fields -> string)
    requires Legal(Init(client), limit, acts)
    requires var s := After(Init(client), limit, acts);
             forall j :: 0 <= j < s.popped && j < |s.nodes| && j < |s.requests| ==>
                           s.nodes[j].stream == answer(s.requests[j])
    ensures var s := After(Init(client), limit, acts);
            && s.popped <= |C.Received(client)|
            && s.out == Answers(AnswersTo(C.Received(client)[..s.popped], answer))
                        + (if HasFront(s) then Partial(s.writer, s.nodes[s.popped]) else "")
  {
    hide Partial, Answers, C.Received, Legal, After, Init;
    AnswersInOrder(client, limit, acts);
    RequestsAreTheClients(client, limit, acts);
    var s := After(Init(client), limit, acts);
    assert Streams(s.nodes[..s.popped]) == AnswersTo(C.Received(client)[..s.popped], answer);
  }

  /** And for a client that pipelines rendered requests: the answers to what these mean. */
  lemma PipelineIsAnswered(ms: seq<R.H.Message>, limit: nat, acts: seq<Action>, answer: P.Fields -> string)
    requires C.AllValid(ms) && Legal(Init(C.Concat(C.Rendered(ms))), limit, acts)
    requires var s := After(Init(C.Concat(C.Rendered(ms))), limit, acts);
             forall j :: 0 <= j < s.popped && j < |s.nodes| && j < |s.requests| ==>
                           s.nodes[j].stream == answer(s.requests[j])
    ensures var s := After(Init(C.Concat(C.Rendered(ms))), limit, acts);
            && s.popped <= |C.Meanings(ms)|
            && s.out == Answers(AnswersTo(C.Meanings(ms)[..s.popped], answer))
                        + (if HasFront(s) then Partial(s.writer, s.nodes[s.popped]) else "")
  {
    hide Partial, Answers, C.Received, C.Meanings, C.Rendered, C.Concat, C.AllValid, Legal, After, Init;
    C.PipelinedStream(ms);
    ClientGetsItsAnswers(C.Concat(C.Rendered(ms)), limit, acts, answer);
  }
}
