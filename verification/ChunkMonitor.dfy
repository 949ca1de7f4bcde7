/** The one-slot chunk monitor that joins a request thread (`receive_http_chunks`, the producer) to the
    writer thread (`send_http_chunks`, the consumer): one mutex, one condition shared by both sides, one
    `wrote` flag, one buffer of MAX_CHUNK_SIZE bytes.

    The monitor is a transition system.  One move is one action of one thread: taking the mutex, testing
    `wrote`, a `read` that returns any allowed number of bytes, a `write` that accepts any number of bytes,
    a store, a signal, an unlock, or a spurious wake-up.  A thread waits on the condition exactly while
    its program counter is PWait or CWait. */
module ChunkMonitor {

  const MAX_CHUNK_SIZE := 4096

  /** Holders of the chunk mutex. */
  datatype Owner = Free | Producer | Consumer

  /** Program counter of `receive_http_chunks`. */
  datatype ProducerPc =
    | PStart            // the req_content_len == -1 test
    | PLock             // pthread_mutex_lock
    | PTest             // while (wrote == FALSE)
    | PWait             // inside pthread_cond_wait, in the wait set
    | PRelock           // woken, about to take the mutex back
    | PRead             // read()
    | PPublish(n: nat)  // read() returned n > 0, dimen and wrote not yet stored
    | PSignal           // pthread_cond_signal after a publish
    | PUnlock           // unlock, then around the loop
    | PLastUnlock       // the break that keeps the mutex until the final unlock
    | PDone             // returned OK, all Content-Length bytes read
    | PEofSignal | PEofUnlock
    | PEof              // returned OK after an early end of file
    | PErrorUnlock
    | PError            // returned an error

  /** Program counter of `send_http_chunks`. */
  datatype ConsumerPc =
    | CLock
    | CTest             // while (wrote == TRUE)
    | CWait
    | CRelock
    | CSend(sent: nat)  // inside send_http: `sent` bytes of the chunk are written
    | CClear            // total_sent += dimen; dimen = 0; wrote = TRUE
    | CSignal
    | CUnlock           // unlock, then the total test
    | CDone             // returned OK
    | CError(lost: nat) // send_http failed after `lost` bytes; returned with the mutex still held

  datatype Monitor = Monitor(
    contentLen: int,    // req_content_len, -1 when the header was absent
    wire: string,       // every byte the backend delivers before it ends the stream
    received: nat,      // total_received
    data: string,       // chunk->data
    dimen: nat,         // chunk->dimen
    wrote: bool,        // chunk->wrote
    owner: Owner,
    ppc: ProducerPc,
    cpc: ConsumerPc,
    totalSent: nat,     // total_sent
    client: string)     // body bytes written to the client socket

  datatype Move =
    | PStep             // the next deterministic action of the producer
    | PReadSome(n: nat) // read() returns n >= 1
    | PReadEof          // read() returns 0
    | PReadError        // read() returns -1
    | PSpurious         // the producer leaves the wait set without a signal
    | CStep
    | CWrite(n: nat)    // write() accepts n >= 1 bytes
    | CWriteError       // write() fails
    | CSpurious

  function Start(contentLen: int, wire: string): Monitor {
    Monitor(contentLen, wire, 0, "", 0, true, Free, PStart, CLock, 0, "")
  }

  /** The size passed to read(); a negative value becomes a huge size_t, so it bounds nothing. */
  function ReadSize(m: Monitor): int {
    if m.contentLen - m.received >= MAX_CHUNK_SIZE then MAX_CHUNK_SIZE else m.contentLen - m.received
  }

  function Overwrite(before: string, bytes: string): string {
    if |bytes| < |before| then bytes + before[|bytes|..] else bytes
  }

  predicate Enabled(m: Monitor, mv: Move) {
    match mv
    case PStep =>
      (match m.ppc
       case PLock | PRelock => m.owner == Free
       case PWait | PRead | PDone | PEof | PError => false
       case _ => true)
    case PReadSome(n) =>
      m.ppc == PRead && 1 <= n <= |m.wire| - m.received && (ReadSize(m) < 0 || n <= ReadSize(m))
    case PReadEof => m.ppc == PRead && (ReadSize(m) == 0 || m.received >= |m.wire|)
    case PReadError => m.ppc == PRead
    case PSpurious => m.ppc == PWait
    case CStep =>
      (match m.cpc
       case CLock | CRelock => m.owner == Free
       case CSend(sent) => sent >= m.dimen
       case CWait | CDone | CError(_) => false
       case _ => true)
    case CWrite(n) => m.cpc.CSend? && 1 <= n && m.cpc.sent + n <= m.dimen <= |m.data|
    case CWriteError => m.cpc.CSend?
    case CSpurious => m.cpc == CWait
  }

  /** pthread_cond_signal: wakes the other side if it waits (only two threads share the condition). */
  function SignalConsumer(c: ConsumerPc): ConsumerPc { if c == CWait then CRelock else c }
  function SignalProducer(p: ProducerPc): ProducerPc { if p == PWait then PRelock else p }

  function ProducerStep(m: Monitor): Monitor
    requires Enabled(m, PStep)
  {
    match m.ppc
    case PStart => m.(ppc := if m.contentLen == -1 then PError else PLock)
    case PLock | PRelock => m.(owner := Producer, ppc := PTest)
    case PTest => if m.wrote then m.(ppc := PRead) else m.(owner := Free, ppc := PWait)
    case PPublish(n) => m.(dimen := n, wrote := false, ppc := PSignal)
    case PSignal =>
      m.(cpc := SignalConsumer(m.cpc), ppc := if m.received == m.contentLen then PLastUnlock else PUnlock)
    case PUnlock => m.(owner := Free, ppc := PLock)
    case PLastUnlock => m.(owner := Free, ppc := PDone)
    case PEofSignal => m.(cpc := SignalConsumer(m.cpc), ppc := PEofUnlock)
    case PEofUnlock => m.(owner := Free, ppc := PEof)
    case PErrorUnlock => m.(owner := Free, ppc := PError)
  }

  function ConsumerStep(m: Monitor): Monitor
    requires Enabled(m, CStep)
  {
    match m.cpc
    case CLock | CRelock => m.(owner := Consumer, cpc := CTest)
    case CTest => if m.wrote then m.(owner := Free, cpc := CWait) else m.(cpc := CSend(0))
    case CSend(_) => m.(cpc := CClear)
    case CClear => m.(totalSent := m.totalSent + m.dimen, dimen := 0, wrote := true, cpc := CSignal)
    case CSignal => m.(ppc := SignalProducer(m.ppc), cpc := CUnlock)
    case CUnlock =>
      m.(owner := Free, cpc := if m.contentLen == m.totalSent && m.totalSent > 0 then CDone else CLock)
  }

  function Apply(m: Monitor, mv: Move): Monitor
    requires Enabled(m, mv)
  {
    match mv
    case PStep => ProducerStep(m)
    case PReadSome(n) =>
      m.(data := Overwrite(m.data, m.wire[m.received..m.received + n]),
         received := m.received + n, ppc := PPublish(n))
    case PReadEof => m.(ppc := PEofSignal)
    case PReadError => m.(ppc := PErrorUnlock)
    case PSpurious => m.(ppc := PRelock)
    case CStep => ConsumerStep(m)
    case CWrite(n) =>
      m.(client := m.client + m.data[m.cpc.sent..m.cpc.sent + n], cpc := CSend(m.cpc.sent + n))
    case CWriteError => m.(cpc := CError(m.cpc.sent))
    case CSpurious => m.(cpc := CRelock)
  }

  // ------------------------------------------------------------------ invariant

  predicate ProducerHolds(p: ProducerPc) {
    p.PTest? || p.PRead? || p.PPublish? || p.PSignal? || p.PUnlock? || p.PLastUnlock?
    || p.PEofSignal? || p.PEofUnlock? || p.PErrorUnlock?
  }

  predicate ConsumerHolds(c: ConsumerPc) {
    c.CTest? || c.CSend? || c.CClear? || c.CSignal? || c.CUnlock? || c.CError?
  }

  /** The mutex is held by the thread whose program counter says so, and by no other. */
  predicate MutexInv(m: Monitor) {
    && (m.owner == Producer <==> ProducerHolds(m.ppc))
    && (m.owner == Consumer <==> ConsumerHolds(m.cpc))
  }

  /** Bytes of the published chunk that the consumer has written so far. */
  function ChunkSent(m: Monitor): nat {
    match m.cpc
    case CSend(sent) => sent
    case CClear => m.dimen
    case CError(lost) => lost
    case _ => 0
  }

  /** Bytes read from the backend but not yet published. */
  function Staged(m: Monitor): nat { if m.ppc.PPublish? then m.ppc.n else 0 }

  /** What lies in the slot: the unsent part of the published chunk, or nothing. */
  function Pending(m: Monitor): string {
    if !m.wrote && ChunkSent(m) <= m.dimen <= |m.data| then m.data[ChunkSent(m)..m.dimen] else ""
  }

  /** Nothing is lost, duplicated or reordered. */
  predicate DataInv(m: Monitor) {
    && m.received <= |m.wire|
    && Staged(m) <= m.received && Staged(m) <= |m.data|
    && (m.ppc.PPublish? ==>
          m.ppc.n >= 1 && m.wrote && m.data[..m.ppc.n] == m.wire[m.received - m.ppc.n..m.received])
    && (m.wrote ==>
          m.dimen == 0 && m.totalSent == m.received - Staged(m) && m.client == m.wire[..m.totalSent])
    && (!m.wrote ==>
          && 1 <= m.dimen <= |m.data| && m.dimen <= m.received
          && m.totalSent == m.received - m.dimen
          && ChunkSent(m) <= m.dimen
          && m.data[..m.dimen] == m.wire[m.totalSent..m.received]
          && m.client == m.wire[..m.totalSent + ChunkSent(m)])
  }

  /** Which side may be where for each value of `wrote`, and when each loop ends. */
  predicate PhaseInv(m: Monitor) {
    && (m.cpc.CSend? || m.cpc.CClear? || m.cpc.CError? ==> !m.wrote)
    && (m.cpc.CSignal? || m.cpc.CUnlock? || m.cpc.CDone? ==> m.wrote)
    && (m.ppc.PStart? || m.ppc.PRead? || m.ppc.PPublish? ==> m.wrote)
    && (m.ppc.PEofSignal? || m.ppc.PEofUnlock? || m.ppc.PErrorUnlock? || m.ppc.PEof? || m.ppc.PError? ==> m.wrote)
    && (m.ppc.PSignal? || m.ppc.PUnlock? || m.ppc.PLastUnlock? ==> !m.wrote)
    && (m.contentLen >= 0 ==> m.received <= m.contentLen)
    && (m.ppc.PLastUnlock? || m.ppc.PDone? ==> m.received == m.contentLen > 0)
    && (m.received == m.contentLen > 0 ==>
          m.ppc.PPublish? || m.ppc.PSignal? || m.ppc.PLastUnlock? || m.ppc.PDone?)
    && (m.cpc.CDone? ==> m.contentLen == m.totalSent > 0)
    && (m.contentLen == m.totalSent > 0 ==> m.cpc.CSignal? || m.cpc.CUnlock? || m.cpc.CDone?)
  }

  /** A waiting thread has nothing to do yet, or the other side is about to signal. */
  predicate WakeInv(m: Monitor) {
    && (m.ppc == PWait && m.wrote ==> m.cpc == CSignal)
    && (m.cpc == CWait && !m.wrote ==> m.ppc == PSignal)
  }

  predicate AtEof(p: ProducerPc) { p.PEofSignal? || p.PEofUnlock? || p.PEof? }

  /** Without a Content-Length nothing is read; an end of the stream is seen when nothing more is to come, or to be
      read. */
  predicate LengthInv(m: Monitor) {
    && (m.contentLen == -1 ==> m.received == 0 && (m.ppc.PStart? || m.ppc.PError?))
    && (AtEof(m.ppc) ==> m.received == |m.wire| || m.received == m.contentLen)
  }

  /** The hand-over of chunks, whatever the announced length. */
  predicate SlotInv(m: Monitor) { MutexInv(m) && DataInv(m) && PhaseInv(m) && WakeInv(m) }

  predicate Inv(m: Monitor) { SlotInv(m) && LengthInv(m) }

  lemma StartInv(contentLen: int, wire: string)
    ensures Inv(Start(contentLen, wire))
  {
  }

  lemma ProducerStepInv(m: Monitor)
    requires SlotInv(m) && Enabled(m, PStep)
    ensures SlotInv(ProducerStep(m))
  {
  }

  lemma ReadSomeInv(m: Monitor, n: nat)
    requires SlotInv(m) && Enabled(m, PReadSome(n))
    ensures SlotInv(Apply(m, PReadSome(n)))
  {
    var m' := Apply(m, PReadSome(n));
    assert m'.data[..n] == m.wire[m.received..m.received + n];
  }

  lemma ConsumerStepInv(m: Monitor)
    requires SlotInv(m) && Enabled(m, CStep)
    ensures SlotInv(ConsumerStep(m))
  {
  }

  /** Writing n more bytes of a chunk that holds the bytes base .. of the wire. */
  lemma CopyExtends(data: string, dimen: nat, wire: string, base: nat, sent: nat, n: nat)
    requires sent + n <= dimen <= |data| && base + dimen <= |wire|
    requires data[..dimen] == wire[base..base + dimen]
    ensures wire[..base + sent] + data[sent..sent + n] == wire[..base + sent + n]
  {
    forall k | sent <= k < sent + n
      ensures data[k] == wire[base + k]
    {
      assert data[..dimen][k] == wire[base..base + dimen][k];
    }
  }

  lemma WriteInv(m: Monitor, n: nat)
    requires SlotInv(m) && Enabled(m, CWrite(n))
    ensures SlotInv(Apply(m, CWrite(n)))
  {
    CopyExtends(m.data, m.dimen, m.wire, m.totalSent, m.cpc.sent, n);
  }

  lemma OtherMovesInv(m: Monitor, mv: Move)
    requires SlotInv(m) && Enabled(m, mv) && !mv.PStep? && !mv.PReadSome? && !mv.CStep? && !mv.CWrite?
    ensures SlotInv(Apply(m, mv))
  {
  }

  lemma LengthKept(m: Monitor, mv: Move)
    requires LengthInv(m) && m.received <= |m.wire| && Enabled(m, mv)
    ensures LengthInv(Apply(m, mv))
  {
  }

  lemma ReadWithinWire(m: Monitor)
    requires SlotInv(m)
    ensures m.received <= |m.wire|
  {
  }

  /** Every move of either thread keeps the invariant. */
  lemma MoveInv(m: Monitor, mv: Move)
    requires Inv(m) && Enabled(m, mv)
    ensures Inv(Apply(m, mv))
  {
    hide SlotInv, ProducerStep, ConsumerStep;
    ReadWithinWire(m);
    LengthKept(m, mv);
    match mv
    case PStep => ProducerStepInv(m);
    case PReadSome(n) => ReadSomeInv(m, n);
    case CStep => ConsumerStepInv(m);
    case CWrite(n) => WriteInv(m, n);
    case _ => OtherMovesInv(m, mv);
  }

  // ------------------------------------------------------------------ whole runs

  /** Every move of the list is enabled when its turn comes. */
  predicate Legal(m: Monitor, moves: seq<Move>)
    decreases |moves|
  {
    moves == [] || (Enabled(m, moves[0]) && Legal(Apply(m, moves[0]), moves[1..]))
  }

  function After(m: Monitor, moves: seq<Move>): Monitor
    requires Legal(m, moves)
    decreases |moves|
  {
    if moves == [] then m else After(Apply(m, moves[0]), moves[1..])
  }

  lemma {:induction false} RunInv(m: Monitor, moves: seq<Move>)
    requires Inv(m) && Legal(m, moves)
    ensures Inv(After(m, moves))
    ensures After(m, moves).wire == m.wire && After(m, moves).contentLen == m.contentLen
    decreases |moves|
  {
    if moves != [] {
      MoveInv(m, moves[0]);
      RunInv(Apply(m, moves[0]), moves[1..]);
    }
  }

  lemma SlotContents(m: Monitor)
    requires Inv(m)
    ensures m.client + Pending(m) == m.wire[..m.received - Staged(m)]
  {
    hide MutexInv, PhaseInv, WakeInv, DataInv, Staged, Pending;
    if m.wrote {
      EmptySlot(m);
    } else {
      FullSlot(m);
    }
  }

  lemma EmptySlot(m: Monitor)
    requires DataInv(m) && m.wrote
    ensures Staged(m) <= m.received <= |m.wire| && m.client + Pending(m) == m.wire[..m.received - Staged(m)]
  {
    assert Pending(m) == "";
  }

  lemma FullSlot(m: Monitor)
    requires DataInv(m) && !m.wrote
    ensures Staged(m) == 0 && m.received <= |m.wire| && m.client + Pending(m) == m.wire[..m.received]
  {
    hide ChunkSent;
    CopyExtends(m.data, m.dimen, m.wire, m.totalSent, ChunkSent(m), m.dimen - ChunkSent(m));
  }

  /** What a body of `wire` with this req_content_len owes to the client: nothing if the header announced no length, all
      there is if it announced more than that or a negative one. */
  function Owed(contentLen: int, wire: string): string {
    if contentLen == -1 then "" else if 0 <= contentLen <= |wire| then wire[..contentLen] else wire
  }

  lemma ReceivedIsOwed(m: Monitor)
    requires Inv(m)
    ensures m.received <= |Owed(m.contentLen, m.wire)| && m.client <= Owed(m.contentLen, m.wire)
  {
  }

  /** What the client has received is always a prefix of what is owed to it; with the chunk in the slot it is exactly
      what was read and published; the consumer returns only with the first Content-Length bytes delivered; and
      without a Content-Length nothing is ever read.  Holds for every interleaving, read size, write size, I/O
      failure and spurious wake-up. */
  lemma Delivery(contentLen: int, wire: string, moves: seq<Move>)
    requires Legal(Start(contentLen, wire), moves)
    ensures var m := After(Start(contentLen, wire), moves);
            && Staged(m) <= m.received <= |wire|
            && m.client <= Owed(contentLen, wire) <= wire
            && m.client + Pending(m) == wire[..m.received - Staged(m)]
            && (m.ppc.PDone? ==> m.received == contentLen > 0)
            && (m.cpc.CDone? ==> 0 < contentLen <= |wire| && m.client == wire[..contentLen])
            && (contentLen == -1 ==> m.received == 0 && m.client == "" && m.ppc in {PStart, PError})
  {
    hide SlotInv, LengthInv;
    StartInv(contentLen, wire);
    RunInv(Start(contentLen, wire), moves);
    var m := After(Start(contentLen, wire), moves);
    SlotContents(m);
    ReceivedIsOwed(m);
    ReturnsWithAll(m);
  }

  lemma ReturnsWithAll(m: Monitor)
    requires Inv(m)
    ensures Staged(m) <= m.received <= |m.wire|
    ensures m.ppc.PDone? ==> m.received == m.contentLen > 0
    ensures m.cpc.CDone? ==> 0 < m.contentLen <= |m.wire| && m.client == m.wire[..m.contentLen]
    ensures m.contentLen == -1 ==> m.received == 0 && m.client == "" && m.ppc in {PStart, PError}
  {
  }

  predicate ReadFailed(m: Monitor) { m.ppc.PErrorUnlock? || (m.ppc.PError? && m.contentLen != -1) }

  lemma {:induction false} RunEnds(m: Monitor, moves: seq<Move>)
    requires Inv(m) && Legal(m, moves)
    ensures var t := After(m, moves);
            && (ReadFailed(t) <==> ReadFailed(m) || PReadError in moves)
            && (AtEof(t.ppc) <==> AtEof(m.ppc) || PReadEof in moves)
    decreases |moves|
  {
    hide Inv;
    if moves != [] {
      StepEnds(m, moves[0]);
      MoveInv(m, moves[0]);
      RunEnds(Apply(m, moves[0]), moves[1..]);
      assert moves == [moves[0]] + moves[1..];
    }
  }

  lemma StepEnds(m: Monitor, mv: Move)
    requires Inv(m) && Enabled(m, mv)
    ensures ReadFailed(Apply(m, mv)) <==> ReadFailed(m) || mv == PReadError
    ensures AtEof(Apply(m, mv).ppc) <==> AtEof(m.ppc) || mv == PReadEof
  {
    hide DataInv, WakeInv, MutexInv;
  }

  /** How receive_http_chunks ends: with an error if and only if no length was announced or a read failed, at an early
      end of the stream if and only if a read returned 0, and otherwise with all announced bytes. */
  lemma ProducerEnds(contentLen: int, wire: string, moves: seq<Move>)
    requires Legal(Start(contentLen, wire), moves)
    ensures var m := After(Start(contentLen, wire), moves);
            m.ppc in {PDone, PEof, PError} ==>
              && (m.ppc == PError <==> contentLen == -1 || PReadError in moves)
              && (m.ppc == PEof <==> PReadEof in moves)
              && (m.ppc == PDone ==> m.received == contentLen > 0)
              && (m.ppc == PEof ==> m.received == |wire| || m.received == contentLen)
  {
    hide SlotInv;
    var s := Start(contentLen, wire);
    StartInv(contentLen, wire);
    RunInv(s, moves);
    RunEnds(s, moves);
    Delivery(contentLen, wire, moves);
  }

  /** send_http_chunks returns from a failed write with the mutex held: nothing is read or written any more. */
  lemma {:induction false} FailedWriteStopsAll(m: Monitor, moves: seq<Move>)
    requires Inv(m) && m.cpc.CError? && Legal(m, moves)
    ensures var t := After(m, moves);
            && t.cpc == m.cpc && t.owner == Consumer && t.received == m.received && t.client == m.client
            && (t.ppc in {PDone, PEof} <==> m.ppc in {PDone, PEof})
    decreases |moves|
  {
    if moves != [] {
      MoveInv(m, moves[0]);
      FailedWriteStopsAll(Apply(m, moves[0]), moves[1..]);
    }
  }

  /** No lost wake-up: the two sides are never both in the wait set, and a side that waits although its
      condition holds is about to be signalled by the other. */
  lemma NoLostWakeup(contentLen: int, wire: string, moves: seq<Move>)
    requires Legal(Start(contentLen, wire), moves)
    ensures var m := After(Start(contentLen, wire), moves);
            && !(m.ppc == PWait && m.cpc == CWait)
            && (m.ppc == PWait && m.wrote ==> m.cpc == CSignal)
            && (m.cpc == CWait && !m.wrote ==> m.ppc == PSignal)
  {
    RunInv(Start(contentLen, wire), moves);
  }

  /** What ends a wait: the other side's signal, after a publication, a clear or an end of the stream, or a spurious
      wake-up; and nothing else does. */
  lemma WakesIff(m: Monitor, mv: Move)
    requires Enabled(m, mv)
    ensures m.cpc == CWait ==>
              (Apply(m, mv).cpc != CWait <==> mv == CSpurious || (mv == PStep && m.ppc in {PSignal, PEofSignal}))
    ensures m.ppc == PWait ==> (Apply(m, mv).ppc != PWait <==> mv == PSpurious || (mv == CStep && m.cpc == CSignal))
  {
  }

  predicate ProducerMove(mv: Move) { mv.PStep? || mv.PReadSome? || mv.PReadEof? || mv.PReadError? || mv.PSpurious? }

  /** Node lifetime: when the consumer has returned, the producer has made its last access to the chunk. */
  lemma ProducerIsGone(m: Monitor, mv: Move)
    requires Inv(m) && m.cpc.CDone? && ProducerMove(mv)
    ensures m.ppc == PDone && m.owner == Free && !Enabled(m, mv)
  {
  }

  /** What sockets and scheduler may do, and all they may do: a read brings any number of bytes up to the rest of the
      body, the size of a chunk and what there is, or fails, or ends where nothing is left or asked for; a write takes
      any number of bytes up to the rest of the chunk, or fails; and a waiting side may wake at any time. */
  lemma EnvironmentIsFree(m: Monitor, n: nat)
    requires Inv(m) && n >= 1
    ensures m.ppc.PRead? ==>
              && Enabled(m, PReadError)
              && (Enabled(m, PReadEof) <==> m.received == |m.wire| || m.received == m.contentLen)
              && (Enabled(m, PReadSome(n)) <==>
                    && m.received + n <= |m.wire|
                    && (m.contentLen < 0 || (m.received + n <= m.contentLen && n <= MAX_CHUNK_SIZE)))
    ensures m.cpc.CSend? ==>
              Enabled(m, CWriteError) && (Enabled(m, CWrite(n)) <==> m.cpc.sent + n <= m.dimen)
    ensures (m.ppc.PWait? ==> Enabled(m, PSpurious)) && (m.cpc.CWait? ==> Enabled(m, CSpurious))
  {
  }

  // ------------------------------------------------------------------ progress

  predicate Spurious(mv: Move) { mv.PSpurious? || mv.CSpurious? }

  predicate Failure(mv: Move) { mv.PReadError? || mv.CWriteError? }

  /** No read or write has failed. */
  predicate Calm(m: Monitor) { !ReadFailed(m) && !m.cpc.CError? }

  predicate Finished(m: Monitor) { m.ppc.PDone? && m.cpc.CDone? }

  /** Both sides have finished, or the producer has gone and the consumer waits for ever. */
  predicate Stopped(m: Monitor) { Finished(m) || ((m.ppc.PEof? || m.ppc.PError?) && m.cpc.CWait?) }

  /** The move that a monitor without failures can always make until it stops. */
  function Next(m: Monitor): Move {
    match m.owner
    case Producer =>
      if m.ppc.PRead? then (if ReadSize(m) != 0 && m.received < |m.wire| then PReadSome(1) else PReadEof) else PStep
    case Consumer => if m.cpc.CSend? && m.cpc.sent < m.dimen then CWrite(1) else CStep
    case Free => if m.ppc.PStart? || m.ppc.PLock? || m.ppc.PRelock? then PStep else CStep
  }

  /** No deadlock, whatever the announced length and the body: a monitor without failures either has stopped or has an
      enabled move that is neither a failure nor a spurious wake-up. */
  lemma NeverStuck(m: Monitor)
    requires Inv(m) && Calm(m) && !Stopped(m)
    ensures Enabled(m, Next(m)) && !Spurious(Next(m)) && !Failure(Next(m))
  {
  }

  /** How a transfer without failures stops: with everything delivered that is owed, and with the consumer back in
      its caller if and only if the length is positive and the body complete. */
  lemma StoppedWithAll(m: Monitor)
    requires Inv(m) && Calm(m) && Stopped(m)
    ensures m.client == Owed(m.contentLen, m.wire)
    ensures m.cpc.CDone? <==> 0 < m.contentLen <= |m.wire|
    ensures m.ppc == if m.contentLen == -1 then PError else if 0 < m.contentLen <= |m.wire| then PDone else PEof
  {
  }

  function ProducerRank(p: ProducerPc, wrote: bool): nat {
    match p
    case PStart => 6
    case PWait => if wrote then 5 else 1
    case PSignal => 5
    case PLastUnlock | PUnlock => 4
    case PLock | PRelock => if wrote then 4 else 3
    case PTest => if wrote then 3 else 2
    case PRead => 2
    case PPublish(_) => 1
    case _ => 0
  }

  function ConsumerRank(c: ConsumerPc, wrote: bool): nat {
    match c
    case CSignal => 6
    case CUnlock => 5
    case CLock | CRelock => 4
    case CTest => 3
    case CWait => if wrote then 2 else 5
    case CSend(_) => 2
    case CClear => 1
    case _ => 0
  }

  /** What is left to do around an end of the stream. */
  function EndRank(p: ProducerPc): nat {
    match p
    case PDone | PEof | PError => 0
    case PEofUnlock | PErrorUnlock => 1
    case PEofSignal => 4
    case _ => 5
  }

  function Goal(m: Monitor): nat { |Owed(m.contentLen, m.wire)| }

  /** Publishes still to come: at most the bytes still to read, plus the staged one. */
  function Publishes(m: Monitor): int { Goal(m) - m.received + (if m.ppc.PPublish? then 1 else 0) }

  /** Clears still to come: one for every publish, and one more while the slot is full. */
  function Clears(m: Monitor): int { Publishes(m) + (if m.wrote then 0 else 1) }

  function Rank(m: Monitor): int {
    8 * Publishes(m) + 10 * Clears(m) + (Goal(m) - |m.client|)
    + ProducerRank(m.ppc, m.wrote) + EndRank(m.ppc) + ConsumerRank(m.cpc, m.wrote)
  }

  lemma RankIsNatural(m: Monitor)
    requires Inv(m)
    ensures Rank(m) >= 0
  {
    hide SlotInv, LengthInv;
    ReceivedIsOwed(m);
  }

  lemma PhasesOf(m: Monitor)
    requires Inv(m)
    ensures PhaseInv(m) && (m.ppc.PPublish? ==> m.wrote)
  {
  }

  lemma ProducerRankFalls(m: Monitor, mv: Move)
    requires PhaseInv(m) && (m.ppc.PPublish? ==> m.wrote)
    requires Enabled(m, mv) && (mv.PStep? || mv.PReadSome? || mv.PReadEof? || mv.PReadError?)
    ensures Rank(Apply(m, mv)) < Rank(m)
  {
    hide Owed, Overwrite;
  }

  lemma ConsumerRankFalls(m: Monitor, mv: Move)
    requires PhaseInv(m) && Enabled(m, mv) && (mv.CStep? || mv.CWrite? || mv.CWriteError?)
    ensures Rank(Apply(m, mv)) < Rank(m)
  {
    hide Owed;
    if mv.CWrite? {
      assert |Apply(m, mv).client| == |m.client| + mv.n;
    }
  }

  /** Every move that is not a spurious wake-up, failures included, brings the transfer closer to its end; a spurious
      wake-up sets it back by at most two moves. */
  lemma RankFalls(m: Monitor, mv: Move)
    requires Inv(m) && Enabled(m, mv)
    ensures Inv(Apply(m, mv))
    ensures if Spurious(mv) then Rank(Apply(m, mv)) <= Rank(m) + 2 else Rank(Apply(m, mv)) < Rank(m)
  {
    hide Inv, PhaseInv;
    MoveInv(m, mv);
    PhasesOf(m);
    match mv
    case PStep | PReadSome(_) | PReadEof | PReadError => ProducerRankFalls(m, mv);
    case CStep | CWrite(_) | CWriteError => ConsumerRankFalls(m, mv);
    case _ =>
  }

  lemma CalmKept(m: Monitor, mv: Move)
    requires Inv(m) && Calm(m) && Enabled(m, mv) && !Failure(mv)
    ensures Calm(Apply(m, mv))
  {
    hide Inv;
    StepEnds(m, mv);
  }

  function CountSpurious(moves: seq<Move>): nat {
    if moves == [] then 0 else (if Spurious(moves[0]) then 1 else 0) + CountSpurious(moves[1..])
  }

  predicate FailureFree(moves: seq<Move>) { forall mv :: mv in moves ==> !Failure(mv) }

  lemma {:induction false} RunLength(m: Monitor, moves: seq<Move>)
    requires Inv(m) && Legal(m, moves)
    ensures Inv(After(m, moves))
    ensures |moves| + Rank(After(m, moves)) <= Rank(m) + 3 * CountSpurious(moves)
    decreases |moves|
  {
    hide Inv, Rank;
    if moves != [] {
      RankFalls(m, moves[0]);
      RunLength(Apply(m, moves[0]), moves[1..]);
    }
  }

  lemma {:induction false} RunCalm(m: Monitor, moves: seq<Move>)
    requires Inv(m) && Calm(m) && Legal(m, moves) && FailureFree(moves)
    ensures Calm(After(m, moves))
    decreases |moves|
  {
    hide Inv, Calm, Failure;
    if moves != [] {
      MoveInv(m, moves[0]);
      CalmKept(m, moves[0]);
      RunCalm(Apply(m, moves[0]), moves[1..]);
    }
  }

  /** Every run with finitely many spurious wake-ups is finite, with an explicit bound, whatever fails; and a run
      without failures that cannot be extended by a move of its own has delivered exactly what is owed. */
  lemma EveryFairRunDelivers(contentLen: int, wire: string, moves: seq<Move>)
    requires Legal(Start(contentLen, wire), moves)
    ensures |moves| <= 19 * |Owed(contentLen, wire)| + 15 + 3 * CountSpurious(moves)
    ensures var m := After(Start(contentLen, wire), moves);
            FailureFree(moves) && (forall mv :: Enabled(m, mv) ==> Spurious(mv) || Failure(mv)) ==>
              && m.client == Owed(contentLen, wire)
              && (m.cpc.CDone? <==> 0 < contentLen <= |wire|)
              && m.ppc == if contentLen == -1 then PError else if 0 < contentLen <= |wire| then PDone else PEof
  {
    hide Inv, Enabled;
    var s := Start(contentLen, wire);
    StartInv(contentLen, wire);
    RunLength(s, moves);
    RunInv(s, moves);
    var m := After(s, moves);
    RankIsNatural(m);
    if FailureFree(moves) && forall mv :: Enabled(m, mv) ==> Spurious(mv) || Failure(mv) {
      RunCalm(s, moves);
      if !Stopped(m) {
        NeverStuck(m);
      }
      StoppedWithAll(m);
    }
  }

  lemma {:induction false} Complete(m: Monitor) returns (moves: seq<Move>)
    requires Inv(m) && Calm(m)
    ensures Legal(m, moves) && FailureFree(moves) && Calm(After(m, moves)) && Stopped(After(m, moves))
    decreases Rank(m)
  {
    hide Inv, Calm, Stopped, Rank, Failure, Enabled, Next;
    if Stopped(m) {
      moves := [];
    } else {
      NeverStuck(m);
      RankFalls(m, Next(m));
      RankIsNatural(m);
      CalmKept(m, Next(m));
      var rest := Complete(Apply(m, Next(m)));
      moves := [Next(m)] + rest;
    }
  }

  /** The consumer can leave its loop if and only if the announced length is positive and the backend
      delivers that many bytes: with length zero, a negative length or an early end it stays for ever. */
  lemma ConsumerReturnsIff(contentLen: int, wire: string)
    ensures (exists moves :: Legal(Start(contentLen, wire), moves) && After(Start(contentLen, wire), moves).cpc.CDone?)
            <==> 0 < contentLen <= |wire|
  {
    hide Inv, Calm, Stopped;
    var s := Start(contentLen, wire);
    forall moves | Legal(s, moves) && After(s, moves).cpc.CDone?
      ensures 0 < contentLen <= |wire|
    {
      Delivery(contentLen, wire, moves);
    }
    if 0 < contentLen <= |wire| {
      StartInv(contentLen, wire);
      assert Calm(s) by { StartCalm(contentLen, wire); }
      var moves := Complete(s);
      RunInv(s, moves);
      StoppedWithAll(After(s, moves));
      assert Legal(s, moves) && After(s, moves).cpc.CDone?;
    }
  }

  lemma StartCalm(contentLen: int, wire: string)
    ensures Calm(Start(contentLen, wire))
  {
  }
}
