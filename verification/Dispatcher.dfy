/** The hand-over of accepted connections to workers: the table of waiting descriptors and the dispatcher thread
    (thread_pool.c), the accept loop (main.c), and the worker's release (worker.c).  Shared arrays are only
    touched under the mutex or the semaphore, so each access below is one atomic step. */
module Dispatcher {
  import opened Servers

  // ------------------------------------------------------------------ the table of descriptors

  /** The lowest index from i on that holds 0, or |t|. */
  function FirstFree(t: seq<int>, i: nat): (f: nat)
    requires i <= |t|
    ensures i <= f <= |t| && (f < |t| ==> t[f] == 0)
    ensures forall k :: i <= k < f ==> t[k] != 0
    decreases |t| - i
  {
    if i == |t| || t[i] == 0 then i else FirstFree(t, i + 1)
  }

  /** The lowest index from i on that holds a descriptor, or |t|. */
  function FirstTaken(t: seq<int>, i: nat): (f: nat)
    requires i <= |t|
    ensures i <= f <= |t| && (f < |t| ==> t[f] != 0)
    ensures forall k :: i <= k < f ==> t[k] == 0
    decreases |t| - i
  {
    if i == |t| || t[i] != 0 then i else FirstTaken(t, i + 1)
  }

  /** add_fd_to_array: the lowest free slot takes the descriptor; an error if there is none. */
  method AddFdToArray(fdArray: array<int>, fd: int) returns (ok: bool)
    modifies fdArray
    ensures var t, f := old(fdArray[..]), FirstFree(old(fdArray[..]), 0);
            && (ok <==> f < |t|)
            && fdArray[..] == if ok then t[f := fd] else t
  {
    ok := false;
    var i := 0;
    while i < fdArray.Length
      invariant 0 <= i <= fdArray.Length && !ok
      invariant fdArray[..] == old(fdArray[..])
      invariant FirstFree(fdArray[..], 0) == FirstFree(fdArray[..], i)
    {
      if fdArray[i] == 0 {
        fdArray[i] := fd;
        ok := true;
        break;
      }
      i := i + 1;
    }
  }

  /** get_fd: the lowest occupied slot gives up its descriptor; an error if there is none. */
  method GetFd(fdArray: array<int>) returns (ok: bool, fd: int)
    modifies fdArray
    ensures var t, f := old(fdArray[..]), FirstTaken(old(fdArray[..]), 0);
            && (ok <==> f < |t|)
            && (ok ==> fd == t[f] && fdArray[..] == t[f := 0])
            && (!ok ==> fdArray[..] == t)
  {
    ok, fd := false, 0;
    var i := 0;
    while i < fdArray.Length
      invariant 0 <= i <= fdArray.Length && !ok
      invariant fdArray[..] == old(fdArray[..])
      invariant FirstTaken(fdArray[..], 0) == FirstTaken(fdArray[..], i)
    {
      if fdArray[i] != 0 {
        fd := fdArray[i];
        fdArray[i] := 0;
        ok := true;
        break;
      }
      i := i + 1;
    }
  }

  // ------------------------------------------------------------------ the shared worker arrays

  /** What the scan of thread_pool_loop has chosen among the first k workers. */
  function LeastUsed(busy: seq<bool>, counter: seq<nat>, k: nat): (p: int)
    requires k <= |busy| == |counter|
    ensures -1 <= p < k && (p >= 0 ==> !busy[p])
  {
    if k == 0 then -1
    else
      var p := LeastUsed(busy, counter, k - 1);
      if busy[k - 1] then p
      else if p == -1 || counter[k - 1] <= counter[p] then k - 1
      else p
  }

  /** The scan finds the last of the least used idle workers, and nothing if and only if all are busy. */
  lemma {:induction false} LeastUsedMeaning(busy: seq<bool>, counter: seq<nat>, k: nat)
    requires k <= |busy| == |counter|
    ensures var p := LeastUsed(busy, counter, k);
            && (p == -1 <==> forall i :: 0 <= i < k ==> busy[i])
            && (p >= 0 ==> forall i :: 0 <= i < k && !busy[i] ==>
                             counter[p] <= counter[i] && (i > p ==> counter[p] < counter[i]))
  {
    if k > 0 {
      LeastUsedMeaning(busy, counter, k - 1);
    }
  }

  /** The segment shared by the dispatcher and the workers. */
  class SharedPool {
    const pids: array<int>
    const busy: array<bool>
    const counter: array<nat>
    const server: array<Server>

    predicate Valid()
    {
      busy.Length == counter.Length == server.Length == pids.Length
    }

    constructor (pids: array<int>, busy: array<bool>, counter: array<nat>, server: array<Server>)
      requires busy.Length == counter.Length == server.Length == pids.Length
      ensures Valid() && this.pids == pids && this.busy == busy && this.counter == counter && this.server == server
    {
      this.pids, this.busy, this.counter, this.server := pids, busy, counter, server;
    }

    /** One pass of the dispatcher over the workers; `next` is what the scheduler answers if it is asked.
        `position` is -1 when no worker is available. */
    method Claim(next: Server) returns (position: int)
      requires Valid()
      modifies busy, counter, server
      ensures position == LeastUsed(old(busy[..]), old(counter[..]), busy.Length)
      ensures position == -1 ==>
                busy[..] == old(busy[..]) && counter[..] == old(counter[..]) && server[..] == old(server[..])
      ensures position >= 0 ==>
                && busy[..] == old(busy[..])[position := true]
                && counter[..] == old(counter[..])[position := old(counter[..])[position] + 1]
                && server[..] == old(server[..])[position := next]
    {
      var min: int := -1;
      position := -1;
      var i := 0;
      while i < busy.Length
        invariant 0 <= i <= busy.Length
        invariant position == LeastUsed(busy[..], counter[..], i)
        invariant min == if position == -1 then -1 else counter[position] as int
      {
        if !busy[i] {
          if min == -1 {
            min := counter[i];
            position := i;
          }
          if counter[i] <= min {
            min := counter[i];
            position := i;
          }
        }
        i := i + 1;
      }
      if position != -1 {
        busy[position] := true;
        counter[position] := counter[position] + 1;
        server[position] := next;
      }
    }

    /** The end of a connection in start_worker: the slot of this process becomes available again. */
    method Release(pid: int)
      requires Valid()
      modifies busy
      ensures forall i :: 0 <= i < busy.Length ==>
                (busy[i] <==> old(busy[i]) && !(pids[i] == pid && forall k :: 0 <= k < i ==> pids[k] != pid))
    {
      var i := 0;
      while i < pids.Length
        invariant 0 <= i <= pids.Length
        invariant busy[..] == old(busy[..])
        invariant FirstPid(pids[..], pid, 0) == FirstPid(pids[..], pid, i)
      {
        if pids[i] == pid {
          busy[i] := false;
          break;
        }
        i := i + 1;
      }
    }
  }

  /** With a pid of its own, a worker finds its own slot: what it clears is its own flag. */
  lemma OwnSlot(pids: seq<int>, w: nat)
    requires w < |pids| && forall i, j :: 0 <= i < j < |pids| ==> pids[i] != pids[j]
    ensures FirstPid(pids, pids[w], 0) == w
  {
  }

  /** The first slot from i on that belongs to the process, or |pids|. */
  function FirstPid(pids: seq<int>, pid: int, i: nat): (f: nat)
    requires i <= |pids|
    ensures i <= f <= |pids| && (f < |pids| ==> pids[f] == pid)
    ensures forall k :: i <= k < f ==> pids[k] != pid
    decreases |pids| - i
  {
    if i == |pids| || pids[i] == pid then i else FirstPid(pids, pid, i + 1)
  }
}
