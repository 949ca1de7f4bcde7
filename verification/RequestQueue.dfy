/** The doubly linked queue of pending requests (`request_queue.c`).  `nodes` is the sequence that the
    pointers represent; one queue operation is atomic. */
module RequestQueue {

  class RequestNode {
    var previous: RequestNode?
    var next: RequestNode?

    constructor ()
      ensures previous == null && next == null
    {
      previous, next := null, null;
    }
  }

  class Queue {
    var front: RequestNode?
    var back: RequestNode?
    var size: int
    ghost var nodes: seq<RequestNode>

    /** front, back, next, previous and size all describe the same sequence of distinct nodes. */
    ghost predicate Valid()
      reads this, nodes
    {
      && size == |nodes|
      && (forall i, j :: 0 <= i < j < |nodes| ==> nodes[i] != nodes[j])
      && (nodes == [] ==> front == null && back == null)
      && (nodes != [] ==>
            && front == nodes[0] && nodes[0].previous == null
            && back == nodes[|nodes| - 1] && nodes[|nodes| - 1].next == null)
      && (forall i :: 0 <= i < |nodes| - 1 ==> nodes[i].next == nodes[i + 1])
      && (forall i :: 0 < i < |nodes| ==> nodes[i].previous == nodes[i - 1])
    }

    constructor ()
      ensures Valid() && nodes == []
    {
      size, front, back := 0, null, null;
      nodes := [];
    }

    method GetFront() returns (node: RequestNode?)
      requires Valid()
      ensures node == if nodes == [] then null else nodes[0]
    {
      node := front;
    }

    method IsEmpty() returns (empty: bool)
      requires Valid()
      ensures empty <==> nodes == []
    {
      empty := front == null;
    }

    /** The node comes straight from init_request_node: both its links are null. */
    method Enqueue(node: RequestNode)
      requires Valid() && node !in nodes && node.next == null && node.previous == null
      modifies this, node, back
      ensures Valid() && nodes == old(nodes) + [node]
    {
      assert nodes != [] ==> back == nodes[|nodes| - 1] && back in nodes;
      if back == null {
        front := node;
        back := node;
      } else {
        back.next := node;
        node.previous := back;
        back := node;
      }
      size := size + 1;
      nodes := nodes + [node];
      assert forall i :: 0 <= i < |nodes| - 1 ==> nodes[i] == old(nodes)[i];
    }

    /** Takes the oldest node and leaves it detached, as it was before it was enqueued; null when empty. */
    method Dequeue() returns (node: RequestNode?)
      requires Valid()
      modifies this, nodes
      ensures Valid()
      ensures old(nodes) == [] ==> node == null && nodes == []
      ensures old(nodes) != [] ==>
                && node == old(nodes)[0] && nodes == old(nodes)[1..]
                && node.next == null && node.previous == null
    {
      node := GetFront();
      if node != null {
        var second := node.next;
        assert node == nodes[0] && (|nodes| > 1 ==> second == nodes[1] && second in nodes);
        node.next := null;
        if second != null {
          second.previous := null;
        } else {
          back := null;
        }
        front := second;
        size := size - 1;
        nodes := nodes[1..];
        assert forall i :: 0 <= i < |nodes| ==> nodes[i] == old(nodes)[i + 1];
      }
    }

    /** destroy_request_queue: every node is dequeued, oldest first, and handed to its destructor. */
    method Drain() returns (destroyed: seq<RequestNode>)
      requires Valid()
      modifies this, nodes
      ensures Valid() && nodes == [] && destroyed == old(nodes)
    {
      hide Valid;
      ghost var all := nodes;
      destroyed := [];
      while true
        invariant Valid() && |destroyed| <= |all|
        invariant destroyed == all[..|destroyed|] && nodes == all[|destroyed|..]
        decreases |nodes|
      {
        ghost var k := |destroyed|;
        assert forall n :: n in all[k..] ==> n in all;
        var node := Dequeue();
        if node == null {
          break;
        }
        assert all[k..][1..] == all[k + 1..] && all[..k] + [all[k]] == all[..k + 1];
        destroyed := destroyed + [node];
      }
    }

    /** Fresh nodes for operations still to come: unlinked, not in the queue. */
    ghost predicate Fresh(puts: set<RequestNode>)
      reads this, puts
    {
      forall n :: n in puts ==> n !in nodes && n.next == null && n.previous == null
    }

    /** A run of operations on the queue itself, in which no node is put twice, does what Run does to the sequence it
        represents. */
    method Replay(ops: seq<Op<RequestNode>>, ghost puts: set<RequestNode>) returns (taken: seq<RequestNode>)
      requires Valid() && puts == Values(ops) && OncePut(ops) && Fresh(puts)
      modifies this, nodes, puts
      ensures Valid() && (nodes, taken) == Run(old(nodes), ops)
      decreases |ops|
    {
      if ops == [] {
        return [];
      }
      ghost var rest := Values(ops[1..]);
      assert rest <= puts;
      assert nodes != [] ==> back == nodes[|nodes| - 1] && back in nodes;
      match ops[0]
      case Put(node) =>
        Enqueue(node);
        taken := Replay(ops[1..], rest);
      case Take =>
        var node := Dequeue();
        assert forall n :: n in nodes ==> n in old(nodes);
        taken := Replay(ops[1..], rest);
        if node != null {
          taken := [node] + taken;
        }
    }
  }

  // ------------------------------------------------------------------ runs of atomic operations

  datatype Op<T> = Put(value: T) | Take

  /** What the class methods do to the represented sequence, together with the nodes taken out so far. */
  function Run<T>(queue: seq<T>, ops: seq<Op<T>>): (seq<T>, seq<T>)
    decreases |ops|
  {
    if ops == [] then (queue, [])
    else
      match ops[0]
      case Put(value) => Run(queue + [value], ops[1..])
      case Take =>
        if queue == [] then Run(queue, ops[1..])
        else
          var (rest, taken) := Run(queue[1..], ops[1..]);
          (rest, [queue[0]] + taken)
  }

  function Values<T(==)>(ops: seq<Op<T>>): set<T> {
    if ops == [] then {} else (if ops[0].Put? then {ops[0].value} else {}) + Values(ops[1..])
  }

  /** No node is put twice. */
  predicate OncePut<T(==)>(ops: seq<Op<T>>) {
    ops == [] || (OncePut(ops[1..]) && (ops[0].Put? ==> ops[0].value !in Values(ops[1..])))
  }

  function Puts<T>(ops: seq<Op<T>>): seq<T> {
    if ops == [] then [] else (if ops[0].Put? then [ops[0].value] else []) + Puts(ops[1..])
  }

  /** Over any run, what was taken followed by what is left is what was there followed by what was put:
      dequeue order is enqueue order and no node is lost or duplicated. */
  lemma {:induction false} FirstInFirstOut<T>(queue: seq<T>, ops: seq<Op<T>>)
    ensures Run(queue, ops).1 + Run(queue, ops).0 == queue + Puts(ops)
    decreases |ops|
  {
    if ops != [] {
      match ops[0]
      case Put(value) => FirstInFirstOut(queue + [value], ops[1..]);
      case Take =>
        if queue == [] {
          FirstInFirstOut(queue, ops[1..]);
        } else {
          FirstInFirstOut(queue[1..], ops[1..]);
          var (rest, taken) := Run(queue[1..], ops[1..]);
          assert ([queue[0]] + taken) + rest == [queue[0]] + (taken + rest);
          assert [queue[0]] + (queue[1..] + Puts(ops)) == queue + Puts(ops);
        }
    }
  }
}
