/** The circular buffer of servers (circular.c) and the round-robin selection over it (`get_server` and
    `reset_servers` of round_robin.c).  The pointers head and tail are offsets into the current buffer.
    `acquire` and `release` make every method below one atomic step. */
module CircularBuffer {
  import Common
  import opened Servers
  import W = WeightedPattern

  // ------------------------------------------------------------------ modular arithmetic

  lemma ModUnique(x: nat, n: nat, q: nat, r: nat)
    requires r < n && x == q * n + r
    ensures x % n == r
  {
    var d := q - x / n;
    assert d * n == x % n - r;
    assert d >= 1 ==> d * n >= n;
    assert d <= -1 ==> d * n <= 0 - n;
  }

  lemma ModStep(x: nat, n: nat)
    requires n > 0
    ensures (x + 1) % n == if x % n + 1 == n then 0 else x % n + 1
  {
    var q, r := x / n, x % n;
    assert x == q * n + r;
    if r + 1 == n {
      assert x + 1 == (q + 1) * n + 0;
      ModUnique(x + 1, n, q + 1, 0);
    } else {
      ModUnique(x + 1, n, q, r + 1);
    }
  }

  lemma ModSmall(x: nat, n: nat)
    requires x < n
    ensures x % n == x
  {
  }

  /** Adding k < n to a position moves it k places, around the end at most once. */
  lemma {:induction false} ModAdd(p: nat, k: nat, n: nat)
    requires k <= n && n > 0
    ensures (p + k) % n == if p % n + k < n then p % n + k else p % n + k - n
  {
    if k > 0 {
      ModAdd(p, k - 1, n);
      ModStep(p + k - 1, n);
    }
  }

  /** k places behind position p, around the end of n places. */
  function Turn(p: nat, k: nat, n: nat): (i: nat)
    requires n > 0
    ensures i < n
  {
    (p + k) % n
  }

  lemma TurnOn(p: nat, k: nat, n: nat)
    requires n > 0
    ensures Turn(Turn(p, k, n), 1, n) == Turn(p, k + 1, n)
  {
    ModStep(p + k, n);
    ModStep((p + k) % n, n);
    ModSmall((p + k) % n, n);
  }

  // ------------------------------------------------------------------ one scan

  /** The k-th entry that get_server looks at: the entry under head first, then the ones after the position. */
  function Read(n: nat, head: nat, position: nat, k: nat): (i: nat)
    requires head < n
    ensures i < n
  {
    if k == 0 then head else Turn(position, k, n)
  }

  /** The number of unavailable entries the scan passes, from the k-th on; |b| if it finds none that is READY. */
  function FirstReady(b: seq<Server>, head: nat, position: nat, k: nat): (f: nat)
    requires head < |b| && k <= |b|
    ensures k <= f <= |b|
    decreases |b| - k
  {
    if k == |b| || b[Read(|b|, head, position, k)].status == READY then k
    else FirstReady(b, head, position, k + 1)
  }

  lemma {:induction false} FirstReadyMeaning(b: seq<Server>, head: nat, position: nat, k: nat)
    requires head < |b| && k <= |b|
    ensures var f := FirstReady(b, head, position, k);
            && (f < |b| ==> b[Read(|b|, head, position, f)].status == READY)
            && (forall j :: k <= j < f ==> b[Read(|b|, head, position, j)].status != READY)
    decreases |b| - k
  {
    if k < |b| {
      FirstReadyMeaning(b, head, position, k + 1);
    }
  }

  lemma ReadFirst(n: nat, head: nat, position: nat)
    requires head < n
    ensures Read(n, head, position, 0) == head
  {
  }

  lemma ReadNext(n: nat, head: nat, position: nat, k: nat)
    requires head < n && k > 0
    ensures Read(n, head, position, k) == Turn(position, k, n)
  {
  }

  lemma FirstReadyFrom(b: seq<Server>, head: nat, position: nat, k: nat)
    requires head < |b| && k < |b|
    ensures var entry := b[Read(|b|, head, position, k)];
            FirstReady(b, head, position, k)
            == if entry.status == READY then k else FirstReady(b, head, position, k + 1)
  {
  }

  lemma FirstReadyEnd(b: seq<Server>, head: nat, position: nat)
    requires head < |b|
    ensures FirstReady(b, head, position, |b|) == |b|
  {
  }

  // ------------------------------------------------------------------ the cursor

  datatype Cursor = Cursor(buffer: seq<Server>, position: nat, head: nat, tail: nat)

  datatype Op = Install(pattern: seq<Server>) | Select

  /** Both pointers are inside the buffer; the position may be left over from an older one. */
  predicate Inside(c: Cursor) { c.head < |c.buffer| && c.tail < |c.buffer| }

  /** One reset or one get_server as an atomic step. */
  function Step(c: Cursor, op: Op): Cursor
    requires Inside(c)
  {
    match op
    case Install(pattern) => if pattern == [] then c else Cursor(pattern, c.position, 0, |pattern| - 1)
    case Select =>
      var n, f := |c.buffer|, FirstReady(c.buffer, c.head, c.position, 0);
      var next := Turn(c.position, f + 1, n);
      Cursor(c.buffer, next, next, Read(n, c.head, c.position, f))
  }

  /** The server that get_server returns: the entry it stops at, marked BROKEN if no entry it looked at is READY. */
  function Handed(c: Cursor): Server
    requires Inside(c)
  {
    var entry := c.buffer[Step(c, Select).tail];
    if FirstReady(c.buffer, c.head, c.position, 0) < |c.buffer| then entry else entry.(status := BROKEN)
  }

  lemma Selected(c: Cursor, f: nat)
    requires Inside(c) && f == FirstReady(c.buffer, c.head, c.position, 0)
    ensures var i, next := Read(|c.buffer|, c.head, c.position, f), Turn(c.position, f + 1, |c.buffer|);
            && Step(c, Select) == Cursor(c.buffer, next, next, i)
            && Handed(c) == if f < |c.buffer| then c.buffer[i] else c.buffer[i].(status := BROKEN)
  {
  }

  class Circular {
    var buffer: seq<Server>
    var bufferPosition: nat
    var bufferLen: nat
    var head: nat
    var tail: nat
    var live: bool  // the memory of the buffer has not been freed

    /** A buffer is in place and both pointers are inside it; the position may be left over from an older one. */
    predicate Valid()
      reads this
    {
      live && bufferLen == |buffer| > 0 && head < bufferLen && tail < bufferLen
    }

    function Snapshot(): Cursor
      reads this
    {
      Cursor(buffer, bufferPosition, head, tail)
    }

    constructor ()
      ensures buffer == [] && bufferPosition == 0 && !live
    {
      buffer, bufferPosition, live := [], 0, false;
      bufferLen, head, tail := 0, 0, 0;
    }

    /** Installs a new pattern.  head and tail are reset, buffer_position is not. */
    method AllocateBuffer(servers: seq<Server>) returns (ok: bool)
      modifies this
      ensures ok <==> servers != []
      ensures ok ==> Valid() && buffer == servers && head == 0 && tail == |servers| - 1
      ensures Inside(old(Snapshot())) ==> Snapshot() == Step(old(Snapshot()), Install(servers))
      ensures bufferPosition == old(bufferPosition)
      ensures !ok ==> buffer == old(buffer) && bufferLen == old(bufferLen) && head == old(head) && tail == old(tail)
      ensures !ok ==> live == old(live)
    {
      if servers == [] {
        return false;
      }
      buffer := servers;
      bufferLen := |servers|;
      head := 0;
      tail := |servers| - 1;
      live := true;
      ok := true;
    }

    method Progress()
      requires Valid()
      modifies `tail, `head, `bufferPosition
      ensures Valid() && tail == old(head)
      ensures head == bufferPosition == Turn(old(bufferPosition), 1, bufferLen)
    {
      tail := head;
      bufferPosition := (bufferPosition + 1) % bufferLen;
      head := bufferPosition;
    }

    /** get_server: the first READY entry of at most bufferLen looked at, or a copy marked BROKEN.  Whatever
        the position was before, head and position agree afterwards. */
    method GetServer() returns (server: Server)
      requires Valid()
      modifies `tail, `head, `bufferPosition
      ensures Valid() && Snapshot() == Step(old(Snapshot()), Select) && server == Handed(old(Snapshot()))
      ensures var f := FirstReady(buffer, old(head), old(bufferPosition), 0);
              && tail == Read(bufferLen, old(head), old(bufferPosition), f)
              && server == (if f < bufferLen then buffer[tail] else buffer[tail].(status := BROKEN))
              && head == bufferPosition == Turn(old(bufferPosition), f + 1, bufferLen)
    {
      ghost var h, p := head, bufferPosition;
      hide Read, FirstReady, Turn, Step, Handed;
      ReadFirst(bufferLen, h, p);
      FirstReadyFrom(buffer, h, p, 0);
      FirstReadyEnd(buffer, h, p);
      Progress();
      server := buffer[tail];
      var notAvailable := 0;
      while server.status != READY
        invariant Valid() && notAvailable < bufferLen
        invariant tail == Read(bufferLen, h, p, notAvailable) && server == buffer[tail]
        invariant head == bufferPosition == Turn(p, notAvailable + 1, bufferLen)
        invariant FirstReady(buffer, h, p, 0)
               == if server.status == READY then notAvailable else FirstReady(buffer, h, p, notAvailable + 1)
        decreases bufferLen - notAvailable
      {
        TurnOn(p, notAvailable + 1, bufferLen);
        ReadNext(bufferLen, h, p, notAvailable + 1);
        Progress();
        server := buffer[tail];
        notAvailable := notAvailable + 1;
        if notAvailable == bufferLen {
          server := server.(status := BROKEN);
          break;
        }
        FirstReadyFrom(buffer, h, p, notAvailable);
      }
      Selected(old(Snapshot()), notAvailable);
    }
  }

  // ------------------------------------------------------------------ successive calls with fixed statuses

  /** The READY indices in lo .. hi-1, in order. */
  function ReadyIn(b: seq<Server>, lo: nat, hi: nat): seq<nat>
    requires hi <= |b|
    decreases hi - lo
  {
    if lo >= hi then [] else (if b[lo].status == READY then [lo] else []) + ReadyIn(b, lo + 1, hi)
  }

  /** The READY indices in cyclic order, starting at p. */
  function ReadyFrom(b: seq<Server>, p: nat): seq<nat>
    requires p <= |b|
  {
    ReadyIn(b, p, |b|) + ReadyIn(b, 0, p)
  }

  /** The READY indices still ahead of a scan that started at p and is about to look at its k-th entry. */
  function Ahead(b: seq<Server>, p: nat, k: nat): seq<nat>
    requires p < |b| && k <= |b|
  {
    if p + k < |b| then ReadyIn(b, p + k, |b|) + ReadyIn(b, 0, p) else ReadyIn(b, p + k - |b|, p)
  }

  /** `(p + k) % n` for a position and a step that are both below n. */
  function Wrap(p: nat, k: nat, n: nat): nat
    requires p < n && k < n
  {
    if p + k < n then p + k else p + k - n
  }

  lemma ReadIsWrap(n: nat, p: nat, k: nat)
    requires p < n && k < n
    ensures Read(n, p, p, k) == Wrap(p, k, n)
  {
    ModAdd(p, k, n);
    ModSmall(p, n);
  }

  lemma ReadyInUnfolds(b: seq<Server>, lo: nat, hi: nat)
    requires hi <= |b|
    ensures ReadyIn(b, lo, hi) ==
            if lo >= hi then [] else (if b[lo].status == READY then [lo] else []) + ReadyIn(b, lo + 1, hi)
  {
  }

  lemma AheadStep(b: seq<Server>, p: nat, k: nat)
    requires p < |b| && k < |b|
    ensures var i := Wrap(p, k, |b|);
            Ahead(b, p, k) == (if b[i].status == READY then [i] else []) + Ahead(b, p, k + 1)
  {
    hide ReadyIn;
    var i := Wrap(p, k, |b|);
    var first: seq<nat> := if b[i].status == READY then [i] else [];
    if p + k < |b| {
      ReadyInUnfolds(b, i, |b|);
      ReadyInUnfolds(b, |b|, |b|);
      assert (first + ReadyIn(b, i + 1, |b|)) + ReadyIn(b, 0, p) == first + (ReadyIn(b, i + 1, |b|) + ReadyIn(b, 0, p));
    } else {
      ReadyInUnfolds(b, i, p);
    }
  }

  lemma FirstReadyStep(b: seq<Server>, p: nat, k: nat)
    requires p < |b| && k < |b|
    ensures var f := FirstReady(b, p, p, k);
            if b[Wrap(p, k, |b|)].status == READY then f == k && Read(|b|, p, p, f) == Wrap(p, k, |b|)
            else f == FirstReady(b, p, p, k + 1)
  {
    ReadIsWrap(|b|, p, k);
  }

  /** The scan returns the first of the entries ahead of it. */
  lemma {:induction false} ScanFollowsCycle(b: seq<Server>, p: nat, k: nat)
    requires p < |b| && k <= |b|
    ensures Ahead(b, p, k) == [] ==> FirstReady(b, p, p, k) == |b|
    ensures Ahead(b, p, k) != [] ==>
              FirstReady(b, p, p, k) < |b| && Read(|b|, p, p, FirstReady(b, p, p, k)) == Ahead(b, p, k)[0]
    decreases |b| - k
  {
    hide Read, ReadyIn;
    if k == |b| {
      assert Ahead(b, p, k) == [] by { NothingIn(b, p); }
    } else {
      AheadStep(b, p, k);
      FirstReadyStep(b, p, k);
      hide FirstReady, Ahead, Wrap;
      ScanFollowsCycle(b, p, k + 1);
    }
  }

  lemma NothingIn(b: seq<Server>, p: nat)
    requires p <= |b|
    ensures ReadyIn(b, p, p) == []
  {
  }

  /** The position just behind entry i. */
  function NextPosition(n: nat, i: nat): nat { if i + 1 == n then 0 else i + 1 }

  lemma {:induction false} ReadyInCount(b: seq<Server>, lo: nat, hi: nat, i: nat)
    requires hi <= |b|
    ensures multiset(ReadyIn(b, lo, hi))[i] == if lo <= i < hi && b[i].status == READY then 1 else 0
    decreases hi - lo
  {
    hide ReadyIn;
    if lo >= hi {
      ReadyInUnfolds(b, lo, hi);
    } else {
      ReadyInUnfolds(b, lo, hi);
      ReadyInCount(b, lo + 1, hi, i);
      var first := if b[lo].status == READY then [lo] else [];
      assert multiset(first + ReadyIn(b, lo + 1, hi)) == multiset(first) + multiset(ReadyIn(b, lo + 1, hi));
    }
  }

  /** Every READY entry occurs once in the cyclic order, wherever it starts. */
  lemma ReadyFromCount(b: seq<Server>, p: nat, i: nat)
    requires p <= |b|
    ensures multiset(ReadyFrom(b, p))[i] == if i < |b| && b[i].status == READY then 1 else 0
  {
    ReadyInCount(b, p, |b|, i);
    ReadyInCount(b, 0, p, i);
    assert multiset(ReadyFrom(b, p)) == multiset(ReadyIn(b, p, |b|)) + multiset(ReadyIn(b, 0, p));
  }

  lemma ReadyFromEmptyIff(b: seq<Server>, p: nat)
    requires p <= |b|
    ensures ReadyFrom(b, p) != [] <==> exists i :: 0 <= i < |b| && b[i].status == READY
    ensures forall i :: 0 <= i < |ReadyFrom(b, p)| ==> ReadyFrom(b, p)[i] < |b|
  {
    var l := ReadyFrom(b, p);
    forall i | 0 <= i < |l|
      ensures l[i] < |b| && b[l[i]].status == READY
    {
      ReadyFromCount(b, p, l[i]);
      assert l[i] in multiset(l);
    }
    forall i | 0 <= i < |b| && b[i].status == READY
      ensures i in multiset(l)
    {
      ReadyFromCount(b, p, i);
    }
    if l != [] {
      assert b[l[0]].status == READY;
    }
  }

  /** With head and position in agreement, one call returns the next READY entry in cyclic order and stops just
      behind it; it reports BROKEN if and only if no entry is READY, and has gone round once to where it started. */
  lemma AgreedCall(b: seq<Server>, p: nat)
    requires p < |b|
    ensures var f := FirstReady(b, p, p, 0);
            && (f < |b| <==> ReadyFrom(b, p) != [])
            && (f < |b| <==> exists i :: 0 <= i < |b| && b[i].status == READY)
            && (f < |b| ==> Read(|b|, p, p, f) == ReadyFrom(b, p)[0] < |b|)
            && (f == |b| ==> Read(|b|, p, p, f) == p)
            && (p + f + 1) % |b| == NextPosition(|b|, if f < |b| then ReadyFrom(b, p)[0] else p)
  {
    var n, f := |b|, FirstReady(b, p, p, 0);
    ScanFollowsCycle(b, p, 0);
    ReadyFromEmptyIff(b, p);
    assert Ahead(b, p, 0) == ReadyFrom(b, p);
    if f < n {
      ReadIsWrap(n, p, f);
    } else {
      ReadNext(n, p, p, f);
    }
    hide Read, FirstReady;
    ModAdd(p, f, n);
    ModSmall(p, n);
    ModStep(p + f, n);
  }

  lemma {:induction false} SplitReady(b: seq<Server>, lo: nat, mid: nat, hi: nat)
    requires lo <= mid <= hi <= |b|
    ensures ReadyIn(b, lo, hi) == ReadyIn(b, lo, mid) + ReadyIn(b, mid, hi)
    decreases mid - lo
  {
    if lo < mid {
      SplitReady(b, lo + 1, mid, hi);
    }
  }

  lemma {:induction false} FirstOfReady(b: seq<Server>, lo: nat, hi: nat)
    requires hi <= |b| && ReadyIn(b, lo, hi) != []
    ensures var t := ReadyIn(b, lo, hi)[0];
            lo <= t < hi && ReadyIn(b, lo, t) == [] && ReadyIn(b, lo, t + 1) == [t]
            && ReadyIn(b, lo, hi) == [t] + ReadyIn(b, t + 1, hi)
    decreases hi - lo
  {
    if b[lo].status != READY {
      FirstOfReady(b, lo + 1, hi);
    }
  }

  function Rotate(l: seq<nat>): seq<nat>
    requires l != []
  {
    l[1..] + [l[0]]
  }

  /** After a call the cyclic order has turned by one. */
  lemma CallRotates(b: seq<Server>, p: nat)
    requires p < |b| && ReadyFrom(b, p) != []
    ensures ReadyFrom(b, p)[0] < |b|
    ensures ReadyFrom(b, NextPosition(|b|, ReadyFrom(b, p)[0])) == Rotate(ReadyFrom(b, p))
  {
    hide ReadyIn;
    var n, late, early := |b|, ReadyIn(b, p, |b|), ReadyIn(b, 0, p);
    ReadyInUnfolds(b, n, n);
    ReadyInUnfolds(b, 0, 0);
    if late != [] {
      FirstOfReady(b, p, n);
      var t := late[0];
      SplitReady(b, 0, p, t + 1);
      assert ReadyFrom(b, t + 1) == Rotate(ReadyFrom(b, p));
      assert ReadyFrom(b, n) == ReadyIn(b, 0, n) == ReadyFrom(b, 0);
    } else {
      FirstOfReady(b, 0, p);
      var t := early[0];
      SplitReady(b, t + 1, p, n);
      assert ReadyFrom(b, t + 1) == Rotate(ReadyFrom(b, p));
    }
  }

  /** The indices returned by m successive calls of get_server, with head and position both at p. */
  function Calls(b: seq<Server>, p: nat, m: nat): (c: seq<nat>)
    requires p < |b|
    ensures |c| == m && forall k :: 0 <= k < m ==> c[k] < |b|
    decreases m
  {
    if m == 0 then []
    else
      var f := FirstReady(b, p, p, 0);
      [Read(|b|, p, p, f)] + Calls(b, (p + f + 1) % |b|, m - 1)
  }

  /** Walking m steps along a ring. */
  function Walk(l: seq<nat>, m: nat): (c: seq<nat>)
    requires l != []
    ensures |c| == m
    decreases m
  {
    if m == 0 then [] else [l[0]] + Walk(Rotate(l), m - 1)
  }

  lemma {:induction false} CallsWalk(b: seq<Server>, p: nat, m: nat)
    requires p < |b| && ReadyFrom(b, p) != []
    ensures Calls(b, p, m) == Walk(ReadyFrom(b, p), m)
    decreases m
  {
    hide ReadyFrom, FirstReady, Read;
    if m > 0 {
      AgreedCall(b, p);
      CallRotates(b, p);
      CallsWalk(b, NextPosition(|b|, ReadyFrom(b, p)[0]), m - 1);
    }
  }

  function RotateBy(l: seq<nat>, m: nat): (r: seq<nat>)
    requires l != []
    ensures r != []
    decreases m
  {
    if m == 0 then l else RotateBy(Rotate(l), m - 1)
  }

  lemma {:induction false} WalkSplits(l: seq<nat>, m: nat, k: nat)
    requires l != []
    ensures Walk(l, m + k) == Walk(l, m) + Walk(RotateBy(l, m), k)
    decreases m
  {
    if m > 0 {
      WalkSplits(Rotate(l), m - 1, k);
    }
  }

  lemma {:induction false} WalkRound(l: seq<nat>, m: nat)
    requires l != [] && m <= |l|
    ensures Walk(l, m) == l[..m] && RotateBy(l, m) == l[m..] + l[..m]
    decreases m
  {
    if m > 0 {
      WalkRound(Rotate(l), m - 1);
      RotatedParts(l, m);
    }
  }

  lemma RotatedParts(l: seq<nat>, m: nat)
    requires 0 < m <= |l|
    ensures var r := Rotate(l);
            && [l[0]] + r[..m - 1] == l[..m]
            && r[m - 1..] + r[..m - 1] == l[m..] + l[..m]
  {
    var r := Rotate(l);
    assert r[..m - 1] == l[1..m];
    assert r[m - 1..] == l[m..] + [l[0]];
  }

  lemma {:induction false} RotationIsPermutation(l: seq<nat>, m: nat)
    requires l != []
    ensures multiset(RotateBy(l, m)) == multiset(l) && |RotateBy(l, m)| == |l|
    decreases m
  {
    if m > 0 {
      assert l == [l[0]] + l[1..];
      RotationIsPermutation(Rotate(l), m - 1);
    }
  }

  /** Any full turn of a walk along a ring is a rotation of it, and the step after it repeats its first. */
  lemma RingWindow(l: seq<nat>, a: nat)
    requires l != []
    ensures Walk(l, a + |l|)[a..] == RotateBy(l, a)
    ensures Walk(l, a + (|l| + 1))[a + |l|] == Walk(l, a + (|l| + 1))[a]
  {
    hide Walk, RotateBy;
    var r, turned, start := |l|, RotateBy(l, a), Walk(l, a);
    WalkSplits(l, a, r);
    WalkSplits(l, a, r + 1);
    RotationIsPermutation(l, a);
    WalkFullTurn(turned);
    assert Walk(l, a + r) == start + turned;
    assert Walk(l, a + (r + 1)) == start + (turned + [turned[0]]);
  }

  lemma WalkFullTurn(l: seq<nat>)
    requires l != []
    ensures Walk(l, |l|) == l && Walk(l, |l| + 1) == l + [l[0]]
  {
    hide Walk, RotateBy;
    WalkRound(l, |l|);
    WalkSplits(l, |l|, 1);
    assert l[..|l|] == l && l[|l|..] + l[..|l|] == l;
    WalkOne(l);
  }

  lemma WalkOne(l: seq<nat>)
    requires l != []
    ensures Walk(l, 1) == [l[0]]
  {
  }

  /** With statuses fixed, whatever the start: among any r successive calls, r the number of READY entries, each
      READY entry is returned exactly once and no other, and the call after them returns the first one again. */
  lemma EveryReadyOncePerRound(b: seq<Server>, p: nat, a: nat, i: nat)
    requires p < |b| && ReadyFrom(b, p) != []
    ensures var r := |ReadyFrom(b, p)|;
            && multiset(Calls(b, p, a + r)[a..])[i] == (if i < |b| && b[i].status == READY then 1 else 0)
            && Calls(b, p, a + (r + 1))[a + r] == Calls(b, p, a + (r + 1))[a]
  {
    hide Walk, Calls, ReadyFrom, RotateBy;
    var l := ReadyFrom(b, p);
    CallsWalk(b, p, a + |l|);
    CallsWalk(b, p, a + (|l| + 1));
    ReadyFromCount(b, p, i);
    RingWindow(l, a);
    RotationIsPermutation(l, a);
  }

  // ------------------------------------------------------------------ weighted share

  predicate AllReady(b: seq<Server>) { forall i :: 0 <= i < |b| ==> b[i].status == READY }

  /** The pool indices behind a list of buffer indices. */
  function Through(taken: seq<nat>, c: seq<nat>): (t: seq<nat>)
    requires forall k :: 0 <= k < |c| ==> c[k] < |taken|
    ensures |t| == |c| && forall k :: 0 <= k < |c| ==> t[k] == taken[c[k]]
  {
    seq(|c|, k requires 0 <= k < |c| => taken[c[k]])
  }

  function Range(lo: nat, hi: nat): (r: seq<nat>)
    requires lo <= hi
    ensures |r| == hi - lo && forall k :: 0 <= k < |r| ==> r[k] == lo + k
  {
    seq(hi - lo, k requires 0 <= k < hi - lo => lo + k)
  }

  lemma {:induction false} AllReadyIn(b: seq<Server>, lo: nat, hi: nat)
    requires AllReady(b) && lo <= hi <= |b|
    ensures ReadyIn(b, lo, hi) == Range(lo, hi)
    decreases hi - lo
  {
    hide ReadyIn, Range;
    ReadyInUnfolds(b, lo, hi);
    if lo < hi {
      AllReadyIn(b, lo + 1, hi);
      assert Range(lo, hi) == [lo] + Range(lo + 1, hi);
    }
  }

  /** Calls with as many READY entries as there are return them in cyclic order. */
  lemma FullTurn(b: seq<Server>, p: nat)
    requires p < |b|
    ensures Calls(b, p, |ReadyFrom(b, p)|) == ReadyFrom(b, p)
  {
    hide ReadyFrom, Walk;
    var l := ReadyFrom(b, p);
    if l != [] {
      CallsWalk(b, p, |l|);
      WalkFullTurn(l);
    }
  }

  lemma ReadyInBounds(b: seq<Server>, lo: nat, hi: nat)
    requires hi <= |b|
    ensures forall k :: 0 <= k < |ReadyIn(b, lo, hi)| ==> ReadyIn(b, lo, hi)[k] < |b|
    decreases hi - lo
  {
    hide ReadyIn;
    ReadyInUnfolds(b, lo, hi);
    if lo < hi {
      ReadyInBounds(b, lo + 1, hi);
    }
  }

  lemma ThroughCons(taken: seq<nat>, k: nat, c: seq<nat>)
    requires k < |taken| && forall j :: 0 <= j < |c| ==> c[j] < |taken|
    ensures forall j :: 0 <= j < |[k] + c| ==> ([k] + c)[j] < |taken|
    ensures Through(taken, [k] + c) == [taken[k]] + Through(taken, c)
  {
  }

  lemma CountCons(x: nat, s: seq<nat>, i: nat)
    ensures multiset([x] + s)[i] == (if x == i then 1 else 0) + multiset(s)[i]
  {
    assert multiset([x] + s) == multiset([x]) + multiset(s);
  }

  /** Of a stretch of the buffer, the READY copies of pool server i. */
  lemma {:induction false} ReadyThrough(b: seq<Server>, taken: seq<nat>, lo: nat, hi: nat, i: nat, ready: bool)
    requires lo <= hi <= |b| == |taken|
    requires forall k :: 0 <= k < |b| && taken[k] == i ==> (b[k].status == READY <==> ready)
    ensures forall k :: 0 <= k < |ReadyIn(b, lo, hi)| ==> ReadyIn(b, lo, hi)[k] < |b|
    ensures multiset(Through(taken, ReadyIn(b, lo, hi)))[i] == if ready then multiset(taken[lo..hi])[i] else 0
    decreases hi - lo
  {
    hide ReadyIn, Through;
    ReadyInBounds(b, lo, hi);
    ReadyInUnfolds(b, lo, hi);
    if lo < hi {
      ReadyThrough(b, taken, lo + 1, hi, i, ready);
      var rest := ReadyIn(b, lo + 1, hi);
      assert taken[lo..hi] == [taken[lo]] + taken[lo + 1..hi];
      CountCons(taken[lo], taken[lo + 1..hi], i);
      if b[lo].status == READY {
        ThroughCons(taken, lo, rest);
        CountCons(taken[lo], Through(taken, rest), i);
      } else {
        assert [] + rest == rest;
      }
    } else {
      assert taken[lo..hi] == [];
    }
  }

  lemma ReadyFromThrough(b: seq<Server>, taken: seq<nat>, p: nat, i: nat, ready: bool)
    requires p < |b| == |taken|
    requires forall k :: 0 <= k < |b| && taken[k] == i ==> (b[k].status == READY <==> ready)
    ensures forall k :: 0 <= k < |ReadyFrom(b, p)| ==> ReadyFrom(b, p)[k] < |b|
    ensures multiset(Through(taken, ReadyFrom(b, p)))[i] == if ready then multiset(taken)[i] else 0
  {
    hide ReadyIn;
    var late, early := ReadyIn(b, p, |b|), ReadyIn(b, 0, p);
    ReadyThrough(b, taken, p, |b|, i, ready);
    ReadyThrough(b, taken, 0, p, i, ready);
    assert Through(taken, late + early) == Through(taken, late) + Through(taken, early);
    assert taken == taken[0..p] + taken[p..|b|];
    assert multiset(taken) == multiset(taken[0..p]) + multiset(taken[p..|b|]);
  }

  /** Weighted share, end to end.  `pool` is the pool at a reset that went through, `pattern` the buffer it
      installed, `taken` the pool index behind each entry.  From any position, as many successive calls as there are
      READY entries return each READY pool server exactly its weight in times, and no other. */
  lemma WeightedShare(pool: seq<Server>, sorted: seq<Server>, pattern: seq<Server>, weightSum: int, fuel: nat,
                      p: nat, i: nat)
    requires |pool| >= 1 && W.AllPositive(Weights(pool))
    requires multiset(sorted) == multiset(pool) && Sum(Weights(sorted)) == Sum(Weights(pool))
    requires Sorted(pool) ==> sorted == pool
    requires weightSum >= Sum(Weights(pool)) && (weightSum == Sum(Weights(pool)) <==> Sorted(pool))
    requires W.Laid(pattern, true, sorted, weightSum, fuel)
    requires i < |pool| && p < |pattern|
    ensures var q := W.SpinFor(Weights(pool), weightSum, fuel);
            var taken := W.Emitted(Weights(pool), q.r, q.s);
            var ready := |ReadyFrom(pattern, p)|;
            && |taken| == |pattern| == weightSum
            && (forall k :: 0 <= k < |pattern| ==>
                  && taken[k] < |pool|
                  && pattern[k].ip == pool[taken[k]].ip && pattern[k].address == pool[taken[k]].address)
            && multiset(Through(taken, Calls(pattern, p, ready)))[i]
               == (if pool[i].status == READY then pool[i].weight else 0)
            && (AllReady(pool) ==> ready == |pattern|)
  {
    hide W.SpinFor, W.Emitted, W.Supply, W.Laid, W.AllPositive, Sum, Sorted, AllReady, Calls, ReadyFrom, Through;
    LaidMeansSorted(pool, sorted, pattern, weightSum, fuel);
    var ws := Weights(pool);
    var q := W.SpinFor(ws, weightSum, fuel);
    var taken := W.Emitted(ws, q.r, q.s);
    LaidPattern(pool, pattern, weightSum, fuel);
    W.SupplyIsSum(ws);
    W.HaltedPatternIsWeighted(ws, fuel, i);
    PositiveWeight(pool, i);
    FullTurn(pattern, p);
    ReadyFromThrough(pattern, taken, p, i, pool[i].status == READY);
    if AllReady(pool) {
      ReadyFromAll(pattern, p);
    }
  }

  /** A pattern can only have been laid completely if the pool was sorted before. */
  lemma LaidMeansSorted(pool: seq<Server>, sorted: seq<Server>, pattern: seq<Server>, weightSum: int, fuel: nat)
    requires |pool| >= 1 && W.AllPositive(Weights(pool))
    requires multiset(sorted) == multiset(pool) && Sum(Weights(sorted)) == Sum(Weights(pool))
    requires weightSum >= Sum(Weights(pool)) && (weightSum == Sum(Weights(pool)) <==> Sorted(pool))
    requires W.Laid(pattern, true, sorted, weightSum, fuel)
    ensures Sorted(pool)
  {
    hide W.SpinFor, W.Emitted, W.AllPositive, Sum, Sorted, W.IsPattern;
    W.WeightServersTerminatesIff(pool, sorted, weightSum);
    assert W.SpinFor(Weights(sorted), weightSum, fuel).halted;
  }

  /** What a completely laid pattern copies from the pool. */
  lemma LaidPattern(pool: seq<Server>, pattern: seq<Server>, weightSum: int, fuel: nat)
    requires W.Laid(pattern, true, pool, weightSum, fuel)
    ensures var q := W.SpinFor(Weights(pool), weightSum, fuel);
            var taken := W.Emitted(Weights(pool), q.r, q.s);
            && q.halted && |taken| == |pattern|
            && (forall k :: 0 <= k < |pattern| ==>
                  && taken[k] < |pool| && pattern[k].status == pool[taken[k]].status
                  && pattern[k].ip == pool[taken[k]].ip && pattern[k].address == pool[taken[k]].address)
            && (AllReady(pool) ==> AllReady(pattern))
  {
    hide W.SpinFor, W.Emitted;
  }

  lemma PositiveWeight(pool: seq<Server>, i: nat)
    requires i < |pool| && W.AllPositive(Weights(pool))
    ensures W.Positive(Weights(pool)[i]) == pool[i].weight >= 1
  {
  }

  // ------------------------------------------------------------------ the seam after a reset

  predicate HasReady(b: seq<Server>) { exists i :: 0 <= i < |b| && b[i].status == READY }

  /** The entries that the first scan after a reset looks at, with a position p left over from the old buffer. */
  predicate Tested(n: nat, p: nat, i: nat)
    requires n > 0
  {
    exists k :: 0 <= k < n && Read(n, 0, p, k) == i
  }

  lemma SeamReads(n: nat, p: nat, k: nat)
    requires 0 < k < n
    ensures Read(n, 0, p, k) == Wrap(p % n, k, n) && Read(n, 0, p, k) != p % n
  {
    ModAdd(p, k, n);
  }

  /** The first scan after a reset looks at every entry except p % n, unless that is entry 0. */
  lemma SeamTestsIff(n: nat, p: nat, i: nat)
    requires i < n
    ensures Tested(n, p, i) <==> i != p % n || p % n == 0
  {
    var m := p % n;
    if i == 0 {
      assert Read(n, 0, p, 0) == i;
    } else if i == m {
      forall k | 0 < k < n
        ensures Read(n, 0, p, k) != i
      {
        SeamReads(n, p, k);
      }
    } else {
      var k := if i > m then i - m else i - m + n;
      SeamReads(n, p, k);
      assert Read(n, 0, p, k) == i;
    }
  }

  lemma SeamFindsIff(b: seq<Server>, p: nat)
    requires b != []
    ensures FirstReady(b, 0, p, 0) < |b| <==> exists i :: 0 <= i < |b| && b[i].status == READY && Tested(|b|, p, i)
  {
    var f := FirstReady(b, 0, p, 0);
    FirstReadyMeaning(b, 0, p, 0);
    if f < |b| {
      assert Tested(|b|, p, Read(|b|, 0, p, f));
    }
    forall i | 0 <= i < |b| && b[i].status == READY && Tested(|b|, p, i)
      ensures f < |b|
    {
      var k :| 0 <= k < |b| && Read(|b|, 0, p, k) == i;
    }
  }

  /** A buffer of n servers of which only the i-th is READY. */
  function OnlyReady(n: nat, i: nat): (b: seq<Server>)
    ensures |b| == n && forall k :: 0 <= k < n ==> b[k].status == if k == i then READY else BROKEN
  {
    seq(n, k => Server("", "", 1, if k == i then READY else BROKEN))
  }

  /** After a reset to a buffer of n entries with a left-over position p, the first get_server finds a READY
      entry whenever there is one if and only if p is a multiple of n. */
  lemma FirstScanIsCompleteIff(n: nat, p: nat)
    requires n > 0
    ensures (forall b: seq<Server> :: |b| == n && HasReady(b) ==> FirstReady(b, 0, p, 0) < n) <==> p % n == 0
  {
    forall b: seq<Server> | |b| == n && HasReady(b) && p % n == 0
      ensures FirstReady(b, 0, p, 0) < n
    {
      var i :| 0 <= i < |b| && b[i].status == READY;
      SeamTestsIff(n, p, i);
      SeamFindsIff(b, p);
    }
    if p % n != 0 {
      var b := OnlyReady(n, p % n);
      assert b[p % n].status == READY && HasReady(b);
      SeamTestsIff(n, p, p % n);
      SeamFindsIff(b, p);
      assert !(FirstReady(b, 0, p, 0) < n);
    }
  }

  // ------------------------------------------------------------------ runs of resets and selections

  function Run(c: Cursor, ops: seq<Op>): Cursor
    requires Inside(c)
    decreases |ops|
  {
    if ops == [] then c
    else
      StepInside(c, ops[0]);
      Run(Step(c, ops[0]), ops[1..])
  }

  lemma StepInside(c: Cursor, op: Op)
    requires Inside(c)
    ensures Inside(Step(c, op))
    ensures op.Select? ==> Step(c, op).head == Step(c, op).position && Step(c, op).buffer == c.buffer
  {
  }

  lemma {:induction false} RunInside(c: Cursor, ops: seq<Op>, last: Op)
    requires Inside(c)
    ensures Inside(Run(c, ops)) && Run(c, ops + [last]) == Step(Run(c, ops), last)
    decreases |ops|
  {
    if ops == [] {
      assert (ops + [last])[1..] == [];
    } else {
      StepInside(c, ops[0]);
      assert (ops + [last])[1..] == ops[1..] + [last];
      RunInside(Step(c, ops[0]), ops[1..], last);
    }
  }

  /** After any run of resets and selections that ends with a selection, head and tail are inside the current buffer,
      head and position agree, and the next selection finds a READY entry if and only if there is one. */
  lemma SelectionHealsTheSeam(c: Cursor, ops: seq<Op>)
    requires Inside(c)
    ensures var d := Run(c, ops + [Select]);
            && Inside(d) && d.head == d.position
            && (FirstReady(d.buffer, d.head, d.position, 0) < |d.buffer| <==> HasReady(d.buffer))
  {
    RunInside(c, ops, Select);
    var e := Run(c, ops);
    StepInside(e, Select);
    AgreedCall(e.buffer, Step(e, Select).head);
  }

  /** The buffer indices that m successive selections return. */
  function Selections(c: Cursor, m: nat): (s: seq<nat>)
    requires Inside(c)
    ensures |s| == m && forall k :: 0 <= k < m ==> s[k] < |c.buffer|
    decreases m
  {
    if m == 0 then []
    else
      StepInside(c, Select);
      [Step(c, Select).tail] + Selections(Step(c, Select), m - 1)
  }

  /** The servers that m successive selections hand out. */
  function HandedOut(c: Cursor, m: nat): (s: seq<Server>)
    requires Inside(c)
    ensures |s| == m
    decreases m
  {
    if m == 0 then []
    else
      StepInside(c, Select);
      [Handed(c)] + HandedOut(Step(c, Select), m - 1)
  }

  /** With an agreed cursor and a READY entry these are the entries of the calls, and all of them are READY. */
  lemma {:induction false} HandedOutIsReady(c: Cursor, m: nat)
    requires Inside(c) && c.head == c.position && HasReady(c.buffer)
    ensures forall k :: 0 <= k < m ==>
              HandedOut(c, m)[k] == c.buffer[Calls(c.buffer, c.head, m)[k]] && HandedOut(c, m)[k].status == READY
    decreases m
  {
    hide FirstReady, Read, HasReady, Handed;
    if m > 0 {
      StepInside(c, Select);
      AgreedHanded(c);
      var d := Step(c, Select);
      HandedOutIsReady(d, m - 1);
      assert HandedOut(c, m) == [Handed(c)] + HandedOut(d, m - 1);
      assert Calls(c.buffer, c.head, m) == [d.tail] + Calls(c.buffer, d.head, m - 1);
    }
  }

  lemma AgreedHanded(c: Cursor)
    requires Inside(c) && c.head == c.position && HasReady(c.buffer)
    ensures Handed(c) == c.buffer[Step(c, Select).tail] && Handed(c).status == READY
  {
    hide Read, FirstReady;
    AgreedCall(c.buffer, c.head);
    FirstReadyMeaning(c.buffer, c.head, c.position, 0);
  }

  lemma {:induction false} SelectionsAreCalls(c: Cursor, m: nat)
    requires Inside(c) && c.head == c.position
    ensures Selections(c, m) == Calls(c.buffer, c.head, m)
    decreases m
  {
    if m > 0 {
      StepInside(c, Select);
      SelectionsAreCalls(Step(c, Select), m - 1);
    }
  }

  /** The buffer indices of the servers that m successive selections hand out as READY. */
  function ReadySelections(c: Cursor, m: nat): (s: seq<nat>)
    requires Inside(c)
    ensures |s| <= m && forall k :: 0 <= k < |s| ==> s[k] < |c.buffer|
    decreases m
  {
    if m == 0 then []
    else
      StepInside(c, Select);
      (if Handed(c).status == READY then [Step(c, Select).tail] else []) + ReadySelections(Step(c, Select), m - 1)
  }

  /** One selection hands out a READY server exactly when its scan ends before it has looked at everything. */
  lemma HandedReadyIff(c: Cursor)
    requires Inside(c)
    ensures Handed(c).status == READY <==> FirstReady(c.buffer, c.head, c.position, 0) < |c.buffer|
  {
    FirstReadyMeaning(c.buffer, c.head, c.position, 0);
    hide FirstReady, Read;
  }

  lemma {:induction false} AgreedSelections(c: Cursor, m: nat)
    requires Inside(c) && c.head == c.position && HasReady(c.buffer)
    ensures ReadySelections(c, m) == Calls(c.buffer, c.head, m)
    decreases m
  {
    hide FirstReady, Read, Handed;
    if m > 0 {
      StepInside(c, Select);
      AgreedCall(c.buffer, c.head);
      HandedReadyIff(c);
      AgreedSelections(Step(c, Select), m - 1);
    }
  }

  lemma NextModulo(n: nat, p: nat)
    requires n > 0
    ensures (p + 1) % n == NextPosition(n, p % n)
  {
    ModStep(p, n);
  }

  // ------------------------------------------------------------------ the first round after a reset

  /** From its second entry on, the first scan after a reset looks at what an agreed scan behind the left-over position
      looks at. */
  lemma SeamShift(n: nat, position: nat, k: nat)
    requires 1 <= k < n
    ensures var next := NextPosition(n, position % n); Read(n, 0, position, k) == Read(n, next, next, k - 1)
  {
    var next := NextPosition(n, position % n);
    NextModulo(n, position);
    ModAdd(position, k, n);
    ModSmall(next, n);
    ModAdd(next, k - 1, n);
  }

  lemma {:induction false} SeamScan(b: seq<Server>, position: nat, k: nat)
    requires 1 <= k <= |b|
    ensures var n, next := |b|, NextPosition(|b|, position % |b|);
            var g := FirstReady(b, next, next, k - 1);
            FirstReady(b, 0, position, k) == if g < n - 1 then g + 1 else n
    decreases |b| - k
  {
    hide Read;
    if k < |b| {
      SeamShift(|b|, position, k);
      SeamScan(b, position, k + 1);
    }
  }

  /** With entry 0 unavailable, the first selection after a reset finds a READY entry exactly when there is one besides
      the entry at the left-over position, and is then the selection that an agreed cursor behind it makes. */
  lemma SeamSelection(b: seq<Server>, position: nat, tail: nat)
    requires b != [] && b[0].status != READY && tail < |b|
    ensures var p := position % |b|;
            var c, d := Cursor(b, position, 0, tail), Cursor(b, NextPosition(|b|, p), NextPosition(|b|, p), tail);
            && Inside(c) && Inside(d)
            && (Handed(c).status == READY <==> exists k :: 0 <= k < |b| && k != p && b[k].status == READY)
            && (Handed(c).status == READY ==> Handed(d).status == READY && Step(c, Select) == Step(d, Select))
  {
    hide Read, Tested, FirstReady;
    var n, p, next := |b|, position % |b|, NextPosition(|b|, position % |b|);
    var c, d := Cursor(b, position, 0, tail), Cursor(b, next, next, tail);
    var f, g := FirstReady(b, 0, position, 0), FirstReady(b, next, next, 0);
    HandedReadyIff(c);
    HandedReadyIff(d);
    SkipsFirst(b, position);
    SeamScan(b, position, 1);
    SeamFinds(b, position);
    if f < n {
      NextModulo(n, position);
      SeamShift(n, position, f);
      ModSmall(next, n);
      ModAdd(position + 1, f, n);
      ModAdd(next, f, n);
    }
  }

  lemma SkipsFirst(b: seq<Server>, position: nat)
    requires b != [] && b[0].status != READY
    ensures FirstReady(b, 0, position, 0) == FirstReady(b, 0, position, 1) >= 1
  {
  }

  lemma SeamFinds(b: seq<Server>, position: nat)
    requires b != [] && b[0].status != READY
    ensures FirstReady(b, 0, position, 0) < |b| <==>
              exists k :: 0 <= k < |b| && k != position % |b| && b[k].status == READY
  {
    hide FirstReady, Tested;
    SeamFindsIff(b, position);
    forall i | 0 <= i < |b|
      ensures Tested(|b|, position, i) <==> i != position % |b| || position % |b| == 0
    {
      SeamTestsIff(|b|, position, i);
    }
  }

  /** How many READY entries there are does not depend on where one starts. */
  lemma ReadyFromLength(b: seq<Server>, p: nat)
    requires p <= |b|
    ensures |ReadyFrom(b, p)| == |ReadyFrom(b, 0)|
  {
    SplitReady(b, 0, p, |b|);
    ReadyInUnfolds(b, 0, 0);
  }

  lemma OnlyOneReady(b: seq<Server>, p: nat)
    requires forall k :: 0 <= k < |b| && b[k].status == READY ==> k == p
    ensures |ReadyFrom(b, 0)| <= 1
  {
    hide ReadyFrom;
    var l := ReadyFrom(b, 0);
    ReadyFromEmptyIff(b, 0);
    if |l| >= 2 {
      forall k | 0 <= k < |l|
        ensures l[k] == p
      {
        ReadyFromCount(b, 0, l[k]);
        assert l[k] in multiset(l);
      }
      assert l == [l[0]] + ([l[1]] + l[2..]);
      assert multiset(l) == multiset([l[0]]) + (multiset([l[1]]) + multiset(l[2..]));
      ReadyFromCount(b, 0, p);
    }
  }

  /** Entry 0 is taken by the first selection, before the cursor jumps behind the left-over position. */
  lemma SeamTakesFirst(b: seq<Server>, position: nat, tail: nat)
    requires b != [] && b[0].status == READY && tail < |b|
    ensures var next := NextPosition(|b|, position % |b|);
            var c := Cursor(b, position, 0, tail);
            Inside(c) && Handed(c).status == READY && Step(c, Select) == Cursor(b, next, next, 0)
  {
    NextModulo(|b|, position);
  }

  /** What the first round after a reset hands out, r selections for r READY entries.  If entry 0 is READY it comes
      first, and of the others, in cyclic order from behind the left-over position, the last one is not reached.
      Otherwise all of them are handed out, unless the only one is at that position. */
  lemma FirstRoundAfterReset(c: Cursor, pattern: seq<Server>)
    requires Inside(c) && pattern != []
    ensures var n, p, r := |pattern|, c.position % |pattern|, |ReadyFrom(pattern, 0)|;
            var d, l := Step(c, Install(pattern)), ReadyFrom(pattern, NextPosition(n, p));
            && Inside(d) && d.buffer == pattern && |l| == r
            && (pattern[0].status == READY ==> r > 0 && ReadySelections(d, r) == [0] + l[..r - 1])
            && (pattern[0].status != READY ==>
                  ReadySelections(d, r)
                  == if exists k :: 0 <= k < n && k != p && pattern[k].status == READY then l else [])
  {
    hide Read, FirstReady, Handed, ReadyFrom, Calls;
    var n, p, r := |pattern|, c.position % |pattern|, |ReadyFrom(pattern, 0)|;
    var next, d := NextPosition(n, p), Step(c, Install(pattern));
    ReadyFromLength(pattern, next);
    ReadyFromEmptyIff(pattern, 0);
    if pattern[0].status == READY {
      assert r > 0;
      SeamTakesFirst(pattern, c.position, n - 1);
      FirstThenRest(d, r, next);
    } else {
      SeamSelection(pattern, c.position, n - 1);
      if exists k :: 0 <= k < n && k != p && pattern[k].status == READY {
        var e := Cursor(pattern, next, next, n - 1);
        SameAfterOne(d, e, r);
        AgreedSelections(e, r);
        FullTurn(pattern, next);
      } else {
        OnlyOneReady(pattern, p);
        NothingHanded(d, r);
      }
    }
  }

  lemma FirstThenRest(d: Cursor, r: nat, next: nat)
    requires Inside(d) && r > 0 && next < |d.buffer| && r == |ReadyFrom(d.buffer, next)|
    requires Handed(d).status == READY && Step(d, Select) == Cursor(d.buffer, next, next, 0)
    ensures ReadySelections(d, r) == [0] + ReadyFrom(d.buffer, next)[..r - 1]
  {
    hide ReadyFrom, Walk, RotateBy, Calls, Handed, Step;
    var e := Cursor(d.buffer, next, next, 0);
    ReadyFromEmptyIff(d.buffer, next);
    AgreedSelections(e, r - 1);
    CallsWalk(d.buffer, next, r - 1);
    WalkRound(ReadyFrom(d.buffer, next), r - 1);
  }

  lemma SameAfterOne(c: Cursor, d: Cursor, r: nat)
    requires Inside(c) && Inside(d) && r > 0 && Step(c, Select) == Step(d, Select)
    requires Handed(c).status == READY && Handed(d).status == READY
    ensures ReadySelections(c, r) == ReadySelections(d, r)
  {
    hide Step, Handed;
  }

  lemma NothingHanded(c: Cursor, r: nat)
    requires Inside(c) && r <= 1 && Handed(c).status != READY
    ensures ReadySelections(c, r) == []
  {
    hide Step, Handed;
  }

  /** The READY entry that entry 0 displaces: the last one up to the left-over position. */
  function Displaced(b: seq<Server>, p: nat): nat
    requires p < |b| && b[0].status == READY
  {
    SplitReady(b, 0, 1, p + 1);
    ReadyInUnfolds(b, 0, 1);
    var l := ReadyIn(b, 0, p + 1);
    l[|l| - 1]
  }

  lemma DisplacedIsLast(b: seq<Server>, p: nat)
    requires p < |b| && b[0].status == READY
    ensures var l := ReadyFrom(b, NextPosition(|b|, p)); l != [] && l[|l| - 1] == Displaced(b, p) < |b|
  {
    hide ReadyIn;
    var n := |b|;
    SplitReady(b, 0, 1, p + 1);
    ReadyInUnfolds(b, 0, 1);
    ReadyInUnfolds(b, 0, 0);
    ReadyInBounds(b, 0, p + 1);
    if p + 1 == n {
      assert ReadyFrom(b, 0) == ReadyIn(b, 0, n) + [];
    }
  }

  /** Right after a reset, in a round of as many selections as there are READY entries, every READY server gets exactly
      its weight and no other gets anything. */
  ghost predicate FairFirstRound(c: Cursor, pool: seq<Server>, pattern: seq<Server>, taken: seq<nat>)
    requires Inside(c) && pattern != [] && |taken| == |pattern|
  {
    StepInside(c, Install(pattern));
    SharesOut(pool, taken, ReadySelections(Step(c, Install(pattern)), |ReadyFrom(pattern, 0)|))
  }

  function Share(s: Server): int { if s.status == READY then s.weight else 0 }

  /** The entries `got` give every READY server its weight in copies and no other any. */
  ghost predicate SharesOut(pool: seq<Server>, taken: seq<nat>, got: seq<nat>)
    requires forall k :: 0 <= k < |got| ==> got[k] < |taken|
  {
    forall i :: 0 <= i < |pool| ==> multiset(Through(taken, got))[i] == Share(pool[i])
  }

  /** Whether it does: with entry 0 READY, if the displaced entry is a copy of the same server; with entry 0
      unavailable, if there is a READY entry besides the one at the left-over position, or none at all. */
  ghost predicate SeamIsHarmless(pattern: seq<Server>, taken: seq<nat>, p: nat)
    requires p < |pattern| == |taken|
  {
    if pattern[0].status == READY then
      Displaced(pattern, p) < |taken| && taken[Displaced(pattern, p)] == taken[0]
    else
      HasReady(pattern) ==> exists k :: 0 <= k < |pattern| && k != p && pattern[k].status == READY
  }

  /** The share of server i when entry 0 comes first and the displaced entry is missing. */
  lemma FirstRoundShare(taken: seq<nat>, l: seq<nat>, i: nat)
    requires l != [] && taken != [] && forall k :: 0 <= k < |l| ==> l[k] < |taken|
    ensures var s, last := [0] + l[..|l| - 1], l[|l| - 1];
            && (forall k :: 0 <= k < |s| ==> s[k] < |taken|)
            && multiset(Through(taken, s))[i] + (if taken[last] == i then 1 else 0)
               == multiset(Through(taken, l))[i] + (if taken[0] == i then 1 else 0)
  {
    hide Through;
    var init, last := l[..|l| - 1], l[|l| - 1];
    assert l == init + [last];
    ThroughCons(taken, 0, init);
    CountCons(taken[0], Through(taken, init), i);
    ThroughAppend(taken, init, last);
    Common.CountAppend(Through(taken, init), taken[last], i);
  }

  lemma ThroughAppend(taken: seq<nat>, c: seq<nat>, k: nat)
    requires k < |taken| && forall j :: 0 <= j < |c| ==> c[j] < |taken|
    ensures forall j :: 0 <= j < |c + [k]| ==> (c + [k])[j] < |taken|
    ensures Through(taken, c + [k]) == Through(taken, c) + [taken[k]]
  {
  }

  /** The layout behind a pattern: for each pool server, as many entries as its weight, all of its status. */
  ghost predicate CopiesOf(pool: seq<Server>, pattern: seq<Server>, taken: seq<nat>) {
    && |taken| == |pattern| > 0
    && (forall k :: 0 <= k < |pattern| ==> taken[k] < |pool| && pattern[k].status == pool[taken[k]].status)
    && (forall i :: 0 <= i < |pool| ==> multiset(taken)[i] == pool[i].weight && pool[i].weight >= 1)
  }

  /** All READY entries, from wherever one starts. */
  lemma AllShare(pool: seq<Server>, pattern: seq<Server>, taken: seq<nat>, p: nat)
    requires CopiesOf(pool, pattern, taken) && p < |pattern|
    ensures forall k :: 0 <= k < |ReadyFrom(pattern, p)| ==> ReadyFrom(pattern, p)[k] < |taken|
    ensures SharesOut(pool, taken, ReadyFrom(pattern, p))
  {
    hide ReadyFrom, Through;
    ReadyFromEmptyIff(pattern, p);
    forall i | 0 <= i < |pool|
      ensures multiset(Through(taken, ReadyFrom(pattern, p)))[i] == Share(pool[i])
    {
      ReadyFromThrough(pattern, taken, p, i, pool[i].status == READY);
    }
  }

  /** With a displaced entry the shares are right exactly when it is a copy of the server of entry 0. */
  lemma DisplacedShares(pool: seq<Server>, taken: seq<nat>, l: seq<nat>, got: seq<nat>)
    requires l != [] && taken != [] && taken[0] < |pool| && forall k :: 0 <= k < |l| ==> l[k] < |taken|
    requires got == [0] + l[..|l| - 1] && forall k :: 0 <= k < |got| ==> got[k] < |taken|
    requires SharesOut(pool, taken, l)
    ensures SharesOut(pool, taken, got) <==> taken[l[|l| - 1]] == taken[0]
  {
    hide Through, Share;
    var last := l[|l| - 1];
    forall i | 0 <= i < |pool|
      ensures multiset(Through(taken, got))[i] + (if taken[last] == i then 1 else 0)
           == Share(pool[i]) + (if taken[0] == i then 1 else 0)
    {
      FirstRoundShare(taken, l, i);
    }
    if taken[last] != taken[0] {
      assert multiset(Through(taken, got))[taken[0]] == Share(pool[taken[0]]) + 1;
    }
  }

  /** Handing out nothing is right exactly when no server is READY. */
  lemma NothingShares(pool: seq<Server>, pattern: seq<Server>, taken: seq<nat>)
    requires CopiesOf(pool, pattern, taken)
    ensures SharesOut(pool, taken, []) <==> !HasReady(pattern)
  {
    if k :| 0 <= k < |pattern| && pattern[k].status == READY {
      assert multiset(Through(taken, []))[taken[k]] == 0;
    } else {
      forall i | 0 <= i < |pool|
        ensures pool[i].status != READY
      {
        assert i in multiset(taken);
        var k :| 0 <= k < |taken| && taken[k] == i;
        assert pattern[k].status == pool[i].status;
      }
    }
  }

  lemma FairIffHarmless(c: Cursor, pool: seq<Server>, pattern: seq<Server>, taken: seq<nat>)
    requires Inside(c) && CopiesOf(pool, pattern, taken)
    ensures FairFirstRound(c, pool, pattern, taken) <==> SeamIsHarmless(pattern, taken, c.position % |pattern|)
  {
    hide Step, Inside, ReadySelections, ReadyFrom, Through, Displaced, SharesOut, Share;
    var p := c.position % |pattern|;
    var l := ReadyFrom(pattern, NextPosition(|pattern|, p));
    FirstRoundAfterReset(c, pattern);
    StepInside(c, Install(pattern));
    if pattern[0].status == READY {
      DisplacedIsLast(pattern, p);
      AllShare(pool, pattern, taken, NextPosition(|pattern|, p));
      DisplacedShares(pool, taken, l, [0] + l[..|l| - 1]);
    } else if exists k :: 0 <= k < |pattern| && k != p && pattern[k].status == READY {
      AllShare(pool, pattern, taken, NextPosition(|pattern|, p));
    } else {
      NothingShares(pool, pattern, taken);
    }
  }

  /** Exactly when the first round after a completed reset is fair, whatever the statuses in the pool. */
  lemma FirstRoundIsFairIff(c: Cursor, pool: seq<Server>, sorted: seq<Server>, pattern: seq<Server>, weightSum: int,
                            fuel: nat)
    requires Inside(c) && |pool| >= 1 && W.AllPositive(Weights(pool))
    requires multiset(sorted) == multiset(pool) && Sum(Weights(sorted)) == Sum(Weights(pool))
    requires Sorted(pool) ==> sorted == pool
    requires weightSum >= Sum(Weights(pool)) && (weightSum == Sum(Weights(pool)) <==> Sorted(pool))
    requires W.Laid(pattern, true, sorted, weightSum, fuel)
    ensures var q := W.SpinFor(Weights(pool), weightSum, fuel);
            var taken := W.Emitted(Weights(pool), q.r, q.s);
            && |taken| == |pattern| > 0
            && (FairFirstRound(c, pool, pattern, taken) <==> SeamIsHarmless(pattern, taken, c.position % |pattern|))
  {
    hide W.SpinFor, W.Emitted, W.Supply, W.Laid, W.AllPositive, Sum, Sorted, FairFirstRound, SeamIsHarmless, Inside;
    LaidMeansSorted(pool, sorted, pattern, weightSum, fuel);
    var ws := Weights(pool);
    var q := W.SpinFor(ws, weightSum, fuel);
    var taken := W.Emitted(ws, q.r, q.s);
    LaidPattern(pool, pattern, weightSum, fuel);
    W.SupplyIsSum(ws);
    var counts: multiset<nat> := multiset(taken);
    forall i | 0 <= i < |pool|
      ensures counts[i] == pool[i].weight && pool[i].weight >= 1
    {
      W.HaltedPatternIsWeighted(ws, fuel, i);
      PositiveWeight(pool, i);
    }
    W.HaltedPatternIsWeighted(ws, fuel, 0);
    FairIffHarmless(c, pool, pattern, taken);
  }

  lemma ReadyFromAll(b: seq<Server>, p: nat)
    requires p < |b| && AllReady(b)
    ensures ReadyFrom(b, p) == Range(p, |b|) + Range(0, p)
  {
    AllReadyIn(b, p, |b|);
    AllReadyIn(b, 0, p);
  }

  // ------------------------------------------------------------------ reset_servers

  class RoundRobin {
    const circular: Circular

    constructor ()
      ensures fresh(circular) && circular.buffer == [] && circular.bufferPosition == 0
    {
      circular := new Circular();
    }

    /** reset_servers: frees the old buffer, copies the pool, weighs it and installs the pattern, as one atomic step.
        `done` is false while the pattern loop of weight_servers is still running after `fuel` iterations; until then
        the buffer in use is the freed one. */
    method Reset(pool: seq<Server>, fuel: nat) returns (done: bool, ghost sorted: seq<Server>, ghost weightSum: int)
      requires |pool| >= 1
      modifies circular
      ensures Sorted(sorted) && multiset(sorted) == multiset(pool) && |sorted| == |pool|
      ensures Sum(Weights(sorted)) == Sum(Weights(pool)) && (Sorted(pool) ==> sorted == pool)
      ensures weightSum >= Sum(Weights(pool)) && (weightSum == Sum(Weights(pool)) <==> Sorted(pool))
      ensures done == W.SpinFor(Weights(sorted), weightSum, fuel).halted
      ensures done ==> circular.Valid() && circular.head == 0 && circular.tail == circular.bufferLen - 1
      ensures done ==> W.Laid(circular.buffer, true, sorted, weightSum, fuel)
      ensures done && Inside(old(circular.Snapshot())) ==>
                circular.Snapshot() == Step(old(circular.Snapshot()), Install(circular.buffer))
      ensures !done ==> circular.Snapshot() == old(circular.Snapshot()) && (circular.buffer != [] ==> !circular.live)
      ensures circular.bufferPosition == old(circular.bufferPosition)
    {
      if circular.buffer != [] {
        circular.live := false;
      }
      var servers := new Server[|pool|](i requires 0 <= i < |pool| => pool[i]);
      assert servers[..] == pool;
      var pattern, halted;
      pattern, halted, sorted, weightSum := W.WeightServers(servers, fuel);
      done := halted;
      if halted {
        W.SpinCount(Weights(sorted), weightSum, fuel);
        var ok := circular.AllocateBuffer(pattern);
      }
    }
  }
}
