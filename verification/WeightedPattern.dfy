/** `weight_servers` (round_robin.c): an exchange sort that also adds up the weights, and the loop that lays
    out the weighted pattern. */
module WeightedPattern {
  import opened Common
  import opened Servers

  // ------------------------------------------------------------------ sort and sum

  /** The first i positions hold their final entries. */
  ghost predicate Settled(s: seq<Server>, i: nat) {
    forall p, q :: 0 <= p < i && p < q < |s| ==> s[p].weight <= s[q].weight
  }

  /** State of the inner loop after comparing position i with positions i+1 .. j-1. */
  ghost predicate PassInv(s: seq<Server>, before: seq<Server>, i: nat, j: nat, exchanged: bool)
  {
    && i < j <= |s| == |before|
    && multiset(s) == multiset(before) && Sum(Weights(s)) == Sum(Weights(before))
    && s[..i] == before[..i]
    && Settled(s, i)
    && (forall k :: i < k < j ==> s[i].weight <= s[k].weight)
    && (exchanged ==> s[i].weight < before[i].weight && !Sorted(before))
    && (!exchanged ==> s == before)
  }

  lemma PassExchanges(s: seq<Server>, before: seq<Server>, i: nat, j: nat, exchanged: bool)
    requires PassInv(s, before, i, j, exchanged) && j < |s| && s[i].weight > s[j].weight
    ensures PassInv(Swapped(s, i, j), before, i, j + 1, true)
  {
    SwapKeeps(s, i, j);
    var t := Swapped(s, i, j);
    assert t[..i] == s[..i];
    forall p, q | 0 <= p < i && p < q < |t|
      ensures t[p].weight <= t[q].weight
    {
      assert s[p].weight <= s[if q == i then j else if q == j then i else q].weight;
    }
  }

  lemma PassSkips(s: seq<Server>, before: seq<Server>, i: nat, j: nat, exchanged: bool)
    requires PassInv(s, before, i, j, exchanged) && j < |s| && s[i].weight <= s[j].weight
    ensures PassInv(s, before, i, j + 1, exchanged)
  {
  }

  lemma PassStarts(s: seq<Server>, i: nat)
    requires i < |s| && Settled(s, i)
    ensures PassInv(s, s, i, i + 1, false)
  {
  }

  lemma PassEnds(s: seq<Server>, before: seq<Server>, i: nat, exchanged: bool)
    requires PassInv(s, before, i, |s|, exchanged)
    ensures Settled(s, i + 1)
  {
  }

  /** The table after the inner loop has compared position i with positions j and up. */
  function Pass(s: seq<Server>, i: nat, j: nat): (r: seq<Server>)
    requires i < j <= |s|
    ensures |r| == |s|
    decreases |s| - j
  {
    if j == |s| then s
    else Pass(if s[i].weight > s[j].weight then Swapped(s, i, j) else s, i, j + 1)
  }

  /** The table after the passes for positions i and up. */
  function SortedFrom(s: seq<Server>, i: nat): (r: seq<Server>)
    requires i < |s|
    ensures |r| == |s|
    decreases |s| - i
  {
    if i == |s| - 1 then s else SortedFrom(Pass(s, i, i + 1), i + 1)
  }

  /** weight_sum from position i on: each weight is read before its position is settled. */
  function ComputedSum(s: seq<Server>, i: nat): int
    requires i < |s|
    decreases |s| - i
  {
    s[i].weight + if i == |s| - 1 then 0 else ComputedSum(Pass(s, i, i + 1), i + 1)
  }

  /** The inner loop: exchanges until position i holds a lightest entry of servers[i..]. */
  method ExchangePass(servers: array<Server>, i: nat) returns (ghost exchanged: bool)
    requires i < servers.Length && Settled(servers[..], i)
    modifies servers
    ensures PassInv(servers[..], old(servers[..]), i, servers.Length, exchanged)
    ensures Settled(servers[..], i + 1) && servers[..] == Pass(old(servers[..]), i, i + 1)
  {
    hide PassInv, Settled, Sorted, Weights, Sum, Pass;
    ghost var before := servers[..];
    exchanged := false;
    var j := i + 1;
    PassStarts(before, i);
    while j < servers.Length
      invariant i < j <= servers.Length
      invariant PassInv(servers[..], before, i, j, exchanged)
      invariant Pass(servers[..], i, j) == Pass(before, i, i + 1)
    {
      ghost var s := servers[..];
      PassUnfolds(s, i, j);
      if servers[i].weight > servers[j].weight {
        PassExchanges(s, before, i, j, exchanged);
        servers[i], servers[j] := servers[j], servers[i];
        assert servers[..] == Swapped(s, i, j);
        exchanged := true;
      } else {
        PassSkips(s, before, i, j, exchanged);
      }
      j := j + 1;
    }
    PassUnfolds(servers[..], i, j);
    PassEnds(servers[..], before, i, exchanged);
  }

  lemma PassUnfolds(s: seq<Server>, i: nat, j: nat)
    requires i < j <= |s|
    ensures Pass(s, i, j) ==
            if j == |s| then s
            else if s[i].weight > s[j].weight then Pass(Swapped(s, i, j), i, j + 1)
            else Pass(s, i, j + 1)
  {
  }

  lemma SortUnfolds(s: seq<Server>, i: nat)
    requires i < |s|
    ensures i == |s| - 1 ==> SortedFrom(s, i) == s && ComputedSum(s, i) == s[i].weight
    ensures i < |s| - 1 ==>
              var t := Pass(s, i, i + 1);
              SortedFrom(s, i) == SortedFrom(t, i + 1) && ComputedSum(s, i) == s[i].weight + ComputedSum(t, i + 1)
  {
  }

  lemma PrefixSum(s: seq<Server>, t: seq<Server>, i: nat)
    requires i < |s| == |t| && s[..i] == t[..i]
    ensures Weights(s)[..i] == Weights(t)[..i]
    ensures Sum(Weights(s)[..i + 1]) == Sum(Weights(s)[..i]) + s[i].weight
  {
    assert forall k :: 0 <= k < i ==> s[k] == s[..i][k] && t[k] == t[..i][k];
    assert Weights(s)[..i + 1][..i] == Weights(s)[..i];
  }

  /** State of the outer loop before position i is settled. */
  ghost predicate SortInv(s: seq<Server>, input: seq<Server>, i: nat, exchanged: bool, sum: int) {
    && i < |s| == |input|
    && multiset(s) == multiset(input) && Sum(Weights(s)) == Sum(Weights(input)) && Settled(s, i)
    && (if exchanged then !Sorted(input) && sum > Sum(Weights(s)[..i]) else s == input && sum == Sum(Weights(s)[..i]))
    && SortedFrom(s, i) == SortedFrom(input, 0) && sum + ComputedSum(s, i) == ComputedSum(input, 0)
  }

  lemma SortStarts(input: seq<Server>)
    requires input != []
    ensures SortInv(input, input, 0, false, 0)
  {
  }

  lemma SortSettled(s: seq<Server>, input: seq<Server>, i: nat, exchanged: bool, sum: int)
    requires SortInv(s, input, i, exchanged, sum)
    ensures Settled(s, i)
  {
  }

  lemma SortStep(t: seq<Server>, s: seq<Server>, input: seq<Server>, i: nat, exchanged: bool, now: bool, sum: int)
    requires SortInv(s, input, i, exchanged, sum) && i < |s| - 1 == |t| - 1
    requires PassInv(t, s, i, |t|, now) && Settled(t, i + 1) && t == Pass(s, i, i + 1)
    ensures SortInv(t, input, i + 1, exchanged || now, sum + s[i].weight)
  {
    hide Pass, SortedFrom, ComputedSum, Settled, Sum, Weights, Sorted;
    SortUnfolds(s, i);
    PrefixSum(t, s, i);
  }

  lemma SortEnds(s: seq<Server>, input: seq<Server>, exchanged: bool, sum: int)
    requires input != [] && SortInv(s, input, |input| - 1, exchanged, sum)
    ensures var total := sum + s[|s| - 1].weight;
            && Sorted(s) && multiset(s) == multiset(input) && Sum(Weights(s)) == Sum(Weights(input))
            && (Sorted(input) ==> s == input)
            && total >= Sum(Weights(input)) && (total == Sum(Weights(input)) <==> Sorted(input))
            && s == SortedFrom(input, 0) && total == ComputedSum(input, 0)
  {
    hide Pass, SortedFrom, ComputedSum, Sum, Weights, Sorted, Settled;
    SortUnfolds(s, |s| - 1);
    TotalSum(s);
    SettledIsSorted(s);
    if Sorted(input) {
      assert !exchanged;
    }
  }

  lemma TotalSum(s: seq<Server>)
    requires s != []
    ensures Sum(Weights(s)) == Sum(Weights(s)[..|s| - 1]) + s[|s| - 1].weight
  {
    PrefixSum(s, s, |s| - 1);
    assert Weights(s)[..|s|] == Weights(s);
  }

  lemma SettledIsSorted(s: seq<Server>)
    requires s != [] && Settled(s, |s| - 1)
    ensures Sorted(s)
  {
  }

  /** The sort and the weight sum.  The sum reads servers[i] before position i is settled, so it
      is the true sum only when nothing is ever exchanged. */
  method SortAndSum(servers: array<Server>) returns (weightSum: int)
    requires servers.Length >= 1
    modifies servers
    ensures Sorted(servers[..]) && multiset(servers[..]) == multiset(old(servers[..]))
    ensures Sum(Weights(servers[..])) == Sum(Weights(old(servers[..])))
    ensures Sorted(old(servers[..])) ==> servers[..] == old(servers[..])
    ensures weightSum >= Sum(Weights(old(servers[..])))
    ensures weightSum == Sum(Weights(old(servers[..]))) <==> Sorted(old(servers[..]))
    ensures servers[..] == SortedFrom(old(servers[..]), 0) && weightSum == ComputedSum(old(servers[..]), 0)
  {
    hide SortInv, Sorted, Sum, Weights, Settled, PassInv, SortedFrom, ComputedSum, Pass;
    var n := servers.Length;
    ghost var input := servers[..];
    ghost var exchanged := false;
    weightSum := 0;
    var i := 0;
    SortStarts(input);
    while i < n - 1
      invariant 0 <= i <= n - 1
      invariant SortInv(servers[..], input, i, exchanged, weightSum)
    {
      ghost var before, sum := servers[..], weightSum;
      weightSum := weightSum + servers[i].weight;
      SortSettled(before, input, i, exchanged, sum);
      ghost var now := ExchangePass(servers, i);
      SortStep(servers[..], before, input, i, exchanged, now, sum);
      exchanged := exchanged || now;
      i := i + 1;
    }
    SortEnds(servers[..], input, exchanged, weightSum);
    weightSum := weightSum + servers[n - 1].weight;
  }

  // ------------------------------------------------------------------ the pattern, round by round

  /** The server indices laid out by r full rounds over the table followed by the first s servers of the next
      round: server i is taken in round k (counted from 0) if and only if its weight exceeds k. */
  function Emitted(ws: seq<int>, r: nat, s: nat): seq<nat>
    requires s <= |ws|
    decreases r, s
  {
    if s > 0 then Emitted(ws, r, s - 1) + (if ws[s - 1] > r then [s - 1] else [])
    else if r > 0 then Emitted(ws, r - 1, |ws|)
    else []
  }

  function Positive(w: int): nat { if w > 0 then w else 0 }

  /** What a table can give out in all: negative weights give nothing. */
  function Supply(ws: seq<int>): nat {
    if ws == [] then 0 else Supply(ws[..|ws| - 1]) + Positive(ws[|ws| - 1])
  }

  /** How many copies of server i the first r rounds and s servers hold. */
  function Copies(ws: seq<int>, r: nat, s: nat, i: nat): nat
    requires i < |ws|
  {
    var visits := r + (if i < s then 1 else 0);
    if Positive(ws[i]) < visits then Positive(ws[i]) else visits
  }

  function CopiesUpTo(ws: seq<int>, r: nat, s: nat, k: nat): nat
    requires k <= |ws|
  {
    if k == 0 then 0 else CopiesUpTo(ws, r, s, k - 1) + Copies(ws, r, s, k - 1)
  }

  /** Round k of the concatenation: the servers with weight above k, in table order. */
  function Round(ws: seq<int>, k: nat, upTo: nat): seq<nat>
    requires upTo <= |ws|
  {
    if upTo == 0 then [] else Round(ws, k, upTo - 1) + (if ws[upTo - 1] > k then [upTo - 1] else [])
  }

  /** Exactly the servers with weight above k, each once and in table order. */
  lemma {:induction false} RoundMeaning(ws: seq<int>, k: nat, upTo: nat)
    requires upTo <= |ws|
    ensures var r := Round(ws, k, upTo);
            && (forall i :: i in r <==> 0 <= i < upTo && ws[i] > k)
            && (forall i, j :: 0 <= i < j < |r| ==> r[i] < r[j])
  {
    if upTo > 0 {
      RoundMeaning(ws, k, upTo - 1);
      var before, r := Round(ws, k, upTo - 1), Round(ws, k, upTo);
      assert forall j :: 0 <= j < |before| ==> before[j] in before;
      if ws[upTo - 1] > k {
        assert r == before + [upTo - 1];
      } else {
        assert r == before;
      }
    }
  }

  /** Rounds 0 .. r-1, one after the other. */
  function Rounds(ws: seq<int>, r: nat): seq<nat> {
    if r == 0 then [] else Rounds(ws, r - 1) + Round(ws, r - 1, |ws|)
  }

  /** The layout is the concatenation of its rounds, the last one possibly cut short. */
  lemma {:induction false} RoundsConcatenate(ws: seq<int>, r: nat, s: nat)
    requires s <= |ws|
    ensures Emitted(ws, r, s) == Rounds(ws, r) + Round(ws, r, s)
    decreases r, s
  {
    if s > 0 {
      RoundsConcatenate(ws, r, s - 1);
    } else if r > 0 {
      RoundsConcatenate(ws, r - 1, |ws|);
      assert Round(ws, r, 0) == [];
    }
  }

  lemma {:induction false} EmittedIndices(ws: seq<int>, r: nat, s: nat)
    requires s <= |ws|
    ensures forall k :: 0 <= k < |Emitted(ws, r, s)| ==> Emitted(ws, r, s)[k] < |ws|
    decreases r, s
  {
    if s > 0 {
      EmittedIndices(ws, r, s - 1);
    } else if r > 0 {
      EmittedIndices(ws, r - 1, |ws|);
    }
  }

  lemma EmittedUnfolds(ws: seq<int>, r: nat, s: nat)
    requires s <= |ws|
    ensures s > 0 ==> Emitted(ws, r, s) == Emitted(ws, r, s - 1) + (if ws[s - 1] > r then [s - 1] else [])
    ensures s == 0 && r > 0 ==> Emitted(ws, r, s) == Emitted(ws, r - 1, |ws|)
    ensures s == 0 && r == 0 ==> Emitted(ws, r, s) == []
  {
  }

  lemma CopiesUnfolds(ws: seq<int>, r: nat, s: nat, i: nat)
    requires s <= |ws| && i < |ws|
    ensures s > 0 ==> Copies(ws, r, s, i) == Copies(ws, r, s - 1, i) + (if s - 1 == i && ws[i] > r then 1 else 0)
    ensures s == 0 && r > 0 ==> Copies(ws, r, s, i) == Copies(ws, r - 1, |ws|, i)
    ensures s == 0 && r == 0 ==> Copies(ws, r, s, i) == 0
  {
  }

  /** Server i occurs once per visit, until its weight is used up. */
  lemma {:induction false} EmittedCopies(ws: seq<int>, r: nat, s: nat, i: nat)
    requires s <= |ws| && i < |ws|
    ensures multiset(Emitted(ws, r, s))[i] == Copies(ws, r, s, i)
    decreases r, s
  {
    hide Emitted, Copies;
    EmittedUnfolds(ws, r, s);
    CopiesUnfolds(ws, r, s, i);
    if s > 0 {
      EmittedCopies(ws, r, s - 1, i);
      CountAppend(Emitted(ws, r, s - 1), s - 1, i);
    } else if r > 0 {
      EmittedCopies(ws, r - 1, |ws|, i);
    }
  }

  lemma {:induction false} CopiesStep(ws: seq<int>, r: nat, s: nat, k: nat)
    requires 0 < s <= |ws| && k <= |ws|
    ensures CopiesUpTo(ws, r, s, k) == CopiesUpTo(ws, r, s - 1, k) + (if s - 1 < k && ws[s - 1] > r then 1 else 0)
  {
    if k > 0 {
      CopiesStep(ws, r, s, k - 1);
    }
  }

  lemma {:induction false} CopiesWrap(ws: seq<int>, r: nat, k: nat)
    requires r > 0 && k <= |ws|
    ensures CopiesUpTo(ws, r, 0, k) == CopiesUpTo(ws, r - 1, |ws|, k)
  {
    if k > 0 {
      CopiesWrap(ws, r, k - 1);
    }
  }

  lemma {:induction false} CopiesNone(ws: seq<int>, k: nat)
    requires k <= |ws|
    ensures CopiesUpTo(ws, 0, 0, k) == 0
  {
    if k > 0 {
      CopiesNone(ws, k - 1);
    }
  }

  lemma {:induction false} EmittedLength(ws: seq<int>, r: nat, s: nat)
    requires s <= |ws|
    ensures |Emitted(ws, r, s)| == CopiesUpTo(ws, r, s, |ws|)
    decreases r, s
  {
    if s > 0 {
      EmittedLength(ws, r, s - 1);
      CopiesStep(ws, r, s, |ws|);
    } else if r > 0 {
      EmittedLength(ws, r - 1, |ws|);
      CopiesWrap(ws, r, |ws|);
    } else {
      CopiesNone(ws, |ws|);
    }
  }

  /** The layout never exceeds the supply, and holds all of it exactly when every server is used up. */
  lemma {:induction false} CopiesBounded(ws: seq<int>, r: nat, s: nat, k: nat)
    requires k <= |ws|
    ensures CopiesUpTo(ws, r, s, k) <= Supply(ws[..k])
    ensures CopiesUpTo(ws, r, s, k) == Supply(ws[..k]) <==>
            forall i :: 0 <= i < k ==> Copies(ws, r, s, i) == Positive(ws[i])
  {
    if k > 0 {
      CopiesBounded(ws, r, s, k - 1);
      assert ws[..k][..k - 1] == ws[..k - 1];
    }
  }

  // ------------------------------------------------------------------ the loop and its termination

  datatype Spin = Spin(halted: bool, r: nat, s: nat)

  /** Where the `for (;;)` loop that fills the pattern stands after `fuel` iterations: r rounds and s servers
      further. */
  function SpinFor(ws: seq<int>, target: int, fuel: nat): (p: Spin)
    requires |ws| >= 1
    ensures p.s <= |ws| && (!p.halted ==> p.s < |ws|)
  {
    if fuel == 0 then Spin(false, 0, 0)
    else
      var p := SpinFor(ws, target, fuel - 1);
      if p.halted then p
      else if ws[p.s] > p.r && |Emitted(ws, p.r, p.s)| + 1 == target then Spin(true, p.r, p.s + 1)
      else if p.s + 1 == |ws| then Spin(false, p.r + 1, 0)
      else Spin(false, p.r, p.s + 1)
  }

  /** A halted loop has laid out exactly `target` entries; a running one fewer, unless the target is not positive. */
  lemma {:induction false} SpinCount(ws: seq<int>, target: int, fuel: nat)
    requires |ws| >= 1
    ensures var p := SpinFor(ws, target, fuel);
            var laid := |Emitted(ws, p.r, p.s)|;
            if p.halted then laid == target >= 1 else target <= 0 || laid < target
  {
    if fuel > 0 {
      SpinCount(ws, target, fuel - 1);
    }
  }

  /** The loop reaches the start of any round unless it has halted before. */
  lemma {:induction false} SpinReaches(ws: seq<int>, target: int, r: nat, s: nat) returns (fuel: nat)
    requires s < |ws|
    ensures SpinFor(ws, target, fuel).halted || SpinFor(ws, target, fuel) == Spin(false, r, s)
    decreases r, s
  {
    if s > 0 {
      fuel := SpinReaches(ws, target, r, s - 1);
      fuel := fuel + 1;
    } else if r > 0 {
      fuel := SpinReaches(ws, target, r - 1, |ws| - 1);
      fuel := fuel + 1;
    } else {
      fuel := 0;
    }
  }

  function Heaviest(ws: seq<int>): nat {
    if ws == [] then 0
    else
      var m := Heaviest(ws[..|ws| - 1]);
      if Positive(ws[|ws| - 1]) > m then Positive(ws[|ws| - 1]) else m
  }

  lemma {:induction false} HeaviestBounds(ws: seq<int>, i: nat)
    requires i < |ws|
    ensures ws[i] <= Heaviest(ws)
    decreases |ws|
  {
    if i < |ws| - 1 {
      HeaviestBounds(ws[..|ws| - 1], i);
    }
  }

  /** Exact termination of the pattern loop, for any integer weights: it halts if and only if the target is
      positive and the table can supply it. */
  lemma LoopHaltsIff(ws: seq<int>, target: int)
    requires |ws| >= 1
    ensures (exists fuel :: SpinFor(ws, target, fuel).halted) <==> 1 <= target <= Supply(ws)
  {
    forall fuel | SpinFor(ws, target, fuel).halted
      ensures 1 <= target <= Supply(ws)
    {
      var p := SpinFor(ws, target, fuel);
      SpinCount(ws, target, fuel);
      EmittedLength(ws, p.r, p.s);
      CopiesBounded(ws, p.r, p.s, |ws|);
      assert ws[..|ws|] == ws;
    }
    if 1 <= target <= Supply(ws) {
      var r := Heaviest(ws);
      var fuel := SpinReaches(ws, target, r, 0);
      SpinCount(ws, target, fuel);
      EmittedLength(ws, r, 0);
      forall i | 0 <= i < |ws|
        ensures Copies(ws, r, 0, i) == Positive(ws[i])
      {
        HeaviestBounds(ws, i);
      }
      CopiesBounded(ws, r, 0, |ws|);
      assert ws[..|ws|] == ws;
      assert SpinFor(ws, target, fuel).halted;
    }
  }

  predicate AllPositive(ws: seq<int>) { forall i :: 0 <= i < |ws| ==> ws[i] >= 1 }

  lemma {:induction false} SupplyIsSum(ws: seq<int>)
    requires AllPositive(ws)
    ensures Supply(ws) == Sum(ws) >= |ws|
  {
    if ws != [] {
      SupplyIsSum(ws[..|ws| - 1]);
    }
  }

  lemma {:induction false} PositiveIsPermutationInvariant(s: seq<Server>, t: seq<Server>)
    requires multiset(s) == multiset(t) && AllPositive(Weights(s))
    ensures AllPositive(Weights(t))
  {
    forall i | 0 <= i < |t|
      ensures t[i].weight >= 1
    {
      assert t[i] in multiset(t);
      assert t[i] in s;
    }
  }

  /** Exact termination of weight_servers for weights of at least 1: with the sum it computes, the pattern loop
      ends if and only if the table was already in non-decreasing weight order. */
  lemma WeightServersTerminatesIff(input: seq<Server>, sorted: seq<Server>, weightSum: int)
    requires |input| >= 1 && AllPositive(Weights(input))
    requires multiset(sorted) == multiset(input) && Sum(Weights(sorted)) == Sum(Weights(input))
    requires weightSum >= Sum(Weights(input)) && (weightSum == Sum(Weights(input)) <==> Sorted(input))
    ensures |sorted| == |input|
    ensures (exists fuel :: SpinFor(Weights(sorted), weightSum, fuel).halted) <==> Sorted(input)
  {
    assert |multiset(sorted)| == |sorted| && |multiset(input)| == |input|;
    PositiveIsPermutationInvariant(input, sorted);
    SupplyIsSum(Weights(sorted));
    LoopHaltsIff(Weights(sorted), weightSum);
  }

  lemma {:induction false} SupplyUpdate(ws: seq<int>, i: nat, w: int)
    requires i < |ws|
    ensures Supply(ws[i := w]) == Supply(ws) - Positive(ws[i]) + Positive(w)
  {
    var init := ws[..|ws| - 1];
    if i < |init| {
      SupplyUpdate(init, i, w);
      assert ws[i := w][..|ws| - 1] == init[i := w];
    } else {
      assert ws[i := w][..|ws| - 1] == init;
    }
  }

  lemma SwapKeepsSupply(s: seq<Server>, i: nat, j: nat)
    requires i < j < |s|
    ensures Supply(Weights(Swapped(s, i, j))) == Supply(Weights(s))
  {
    hide Supply;
    var ws := Weights(s);
    SupplyUpdate(ws, i, ws[j]);
    SupplyUpdate(ws[i := ws[j]], j, ws[i]);
    assert Weights(Swapped(s, i, j)) == ws[i := ws[j]][j := ws[i]];
  }

  lemma {:induction false} PassKeepsSupply(s: seq<Server>, i: nat, j: nat)
    requires i < j <= |s|
    ensures Supply(Weights(Pass(s, i, j))) == Supply(Weights(s))
    decreases |s| - j
  {
    hide Supply, Weights, Swapped;
    if j < |s| {
      if s[i].weight > s[j].weight {
        SwapKeepsSupply(s, i, j);
        SwapLength(s, i, j);
        PassKeepsSupply(Swapped(s, i, j), i, j + 1);
      } else {
        PassKeepsSupply(s, i, j + 1);
      }
    }
  }

  lemma SwapLength(s: seq<Server>, i: nat, j: nat)
    requires i < |s| && j < |s|
    ensures |Swapped(s, i, j)| == |s|
  {
  }

  lemma {:induction false} SortKeepsSupply(s: seq<Server>, i: nat)
    requires i < |s|
    ensures Supply(Weights(SortedFrom(s, i))) == Supply(Weights(s))
    decreases |s| - i
  {
    hide Supply, Weights, Pass;
    if i < |s| - 1 {
      PassKeepsSupply(s, i, i + 1);
      SortKeepsSupply(Pass(s, i, i + 1), i + 1);
    }
  }

  /** Exact termination of weight_servers for any integer weights: with the sum it computes, the pattern loop ends if
      and only if that sum is positive and the weights of the pool can supply it. */
  lemma ComputedSumHaltsIff(input: seq<Server>)
    requires |input| >= 1
    ensures (exists fuel :: SpinFor(Weights(SortedFrom(input, 0)), ComputedSum(input, 0), fuel).halted)
            <==> 1 <= ComputedSum(input, 0) <= Supply(Weights(input))
  {
    hide Supply, SortedFrom, ComputedSum;
    SortKeepsSupply(input, 0);
    LoopHaltsIff(Weights(SortedFrom(input, 0)), ComputedSum(input, 0));
  }

  /** With a weight below 1 it can end on an unsorted pool: the sum of -1, 2, 1 comes out as 3, which is their
      supply. */
  lemma UnsortedCanEnd(a: Server, b: Server, c: Server)
    requires a.weight == -1 && b.weight == 2 && c.weight == 1
    ensures !Sorted([a, b, c])
    ensures exists fuel :: SpinFor(Weights(SortedFrom([a, b, c], 0)), ComputedSum([a, b, c], 0), fuel).halted
  {
    hide Pass, SortedFrom, ComputedSum, Supply, SpinFor;
    var s, t := [a, b, c], [a, c, b];
    assert s[1].weight > s[2].weight;
    PassUnfolds(s, 0, 1);
    PassUnfolds(s, 0, 2);
    PassUnfolds(s, 0, 3);
    PassUnfolds(s, 1, 2);
    PassUnfolds(t, 1, 3);
    assert Swapped(s, 1, 2) == t;
    SortUnfolds(s, 0);
    SortUnfolds(s, 1);
    SortUnfolds(t, 2);
    SupplyOfThree(Weights(s));
    ComputedSumHaltsIff(s);
  }

  lemma SupplyOfThree(ws: seq<int>)
    requires |ws| == 3
    ensures Supply(ws) == Positive(ws[0]) + Positive(ws[1]) + Positive(ws[2])
  {
    assert ws[..2][..1] == ws[..1] && ws[..1][..0] == [];
    assert Supply(ws[..1]) == Positive(ws[0]);
    assert Supply(ws[..2]) == Positive(ws[0]) + Positive(ws[1]);
  }

  /** With the true sum the loop always ends. */
  lemma TrueSumTerminates(ws: seq<int>)
    requires |ws| >= 1 && AllPositive(ws)
    ensures exists fuel :: SpinFor(ws, Sum(ws), fuel).halted
  {
    SupplyIsSum(ws);
    LoopHaltsIff(ws, Sum(ws));
  }

  /** When the loop ends with a target equal to the supply, every server occurs exactly weight times. */
  lemma HaltedPatternIsWeighted(ws: seq<int>, fuel: nat, i: nat)
    requires |ws| >= 1 && SpinFor(ws, Supply(ws), fuel).halted && i < |ws|
    ensures var p := SpinFor(ws, Supply(ws), fuel);
            multiset(Emitted(ws, p.r, p.s))[i] == Positive(ws[i]) && |Emitted(ws, p.r, p.s)| == Supply(ws)
  {
    var p := SpinFor(ws, Supply(ws), fuel);
    SpinCount(ws, Supply(ws), fuel);
    EmittedLength(ws, p.r, p.s);
    CopiesBounded(ws, p.r, p.s, |ws|);
    assert ws[..|ws|] == ws;
    EmittedCopies(ws, p.r, p.s, i);
  }

  /** Every prefix of a layout is a shorter layout. */
  lemma {:induction false} PrefixIsLayout(ws: seq<int>, r: nat, s: nat, k: nat) returns (r': nat, s': nat)
    requires s <= |ws| && k <= |Emitted(ws, r, s)|
    ensures s' <= |ws| && Emitted(ws, r, s)[..k] == Emitted(ws, r', s')
    decreases r, s
  {
    if k == |Emitted(ws, r, s)| {
      r', s' := r, s;
      assert Emitted(ws, r, s)[..k] == Emitted(ws, r, s);
    } else if s > 0 {
      r', s' := PrefixIsLayout(ws, r, s - 1, k);
      assert Emitted(ws, r, s)[..k] == Emitted(ws, r, s - 1)[..k];
    } else {
      r', s' := PrefixIsLayout(ws, r - 1, |ws|, k);
    }
  }

  /** Fairness inside the pattern: in every prefix, a server that still has copies left is at most one copy
      behind any other server. */
  lemma PrefixIsBalanced(ws: seq<int>, r: nat, s: nat, k: nat, i: nat, j: nat)
    requires s <= |ws| && k <= |Emitted(ws, r, s)| && i < |ws| && j < |ws|
    requires multiset(Emitted(ws, r, s)[..k])[i] < Positive(ws[i])
    ensures multiset(Emitted(ws, r, s)[..k])[j] <= multiset(Emitted(ws, r, s)[..k])[i] + 1
  {
    var r', s' := PrefixIsLayout(ws, r, s, k);
    EmittedCopies(ws, r', s', i);
    EmittedCopies(ws, r', s', j);
  }

  // ------------------------------------------------------------------ weight_servers

  /** The pattern entries: copies of the table entries, each with the weight left at the time of the copy. */
  function Entry(servers: seq<Server>, taken: seq<nat>, k: nat): Server
    requires k < |taken| && taken[k] < |servers|
  {
    servers[taken[k]].(weight := servers[taken[k]].weight - multiset(taken[..k])[taken[k]])
  }

  ghost predicate IsPattern(pattern: seq<Server>, servers: seq<Server>, taken: seq<nat>) {
    && |pattern| == |taken|
    && forall k :: 0 <= k < |taken| ==> taken[k] < |servers| && pattern[k] == Entry(servers, taken, k)
  }

  /** The table once the copies in `taken` have been charged to its weights. */
  ghost predicate Charged(now: seq<Server>, servers: seq<Server>, taken: seq<nat>) {
    && |now| == |servers|
    && forall i :: 0 <= i < |servers| ==> now[i] == servers[i].(weight := servers[i].weight - multiset(taken)[i])
  }

  lemma EntryKept(servers: seq<Server>, taken: seq<nat>, i: nat, k: nat)
    requires k < |taken| && taken[k] < |servers|
    ensures Entry(servers, taken + [i], k) == Entry(servers, taken, k)
  {
    assert (taken + [i])[..k] == taken[..k];
  }

  lemma PatternGrows(pattern: seq<Server>, now: seq<Server>, servers: seq<Server>, taken: seq<nat>, i: nat)
    requires IsPattern(pattern, servers, taken) && Charged(now, servers, taken) && i < |servers|
    ensures IsPattern(pattern + [now[i]], servers, taken + [i])
  {
    var longer := taken + [i];
    assert Entry(servers, longer, |taken|) == now[i] by {
      assert longer[..|taken|] == taken;
    }
    hide Entry;
    forall k | 0 <= k < |taken|
      ensures Entry(servers, longer, k) == Entry(servers, taken, k)
    {
      EntryKept(servers, taken, i, k);
    }
  }

  lemma ChargeGrows(now: seq<Server>, servers: seq<Server>, taken: seq<nat>, i: nat)
    requires Charged(now, servers, taken) && i < |servers|
    ensures Charged(now[i := now[i].(weight := now[i].weight - 1)], servers, taken + [i])
  {
    forall j | 0 <= j < |servers|
      ensures multiset(taken + [i])[j] == multiset(taken)[j] + (if i == j then 1 else 0)
    {
      CountAppend(taken, i, j);
    }
  }

  lemma CopiesLeft(now: seq<Server>, servers: seq<Server>, r: nat, s: nat)
    requires s < |servers| && Charged(now, servers, Emitted(Weights(servers), r, s))
    ensures now[s].weight > 0 <==> Weights(servers)[s] > r
  {
    hide Emitted;
    EmittedCopies(Weights(servers), r, s, s);
  }

  /** One iteration: server p.s is copied exactly when it has weight left. */
  lemma SpinStep(now: seq<Server>, servers: seq<Server>, target: int, steps: nat)
    requires |servers| >= 1 && !SpinFor(Weights(servers), target, steps).halted
    requires var p := SpinFor(Weights(servers), target, steps);
             Charged(now, servers, Emitted(Weights(servers), p.r, p.s))
    ensures var ws := Weights(servers);
            var p, q := SpinFor(ws, target, steps), SpinFor(ws, target, steps + 1);
            var taken := Emitted(ws, p.r, p.s);
            var copies := now[p.s].weight > 0;
            && (copies <==> ws[p.s] > p.r)
            && q.halted == (copies && |taken| + 1 == target)
            && (!q.halted ==> q.s == if p.s + 1 == |ws| then 0 else p.s + 1)
            && Emitted(ws, q.r, q.s) == if copies then taken + [p.s] else taken
  {
    hide Emitted, Copies, Charged;
    var ws := Weights(servers);
    var p := SpinFor(ws, target, steps);
    CopiesLeft(now, servers, p.r, p.s);
    EmittedUnfolds(ws, p.r, p.s + 1);
    EmittedUnfolds(ws, p.r + 1, 0);
  }

  /** The loop's variables after `steps` iterations. */
  ghost predicate LoopInv(pattern: seq<Server>, now: seq<Server>, table: seq<Server>, target: int, steps: nat,
                          halted: bool, s: nat)
  {
    && |table| >= 1
    && var p := SpinFor(Weights(table), target, steps);
    && halted == p.halted
    && (!halted ==> s == p.s)
    && IsPattern(pattern, table, Emitted(Weights(table), p.r, p.s))
    && Charged(now, table, Emitted(Weights(table), p.r, p.s))
  }

  lemma SameLengths(pattern: seq<Server>, now: seq<Server>, table: seq<Server>, taken: seq<nat>)
    requires IsPattern(pattern, table, taken) && Charged(now, table, taken)
    ensures |pattern| == |taken| && |now| == |table|
  {
  }

  lemma LoopStep(pattern: seq<Server>, now: seq<Server>, table: seq<Server>, target: int, steps: nat, s: nat)
    requires LoopInv(pattern, now, table, target, steps, false, s)
    ensures s < |table| == |now|
    ensures var copies := now[s].weight > 0;
            var pattern' := if copies then pattern + [now[s]] else pattern;
            var now' := if copies then now[s := now[s].(weight := now[s].weight - 1)] else now;
            var halted := copies && |pattern'| == target;
            var s' := if halted then s else if s + 1 == |table| then 0 else s + 1;
            LoopInv(pattern', now', table, target, steps + 1, halted, s')
  {
    hide IsPattern, Charged, Emitted, SpinFor;
    var p := SpinFor(Weights(table), target, steps);
    var taken := Emitted(Weights(table), p.r, p.s);
    SameLengths(pattern, now, table, taken);
    SpinStep(now, table, target, steps);
    PatternGrows(pattern, now, table, taken, s);
    ChargeGrows(now, table, taken, s);
  }

  lemma LoopStart(table: seq<Server>, target: int)
    requires |table| >= 1
    ensures LoopInv([], table, table, target, 0, false, 0)
  {
  }

  lemma {:induction false} SpinStays(ws: seq<int>, target: int, fuel: nat, more: nat)
    requires |ws| >= 1 && fuel <= more && (SpinFor(ws, target, fuel).halted || fuel == more)
    ensures SpinFor(ws, target, more) == SpinFor(ws, target, fuel)
    decreases more
  {
    if fuel < more {
      SpinStays(ws, target, fuel, more - 1);
    }
  }

  /** What the loop hands over after at most `fuel` iterations: a layout of copies, complete if it has halted. */
  ghost predicate Laid(pattern: seq<Server>, halted: bool, table: seq<Server>, target: int, fuel: nat) {
    && |table| >= 1
    && var p := SpinFor(Weights(table), target, fuel);
    halted == p.halted && IsPattern(pattern, table, Emitted(Weights(table), p.r, p.s))
  }

  lemma LoopEnd(pattern: seq<Server>, now: seq<Server>, table: seq<Server>, target: int, steps: nat,
                halted: bool, s: nat, fuel: nat)
    requires LoopInv(pattern, now, table, target, steps, halted, s) && steps <= fuel && (halted || steps == fuel)
    ensures Laid(pattern, halted, table, target, fuel)
  {
    SpinStays(Weights(table), target, steps, fuel);
  }

  /** The pattern loop, run for at most `fuel` iterations; `halted` tells whether it has ended by itself. */
  method BuildPattern(servers: array<Server>, weightSum: int, fuel: nat) returns (pattern: seq<Server>, halted: bool)
    requires servers.Length >= 1
    modifies servers
    ensures Laid(pattern, halted, old(servers[..]), weightSum, fuel)
  {
    hide LoopInv, Laid;
    ghost var table := servers[..];
    pattern, halted := [], false;
    var s := 0;
    var steps := 0;
    LoopStart(table, weightSum);
    while steps < fuel && !halted
      invariant 0 <= s && steps <= fuel
      invariant LoopInv(pattern, servers[..], table, weightSum, steps, halted, s)
      decreases fuel - steps
    {
      ghost var now := servers[..];
      LoopStep(pattern, now, table, weightSum, steps, s);
      if servers[s].weight > 0 {
        pattern := pattern + [servers[s]];
        servers[s] := servers[s].(weight := servers[s].weight - 1);
        assert servers[..] == now[s := now[s].(weight := now[s].weight - 1)];
        halted := |pattern| == weightSum;
      }
      if !halted {
        s := s + 1;
        if s == servers.Length {
          s := 0;
        }
      }
      steps := steps + 1;
    }
    LoopEnd(pattern, servers[..], table, weightSum, steps, halted, s, fuel);
  }

  /** weight_servers up to the hand-over of the pattern, within `fuel` loop iterations. */
  method WeightServers(servers: array<Server>, fuel: nat)
    returns (pattern: seq<Server>, halted: bool, ghost sorted: seq<Server>, ghost weightSum: int)
    requires servers.Length >= 1
    modifies servers
    ensures Sorted(sorted) && multiset(sorted) == multiset(old(servers[..])) && |sorted| == servers.Length
    ensures Sum(Weights(sorted)) == Sum(Weights(old(servers[..])))
    ensures Sorted(old(servers[..])) ==> sorted == old(servers[..])
    ensures weightSum >= Sum(Weights(old(servers[..])))
    ensures weightSum == Sum(Weights(old(servers[..]))) <==> Sorted(old(servers[..]))
    ensures sorted == SortedFrom(old(servers[..]), 0) && weightSum == ComputedSum(old(servers[..]), 0)
    ensures Laid(pattern, halted, sorted, weightSum, fuel)
  {
    var total := SortAndSum(servers);
    sorted, weightSum := servers[..], total;
    pattern, halted := BuildPattern(servers, total, fuel);
  }
}
