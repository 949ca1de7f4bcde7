/** The number that weight_servers adds up while it sorts, in terms of the table as it was: the sum of the largest
    weights seen so far. */
module WeightSum {
  import opened Servers
  import opened WeightedPattern

  /** The largest weight of the entries lo .. hi-1. */
  function MaxIn(s: seq<Server>, lo: nat, hi: nat): int
    requires lo < hi <= |s|
  {
    if hi == lo + 1 then s[lo].weight
    else
      var m := MaxIn(s, lo, hi - 1);
      if s[hi - 1].weight > m then s[hi - 1].weight else m
  }

  lemma {:induction false} MaxIs(s: seq<Server>, lo: nat, hi: nat) returns (k: nat)
    requires lo < hi <= |s|
    ensures lo <= k < hi && s[k].weight == MaxIn(s, lo, hi)
    ensures forall k :: lo <= k < hi ==> s[k].weight <= MaxIn(s, lo, hi)
    decreases hi
  {
    k := lo;
    if hi > lo + 1 {
      k := MaxIs(s, lo, hi - 1);
      if s[hi - 1].weight > MaxIn(s, lo, hi - 1) {
        k := hi - 1;
      }
    }
  }

  /** One comparison of a pass. */
  function Compared(s: seq<Server>, i: nat, j: nat): (r: seq<Server>)
    requires i < j < |s|
    ensures |r| == |s|
    ensures forall k :: 0 <= k < |s| && k != i && k != j ==> r[k] == s[k]
    ensures r[i].weight <= r[j].weight && {r[i], r[j]} == {s[i], s[j]}
  {
    if s[i].weight > s[j].weight then Swapped(s, i, j) else s
  }

  /** It keeps the largest weight of every range around both entries, and leaves it behind the first one. */
  lemma ComparedMax(s: seq<Server>, i: nat, j: nat, k: nat)
    requires i < j <= k < |s|
    ensures var r := Compared(s, i, j);
            && MaxIn(r, i, k + 1) == MaxIn(s, i, k + 1)
            && MaxIn(r, i + 1, j + 1) == MaxIn(s, i, j + 1)
  {
    hide MaxIn, Compared;
    var r := Compared(s, i, j);
    Exchanged(s, r, i, j, i, k + 1);
    Exchanged(s, r, i, j, i, j + 1);
    FirstIsNoMax(r, i, j);
  }

  /** An entry that is no larger than a later one does not matter for the largest. */
  lemma FirstIsNoMax(r: seq<Server>, i: nat, j: nat)
    requires i < j < |r| && r[i].weight <= r[j].weight
    ensures MaxIn(r, i + 1, j + 1) == MaxIn(r, i, j + 1)
  {
    hide MaxIn;
    var p := MaxIs(r, i, j + 1);
    var q := MaxIs(r, i + 1, j + 1);
  }

  lemma UnchangedMax(s: seq<Server>, r: seq<Server>, lo: nat, hi: nat)
    requires lo < hi <= |s| == |r| && forall k :: lo <= k < hi ==> r[k] == s[k]
    ensures MaxIn(r, lo, hi) == MaxIn(s, lo, hi)
  {
    hide MaxIn;
    var p := MaxIs(r, lo, hi);
    var q := MaxIs(s, lo, hi);
  }

  lemma Exchanged(s: seq<Server>, r: seq<Server>, i: nat, j: nat, lo: nat, hi: nat)
    requires lo <= i < j < hi <= |s| == |r| && {r[i], r[j]} == {s[i], s[j]}
    requires forall k :: 0 <= k < |s| && k != i && k != j ==> r[k] == s[k]
    ensures MaxIn(r, lo, hi) == MaxIn(s, lo, hi)
  {
    hide MaxIn;
    var p := MaxIs(r, lo, hi);
    var q := MaxIs(s, lo, hi);
    assert r[i] in {s[i], s[j]} && r[j] in {s[i], s[j]} && s[i] in {r[i], r[j]} && s[j] in {r[i], r[j]};
  }

  lemma ComparedIs(s: seq<Server>, i: nat, j: nat)
    requires i < j <= |s|
    ensures j < |s| ==> Pass(s, i, j) == Pass(Compared(s, i, j), i, j + 1)
    ensures j == |s| ==> Pass(s, i, j) == s
  {
    hide Swapped;
    PassUnfolds(s, i, j);
  }

  /** What a pass from j on leaves behind entry i: the largest weights of the ranges that had begun with it. */
  lemma {:induction false} PassMaxima(s: seq<Server>, i: nat, j: nat, k: nat)
    requires i < j <= |s| && i < k < |s|
    requires forall p :: i < p < j ==> s[i].weight <= s[p].weight
    ensures MaxIn(Pass(s, i, j), i + 1, k + 1) == if k < j then MaxIn(s, i + 1, k + 1) else MaxIn(s, i, k + 1)
    decreases |s| - j
  {
    hide MaxIn, Pass, Swapped, Compared;
    ComparedIs(s, i, j);
    if j < |s| {
      var r := Compared(s, i, j);
      PassMaxima(r, i, j + 1, k);
      if k < j {
        UnchangedMax(s, r, i + 1, k + 1);
      } else {
        ComparedMax(s, i, j, k);
      }
    }
  }

  /** The largest weights of the ranges that begin at lo, summed up over their ends from k on. */
  function MaximaFrom(s: seq<Server>, lo: nat, k: nat): int
    requires lo <= k <= |s|
    decreases |s| - k
  {
    if k == |s| then 0 else MaxIn(s, lo, k + 1) + MaximaFrom(s, lo, k + 1)
  }

  lemma {:induction false} PassKeepsMaxima(s: seq<Server>, i: nat, k: nat)
    requires i < k <= |s|
    ensures MaximaFrom(Pass(s, i, i + 1), i + 1, k) == MaximaFrom(s, i, k)
    decreases |s| - k
  {
    hide MaxIn, Pass;
    if k < |s| {
      PassMaxima(s, i, i + 1, k);
      PassKeepsMaxima(s, i, k + 1);
    }
  }

  lemma {:induction false} SumFrom(s: seq<Server>, i: nat)
    requires i < |s|
    ensures ComputedSum(s, i) == MaximaFrom(s, i, i)
    decreases |s| - i
  {
    hide Pass, SortedFrom;
    SortUnfolds(s, i);
    assert MaxIn(s, i, i + 1) == s[i].weight;
    if i < |s| - 1 {
      PassKeepsMaxima(s, i, i + 1);
      SumFrom(Pass(s, i, i + 1), i + 1);
    }
  }

  /** The computed sum is the sum, over all entries of the table, of the largest weight up to there. */
  lemma ComputedSumIs(input: seq<Server>)
    requires |input| >= 1
    ensures ComputedSum(input, 0) == MaximaFrom(input, 0, 0)
  {
    SumFrom(input, 0);
  }

  /** So weight_servers comes to an end if and only if that sum is positive and the table can supply it. */
  lemma EndsIffMaximaSupplied(input: seq<Server>)
    requires |input| >= 1
    ensures (exists fuel :: SpinFor(Weights(SortedFrom(input, 0)), ComputedSum(input, 0), fuel).halted)
            <==> 1 <= MaximaFrom(input, 0, 0) <= Supply(Weights(input))
  {
    hide SpinFor, SortedFrom, Supply, MaximaFrom;
    ComputedSumIs(input);
    ComputedSumHaltsIff(input);
  }
}
