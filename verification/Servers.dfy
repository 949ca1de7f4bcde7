/** The entries of the server table (`types.h`, `server_pool.h`). */
module Servers {

  datatype Status = READY | BROKEN

  datatype Server = Server(address: string, ip: string, weight: int, status: Status)

  function Weights(s: seq<Server>): (ws: seq<int>)
    ensures |ws| == |s| && forall i :: 0 <= i < |s| ==> ws[i] == s[i].weight
  {
    seq(|s|, i requires 0 <= i < |s| => s[i].weight)
  }

  function Sum(ws: seq<int>): int {
    if ws == [] then 0 else Sum(ws[..|ws| - 1]) + ws[|ws| - 1]
  }

  predicate Sorted(s: seq<Server>) {
    forall i, j :: 0 <= i < j < |s| ==> s[i].weight <= s[j].weight
  }

  lemma {:induction false} SumUpdate(ws: seq<int>, i: nat, w: int)
    requires i < |ws|
    ensures Sum(ws[i := w]) == Sum(ws) - ws[i] + w
  {
    var init := ws[..|ws| - 1];
    if i < |init| {
      SumUpdate(init, i, w);
      assert ws[i := w][..|ws| - 1] == init[i := w];
    } else {
      assert ws[i := w][..|ws| - 1] == init;
    }
  }

  function Swapped(s: seq<Server>, i: nat, j: nat): seq<Server>
    requires i < |s| && j < |s|
  {
    s[i := s[j]][j := s[i]]
  }

  lemma SwapKeeps(s: seq<Server>, i: nat, j: nat)
    requires i < j < |s|
    ensures multiset(Swapped(s, i, j)) == multiset(s)
    ensures Sum(Weights(Swapped(s, i, j))) == Sum(Weights(s))
  {
    var ws := Weights(s);
    SumUpdate(ws, i, ws[j]);
    SumUpdate(ws[i := ws[j]], j, ws[i]);
    assert Weights(Swapped(s, i, j)) == ws[i := ws[j]][j := ws[i]];
  }
}
