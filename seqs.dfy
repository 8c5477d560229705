/** Selecting elements of a list by a predicate, stated by positions: the
    reference against which the page's filtering loops are proved. */
module Seqs {

  /** The positions from `from` on whose elements satisfy `keep`, ascending. */
  function Positions<T>(xs: seq<T>, keep: T -> bool, from: nat): seq<nat>
    requires from <= |xs|
    decreases |xs| - from
  {
    if from == |xs| then []
    else (if keep(xs[from]) then [from] else []) + Positions(xs, keep, from + 1)
  }

  /** The positions are ascending, each is kept, and every kept position from
      `from` on is among them. */
  lemma {:induction false} PositionsSelect<T>(xs: seq<T>, keep: T -> bool, from: nat)
    requires from <= |xs|
    ensures var ps := Positions(xs, keep, from);
      && (forall j :: 0 <= j < |ps| ==> from <= ps[j] < |xs| && keep(xs[ps[j]]))
      && (forall j, j' :: 0 <= j < j' < |ps| ==> ps[j] < ps[j'])
      && (forall i :: from <= i < |xs| ==> (keep(xs[i]) <==> i in ps))
    decreases |xs| - from
  {
    if from < |xs| {
      PositionsSelect(xs, keep, from + 1);
    }
  }

  /** Appending an element adds its position exactly when it is kept. */
  lemma {:induction false} PositionsSnoc<T>(xs: seq<T>, x: T, keep: T -> bool, from: nat)
    requires from <= |xs|
    ensures Positions(xs + [x], keep, from) == Positions(xs, keep, from) + (if keep(x) then [|xs|] else [])
    decreases |xs| - from
  {
    var ys := xs + [x];
    var tail := if keep(x) then [|xs|] else [];
    if from < |xs| {
      PositionsSnoc(xs, x, keep, from + 1);
      assert ys[from] == xs[from];
      var head := if keep(xs[from]) then [from] else [];
      assert Positions(ys, keep, from) == head + Positions(ys, keep, from + 1);
      assert Positions(xs, keep, from) == head + Positions(xs, keep, from + 1);
      assert head + (Positions(xs, keep, from + 1) + tail) == (head + Positions(xs, keep, from + 1)) + tail;
    } else {
      assert Positions(ys, keep, from) == tail + Positions(ys, keep, from + 1);
    }
  }
}
