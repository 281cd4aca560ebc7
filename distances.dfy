/** Network distances as the shortest-path table stores and compares them.

    The source keeps Python floats: a path length, or `float("inf")` for a
    search that failed and for an entry nothing has improved yet. Here a
    length is a natural number and infinity is its own case. */
module Distances {

  /** A distance: a finite path length, or infinity. */
  datatype Dist = Fin(length: nat) | Inf

  /** The outcome of one shortest-path search: the length of the path found,
      or a failure (no path, unknown node, or any other exception). */
  datatype SearchOutcome = Found(length: nat) | Failed

  /** Python's `<` between two such floats: every finite length is below
      infinity, and infinity is below nothing. */
  predicate Less(a: Dist, b: Dist): (r: bool)
    ensures a.Fin? && b.Fin? ==> (r <==> a.length < b.length)
    ensures a.Fin? && b == Inf ==> r
    ensures r ==> a != Inf && a != b
  {
    match (a, b)
    case (Fin(x), Fin(y)) => x < y
    case (Fin(_), Inf) => true
    case (Inf, _) => false
  }

  predicate LessEq(a: Dist, b: Dist)
  {
    !Less(b, a)
  }

  /** What one search contributes to the table: its length, or infinity
      when the search raised. */
  function LengthOf(s: SearchOutcome): (d: Dist)
    ensures d == Inf <==> s == Failed
    ensures s.Found? ==> d == Fin(s.length)
  {
    match s
    case Found(n) => Fin(n)
    case Failed => Inf
  }

  /** `init` lowered by each element of `ds` in turn: an element replaces the
      current value only when it is strictly smaller. */
  function Lowered(init: Dist, ds: seq<Dist>): (m: Dist)
    ensures LessEq(m, init)
    ensures m == init || m in ds
  {
    if ds == [] then init
    else
      var m := Lowered(init, ds[..|ds| - 1]);
      if Less(ds[|ds| - 1], m) then ds[|ds| - 1] else m
  }

  lemma LessEqTotalOrder(a: Dist, b: Dist, c: Dist)
    ensures LessEq(a, a)
    ensures LessEq(a, b) || LessEq(b, a)
    ensures LessEq(a, b) && LessEq(b, a) ==> a == b
    ensures LessEq(a, b) && LessEq(b, c) ==> LessEq(a, c)
  {
  }

  /** The running minimum is the minimum: no larger than the starting value
      or any element, and equal to one of them. */
  lemma {:induction false} LoweredIsMinimum(init: Dist, ds: seq<Dist>)
    ensures LessEq(Lowered(init, ds), init)
    ensures forall d :: d in ds ==> LessEq(Lowered(init, ds), d)
    ensures Lowered(init, ds) == init || Lowered(init, ds) in ds
  {
    if ds != [] {
      var front := ds[..|ds| - 1];
      LoweredIsMinimum(init, front);
      assert ds == front + [ds[|ds| - 1]];
      forall d | d in ds
        ensures LessEq(Lowered(init, ds), d)
      {
        if d in front {
          LessEqTotalOrder(Lowered(init, ds), Lowered(init, front), d);
        }
      }
    }
  }

  /** Any value that is a lower bound of the starting value and of the
      elements, and is one of them, is the running minimum. */
  lemma LoweredUnique(init: Dist, ds: seq<Dist>, m: Dist)
    requires LessEq(m, init) && forall d :: d in ds ==> LessEq(m, d)
    requires m == init || m in ds
    ensures Lowered(init, ds) == m
  {
    LoweredIsMinimum(init, ds);
    var r := Lowered(init, ds);
    LessEqTotalOrder(m, r, r);
  }

  /** The minimum is infinite exactly when the start and every element are. */
  lemma LoweredIsInf(init: Dist, ds: seq<Dist>)
    ensures Lowered(init, ds) == Inf <==> init == Inf && forall d :: d in ds ==> d == Inf
  {
    LoweredIsMinimum(init, ds);
  }

  /** Lowering a second time by the same elements changes nothing. */
  lemma LoweredIdempotent(init: Dist, ds: seq<Dist>)
    ensures Lowered(Lowered(init, ds), ds) == Lowered(init, ds)
  {
    var m := Lowered(init, ds);
    LoweredIsMinimum(init, ds);
    LessEqTotalOrder(m, m, m);
    LoweredUnique(m, ds, m);
  }
}
