/** Sequence helpers: an optional value, and the values of a sequence of
    options in order, with where each value comes from. */
module Seqs {

  datatype Option<+T> = None | Some(value: T)

  /** The values of the `Some` entries of `xs`, in order. Defined from the
      back so that it follows a loop that appends. */
  function Somes<T>(xs: seq<Option<T>>): (r: seq<T>)
    ensures |r| <= |xs|
  {
    if xs == [] then []
    else
      var last := xs[|xs| - 1];
      Somes(xs[..|xs| - 1]) + (if last.Some? then [last.value] else [])
  }

  /** One more entry extends the values by its own value, if it has one. */
  lemma SomesSnoc<T>(xs: seq<Option<T>>, x: Option<T>)
    ensures Somes(xs + [x]) == Somes(xs) + (if x.Some? then [x.value] else [])
  {
    assert (xs + [x])[..|xs|] == xs;
  }

  /** The positions of the `Some` entries of `xs`, counted from `base`. */
  function Positions<T>(xs: seq<Option<T>>, base: nat): seq<nat>
  {
    if xs == [] then []
    else Positions(xs[..|xs| - 1], base) + (if xs[|xs| - 1].Some? then [base + |xs| - 1] else [])
  }

  lemma {:induction false} PositionsLength<T>(xs: seq<Option<T>>, base: nat)
    ensures |Positions(xs, base)| == |Somes(xs)|
  {
    if xs != [] {
      PositionsLength(xs[..|xs| - 1], base);
    }
  }

  /** Each position holds the entry whose value is at the same index. */
  lemma {:induction false} PositionsValues<T>(xs: seq<Option<T>>, base: nat)
    requires |Positions(xs, base)| == |Somes(xs)|
    ensures forall k :: 0 <= k < |Positions(xs, base)| ==>
              base <= Positions(xs, base)[k] < base + |xs| &&
              xs[Positions(xs, base)[k] - base] == Some(Somes(xs)[k])
  {
    if xs != [] {
      var n := |xs| - 1;
      var init := xs[..n];
      PositionsLength(init, base);
      PositionsValues(init, base);
      assert forall j :: 0 <= j < n ==> xs[j] == init[j];
    }
  }

  lemma {:induction false} PositionsIncreasing<T>(xs: seq<Option<T>>, base: nat)
    ensures forall k :: 0 <= k < |Positions(xs, base)| ==>
              base <= Positions(xs, base)[k] < base + |xs|
    ensures forall k, n :: 0 <= k < n < |Positions(xs, base)| ==>
              Positions(xs, base)[k] < Positions(xs, base)[n]
  {
    if xs != [] {
      PositionsIncreasing(xs[..|xs| - 1], base);
    }
  }

  /** A position is used exactly when its entry is a `Some`. */
  lemma {:induction false} PositionsCover<T>(xs: seq<Option<T>>, base: nat)
    ensures forall j :: 0 <= j < |xs| ==> (base + j in Positions(xs, base) <==> xs[j].Some?)
  {
    if xs != [] {
      var n := |xs| - 1;
      var init := xs[..n];
      PositionsCover(init, base);
      PositionsIncreasing(init, base);
      assert forall j :: 0 <= j < n ==> xs[j] == init[j];
    }
  }

  /** Where each value comes from, with positions counted from `base`: the
      positions increase, and a position is used exactly when its entry is a
      `Some`. */
  lemma SomesProvenance<T>(xs: seq<Option<T>>, base: nat) returns (idx: seq<nat>)
    ensures |idx| == |Somes(xs)|
    ensures forall k :: 0 <= k < |idx| ==>
              base <= idx[k] < base + |xs| && xs[idx[k] - base] == Some(Somes(xs)[k])
    ensures forall k, n :: 0 <= k < n < |idx| ==> idx[k] < idx[n]
    ensures forall j :: 0 <= j < |xs| ==> (base + j in idx <==> xs[j].Some?)
  {
    idx := Positions(xs, base);
    PositionsLength(xs, base);
    PositionsValues(xs, base);
    PositionsIncreasing(xs, base);
    PositionsCover(xs, base);
  }

  /** When every entry is a `Some`, the values are all of them, in order. */
  lemma {:induction false} SomesAll<T>(xs: seq<Option<T>>)
    requires forall j :: 0 <= j < |xs| ==> xs[j].Some?
    ensures |Somes(xs)| == |xs|
    ensures forall k :: 0 <= k < |xs| ==> Somes(xs)[k] == xs[k].value
  {
    if xs != [] {
      var n := |xs| - 1;
      var init := xs[..n];
      assert forall j :: 0 <= j < n ==> xs[j] == init[j];
      SomesAll(init);
    }
  }

  /** Without any `Some` entry there are no values. */
  lemma {:induction false} SomesNone<T>(xs: seq<Option<T>>)
    requires forall j :: 0 <= j < |xs| ==> xs[j].None?
    ensures Somes(xs) == []
  {
    if xs != [] {
      var n := |xs| - 1;
      var init := xs[..n];
      assert forall j :: 0 <= j < n ==> xs[j] == init[j];
      SomesNone(init);
    }
  }
}
