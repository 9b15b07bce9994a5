/** The optional value the pipeline uses for failed calls, and the list of the values that are present. */
module Wrappers {

  datatype Option<T> = None | Some(value: T)

  /** An optional value as a list of none or one element. */
  function Present<T>(o: Option<T>): seq<T>
  {
    if o.Some? then [o.value] else []
  }

  /** The present values of `xs`, in order: what a loop that appends only successes collects. */
  function Kept<T>(xs: seq<Option<T>>): seq<T>
  {
    if xs == [] then [] else Kept(xs[..|xs| - 1]) + (if xs[|xs| - 1].Some? then [xs[|xs| - 1].value] else [])
  }

  /** The positions of the present values of `xs`, in order. */
  function KeptIndices<T>(xs: seq<Option<T>>): seq<nat>
  {
    if xs == [] then [] else KeptIndices(xs[..|xs| - 1]) + (if xs[|xs| - 1].Some? then [|xs| - 1] else [])
  }

  predicate Increasing(ks: seq<nat>) {
    forall a, b :: 0 <= a < b < |ks| ==> ks[a] < ks[b]
  }

  /** Value `k` that is kept is the value at position `k` of the kept positions. */
  lemma {:induction false} KeptAt<T>(xs: seq<Option<T>>)
    ensures |Kept(xs)| == |KeptIndices(xs)|
    ensures forall k :: 0 <= k < |KeptIndices(xs)| ==>
      KeptIndices(xs)[k] < |xs| && xs[KeptIndices(xs)[k]] == Some(Kept(xs)[k])
  {
    if xs != [] {
      var init := xs[..|xs| - 1];
      KeptAt(init);
      forall k | 0 <= k < |KeptIndices(xs)|
        ensures KeptIndices(xs)[k] < |xs| && xs[KeptIndices(xs)[k]] == Some(Kept(xs)[k])
      {
        if k < |KeptIndices(init)| {
          assert KeptIndices(xs)[k] == KeptIndices(init)[k];
          assert Kept(xs)[k] == Kept(init)[k];
          assert xs[KeptIndices(init)[k]] == init[KeptIndices(init)[k]];
        }
      }
    }
  }

  /** The kept positions are strictly increasing, so the kept values keep the input order. */
  lemma {:induction false} KeptIncreasing<T>(xs: seq<Option<T>>)
    ensures Increasing(KeptIndices(xs))
    ensures forall k :: 0 <= k < |KeptIndices(xs)| ==> KeptIndices(xs)[k] < |xs|
  {
    if xs != [] {
      var init := xs[..|xs| - 1];
      KeptIncreasing(init);
    }
  }

  /** Every present value is kept: its position is among the kept positions. */
  lemma {:induction false} KeptComplete<T>(xs: seq<Option<T>>, i: nat)
    requires i < |xs| && xs[i].Some?
    ensures i in KeptIndices(xs)
  {
    var init := xs[..|xs| - 1];
    if i < |xs| - 1 {
      assert init[i] == xs[i];
      KeptComplete(init, i);
    }
  }

  /** Nothing is kept exactly when every value is absent. */
  lemma {:induction false} KeptEmpty<T>(xs: seq<Option<T>>)
    ensures Kept(xs) == [] <==> forall i :: 0 <= i < |xs| ==> xs[i].None?
  {
    if xs != [] {
      var init := xs[..|xs| - 1];
      KeptEmpty(init);
      assert forall i :: 0 <= i < |init| ==> init[i] == xs[i];
    }
  }
}
