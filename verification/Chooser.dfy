/** The weighted chooser, over real weights. */
module Chooser {
  import opened Wrappers
  import opened HostDiff

  datatype Error = NoInstance | WeightsDoNotSumToOne

  const DOUBLE_PRECISION_DELTA := 0.0001

  // ---------------------------------------------------------------- what the construction gives

  /** The instances that carry weight, in order. */
  function Weighted(items: seq<ServiceInstance>): seq<ServiceInstance> {
    if items == [] then []
    else
      var last := items[|items| - 1];
      Weighted(items[..|items| - 1]) + if last.weight <= 0.0 then [] else [last]
  }

  function WeightSum(items: seq<ServiceInstance>): real {
    if items == [] then 0.0 else WeightSum(items[..|items| - 1]) + items[|items| - 1].weight
  }

  ghost predicate AllPositive(items: seq<ServiceInstance>) {
    forall i :: 0 <= i < |items| ==> items[i].weight > 0.0
  }

  /** The share of the total weight that the first `n` items have together. */
  ghost function Share(items: seq<ServiceInstance>, n: nat): real
    requires items != [] && AllPositive(items) && n <= |items|
  {
    SumIsPositive(items);
    Quotient(WeightSum(items[..n]), WeightSum(items))
  }

  function Quotient(a: real, b: real): real
    requires b > 0.0
  {
    a / b
  }

  /** The vector of the chooser: the share of every prefix of the kept items. */
  ghost predicate Cumulative(weights: seq<real>, items: seq<ServiceInstance>) {
    && AllPositive(items)
    && |weights| == |items|
    && forall i :: 0 <= i < |weights| ==> weights[i] == Share(items, i + 1)
  }

  lemma {:induction false} SumIsPositive(items: seq<ServiceInstance>)
    requires AllPositive(items)
    ensures if items == [] then WeightSum(items) == 0.0 else WeightSum(items) > 0.0
  {
    if items != [] {
      SumIsPositive(items[..|items| - 1]);
    }
  }

  lemma {:induction false} WeightedArePositive(items: seq<ServiceInstance>)
    ensures AllPositive(Weighted(items))
    ensures Weighted(items) == [] <==> forall i :: 0 <= i < |items| ==> items[i].weight <= 0.0
  {
    if items != [] {
      var n := |items| - 1;
      WeightedArePositive(items[..n]);
      var before := Weighted(items[..n]);
      if items[n].weight > 0.0 {
        assert Weighted(items) == before + [items[n]];
      } else {
        assert Weighted(items) == before;
        assert forall i :: 0 <= i < n ==> items[..n][i] == items[i];
      }
    }
  }

  /** Dividing each weight before adding gives the same as adding before dividing. */
  lemma ShareOfNext(items: seq<ServiceInstance>, n: nat)
    requires items != [] && AllPositive(items) && n < |items|
    ensures WeightSum(items) > 0.0
    ensures Share(items, n + 1) == Share(items, n) + Quotient(items[n].weight, WeightSum(items))
    ensures Share(items, n) < Share(items, n + 1)
  {
    hide WeightSum, AllPositive, Quotient;
    SumIsPositive(items);
    SumOfNext(items, n);
    var a, b, total := WeightSum(items[..n]), items[n].weight, WeightSum(items);
    WeightOf(items, n);
    DivideSum(a, b, total);
  }

  lemma WeightOf(items: seq<ServiceInstance>, n: nat)
    requires AllPositive(items) && n < |items|
    ensures items[n].weight > 0.0
  {
  }

  lemma SumOfNext(items: seq<ServiceInstance>, n: nat)
    requires n < |items|
    ensures WeightSum(items[..n + 1]) == WeightSum(items[..n]) + items[n].weight
  {
    assert items[..n + 1][..n] == items[..n];
  }

  lemma DivideSum(a: real, b: real, total: real)
    requires total > 0.0 && b > 0.0
    ensures Quotient(a + b, total) == Quotient(a, total) + Quotient(b, total)
    ensures Quotient(b, total) > 0.0
  {
  }

  lemma SharesEndAtOne(items: seq<ServiceInstance>)
    requires items != [] && AllPositive(items)
    ensures Share(items, 0) == 0.0 && Share(items, |items|) == 1.0
  {
    SumIsPositive(items);
    assert items[..|items|] == items;
    assert items[..0] == [];
    assert WeightSum(items[..0]) == 0.0;
    hide WeightSum, Quotient;
    DivideEnds(WeightSum(items));
  }

  lemma DivideEnds(total: real)
    requires total > 0.0
    ensures Quotient(0.0, total) == 0.0 && Quotient(total, total) == 1.0
  {
  }

  lemma {:induction false} SharesIncrease(items: seq<ServiceInstance>, m: nat, n: nat)
    requires items != [] && AllPositive(items) && m < n <= |items|
    ensures Share(items, m) < Share(items, n)
  {
    ShareOfNext(items, n - 1);
    if m < n - 1 {
      SharesIncrease(items, m, n - 1);
    }
  }

  // ---------------------------------------------------------------- what a draw chooses

  /** The draws that choose the item at `index`: above the share of the items before it, up to and
      including its own. The lowest draw, 0, goes to the first item. */
  ghost predicate Chooses(items: seq<ServiceInstance>, index: nat, draw: real)
    requires items != [] && AllPositive(items) && index < |items|
  {
    (Share(items, index) < draw || (index == 0 && draw == 0.0)) && draw <= Share(items, index + 1)
  }

  ghost predicate LeastWithShare(items: seq<ServiceInstance>, index: nat, draw: real)
    requires items != [] && AllPositive(items)
  {
    && index < |items|
    && draw <= Share(items, index + 1)
    && forall n :: 0 < n <= index ==> Share(items, n) < draw
  }

  /** The item of a draw's interval is the one at the least index whose share reaches the draw. */
  lemma ChoosesIsLeast(items: seq<ServiceInstance>, index: nat, draw: real)
    requires items != [] && AllPositive(items) && index < |items|
    requires 0.0 <= draw < 1.0
    ensures Chooses(items, index, draw) <==> LeastWithShare(items, index, draw)
  {
    SharesEndAtOne(items);
    if index > 0 {
      if Chooses(items, index, draw) {
        forall n | 0 < n <= index ensures Share(items, n) < draw {
          if n < index {
            SharesIncrease(items, n, index);
          }
        }
      }
    }
  }

  /** The intervals of the items partition the draws, and each is as long as its item's share of
      the weight. */
  lemma IntervalsPartition(items: seq<ServiceInstance>, draw: real) returns (index: nat)
    requires items != [] && AllPositive(items)
    requires 0.0 <= draw < 1.0
    ensures index < |items| && Chooses(items, index, draw) && WeightSum(items) > 0.0
    ensures forall i :: 0 <= i < |items| && Chooses(items, i, draw) ==> i == index
    ensures Share(items, index + 1) - Share(items, index) == Quotient(items[index].weight, WeightSum(items))
    ensures Share(items, 0) == 0.0 && Share(items, |items|) == 1.0
  {
    SharesEndAtOne(items);
    index := 0;
    while Share(items, index + 1) < draw
      invariant index < |items|
      invariant forall n :: 0 < n <= index ==> Share(items, n) < draw
      decreases |items| - index
    {
      index := index + 1;
    }
    ChoosesIsLeast(items, index, draw);
    forall i | 0 <= i < |items| && Chooses(items, i, draw) ensures i == index {
      ChoosesIsLeast(items, i, draw);
    }
    ShareOfNext(items, index);
  }

  // ---------------------------------------------------------------- the object

  class RandomWeightChooser {
    var weights: seq<real>
    var items: seq<ServiceInstance>

    ghost predicate Valid()
      reads this
    {
      Cumulative(weights, items)
    }

    constructor (built: Built)
      ensures weights == built.weights && items == built.items
    {
      weights, items := built.weights, built.items;
    }

    /** Picks the item of a draw from [0, 1); there is none only when no item carries weight. */
    method Choose(draw: real) returns (chosen: Option<ServiceInstance>)
      requires Valid()
      requires 0.0 <= draw < 1.0
      modifies this`items
      ensures chosen.None? <==> old(items) == []
      ensures chosen.Some? ==>
                exists index :: 0 <= index < |old(items)| && Chooses(old(items), index, draw)
                                && chosen.value == old(items)[index]
      ensures items == old(items)
    {
      WeightsIncrease(weights, items);
      var found, index := BinarySearch(weights, draw);
      if found || (index < |weights| && draw < weights[index]) {
        ChosenAt(weights, items, index, draw);
        return Some(items[index]);
      }
      LastWeightIsOne(weights, items);
      chosen := Pop();
    }

    method Pop() returns (last: Option<ServiceInstance>)
      modifies this`items
      ensures old(items) == [] ==> last.None? && items == []
      ensures old(items) != [] ==> last == Some(old(items)[|old(items)| - 1]) && items == old(items)[..|old(items)| - 1]
    {
      if items == [] {
        return None;
      }
      last := Some(items[|items| - 1]);
      items := items[..|items| - 1];
    }
  }

  lemma LastWeightIsOne(weights: seq<real>, items: seq<ServiceInstance>)
    requires Cumulative(weights, items)
    ensures items != [] ==> weights[|weights| - 1] == 1.0
  {
    if items != [] {
      SharesEndAtOne(items);
    }
  }

  lemma WeightsIncrease(weights: seq<real>, items: seq<ServiceInstance>)
    requires Cumulative(weights, items)
    ensures forall i, j :: 0 <= i < j < |weights| ==> weights[i] < weights[j]
  {
    forall i, j | 0 <= i < j < |weights| ensures weights[i] < weights[j] {
      SharesIncrease(items, i + 1, j + 1);
    }
  }

  lemma ChosenAt(weights: seq<real>, items: seq<ServiceInstance>, index: nat, draw: real)
    requires Cumulative(weights, items) && index < |weights|
    requires 0.0 <= draw < 1.0 && draw <= weights[index]
    requires forall i :: 0 <= i < index ==> weights[i] < draw
    ensures Chooses(items, index, draw)
  {
    forall n | 0 < n <= index ensures Share(items, n) < draw {
      assert weights[n - 1] < draw;
    }
    ChoosesIsLeast(items, index, draw);
  }

  /** The library's binary search in an increasing vector: a match, or the place to insert. */
  method BinarySearch(weights: seq<real>, draw: real) returns (found: bool, index: nat)
    requires forall i, j :: 0 <= i < j < |weights| ==> weights[i] < weights[j]
    ensures found ==> index < |weights| && weights[index] == draw
    ensures !found ==> index <= |weights|
    ensures forall i :: 0 <= i < index ==> weights[i] < draw
    ensures !found ==> forall i :: index <= i < |weights| ==> draw < weights[i]
  {
    var low, high := 0, |weights|;
    while low < high
      invariant 0 <= low <= high <= |weights|
      invariant forall i :: 0 <= i < low ==> weights[i] < draw
      invariant forall i :: high <= i < |weights| ==> draw < weights[i]
    {
      var mid := low + (high - low) / 2;
      if weights[mid] < draw {
        low := mid + 1;
      } else if draw < weights[mid] {
        high := mid;
      } else {
        return true, mid;
      }
    }
    return false, low;
  }

  datatype Built = Built(weights: seq<real>, items: seq<ServiceInstance>)

  /** A chooser for a non-empty list. The tolerance check never fails. */
  method New(items: seq<ServiceInstance>) returns (r: Result<RandomWeightChooser, Error>)
    ensures r.Failure? <==> items == []
    ensures r.Failure? ==> r.error == NoInstance
    ensures r.Success? ==> fresh(r.value) && r.value.Valid() && r.value.items == Weighted(items)
  {
    var built := Build(items);
    if built.Failure? {
      return Failure(built.error);
    }
    var chooser := new RandomWeightChooser(built.value);
    return Success(chooser);
  }

  /** Keeps the items that carry weight and builds the vector of their shares. */
  method Build(items: seq<ServiceInstance>) returns (r: Result<Built, Error>)
    ensures r.Failure? <==> items == []
    ensures r.Failure? ==> r.error == NoInstance
    ensures r.Success? ==> r.value.items == Weighted(items) && Cumulative(r.value.weights, r.value.items)
  {
    if items == [] {
      return Failure(NoInstance);
    }
    var originWeightSum := SumWeights(items);
    var initItems, exactWeights := ExactWeights(items, originWeightSum);
    WeightedArePositive(items);
    SumIsPositive(initItems);
    var weights := CumulativeWeights(exactWeights, initItems);
    LastWeightIsOne(weights, initItems);
    if |weights| == 0 || Abs(weights[|weights| - 1] - 1.0) < DOUBLE_PRECISION_DELTA {
      return Success(Built(weights, initItems));
    }
    assert false;
    return Failure(WeightsDoNotSumToOne);
  }

  /** The first loop. */
  method SumWeights(items: seq<ServiceInstance>) returns (originWeightSum: real)
    ensures originWeightSum == WeightSum(Weighted(items))
  {
    hide Weighted, WeightSum;
    NothingWeighted();
    originWeightSum := 0.0;
    assert items[..0] == [];
    for i := 0 to |items|
      invariant originWeightSum == WeightSum(Weighted(items[..i]))
    {
      WeightedNext(items, i);
      if items[i].weight <= 0.0 {
        continue;
      }
      originWeightSum := originWeightSum + items[i].weight;
    }
    assert items[..|items|] == items;
  }

  /** The second loop. */
  method ExactWeights(items: seq<ServiceInstance>, originWeightSum: real)
    returns (initItems: seq<ServiceInstance>, exactWeights: seq<real>)
    requires originWeightSum == WeightSum(Weighted(items))
    ensures initItems == Weighted(items)
    ensures |exactWeights| == |initItems|
    ensures originWeightSum != 0.0 ==>
              forall k :: 0 <= k < |initItems| ==> exactWeights[k] == initItems[k].weight / originWeightSum
  {
    hide WeightSum, Weighted, AllPositive;
    NothingWeighted();
    WeightedArePositive(items);
    SumIsPositive(Weighted(items));
    assert items[..0] == [];
    initItems, exactWeights := [], [];
    for i := 0 to |items|
      invariant initItems == Weighted(items[..i])
      invariant |exactWeights| == |initItems|
      invariant originWeightSum != 0.0 ==>
                  forall k :: 0 <= k < |initItems| ==> exactWeights[k] == initItems[k].weight / originWeightSum
    {
      WeightedNext(items, i);
      if items[i].weight <= 0.0 {
        continue;
      }
      initItems := initItems + [items[i]];
      exactWeights := exactWeights + [items[i].weight / originWeightSum];
    }
    assert items[..|items|] == items;
  }

  /** The third loop. */
  method CumulativeWeights(exactWeights: seq<real>, items: seq<ServiceInstance>) returns (weights: seq<real>)
    requires AllPositive(items) && |exactWeights| == |items|
    requires items != [] ==> WeightSum(items) > 0.0
    requires forall k :: 0 <= k < |items| ==> exactWeights[k] == Quotient(items[k].weight, WeightSum(items))
    ensures Cumulative(weights, items)
  {
    weights := [];
    var randomRange := 0.0;
    if items != [] {
      SharesEndAtOne(items);
    }
    for i := 0 to |exactWeights|
      invariant |weights| == i
      invariant items != [] ==> randomRange == Share(items, i)
      invariant forall k :: 0 <= k < i ==> weights[k] == Share(items, k + 1)
    {
      ShareOfNext(items, i);
      weights := weights + [randomRange + exactWeights[i]];
      randomRange := randomRange + exactWeights[i];
    }
  }

  function Abs(x: real): (r: real)
    ensures r >= 0.0 && (r == x || r == -x)
  {
    if x < 0.0 then -x else x
  }

  lemma WeightedNext(items: seq<ServiceInstance>, i: nat)
    requires i < |items|
    ensures Weighted(items[..i + 1]) == Weighted(items[..i]) + if items[i].weight <= 0.0 then [] else [items[i]]
    ensures WeightSum(Weighted(items[..i + 1])) ==
            WeightSum(Weighted(items[..i])) + if items[i].weight <= 0.0 then 0.0 else items[i].weight
  {
    assert items[..i + 1][..i] == items[..i];
    var before := Weighted(items[..i]);
    if items[i].weight <= 0.0 {
      assert before + [] == before;
    } else {
      SumAppend(before, items[i]);
    }
  }

  lemma NothingWeighted()
    ensures Weighted([]) == [] && WeightSum([]) == 0.0
  {
  }

  lemma SumAppend(items: seq<ServiceInstance>, item: ServiceInstance)
    ensures WeightSum(items + [item]) == WeightSum(items) + item.weight
  {
    assert (items + [item])[..|items|] == items;
  }
}
