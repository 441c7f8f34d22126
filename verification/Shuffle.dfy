/** The random order of test files and test functions (`system__randomize_array`). */
module Shuffle {

  /** The array without the element at `i`, packed again. */
  function Without<T>(copy: seq<T>, i: nat): seq<T>
    requires i < |copy|
  {
    copy[..i] + copy[i + 1..]
  }

  /** The printed order for given random numbers, one for each element. */
  function Shuffled<T>(items: seq<T>, draws: seq<nat>): seq<T>
    requires |draws| == |items|
  {
    if items == [] then []
    else
      var i := draws[0] % |items|;
      [items[i]] + Shuffled(Without(items, i), draws[1..])
  }

  /** `system__randomize_array`: print a random element and take it out, until nothing is left. */
  method Randomize<T>(items: seq<T>, draws: seq<nat>) returns (printed: seq<T>)
    requires |draws| == |items|
    ensures printed == Shuffled(items, draws)
  {
    printed := [];
    var copy, drawn := items, 0;
    assert draws[0..] == draws;
    while |copy| > 0
      invariant drawn + |copy| == |items|
      invariant printed + Shuffled(copy, draws[drawn..]) == Shuffled(items, draws)
    {
      assert draws[drawn..][0] == draws[drawn] && draws[drawn..][1..] == draws[drawn + 1..];
      var i := draws[drawn] % |copy|;
      ghost var rest := Shuffled(Without(copy, i), draws[drawn + 1..]);
      assert printed + ([copy[i]] + rest) == printed + [copy[i]] + rest;
      printed := printed + [copy[i]];
      copy := Without(copy, i);
      drawn := drawn + 1;
    }
  }

  lemma TakeOut<T>(items: seq<T>, i: nat)
    requires i < |items|
    ensures multiset(items) == multiset{items[i]} + multiset(Without(items, i))
  {
    assert items == items[..i] + [items[i]] + items[i + 1..];
  }

  /** Whatever is drawn, the printed order is a permutation. */
  lemma {:induction false} ShuffledIsPermutation<T>(items: seq<T>, draws: seq<nat>)
    requires |draws| == |items|
    ensures multiset(Shuffled(items, draws)) == multiset(items)
  {
    if items != [] {
      var i := draws[0] % |items|;
      TakeOut(items, i);
      ShuffledIsPermutation(Without(items, i), draws[1..]);
    }
  }

  /** Where the head of one order stands in another arrangement of the same elements. */
  lemma FindHead<T>(items: seq<T>, order: seq<T>) returns (i: nat)
    requires items != [] && multiset(order) == multiset(items)
    ensures |order| == |items| && i < |items| && items[i] == order[0]
    ensures multiset(order[1..]) == multiset(Without(items, i))
  {
    assert |order| == |multiset(order)| == |multiset(items)| == |items|;
    assert order[0] in multiset(items);
    i :| 0 <= i < |items| && items[i] == order[0];
    TakeOut(items, i);
    assert order == [order[0]] + order[1..];
    CancelOne(order[0], multiset(order[1..]), multiset(Without(items, i)));
  }

  lemma CancelOne<T>(x: T, a: multiset<T>, b: multiset<T>)
    requires multiset{x} + a == multiset{x} + b
    ensures a == b
  {
    assert a == multiset{x} + a - multiset{x};
    assert b == multiset{x} + b - multiset{x};
  }

  lemma NoWrap(i: nat, n: nat)
    requires i < n
    ensures i % n == i
  {
  }

  /** Every permutation can come out, with draws smaller than the size of the array. */
  lemma {:induction false} EveryOrderIsDrawn<T>(items: seq<T>, order: seq<T>) returns (draws: seq<nat>)
    requires multiset(order) == multiset(items)
    ensures |draws| == |items| && Shuffled(items, draws) == order
    ensures forall k :: 0 <= k < |draws| ==> draws[k] < |items|
  {
    if items == [] {
      assert |order| == |multiset(order)| == 0;
      draws := [];
    } else {
      var i := FindHead(items, order);
      var rest := EveryOrderIsDrawn(Without(items, i), order[1..]);
      draws := [i] + rest;
      NoWrap(i, |items|);
      assert draws[1..] == rest && draws[0] == i;
      assert [order[0]] + order[1..] == order;
      assert Shuffled(items, draws) == [items[i]] + Shuffled(Without(items, i), rest);
      forall k | 0 <= k < |draws| ensures draws[k] < |items| {
        assert k > 0 ==> draws[k] == rest[k - 1];
      }
    }
  }

  /** `RANDOM` gives numbers below this bound. */
  const RANDOM_BOUND := 32768

  ghost predicate CanComeOut<T>(items: seq<T>, order: seq<T>) {
    exists draws: seq<nat> :: |draws| == |items| && (forall k :: 0 <= k < |draws| ==> draws[k] < RANDOM_BOUND)
      && Shuffled(items, draws) == order
  }

  lemma LateElementNeverFirst<T>(items: seq<T>)
    requires |items| > RANDOM_BOUND && forall i, j :: 0 <= i < j < |items| ==> items[i] != items[j]
    ensures var order := [items[RANDOM_BOUND]] + Without(items, RANDOM_BOUND);
      multiset(order) == multiset(items) && !CanComeOut(items, order)
  {
    var order := [items[RANDOM_BOUND]] + Without(items, RANDOM_BOUND);
    TakeOut(items, RANDOM_BOUND);
    forall draws: seq<nat> | |draws| == |items| && forall k :: 0 <= k < |draws| ==> draws[k] < RANDOM_BOUND
      ensures Shuffled(items, draws) != order
    {
      NoWrap(draws[0], |items|);
      assert Shuffled(items, draws)[0] == items[draws[0]];
    }
  }

  /** With the numbers of `RANDOM`, every order of distinct elements can come out iff there are at most 32768. */
  lemma EveryOrderComesOutIff<T>(items: seq<T>)
    requires forall i, j :: 0 <= i < j < |items| ==> items[i] != items[j]
    ensures (forall order :: multiset(order) == multiset(items) ==> CanComeOut(items, order))
       <==> |items| <= RANDOM_BOUND
  {
    if |items| > RANDOM_BOUND {
      LateElementNeverFirst(items);
    } else {
      forall order | multiset(order) == multiset(items) ensures CanComeOut(items, order) {
        var draws := EveryOrderIsDrawn(items, order);
      }
    }
  }
}
