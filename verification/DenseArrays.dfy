/** Removal from a dense array by overwriting with the last element. */
module DenseArrays {

  function SwapRemoved<T>(tab: seq<T>, i: nat): (r: seq<T>)
    requires i < |tab|
    ensures |r| == |tab| - 1
  {
    tab[i := tab[|tab| - 1]][..|tab| - 1]
  }

  /** Exactly the element at i is lost; only the last element moves. */
  lemma SwapRemovedKeeps<T>(tab: seq<T>, i: nat)
    requires i < |tab|
    ensures multiset(SwapRemoved(tab, i)) == multiset(tab) - multiset{tab[i]}
    ensures forall j :: 0 <= j < |tab| - 1 && j != i ==> SwapRemoved(tab, i)[j] == tab[j]
  {
    var n := |tab| - 1;
    var front := tab[..n];
    assert tab == front + [tab[n]];
    if i < n {
      assert SwapRemoved(tab, i) == front[i := tab[n]];
    } else {
      assert SwapRemoved(tab, i) == front;
    }
  }

  predicate Distinct<T(==)>(tab: seq<T>) { forall i, j :: 0 <= i < j < |tab| ==> tab[i] != tab[j] }

  lemma {:induction false} DistinctExactly<T>(tab: seq<T>)
    ensures Distinct(tab) <==> forall x :: multiset(tab)[x] <= 1
  {
    if tab != [] {
      var front, last := tab[..|tab| - 1], tab[|tab| - 1];
      assert tab == front + [last];
      DistinctExactly(front);
      assert forall i :: 0 <= i < |front| ==> front[i] == tab[i];
      assert Distinct(tab) <==> Distinct(front) && last !in front;
      assert last in front <==> multiset(front)[last] > 0;
      assert forall x :: multiset(tab)[x] == multiset(front)[x] + multiset{last}[x];
      assert multiset(tab)[last] == multiset(front)[last] + 1;
      assert forall x :: multiset(front)[x] <= multiset(tab)[x];
      assert forall x :: x != last ==> multiset(front)[x] == multiset(tab)[x];
    }
  }

  /** On an array without repetitions: the others stay, and it stays without repetitions. */
  lemma SwapRemovedSet<T>(tab: seq<T>, i: nat)
    requires Distinct(tab) && i < |tab|
    ensures Distinct(SwapRemoved(tab, i))
    ensures forall x :: x in SwapRemoved(tab, i) <==> x in tab && x != tab[i]
  {
    SwapRemovedKeeps(tab, i);
    DistinctExactly(tab);
    DistinctExactly(SwapRemoved(tab, i));
    hide Distinct, SwapRemoved;
    var before, after := multiset(tab), multiset(SwapRemoved(tab, i));
    assert before[tab[i]] <= 1;
    forall x ensures x in SwapRemoved(tab, i) <==> x in tab && x != tab[i] {
      assert x in tab <==> x in before;
      assert x in SwapRemoved(tab, i) <==> x in after;
    }
  }
}
