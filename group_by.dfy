/** `groupBy(subReducer, getInitial)(collection, key)`: a reduce over the
    collection that keeps one accumulator per key in a dictionary.

    Items are of any type `T`; `key(item)` stands for `item[key]`.  The
    dictionary is a `map` from keys to accumulators; reading a missing entry
    yields `undefined` (`None`).  The (re)initialisation guard of the source
    is a falsiness test, so the model takes JavaScript's notion of falsiness
    on accumulators as the parameter `falsy`; a missing entry is falsy too. */
module Grouping {
  import opened Wrappers

  /** The items of `c` whose key is `k`, in collection order. */
  function ItemsWithKey<T, K(==)>(c: seq<T>, key: T -> K, k: K): (r: seq<T>)
    ensures |r| <= |c|
    ensures forall x :: x in r ==> x in c && key(x) == k
    ensures r == [] <==> forall i :: 0 <= i < |c| ==> key(c[i]) != k
  {
    if |c| == 0 then []
    else ItemsWithKey(c[..|c| - 1], key, k) + if key(c[|c| - 1]) == k then [c[|c| - 1]] else []
  }

  /** The keys that occur in `c`. */
  function KeysOf<T, K(==)>(c: seq<T>, key: T -> K): set<K>
  {
    set i | 0 <= i < |c| :: key(c[i])
  }

  /** What the dictionary holds for one key after the reduce has visited
      `items`, that key's items in order: nothing before the first one; before
      each sub-reduction an accumulator that is missing or falsy is replaced by
      `initial`. */
  function GroupFold<T, A>(items: seq<T>, subReducer: (A, T) -> A, initial: A, falsy: A -> bool): (r: Option<A>)
    ensures r.None? <==> items == []
  {
    if |items| == 0 then None
    else
      var acc := GroupFold(items[..|items| - 1], subReducer, initial, falsy);
      var start := if acc.None? || falsy(acc.value) then initial else acc.value;
      Some(subReducer(start, items[|items| - 1]))
  }

  /** The plain left fold `items.reduce(subReducer, initial)`. */
  function FoldLeft<T, A>(items: seq<T>, subReducer: (A, T) -> A, initial: A): A
  {
    if |items| == 0 then initial
    else subReducer(FoldLeft(items[..|items| - 1], subReducer, initial), items[|items| - 1])
  }

  /** The dictionary built by `groupBy`: an entry for exactly the keys that
      occur, holding that key's `GroupFold`.  The collection is a value and is
      not changed. */
  method GroupBy<T, K(==), A>(collection: seq<T>, key: T -> K, subReducer: (A, T) -> A, initial: A, falsy: A -> bool)
    returns (groupedItems: map<K, A>)
    ensures forall k :: Get(groupedItems, k) == GroupFold(ItemsWithKey(collection, key, k), subReducer, initial, falsy)
    ensures forall k :: k in groupedItems <==> exists i :: 0 <= i < |collection| && key(collection[i]) == k
  {
    groupedItems := map[];
    for i := 0 to |collection|
      invariant forall k :: Get(groupedItems, k) == GroupFold(ItemsWithKey(collection[..i], key, k), subReducer, initial, falsy)
    {
      ghost var before := groupedItems;
      var item := collection[i];
      if key(item) !in groupedItems || falsy(groupedItems[key(item)]) {
        groupedItems := groupedItems[key(item) := initial];
      }
      groupedItems := groupedItems[key(item) := subReducer(groupedItems[key(item)], item)];
      forall k ensures Get(groupedItems, k) == GroupFold(ItemsWithKey(collection[..i + 1], key, k), subReducer, initial, falsy) {
        assert collection[..i] + [item] == collection[..i + 1];
        if k == key(item) {
          OwnKeyReduced(collection[..i], item, key, subReducer, initial, falsy);
        } else {
          OtherKeyUnchanged(collection[..i], item, key, subReducer, initial, falsy, k);
          assert Get(groupedItems, k) == Get(before, k);
        }
      }
    }
    assert collection[..|collection|] == collection;
    forall k ensures k in groupedItems <==> exists i :: 0 <= i < |collection| && key(collection[i]) == k {
      assert Get(groupedItems, k).Some? <==> ItemsWithKey(collection, key, k) != [];
    }
  }

  /** Visiting one more item changes only the group of that item's own key. */
  lemma OtherKeyUnchanged<T, K, A>(c: seq<T>, x: T, key: T -> K, subReducer: (A, T) -> A, initial: A, falsy: A -> bool, k: K)
    requires k != key(x)
    ensures GroupFold(ItemsWithKey(c + [x], key, k), subReducer, initial, falsy)
         == GroupFold(ItemsWithKey(c, key, k), subReducer, initial, falsy)
  {
    ItemsWithKeyAppend(c, x, key, k);
    var before := ItemsWithKey(c, key, k);
    assert before + [] == before;
  }

  /** The group of the visited item's key takes one more sub-reduction, from
      `initial` when its accumulator was missing or falsy. */
  lemma OwnKeyReduced<T, K, A>(c: seq<T>, x: T, key: T -> K, subReducer: (A, T) -> A, initial: A, falsy: A -> bool)
    ensures var acc := GroupFold(ItemsWithKey(c, key, key(x)), subReducer, initial, falsy);
      GroupFold(ItemsWithKey(c + [x], key, key(x)), subReducer, initial, falsy)
      == Some(subReducer(if acc.None? || falsy(acc.value) then initial else acc.value, x))
  {
    ItemsWithKeyAppend(c, x, key, key(x));
    var before := ItemsWithKey(c, key, key(x));
    assert (before + [x])[..|before|] == before;
  }

  lemma ItemsWithKeyAppend<T, K>(c: seq<T>, x: T, key: T -> K, k: K)
    ensures ItemsWithKey(c + [x], key, k) == ItemsWithKey(c, key, k) + if key(x) == k then [x] else []
  {
    assert (c + [x])[..|c|] == c;
  }

  /** While no accumulator along the way is falsy, a group holds the plain
      left fold of its items from `initial`. */
  lemma {:induction false} TruthyGroupIsFold<T, A>(items: seq<T>, subReducer: (A, T) -> A, initial: A, falsy: A -> bool)
    requires items != []
    requires forall j :: 0 < j < |items| ==> !falsy(FoldLeft(items[..j], subReducer, initial))
    ensures GroupFold(items, subReducer, initial, falsy) == Some(FoldLeft(items, subReducer, initial))
  {
    var n := |items|;
    if n > 1 {
      var prefix := items[..n - 1];
      forall j | 0 < j < |prefix| ensures !falsy(FoldLeft(prefix[..j], subReducer, initial)) {
        assert prefix[..j] == items[..j];
      }
      TruthyGroupIsFold(prefix, subReducer, initial, falsy);
      assert !falsy(FoldLeft(items[..n - 1], subReducer, initial));
    } else {
      assert items[..0] == [];
    }
  }

  /** A falsy accumulator is thrown away: the next item of that key is reduced
      into `initial` instead, whatever the group held. */
  lemma FalsyGroupRestarts<T, A>(items: seq<T>, x: T, subReducer: (A, T) -> A, initial: A, falsy: A -> bool)
    requires items != []
    requires falsy(GroupFold(items, subReducer, initial, falsy).value)
    ensures GroupFold(items + [x], subReducer, initial, falsy) == Some(subReducer(initial, x))
  {
    assert (items + [x])[..|items|] == items;
  }

  /** With a product reducer started at 1, the items 0 and 7 leave the group
      at 7: the falsy 0 is replaced by 1 before 7 is multiplied in, whereas a
      test for presence, or the plain fold, gives 0. */
  lemma FalsyResetChangesTheResult()
    ensures GroupFold([0, 7], (acc: int, x: int) => acc * x, 1, (acc: int) => acc == 0) == Some(7)
    ensures FoldLeft([0, 7], (acc: int, x: int) => acc * x, 1) == 0
  {
    var items := [0, 7];
    assert items[..1] == [0] && items[..1][..0] == [];
    assert items[..|items| - 1] == [0];
  }
}
