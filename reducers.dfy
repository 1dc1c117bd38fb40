/** The fold helpers of the reducer exercises: the logical reducers
    `allTruthy` and `anyTruthy`, the function pipe `execute`, and `groupBy`
    instantiated with `pushReducer` and with `maxPriceReducer`. */
module Reducers {
  import opened Wrappers
  import opened Grouping

  // ---------------------------------------------------------------------
  // Numbers as the tests use them
  // ---------------------------------------------------------------------

  function Abs(n: int): nat
  {
    if n < 0 then -n else n
  }

  /** JavaScript's `%`: the remainder of truncated division, so it takes the
      sign of the dividend (`-1 % 2` is `-1`), unlike Dafny's Euclidean `%`. */
  function JsRem(a: int, b: int): (r: int)
    requires b != 0
    ensures Abs(r) < Abs(b)
    ensures a >= 0 ==> r >= 0
    ensures a < 0 ==> r <= 0
    ensures a >= 0 ==> r == a % b
  {
    if a >= 0 then a % b else -((-a) % b)
  }

  /** With the sign and magnitude bounds above, this pins JavaScript's value:
      `a` differs from `JsRem(a, b)` by a multiple of `b`. */
  lemma JsRemCongruent(a: int, b: int)
    requires b != 0
    ensures exists q :: a == q * b + JsRem(a, b)
  {
    var n := Abs(a);
    assert n == (n / b) * b + n % b;
    if a >= 0 {
      assert a == (a / b) * b + JsRem(a, b);
    } else {
      assert a == (-(n / b)) * b + JsRem(a, b);
    }
  }

  function IsEven(n: int): bool { JsRem(n, 2) == 0 }
  function IsOdd(n: int): bool { JsRem(n, 2) == 1 }
  function IsGT10(n: int): bool { n > 10 }
  function IsLT1000(n: int): bool { n < 1000 }
  function IsBetween20And50(n: int): bool { n >= 20 && n <= 50 }
  function IsPositive(n: int): bool { n > 0 }
  function IsNegative(n: int): bool { n < 0 }

  /** `isOdd` is false for every negative number: the remainder is then 0 or -1. */
  lemma IsOddOnlyForPositive(n: int)
    ensures IsOdd(n) <==> n > 0 && n % 2 == 1
    ensures IsEven(n) <==> n % 2 == 0
  {
    if n < 0 {
      assert (-n) % 2 == 0 <==> n % 2 == 0;
    }
  }

  // ---------------------------------------------------------------------
  // allTruthy / anyTruthy
  // ---------------------------------------------------------------------

  /** The value of a logical reduce and how many predicates it actually called. */
  datatype Verdict = Verdict(value: bool, calls: nat)

  ghost predicate HoldBefore<T>(value: T, predicates: seq<T -> bool>, i: int)
  {
    forall j :: 0 <= j < i && j < |predicates| ==> predicates[j](value)
  }

  ghost predicate FailBefore<T>(value: T, predicates: seq<T -> bool>, i: int)
  {
    forall j :: 0 <= j < i && j < |predicates| ==> !predicates[j](value)
  }

  /** `predicates.reduce((aggr, predicate) => aggr && predicate(value), true)`.
      True exactly when every predicate holds; `&&` does not call a predicate
      once the accumulator is false, so predicate `i` is called exactly when
      all those before it hold. */
  function AllTruthy<T>(value: T, predicates: seq<T -> bool>): (r: Verdict)
    ensures r.value <==> forall i :: 0 <= i < |predicates| ==> predicates[i](value)
    ensures r.calls <= |predicates|
    ensures forall i :: 0 <= i < |predicates| ==> (i < r.calls <==> HoldBefore(value, predicates, i))
  {
    if |predicates| == 0 then Verdict(true, 0)
    else
      var prefix := predicates[..|predicates| - 1];
      var aggr := AllTruthy(value, prefix);
      assert forall i :: 0 <= i < |predicates| ==> HoldBefore(value, prefix, i) == HoldBefore(value, predicates, i);
      assert aggr.value == HoldBefore(value, predicates, |predicates| - 1);
      if aggr.value then
        assert |prefix| > 0 ==> HoldBefore(value, prefix, |prefix| - 1);
        Verdict(predicates[|predicates| - 1](value), aggr.calls + 1)
      else aggr
  }

  /** `predicates.reduce((aggr, predicate) => aggr || predicate(value), false)`.
      True exactly when some predicate holds; predicate `i` is called exactly
      when all those before it fail. */
  function AnyTruthy<T>(value: T, predicates: seq<T -> bool>): (r: Verdict)
    ensures r.value <==> exists i :: 0 <= i < |predicates| && predicates[i](value)
    ensures r.calls <= |predicates|
    ensures forall i :: 0 <= i < |predicates| ==> (i < r.calls <==> FailBefore(value, predicates, i))
  {
    if |predicates| == 0 then Verdict(false, 0)
    else
      var prefix := predicates[..|predicates| - 1];
      var aggr := AnyTruthy(value, prefix);
      assert forall i :: 0 <= i < |predicates| ==> FailBefore(value, prefix, i) == FailBefore(value, predicates, i);
      assert !aggr.value == FailBefore(value, predicates, |predicates| - 1);
      if aggr.value then aggr
      else
        assert |prefix| > 0 ==> FailBefore(value, prefix, |prefix| - 1);
        Verdict(predicates[|predicates| - 1](value), aggr.calls + 1)
  }

  /** Once the accumulator of `allTruthy` is false, further predicates change
      neither the result nor the number of calls. */
  lemma {:induction false} AllTruthyStaysFalse<T>(value: T, predicates: seq<T -> bool>, more: seq<T -> bool>)
    requires !AllTruthy(value, predicates).value
    ensures AllTruthy(value, predicates + more) == AllTruthy(value, predicates)
  {
    if |more| > 0 {
      var shorter := more[..|more| - 1];
      AllTruthyStaysFalse(value, predicates, shorter);
      assert (predicates + more)[..|predicates + more| - 1] == predicates + shorter;
    } else {
      assert predicates + more == predicates;
    }
  }

  /** Once the accumulator of `anyTruthy` is true, it stays true. */
  lemma {:induction false} AnyTruthyStaysTrue<T>(value: T, predicates: seq<T -> bool>, more: seq<T -> bool>)
    requires AnyTruthy(value, predicates).value
    ensures AnyTruthy(value, predicates + more) == AnyTruthy(value, predicates)
  {
    if |more| > 0 {
      var shorter := more[..|more| - 1];
      AnyTruthyStaysTrue(value, predicates, shorter);
      assert (predicates + more)[..|predicates + more| - 1] == predicates + shorter;
    } else {
      assert predicates + more == predicates;
    }
  }

  /** The expectations of "can check if all predicates are truthy". */
  lemma AllTruthyExpectations()
    ensures AllTruthy(0, [IsEven, IsLT1000]).value
    ensures !AllTruthy(25, [IsOdd, IsGT10, IsNegative]).value
    ensures !AllTruthy(32, [IsOdd, IsBetween20And50, IsLT1000]).value
    ensures !AllTruthy(-1, [IsEven, IsOdd, IsNegative]).value
    ensures AllTruthy(-1, [IsNegative]).value
  {
    assert [IsOdd, IsBetween20And50, IsLT1000][0] == IsOdd;
    assert !IsOdd(32) && !IsEven(-1);
  }

  /** The expectations of "can check if any predicate is truthy". */
  lemma AnyTruthyExpectations()
    ensures !AnyTruthy(0, [IsOdd, IsNegative]).value
    ensures AnyTruthy(25, [IsEven, IsBetween20And50, IsNegative]).value
    ensures AnyTruthy(32, [IsEven, IsBetween20And50, IsLT1000]).value
    ensures !AnyTruthy(-1, [IsEven, IsBetween20And50, IsPositive]).value
    ensures AnyTruthy(-1, [IsNegative]).value
  {
    assert [IsEven, IsBetween20And50, IsNegative][1] == IsBetween20And50;
    assert [IsEven, IsBetween20And50, IsLT1000][0] == IsEven;
    assert !IsOdd(0) && !IsEven(-1) && IsEven(32);
  }

  // ---------------------------------------------------------------------
  // execute
  // ---------------------------------------------------------------------

  /** `fnSequence.reduce((value, fn) => fn(value), init)`. */
  function Execute<A>(fnSequence: seq<A -> A>, init: A): A
  {
    if |fnSequence| == 0 then init
    else fnSequence[|fnSequence| - 1](Execute(fnSequence[..|fnSequence| - 1], init))
  }

  /** Running two pipes one after the other is running their concatenation. */
  lemma {:induction false} ExecuteConcat<A>(fs: seq<A -> A>, gs: seq<A -> A>, x: A)
    ensures Execute(fs + gs, x) == Execute(gs, Execute(fs, x))
  {
    if |gs| == 0 {
      assert fs + gs == fs;
    } else {
      ExecuteConcat(fs, gs[..|gs| - 1], x);
      assert (fs + gs)[..|fs + gs| - 1] == fs + gs[..|gs| - 1];
    }
  }

  /** The first function of the pipe is applied first. */
  lemma ExecuteFirst<A>(f: A -> A, fs: seq<A -> A>, x: A)
    ensures Execute([f] + fs, x) == Execute(fs, f(x))
  {
    ExecuteConcat([f], fs, x);
    assert [f][..0] == [];
  }

  /** The two pipelines of "sequential processing via function pipe". */
  lemma PipelineExpectations()
    ensures Execute([(a: int) => 8 * a - 10, (a: int) => (a - 3) * (a - 3) * (a - 3), (a: int) => a * a + 4, (a: int) => JsRem(a, 5)], 2) == 3
    ensures Execute([(a: int) => (a - 3) * (a - 3) * (a - 3), (a: int) => 8 * a - 10, (a: int) => a * a + 4], 5) == 2920
  {
    var first := [(a: int) => 8 * a - 10, (a: int) => (a - 3) * (a - 3) * (a - 3), (a: int) => a * a + 4, (a: int) => JsRem(a, 5)];
    assert first[..3][..2][..1][..0] == [];
    assert Execute(first[..1], 2) == 6;
    assert first[..2][..1] == first[..1];
    assert Execute(first[..2], 2) == 27;
    assert first[..3][..2] == first[..2];
    assert Execute(first[..3], 2) == 733;
    assert Execute(first, 2) == 3;
    var second := [(a: int) => (a - 3) * (a - 3) * (a - 3), (a: int) => 8 * a - 10, (a: int) => a * a + 4];
    assert second[..2][..1][..0] == [];
    assert Execute(second[..1], 5) == 8;
    assert second[..2][..1] == second[..1];
    assert Execute(second[..2], 5) == 54;
    assert Execute(second, 5) == 2920;
  }

  // ---------------------------------------------------------------------
  // groupBy with pushReducer
  // ---------------------------------------------------------------------

  /** `(list, item) => { list.push(item); return list }`. */
  function PushReducer<T>(list: seq<T>, item: T): (r: seq<T>)
    ensures |r| == |list| + 1
    ensures r[..|list|] == list && r[|list|] == item
  {
    list + [item]
  }

  /** Arrays are objects, and no object is falsy. */
  function ListIsFalsy<T>(list: seq<T>): bool
  {
    false
  }

  /** The sum of the lengths of all the lists in `m`. */
  ghost function TotalSize<K, T>(m: map<K, seq<T>>): nat
    decreases |m.Keys|
  {
    if m.Keys == {} then 0
    else
      var k :| k in m.Keys;
      assert |(m - {k}).Keys| < |m.Keys| by { assert (m - {k}).Keys == m.Keys - {k}; }
      |m[k]| + TotalSize(m - {k})
  }

  lemma {:induction false} TotalSizeRemove<K, T>(m: map<K, seq<T>>, k: K)
    requires k in m
    ensures TotalSize(m) == |m[k]| + TotalSize(m - {k})
    decreases |m.Keys|
  {
    var k' :| k' in m.Keys && TotalSize(m) == |m[k']| + TotalSize(m - {k'});
    if k' != k {
      assert (m - {k}).Keys == m.Keys - {k};
      assert (m - {k'}).Keys == m.Keys - {k'};
      TotalSizeRemove(m - {k'}, k);
      TotalSizeRemove(m - {k}, k');
      assert (m - {k'}) - {k} == (m - {k}) - {k'};
    }
  }

  lemma TotalSizeUpdate<K, T>(m: map<K, seq<T>>, k: K, v: seq<T>)
    ensures TotalSize(m[k := v]) == TotalSize(m) - (if k in m then |m[k]| else 0) + |v|
  {
    TotalSizeRemove(m[k := v], k);
    assert m[k := v] - {k} == m - {k};
    if k in m {
      TotalSizeRemove(m, k);
    } else {
      assert m - {k} == m;
    }
  }

  /** Every key that occurs, with its items in collection order. */
  ghost function Partition<T, K>(c: seq<T>, key: T -> K): map<K, seq<T>>
  {
    map k | k in KeysOf(c, key) :: ItemsWithKey(c, key, k)
  }

  lemma KeysOfAppend<T, K>(c: seq<T>, x: T, key: T -> K)
    ensures KeysOf(c + [x], key) == KeysOf(c, key) + {key(x)}
  {
    var d := c + [x];
    forall k | k in KeysOf(d, key) ensures k in KeysOf(c, key) + {key(x)} {
      var i :| 0 <= i < |d| && key(d[i]) == k;
      if i < |c| { assert key(c[i]) == k; }
    }
    forall k | k in KeysOf(c, key) ensures k in KeysOf(d, key) {
      var i :| 0 <= i < |c| && key(c[i]) == k;
      assert key(d[i]) == k;
    }
    assert key(d[|c|]) == key(x);
  }

  /** One more item extends the list of its own key and no other. */
  lemma PartitionAppend<T, K>(c: seq<T>, x: T, key: T -> K)
    ensures Partition(c + [x], key) == Partition(c, key)[key(x) := ItemsWithKey(c, key, key(x)) + [x]]
  {
    KeysOfAppend(c, x, key);
    var after, before := Partition(c + [x], key), Partition(c, key);
    forall k | k in after ensures k in before[key(x) := ItemsWithKey(c, key, key(x)) + [x]] && after[k] == before[key(x) := ItemsWithKey(c, key, key(x)) + [x]][k] {
      ItemsWithKeyAppend(c, x, key, k);
    }
  }

  /** Splitting a collection by key loses and duplicates nothing. */
  lemma {:induction false} PartitionSizes<T, K>(c: seq<T>, key: T -> K)
    ensures TotalSize(Partition(c, key)) == |c|
  {
    if |c| == 0 {
      assert Partition(c, key) == map[];
    } else {
      var prefix, x := c[..|c| - 1], c[|c| - 1];
      assert prefix + [x] == c;
      PartitionSizes(prefix, key);
      var before := Partition(prefix, key);
      var own := ItemsWithKey(prefix, key, key(x));
      PartitionAppend(prefix, x, key);
      TotalSizeUpdate(before, key(x), own + [x]);
      if key(x) !in before {
        assert own == [] by {
          forall i | 0 <= i < |prefix| ensures key(prefix[i]) != key(x) {
            assert key(prefix[i]) in KeysOf(prefix, key);
          }
        }
      }
    }
  }

  /** `groupBy(pushReducer, () => [])(collection, key)`: each key gets the list
      of its items in collection order, and the lists together hold the whole
      collection. */
  method GroupLists<T, K(==)>(collection: seq<T>, key: T -> K) returns (groups: map<K, seq<T>>)
    ensures forall k :: k in groups <==> exists i :: 0 <= i < |collection| && key(collection[i]) == k
    ensures forall k :: k in groups ==> groups[k] == ItemsWithKey(collection, key, k)
    ensures TotalSize(groups) == |collection|
  {
    groups := GroupBy(collection, key, PushReducer, [], ListIsFalsy);
    forall k | k in groups ensures groups[k] == ItemsWithKey(collection, key, k) {
      PushGroupIsItems(ItemsWithKey(collection, key, k));
    }
    assert groups.Keys == KeysOf(collection, key) by {
      forall k | k in groups ensures k in KeysOf(collection, key) {
        var i :| 0 <= i < |collection| && key(collection[i]) == k;
        assert key(collection[i]) in KeysOf(collection, key);
      }
      forall k | k in KeysOf(collection, key) ensures k in groups {
        var i :| 0 <= i < |collection| && key(collection[i]) == k;
        assert ItemsWithKey(collection, key, k) != [];
        assert Get(groups, k).Some?;
      }
    }
    GroupsArePartition(collection, key, groups);
    PartitionSizes(collection, key);
  }

  /** A map with an entry for exactly the keys that occur, each holding that
      key's items, is the partition of the collection. */
  lemma GroupsArePartition<T, K>(collection: seq<T>, key: T -> K, groups: map<K, seq<T>>)
    requires groups.Keys == KeysOf(collection, key)
    requires forall k :: k in groups ==> groups[k] == ItemsWithKey(collection, key, k)
    ensures groups == Partition(collection, key)
  {
  }

  lemma {:induction false} PushGroupIsItems<T>(items: seq<T>)
    requires items != []
    ensures GroupFold(items, PushReducer, [], ListIsFalsy) == Some(items)
  {
    var n := |items|;
    var prefix := items[..n - 1];
    assert prefix + [items[n - 1]] == items;
    if n == 1 {
      assert items[..0] == [];
    } else {
      PushGroupIsItems(prefix);
      PushGroupStep(prefix, items[n - 1]);
    }
  }

  lemma PushGroupStep<T>(prefix: seq<T>, x: T)
    requires GroupFold(prefix, PushReducer, [], ListIsFalsy) == Some(prefix)
    ensures GroupFold(prefix + [x], PushReducer, [], ListIsFalsy) == Some(prefix + [x])
  {
    assert (prefix + [x])[..|prefix|] == prefix;
  }

  // ---------------------------------------------------------------------
  // groupBy with maxPriceReducer
  // ---------------------------------------------------------------------

  /** `(maxPrice, item) => maxPrice < getPrice(item) ? getPrice(item) : maxPrice`. */
  function MaxPriceReducer<T(!new)>(getPrice: T -> int): (reducer: (int, T) -> int)
    ensures forall maxPrice, item :: reducer(maxPrice, item) >= maxPrice && reducer(maxPrice, item) >= getPrice(item)
    ensures forall maxPrice, item :: reducer(maxPrice, item) == maxPrice || reducer(maxPrice, item) == getPrice(item)
  {
    (maxPrice: int, item: T) => if maxPrice < getPrice(item) then getPrice(item) else maxPrice
  }

  /** Among numbers only 0 is falsy. */
  function NumberIsFalsy(n: int): bool
  {
    n == 0
  }

  /** A max-price group holds the largest price of its items, but never less
      than the initial 0; resetting a falsy 0 to the initial 0 changes nothing. */
  lemma {:induction false} MaxPriceGroup<T(!new)>(items: seq<T>, getPrice: T -> int)
    requires items != []
    ensures var m := GroupFold(items, MaxPriceReducer(getPrice), 0, NumberIsFalsy).value;
      && 0 <= m
      && (forall x :: x in items ==> getPrice(x) <= m)
      && (m == 0 || exists x :: x in items && getPrice(x) == m)
  {
    var n := |items|;
    var last := items[n - 1];
    if n > 1 {
      var prefix := items[..n - 1];
      MaxPriceGroup(prefix, getPrice);
      assert items == prefix + [last];
      var m := GroupFold(items, MaxPriceReducer(getPrice), 0, NumberIsFalsy).value;
      var before := GroupFold(prefix, MaxPriceReducer(getPrice), 0, NumberIsFalsy).value;
      assert m == if before < getPrice(last) then getPrice(last) else before;
      forall x | x in items ensures getPrice(x) <= m {
        if x != last { assert x in prefix; }
      }
      if m != 0 && m == before {
        var y :| y in prefix && getPrice(y) == m;
        assert y in items;
      }
    }
  }

  /** `groupBy(maxPriceReducer, () => 0)(collection, key)`: every key gets the
      largest price among its items, floored at 0. */
  method GroupMaxPrices<T(!new), K(==)>(collection: seq<T>, key: T -> K, getPrice: T -> int) returns (groups: map<K, int>)
    ensures forall k :: k in groups <==> exists i :: 0 <= i < |collection| && key(collection[i]) == k
    ensures forall k :: k in groups ==>
      && 0 <= groups[k]
      && (forall i :: 0 <= i < |collection| && key(collection[i]) == k ==> getPrice(collection[i]) <= groups[k])
      && (groups[k] == 0 || exists i :: 0 <= i < |collection| && key(collection[i]) == k && getPrice(collection[i]) == groups[k])
  {
    groups := GroupBy(collection, key, MaxPriceReducer(getPrice), 0, NumberIsFalsy);
    forall k | k in groups
      ensures 0 <= groups[k]
      ensures forall i :: 0 <= i < |collection| && key(collection[i]) == k ==> getPrice(collection[i]) <= groups[k]
      ensures groups[k] == 0 || exists i :: 0 <= i < |collection| && key(collection[i]) == k && getPrice(collection[i]) == groups[k]
    {
      var items := ItemsWithKey(collection, key, k);
      MaxPriceGroup(items, getPrice);
      forall i | 0 <= i < |collection| && key(collection[i]) == k ensures collection[i] in items {
        ItemsWithKeyHas(collection, key, i);
      }
      if groups[k] != 0 {
        var x :| x in items && getPrice(x) == groups[k];
        var i :| 0 <= i < |collection| && collection[i] == x;
      }
    }
  }

  lemma {:induction false} ItemsWithKeyHas<T, K>(c: seq<T>, key: T -> K, i: nat)
    requires i < |c|
    ensures c[i] in ItemsWithKey(c, key, key(c[i]))
  {
    var prefix := c[..|c| - 1];
    if i < |c| - 1 {
      ItemsWithKeyHas(prefix, key, i);
      assert prefix[i] == c[i];
    }
  }
}
