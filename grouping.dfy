/**
 * Grouping records under a key, as the components do with
 * `reduce((acc, x) => { if (!acc[k]) acc[k] = []; acc[k].push(x); ... }, {})`
 * and as `Array.from(new Set(...))` does: keys in the order they first
 * occur, and under each key the records that carry it, in input order.
 */
module Grouping {

  /** The distinct keys of `items`, in the order they first occur. */
  function KeysInOrder<T, K(==)>(items: seq<T>, key: T -> K): seq<K> {
    if items == [] then []
    else
      var prev := KeysInOrder(items[..|items| - 1], key);
      var k := key(items[|items| - 1]);
      if k in prev then prev else prev + [k]
  }

  /** The items whose key is `k`, in input order. */
  function Members<T, K(==)>(items: seq<T>, key: T -> K, k: K): seq<T> {
    if items == [] then []
    else Members(items[..|items| - 1], key, k) + (if key(items[|items| - 1]) == k then [items[|items| - 1]] else [])
  }

  /** The dictionary the reduce builds: one list per key that occurs. */
  function GroupsOf<T, K(==)>(items: seq<T>, key: T -> K): map<K, seq<T>> {
    map k | k in KeysInOrder(items, key) :: Members(items, key, k)
  }

  /** The sum of the group sizes over `keys`. */
  function SizeSum<T, K(==)>(items: seq<T>, key: T -> K, keys: seq<K>): nat {
    if keys == [] then 0 else |Members(items, key, keys[0])| + SizeSum(items, key, keys[1..])
  }

  /** No key is listed twice. */
  predicate Distinct<K(==)>(keys: seq<K>) {
    forall i, j :: 0 <= i < j < |keys| ==> keys[i] != keys[j]
  }

  /** Two equal entries make a value occur at least twice. */
  lemma RepeatedCount<K>(s: seq<K>, i: nat, j: nat)
    requires i < j < |s| && s[i] == s[j]
    ensures multiset(s)[s[i]] >= 2
  {
    assert s == s[..j] + [s[j]] + s[j + 1..];
    assert s[i] in s[..j];
  }

  /** In a list without repeats every value occurs at most once. */
  lemma {:induction false} DistinctCount<K>(s: seq<K>)
    requires Distinct(s)
    ensures forall x :: multiset(s)[x] <= 1
  {
    if s != [] {
      var n := |s| - 1;
      assert Distinct(s[..n]);
      DistinctCount(s[..n]);
      assert s == s[..n] + [s[n]];
      assert s[n] !in s[..n];
    }
  }

  /** Reordering a list without repeats leaves it without repeats. */
  lemma PermutationKeepsDistinct<K>(s: seq<K>, r: seq<K>)
    requires Distinct(s) && multiset(r) == multiset(s)
    ensures Distinct(r)
  {
    DistinctCount(s);
    forall i, j | 0 <= i < j < |r|
      ensures r[i] != r[j]
    {
      if r[i] == r[j] {
        RepeatedCount(r, i, j);
      }
    }
  }

  /** Every key listed is the key of some item, and every item's key is listed, exactly once. */
  lemma {:induction false} KeysInOrderMeaning<T, K>(items: seq<T>, key: T -> K)
    ensures Distinct(KeysInOrder(items, key))
    ensures forall k :: k in KeysInOrder(items, key) <==> exists i :: 0 <= i < |items| && key(items[i]) == k
  {
    if items != [] {
      var n := |items| - 1;
      KeysInOrderMeaning(items[..n], key);
      assert forall i :: 0 <= i < n ==> items[..n][i] == items[i];
    }
  }

  /** The key of every item is listed. */
  lemma {:induction false} KeyListed<T, K>(items: seq<T>, key: T -> K, i: nat)
    requires i < |items|
    ensures key(items[i]) in KeysInOrder(items, key)
  {
    var n := |items| - 1;
    if i < n {
      KeyListed(items[..n], key, i);
    }
  }

  /** Keys come in order of first occurrence: a key listed before another first occurs before it. */
  lemma {:induction false} KeysInOrderPrefix<T, K>(items: seq<T>, more: seq<T>, key: T -> K)
    ensures KeysInOrder(items, key) <= KeysInOrder(items + more, key)
    decreases |more|
  {
    if more != [] {
      var n := |more| - 1;
      KeysInOrderPrefix(items, more[..n], key);
      assert (items + more)[..|items + more| - 1] == items + more[..n];
    } else {
      assert items + more == items;
    }
  }

  /** Filtering distributes over concatenation, so each group keeps input order. */
  lemma {:induction false} MembersAppend<T, K>(a: seq<T>, b: seq<T>, key: T -> K, k: K)
    ensures Members(a + b, key, k) == Members(a, key, k) + Members(b, key, k)
    decreases |b|
  {
    if b == [] {
      assert a + b == a;
    } else {
      var n := |b| - 1;
      MembersAppend(a, b[..n], key, k);
      assert (a + b)[..|a + b| - 1] == a + b[..n];
    }
  }

  /** A group holds exactly the items with its key, each as often as in the input. */
  lemma {:induction false} MembersMeaning<T, K>(items: seq<T>, key: T -> K, k: K)
    ensures forall x :: x in Members(items, key, k) ==> key(x) == k
    ensures forall x :: multiset(Members(items, key, k))[x] == if key(x) == k then multiset(items)[x] else 0
  {
    if items != [] {
      var n := |items| - 1;
      MembersMeaning(items[..n], key, k);
      assert items == items[..n] + [items[n]];
    }
  }

  /** A group is never longer than the input, and as long exactly when every item carries its key. */
  lemma {:induction false} MembersLength<T, K>(items: seq<T>, key: T -> K, k: K)
    ensures |Members(items, key, k)| <= |items|
    ensures |Members(items, key, k)| == |items| <==> forall i :: 0 <= i < |items| ==> key(items[i]) == k
  {
    if items != [] {
      var n := |items| - 1;
      MembersLength(items[..n], key, k);
      assert forall i :: 0 <= i < n ==> items[..n][i] == items[i];
    }
  }

  /** A key that no item carries has an empty group. */
  lemma {:induction false} MembersOfAbsentKey<T, K>(items: seq<T>, key: T -> K, k: K)
    requires forall i :: 0 <= i < |items| ==> key(items[i]) != k
    ensures Members(items, key, k) == []
  {
    if items != [] {
      var n := |items| - 1;
      assert forall i :: 0 <= i < n ==> items[..n][i] == items[i];
      MembersOfAbsentKey(items[..n], key, k);
    }
  }

  /** Adding one item grows the size sum over distinct keys by one exactly when its key is among them. */
  lemma {:induction false} SizeSumSnoc<T, K>(items: seq<T>, x: T, key: T -> K, keys: seq<K>)
    requires Distinct(keys)
    ensures SizeSum(items + [x], key, keys) == SizeSum(items, key, keys) + (if key(x) in keys then 1 else 0)
  {
    if keys != [] {
      assert Distinct(keys[1..]);
      SizeSumSnoc(items, x, key, keys[1..]);
      assert (items + [x])[..|items + [x]| - 1] == items;
      assert key(x) in keys <==> key(x) == keys[0] || key(x) in keys[1..];
    }
  }

  /** The test "the item's key is one of `keys`". */
  function KeyAmong<T(!new), K(==)>(key: T -> K, keys: seq<K>): (among: T -> bool)
    ensures forall x :: among(x) <==> key(x) in keys
  {
    x => key(x) in keys
  }

  /** The groups of distinct keys hold together exactly the items whose key is among them. */
  lemma {:induction false} SizeSumCount<T(!new), K>(items: seq<T>, key: T -> K, keys: seq<K>)
    requires Distinct(keys)
    ensures SizeSum(items, key, keys) == |Members(items, KeyAmong(key, keys), true)|
  {
    if items != [] {
      var n := |items| - 1;
      SizeSumCount(items[..n], key, keys);
      SizeSumSnoc(items[..n], items[n], key, keys);
      assert items == items[..n] + [items[n]];
    } else {
      SizeSumEmpty(key, keys);
    }
  }

  lemma {:induction false} SizeSumEmpty<T, K>(key: T -> K, keys: seq<K>)
    ensures SizeSum([], key, keys) == 0
  {
    if keys != [] {
      SizeSumEmpty(key, keys[1..]);
    }
  }

  /** The size sum over `keys + [k]` adds the size of `k`'s group. */
  lemma {:induction false} SizeSumAppendKey<T, K>(items: seq<T>, key: T -> K, keys: seq<K>, k: K)
    ensures SizeSum(items, key, keys + [k]) == SizeSum(items, key, keys) + |Members(items, key, k)|
  {
    if keys != [] {
      assert (keys + [k])[1..] == keys[1..] + [k];
      SizeSumAppendKey(items, key, keys[1..], k);
    }
  }

  /** The groups partition the input: their sizes add up to the number of items. */
  lemma {:induction false} GroupsPartition<T, K>(items: seq<T>, key: T -> K)
    ensures SizeSum(items, key, KeysInOrder(items, key)) == |items|
  {
    if items != [] {
      var n := |items| - 1;
      var init, x := items[..n], items[n];
      assert items == init + [x];
      var prev := KeysInOrder(init, key);
      GroupsPartition(init, key);
      KeysInOrderMeaning(init, key);
      SizeSumSnoc(init, x, key, prev);
      if key(x) !in prev {
        SizeSumAppendKey(items, key, prev, key(x));
        forall i | 0 <= i < |init|
          ensures key(init[i]) != key(x)
        {
          if key(init[i]) == key(x) {
            KeyListed(init, key, i);
          }
        }
        MembersOfAbsentKey(init, key, key(x));
        assert Members(items, key, key(x)) == [x];
      }
    }
  }

  /** One more item: its key's list grows by it, created empty first when the key is new. */
  lemma {:induction false} GroupsOfSnoc<T, K>(items: seq<T>, x: T, key: T -> K)
    ensures var g := GroupsOf(items, key);
      GroupsOf(items + [x], key) == g[key(x) := (if key(x) in g then g[key(x)] else []) + [x]]
  {
    var g := GroupsOf(items, key);
    var all := items + [x];
    assert all[..|all| - 1] == items;
    assert all[|all| - 1] == x;
    var prev := KeysInOrder(items, key);
    assert KeysInOrder(all, key) == if key(x) in prev then prev else prev + [key(x)];
    var g' := g[key(x) := (if key(x) in g then g[key(x)] else []) + [x]];
    if key(x) !in g {
      KeysInOrderMeaning(items, key);
      forall i | 0 <= i < |items|
        ensures key(items[i]) != key(x)
      {
        if key(items[i]) == key(x) {
          KeyListed(items, key, i);
        }
      }
      MembersOfAbsentKey(items, key, key(x));
    }
    forall k | k in GroupsOf(all, key)
      ensures k in g' && GroupsOf(all, key)[k] == g'[k]
    {
      assert Members(all, key, k) == Members(items, key, k) + (if key(x) == k then [x] else []);
    }
    forall k | k in g'
      ensures k in GroupsOf(all, key)
    {
    }
  }

  /**
   * The reduce: walks the items once, creating a key's list the first time
   * the key is met and pushing each item onto its key's list.
   */
  /** Every item sits in the group of its key, and a group holds only items of its key. */
  lemma GroupsOfCover<T, K>(items: seq<T>, key: T -> K)
    ensures forall x :: x in items ==> key(x) in GroupsOf(items, key) && x in GroupsOf(items, key)[key(x)]
    ensures forall k, x :: k in GroupsOf(items, key) && x in GroupsOf(items, key)[k] ==> x in items && key(x) == k
  {
    var g := GroupsOf(items, key);
    forall x | x in items
      ensures key(x) in g && x in g[key(x)]
    {
      var i :| 0 <= i < |items| && items[i] == x;
      KeyListed(items, key, i);
      MembersMeaning(items, key, key(x));
      assert key(items[i]) in KeysInOrder(items, key);
      assert g[key(x)] == Members(items, key, key(x));
      assert multiset(items)[x] > 0;
      assert multiset(Members(items, key, key(x)))[x] > 0;
    }
    forall k, x | k in g && x in g[k]
      ensures x in items && key(x) == k
    {
      assert g[k] == Members(items, key, k);
      MemberOfGroup(items, key, k, x);
    }
  }

  /** A member of the group of `k` is an item whose key is `k`. */
  lemma MemberOfGroup<T, K>(items: seq<T>, key: T -> K, k: K, x: T)
    requires x in Members(items, key, k)
    ensures x in items && key(x) == k
  {
    MembersMeaning(items, key, k);
    assert multiset(Members(items, key, k))[x] > 0;
    assert multiset(items)[x] > 0;
  }

  method GroupBy<T, K(==)>(items: seq<T>, key: T -> K) returns (keys: seq<K>, groups: map<K, seq<T>>)
    ensures keys == KeysInOrder(items, key)
    ensures groups == GroupsOf(items, key)
  {
    keys, groups := [], map[];
    for i := 0 to |items|
      invariant keys == KeysInOrder(items[..i], key)
      invariant groups == GroupsOf(items[..i], key)
    {
      var x := items[i];
      var k := key(x);
      assert items[..i + 1] == items[..i] + [x];
      assert items[..i + 1][..i] == items[..i];
      GroupsOfSnoc(items[..i], x, key);
      if k !in groups {
        keys := keys + [k];
        groups := groups[k := []];
      }
      groups := groups[k := groups[k] + [x]];
    }
    assert items[..|items|] == items;
  }
}
