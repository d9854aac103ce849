/**
 * The order in which both engines try their rules: a stable sort by
 * descending priority (`sort_by_key(|r| Reverse(r.priority()))`), so that
 * rules of equal priority keep their registration order.
 */
module Priorities {

  /** `x` placed before the first element whose key does not exceed its own. */
  function Insert<R>(x: R, sorted: seq<R>, key: R -> int): (r: seq<R>)
    ensures |r| == |sorted| + 1
  {
    if sorted == [] then [x]
    else if key(sorted[0]) <= key(x) then [x] + sorted
    else [sorted[0]] + Insert(x, sorted[1..], key)
  }

  /** The stable sort by descending key. */
  function SortByPriority<R>(rules: seq<R>, key: R -> int): (r: seq<R>)
    ensures |r| == |rules|
  {
    if rules == [] then [] else Insert(rules[0], SortByPriority(rules[1..], key), key)
  }

  predicate SortedDescending<R>(rules: seq<R>, key: R -> int)
  {
    forall i, j :: 0 <= i < j < |rules| ==> key(rules[i]) >= key(rules[j])
  }

  /** The rules whose key is `k`, in their order. */
  function WithKey<R>(rules: seq<R>, key: R -> int, k: int): seq<R>
  {
    if rules == [] then []
    else (if key(rules[0]) == k then [rules[0]] else []) + WithKey(rules[1..], key, k)
  }

  lemma {:induction false} InsertKeepsSorted<R>(x: R, sorted: seq<R>, key: R -> int)
    requires SortedDescending(sorted, key)
    ensures SortedDescending(Insert(x, sorted, key), key)
    decreases |sorted|
  {
    if sorted != [] && key(sorted[0]) > key(x) {
      InsertKeepsSorted(x, sorted[1..], key);
      var r := Insert(x, sorted, key);
      var tail := Insert(x, sorted[1..], key);
      assert r == [sorted[0]] + tail;
      assert forall j :: 0 <= j < |tail| ==> tail[j] == x || exists m :: 1 <= m < |sorted| && tail[j] == sorted[m] by {
        InsertElements(x, sorted[1..], key);
      }
    }
  }

  /** Every element of an insertion result is `x` or an element of the old sequence. */
  lemma {:induction false} InsertElements<R>(x: R, sorted: seq<R>, key: R -> int)
    ensures forall j :: 0 <= j < |Insert(x, sorted, key)| ==>
      Insert(x, sorted, key)[j] == x || exists m :: 0 <= m < |sorted| && Insert(x, sorted, key)[j] == sorted[m]
    decreases |sorted|
  {
    if sorted != [] && key(sorted[0]) > key(x) {
      InsertElements(x, sorted[1..], key);
      var tail := Insert(x, sorted[1..], key);
      forall j | 0 <= j < |Insert(x, sorted, key)|
        ensures Insert(x, sorted, key)[j] == x || exists m :: 0 <= m < |sorted| && Insert(x, sorted, key)[j] == sorted[m]
      {
        if j > 0 {
          var e := tail[j - 1];
          if e != x {
            var m :| 0 <= m < |sorted[1..]| && e == sorted[1..][m];
            assert e == sorted[m + 1];
          }
        } else {
          assert Insert(x, sorted, key)[0] == sorted[0];
        }
      }
    }
  }

  /** `x` goes after every element of strictly higher key and before the first of no higher key. */
  lemma {:induction false} InsertAfterHigher<R>(x: R, high: seq<R>, low: seq<R>, key: R -> int)
    requires forall i :: 0 <= i < |high| ==> key(high[i]) > key(x)
    requires low == [] || key(low[0]) <= key(x)
    ensures Insert(x, high + low, key) == high + [x] + low
    decreases |high|
  {
    if high == [] {
      assert high + low == low;
    } else {
      InsertAfterHigher(x, high[1..], low, key);
      assert (high + low)[1..] == high[1..] + low;
      assert high + [x] + low == [high[0]] + (high[1..] + [x] + low);
    }
  }

  /** Rules registered in descending priority order are tried in registration order. */
  lemma {:induction false} SortKeepsSorted<R>(rules: seq<R>, key: R -> int)
    requires SortedDescending(rules, key)
    ensures SortByPriority(rules, key) == rules
    decreases |rules|
  {
    if rules != [] {
      assert SortedDescending(rules[1..], key) by {
        forall i, j | 0 <= i < j < |rules[1..]| ensures key(rules[1..][i]) >= key(rules[1..][j]) {
          assert rules[1..][i] == rules[i + 1] && rules[1..][j] == rules[j + 1];
        }
      }
      SortKeepsSorted(rules[1..], key);
      assert [rules[0]] + rules[1..] == rules;
    }
  }

  /** `new` leaves the rules in descending priority order. */
  lemma {:induction false} SortIsDescending<R>(rules: seq<R>, key: R -> int)
    ensures SortedDescending(SortByPriority(rules, key), key)
    decreases |rules|
  {
    if rules != [] {
      SortIsDescending(rules[1..], key);
      InsertKeepsSorted(rules[0], SortByPriority(rules[1..], key), key);
    }
  }

  lemma WithKeyCons<R>(y: R, rest: seq<R>, key: R -> int, k: int)
    ensures WithKey([y] + rest, key, k) == (if key(y) == k then [y] else []) + WithKey(rest, key, k)
  {
    assert ([y] + rest)[1..] == rest;
  }

  lemma {:induction false} WithKeyInsert<R>(x: R, s: seq<R>, key: R -> int, k: int)
    ensures WithKey(Insert(x, s, key), key, k) == (if key(x) == k then [x] else []) + WithKey(s, key, k)
    decreases |s|
  {
    if s == [] {
      WithKeyCons(x, [], key, k);
    } else if key(s[0]) <= key(x) {
      WithKeyCons(x, s, key, k);
    } else {
      var tail := Insert(x, s[1..], key);
      WithKeyInsert(x, s[1..], key, k);
      WithKeyCons(s[0], tail, key, k);
      WithKeyCons(s[0], s[1..], key, k);
      assert [s[0]] + s[1..] == s;
      var w := WithKey(s[1..], key, k);
      if key(x) == k {
        assert WithKey(Insert(x, s, key), key, k) == [x] + w;
        assert WithKey(s, key, k) == w;
      } else {
        assert WithKey(Insert(x, s, key), key, k) == WithKey(s, key, k);
      }
    }
  }

  /**
   * Stability and permutation: for every priority, the rules having it
   * appear in the sorted sequence exactly as in the registration order.
   */
  lemma {:induction false} SortIsStable<R>(rules: seq<R>, key: R -> int, k: int)
    ensures WithKey(SortByPriority(rules, key), key, k) == WithKey(rules, key, k)
    decreases |rules|
  {
    if rules != [] {
      SortIsStable(rules[1..], key, k);
      WithKeyInsert(rules[0], SortByPriority(rules[1..], key), key, k);
    }
  }

  /** Every rule of the sorted sequence is one of the registered rules. */
  lemma {:induction false} SortedFromInput<R>(rules: seq<R>, key: R -> int)
    ensures forall j :: 0 <= j < |SortByPriority(rules, key)| ==>
      exists m :: 0 <= m < |rules| && SortByPriority(rules, key)[j] == rules[m]
    decreases |rules|
  {
    if rules != [] {
      var tail := SortByPriority(rules[1..], key);
      SortedFromInput(rules[1..], key);
      InsertElements(rules[0], tail, key);
      assert SortByPriority(rules, key) == Insert(rules[0], tail, key);
      forall j | 0 <= j < |SortByPriority(rules, key)|
        ensures exists m :: 0 <= m < |rules| && SortByPriority(rules, key)[j] == rules[m]
      {
        var e := SortByPriority(rules, key)[j];
        if e == rules[0] {
          assert 0 < |rules| && e == rules[0];
        } else {
          var m :| 0 <= m < |tail| && e == tail[m];
          var m' :| 0 <= m' < |rules[1..]| && tail[m] == rules[1..][m'];
          assert 0 <= m' + 1 < |rules| && e == rules[m' + 1];
        }
      }
    } else {
      assert |SortByPriority(rules, key)| == 0;
    }
  }

  /** Sorting is a permutation of the registered rules. */
  lemma {:induction false} SortIsPermutation<R>(rules: seq<R>, key: R -> int)
    ensures multiset(SortByPriority(rules, key)) == multiset(rules)
    decreases |rules|
  {
    if rules != [] {
      SortIsPermutation(rules[1..], key);
      InsertAdds(rules[0], SortByPriority(rules[1..], key), key);
      assert rules == [rules[0]] + rules[1..];
    }
  }

  lemma {:induction false} InsertAdds<R>(x: R, sorted: seq<R>, key: R -> int)
    ensures multiset(Insert(x, sorted, key)) == multiset(sorted) + multiset{x}
    decreases |sorted|
  {
    if sorted != [] && key(sorted[0]) > key(x) {
      InsertAdds(x, sorted[1..], key);
      assert sorted == [sorted[0]] + sorted[1..];
    }
  }

  /** Only the keys of the rules themselves matter to the sort. */
  lemma {:induction false} SortSameKeys<R>(rules: seq<R>, key: R -> int, other: R -> int)
    requires forall i :: 0 <= i < |rules| ==> key(rules[i]) == other(rules[i])
    ensures SortByPriority(rules, key) == SortByPriority(rules, other)
    decreases |rules|
  {
    if rules != [] {
      SortSameKeys(rules[1..], key, other);
      var tail := SortByPriority(rules[1..], key);
      SortIsPermutation(rules[1..], key);
      forall j | 0 <= j < |tail| ensures key(tail[j]) == other(tail[j]) {
        assert tail[j] in multiset(rules[1..]);
      }
      InsertSameKeys(rules[0], tail, key, other);
    }
  }

  lemma {:induction false} InsertSameKeys<R>(x: R, sorted: seq<R>, key: R -> int, other: R -> int)
    requires key(x) == other(x)
    requires forall j :: 0 <= j < |sorted| ==> key(sorted[j]) == other(sorted[j])
    ensures Insert(x, sorted, key) == Insert(x, sorted, other)
    decreases |sorted|
  {
    if sorted != [] {
      InsertSameKeys(x, sorted[1..], key, other);
    }
  }
}
