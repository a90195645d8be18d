/** `verify_load_sorting`: a stable ascending sort of the returned servers by
    load, a missing load counting as 100, followed by the check that the
    sorted loads equal their own sorted list. */
module LoadSort {
  import opened Wrappers

  /** One server as the script reads it; any key may be missing. */
  datatype Listed = Listed(hostname: Option<string>, load: Option<int>, station: Option<string>)

  /** The three endings: nothing returned, sorted (with the lowest load printed), not sorted. */
  datatype LoadVerdict = NoServers | Passed(lowest: int) | NotSorted

  /** The load a server without a `load` key is sorted by. */
  const MissingLoad := 100

  /** The load a server is ranked by: its `load`, or 100 when the key is missing. */
  function EffectiveLoad(s: Listed): int {
    s.load.ValueOr(MissingLoad)
  }

  /** The identity function: the sort key used to check that a plain list of
      integers is already in order. */
  function Identity(x: int): int {
    x
  }

  /** The sequence is non-decreasing by `key`: each element's key is at most the next one's. */
  ghost predicate SortedBy<T>(s: seq<T>, key: T -> int) {
    forall i :: 0 <= i < |s| - 1 ==> key(s[i]) <= key(s[i + 1])
  }

  /** In a list non-decreasing by key, no element's key is below the first one's. */
  lemma {:induction false} SortedHeadIsLeast<T>(s: seq<T>, key: T -> int)
    requires |s| > 0 && SortedBy(s, key)
    ensures forall j :: 0 <= j < |s| ==> key(s[0]) <= key(s[j])
    decreases |s|
  {
    if |s| > 1 {
      SortedHeadIsLeast(s[1..], key);
      forall j | 1 <= j < |s| ensures key(s[0]) <= key(s[j]) {
        assert s[1..][j - 1] == s[j];
      }
    }
  }

  /** The elements of `s` whose key is `k`, in their order in `s`. */
  function WithKey<T>(s: seq<T>, key: T -> int, k: int): seq<T>
    decreases |s|
  {
    if |s| == 0 then []
    else (if key(s[0]) == k then [s[0]] else []) + WithKey(s[1..], key, k)
  }

  /** `x` placed before the first element whose key is not below its own. */
  function Insert<T>(x: T, s: seq<T>, key: T -> int): (r: seq<T>)
    ensures multiset(r) == multiset(s) + multiset{x}
    ensures |r| == |s| + 1 && (r[0] == x || (|s| > 0 && r[0] == s[0]))
    decreases |s|
  {
    if |s| == 0 then [x]
    else if key(x) <= key(s[0]) then [x] + s
    else
      assert s == [s[0]] + s[1..];
      [s[0]] + Insert(x, s[1..], key)
  }

  /** Prepending an element whose key is not above the head's keeps a list sorted. */
  lemma ConsSorted<T>(y: T, t: seq<T>, key: T -> int)
    requires SortedBy(t, key)
    requires |t| == 0 || key(y) <= key(t[0])
    ensures SortedBy([y] + t, key)
  {
    var r := [y] + t;
    forall i | 0 <= i < |r| - 1
      ensures key(r[i]) <= key(r[i + 1])
    {
      if i > 0 {
        assert r[i] == t[i - 1] && r[i + 1] == t[i];
      }
    }
  }

  /** Dropping the first element keeps a list sorted. */
  lemma SortedTail<T>(s: seq<T>, key: T -> int)
    requires |s| > 0 && SortedBy(s, key)
    ensures SortedBy(s[1..], key)
  {
    var t := s[1..];
    forall i | 0 <= i < |t| - 1
      ensures key(t[i]) <= key(t[i + 1])
    {
      assert t[i] == s[i + 1] && t[i + 1] == s[i + 2];
    }
  }

  /** Insertion into a list non-decreasing by key gives a list non-decreasing by key. */
  lemma {:induction false} InsertKeepsSorted<T>(x: T, s: seq<T>, key: T -> int)
    requires SortedBy(s, key)
    ensures SortedBy(Insert(x, s, key), key)
    decreases |s|
  {
    if |s| == 0 {
      ConsSorted(x, [], key);
    } else if key(x) <= key(s[0]) {
      ConsSorted(x, s, key);
    } else {
      var t := s[1..];
      SortedTail(s, key);
      InsertKeepsSorted(x, t, key);
      assert |t| > 0 ==> t[0] == s[1];
      ConsSorted(s[0], Insert(x, t, key), key);
    }
  }

  /** `WithKey` of a list with a first element. */
  lemma WithKeyCons<T>(y: T, t: seq<T>, key: T -> int, k: int)
    ensures WithKey([y] + t, key, k) == (if key(y) == k then [y] else []) + WithKey(t, key, k)
  {
    assert ([y] + t)[1..] == t;
  }

  /** Insertion puts `x` ahead of every element with the same key, so among
      the elements of any one key it comes first, and the rest keep their order. */
  lemma {:induction false} InsertKeepsKeyOrder<T>(x: T, s: seq<T>, key: T -> int, k: int)
    ensures WithKey(Insert(x, s, key), key, k) == (if key(x) == k then [x] else []) + WithKey(s, key, k)
    decreases |s|
  {
    if |s| == 0 || key(x) <= key(s[0]) {
      assert Insert(x, s, key) == [x] + s;
      WithKeyCons(x, s, key, k);
    } else {
      var t := s[1..];
      var rest := Insert(x, t, key);
      assert Insert(x, s, key) == [s[0]] + rest;
      InsertKeepsKeyOrder(x, t, key, k);
      WithKeyCons(s[0], rest, key, k);
      WithKeyCons(s[0], t, key, k);
      assert s == [s[0]] + t;
      SwapFronts(if key(s[0]) == k then [s[0]] else [], if key(x) == k then [x] else [], WithKey(t, key, k));
    }
  }

  /** Two prefixes of which one is empty can be written in either order. */
  lemma SwapFronts<T>(a: seq<T>, b: seq<T>, w: seq<T>)
    requires a == [] || b == []
    ensures a + (b + w) == b + (a + w)
  {
  }

  /** Python's `sorted(s, key=key)`: a permutation of `s`, non-decreasing by key. */
  function SortBy<T>(s: seq<T>, key: T -> int): (r: seq<T>)
    ensures SortedBy(r, key)
    ensures multiset(r) == multiset(s)
    decreases |s|
  {
    if |s| == 0 then []
    else
      assert s == [s[0]] + s[1..];
      InsertKeepsSorted(s[0], SortBy(s[1..], key), key);
      Insert(s[0], SortBy(s[1..], key), key)
  }

  /** The sort is stable: for every key, the elements with that key appear in
      the sorted list in the same relative order as in the input. */
  lemma {:induction false} SortIsStable<T>(s: seq<T>, key: T -> int, k: int)
    ensures WithKey(SortBy(s, key), key, k) == WithKey(s, key, k)
    decreases |s|
  {
    if |s| > 0 {
      SortIsStable(s[1..], key, k);
      InsertKeepsKeyOrder(s[0], SortBy(s[1..], key), key, k);
      WithKeyCons(s[0], s[1..], key, k);
      assert s == [s[0]] + s[1..];
    }
  }

  /** A list already non-decreasing by key is its own sorted list. */
  lemma {:induction false} SortedIsFixed<T>(s: seq<T>, key: T -> int)
    requires SortedBy(s, key)
    ensures SortBy(s, key) == s
    decreases |s|
  {
    if |s| > 0 {
      var t := s[1..];
      SortedTail(s, key);
      assert SortBy(s, key) == Insert(s[0], SortBy(t, key), key);
      SortedIsFixed(t, key);
      assert |t| > 0 ==> key(s[0]) <= key(t[0]);
      assert Insert(s[0], t, key) == [s[0]] + t;
      assert s == [s[0]] + t;
    }
  }

  /** The loads of the servers, in order. */
  function Loads(servers: seq<Listed>): (loads: seq<int>)
    ensures |loads| == |servers|
  {
    seq(|servers|, i requires 0 <= i < |servers| => EffectiveLoad(servers[i]))
  }

  /** `verify_load_sorting` after the response: no verdict for an empty list;
      otherwise the check `loads == sorted(loads)` always passes and the
      printed lowest load is the minimum effective load of the input. */
  function VerifyLoadSorting(servers: seq<Listed>): (v: LoadVerdict)
    ensures v == NoServers <==> |servers| == 0
    ensures v != NotSorted
    ensures v.Passed? ==>
      && (forall s :: s in servers ==> v.lowest <= EffectiveLoad(s))
      && exists s :: s in servers && EffectiveLoad(s) == v.lowest
  {
    if |servers| == 0 then NoServers
    else
      var sorted := SortBy(servers, EffectiveLoad);
      var loads := Loads(sorted);
      assert SortedBy(loads, Identity);
      SortedIsFixed(loads, Identity);
      SortedHeadIsLeast(sorted, EffectiveLoad);
      assert sorted[0] in multiset(servers);
      assert forall s :: s in servers ==> loads[0] <= EffectiveLoad(s) by {
        forall s | s in servers ensures loads[0] <= EffectiveLoad(s) {
          assert s in multiset(sorted);
        }
      }
      if loads == SortBy(loads, Identity) then Passed(loads[0]) else NotSorted
  }
}
