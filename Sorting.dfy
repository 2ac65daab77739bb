/**
 * Python's `sorted`: a stable sort under a comparison, and the sorted list of a
 * set of strings (`sorted(list(s))` / `sorted(s)`).
 */
module Sorting {
  import opened Text

  ghost predicate SortedBy<T>(s: seq<T>, le: (T, T) -> bool) {
    forall i, j :: 0 <= i < j < |s| ==> le(s[i], s[j])
  }

  /** `le` compares any two values and is transitive. */
  ghost predicate TotalPreorder<T(!new)>(le: (T, T) -> bool) {
    && (forall a, b :: le(a, b) || le(b, a))
    && (forall a, b, c :: le(a, b) && le(b, c) ==> le(a, c))
  }

  /** Puts `x` in front of the first element it does not exceed. */
  function Insert<T>(x: T, s: seq<T>, le: (T, T) -> bool): (r: seq<T>)
    ensures multiset(r) == multiset(s) + multiset{x}
  {
    if s == [] || le(x, s[0]) then [x] + s
    else
      assert s == [s[0]] + s[1..];
      [s[0]] + Insert(x, s[1..], le)
  }

  /** `sorted(s, key=...)`: an insertion sort, stable because an element goes before its equals. */
  function SortBy<T>(s: seq<T>, le: (T, T) -> bool): (r: seq<T>)
    ensures multiset(r) == multiset(s)
    ensures |r| == |s|
  {
    if s == [] then []
    else
      assert s == [s[0]] + s[1..];
      Insert(s[0], SortBy(s[1..], le), le)
  }

  lemma {:induction false} InsertSorted<T(!new)>(x: T, s: seq<T>, le: (T, T) -> bool)
    requires TotalPreorder(le)
    requires SortedBy(s, le)
    ensures SortedBy(Insert(x, s, le), le)
    decreases |s|
  {
    if s != [] && !le(x, s[0]) {
      assert le(s[0], x);
      InsertSorted(x, s[1..], le);
      var rest := Insert(x, s[1..], le);
      forall k | 0 <= k < |rest|
        ensures le(s[0], rest[k])
      {
        assert rest[k] in multiset(rest);
        if rest[k] != x {
          assert rest[k] in multiset(s[1..]);
          var j :| 0 <= j < |s[1..]| && s[1..][j] == rest[k];
          assert s[j + 1] == rest[k];
        }
      }
    } else if s != [] {
      forall j | 0 < j < |s| ensures le(x, s[j]) {
        assert le(s[0], s[j]);
      }
    }
  }

  /** The result of SortBy is in order whenever `le` is a total preorder. */
  lemma {:induction false} SortBySorted<T(!new)>(s: seq<T>, le: (T, T) -> bool)
    requires TotalPreorder(le)
    ensures SortedBy(SortBy(s, le), le)
    decreases |s|
  {
    if s != [] {
      SortBySorted(s[1..], le);
      InsertSorted(s[0], SortBy(s[1..], le), le);
    }
  }

  /** The elements of `s` that `le` ranks equal to `x`, in their order in `s`. */
  function Ties<T>(s: seq<T>, x: T, le: (T, T) -> bool): seq<T> {
    if s == [] then []
    else (if le(x, s[0]) && le(s[0], x) then [s[0]] else []) + Ties(s[1..], x, le)
  }

  /** Inserting `y` adds it to its ties and leaves the order of every tie untouched. */
  lemma {:induction false} InsertTies<T(!new)>(y: T, s: seq<T>, x: T, le: (T, T) -> bool)
    requires TotalPreorder(le)
    ensures Ties(Insert(y, s, le), x, le) == (if le(x, y) && le(y, x) then [y] else []) + Ties(s, x, le)
    decreases |s|
  {
    if s == [] || le(y, s[0]) {
      var r := [y] + s;
      assert r[0] == y && r[1..] == s;
    } else {
      var head, tail := s[0], s[1..];
      var rest := Insert(y, tail, le);
      InsertTies(y, tail, x, le);
      assert Insert(y, s, le)[0] == head && Insert(y, s, le)[1..] == rest;
      var t := Ties(tail, x, le);
      if le(x, y) && le(y, x) {
        assert le(x, head) ==> le(y, head);
        assert Ties(s, x, le) == t;
        assert Ties(Insert(y, s, le), x, le) == [y] + t;
      } else {
        assert Ties(rest, x, le) == t;
      }
    }
  }

  /** SortBy is stable: the elements equal to any `x` keep their order. */
  lemma {:induction false} SortByStable<T(!new)>(s: seq<T>, x: T, le: (T, T) -> bool)
    requires TotalPreorder(le)
    ensures Ties(SortBy(s, le), x, le) == Ties(s, x, le)
    decreases |s|
  {
    if s != [] {
      SortByStable(s[1..], x, le);
      InsertTies(s[0], SortBy(s[1..], le), x, le);
    }
  }

  /** Comparison of values by a string key, as `key=` does. */
  function ByKey<T>(key: T -> string): (T, T) -> bool {
    (a: T, b: T) => StrLe(key(a), key(b))
  }

  lemma ByKeyIsTotalPreorder<T(!new)>(key: T -> string)
    ensures TotalPreorder(ByKey(key))
  {
    StrLeIsTotalOrder();
  }

  lemma StrLeIsTotalPreorder()
    ensures TotalPreorder(StrLe)
  {
    StrLeIsTotalOrder();
  }

  /** `sorted(strings)`: in order and a permutation of the input. */
  function SortStrings(s: seq<string>): (r: seq<string>)
    ensures multiset(r) == multiset(s)
    ensures SortedBy(r, StrLe)
  {
    StrLeIsTotalPreorder();
    SortBySorted(s, StrLe);
    SortBy(s, StrLe)
  }

  ghost predicate StrictlyIncreasing(s: seq<string>) {
    forall i, j :: 0 <= i < j < |s| ==> StrLt(s[i], s[j])
  }

  lemma {:induction false} MinimumExists(s: set<string>)
    requires s != {}
    ensures exists m :: m in s && forall y :: y in s ==> StrLe(m, y)
    decreases |s|
  {
    var x :| x in s;
    if s == {x} {
      StrLeReflexive(x);
      assert forall y :: y in s ==> y == x;
    } else {
      MinimumExists(s - {x});
      var m :| m in s - {x} && forall y :: y in s - {x} ==> StrLe(m, y);
      StrLeTotal(m, x);
      if StrLe(m, x) {
        assert forall y :: y in s ==> StrLe(m, y);
      } else {
        StrLeReflexive(x);
        forall y | y in s ensures StrLe(x, y) {
          if y != x { StrLeTransitive(x, m, y); }
        }
      }
    }
  }

  /** `sorted(s)` for a set of strings: each element once, in increasing order. */
  function SortedFromSet(s: set<string>): (r: seq<string>)
    ensures |r| == |s|
    ensures forall x :: x in r <==> x in s
    ensures StrictlyIncreasing(r)
    decreases |s|
  {
    if s == {} then []
    else
      MinimumExists(s);
      StrLeAntisymmetricAll();
      var m :| m in s && forall y :: y in s ==> StrLe(m, y);
      var rest := SortedFromSet(s - {m});
      PrependMinimum(m, rest, s);
      [m] + rest
  }

  lemma StrLeAntisymmetricAll()
    ensures forall a: string, b: string :: StrLe(a, b) && StrLe(b, a) ==> a == b
  {
    forall a: string, b: string | StrLe(a, b) && StrLe(b, a) { StrLeAntisymmetric(a, b); }
  }

  /** The minimum of a set before the increasing sequence of the rest is the increasing sequence of the set. */
  lemma PrependMinimum(m: string, rest: seq<string>, s: set<string>)
    requires m in s && forall y :: y in s ==> StrLe(m, y)
    requires |rest| == |s - {m}| && (forall x :: x in rest <==> x in s - {m}) && StrictlyIncreasing(rest)
    ensures |[m] + rest| == |s| && (forall x :: x in [m] + rest <==> x in s) && StrictlyIncreasing([m] + rest)
  {
    var r := [m] + rest;
    forall i, j | 0 <= i < j < |r| ensures StrLt(r[i], r[j]) {
      if i == 0 {
        assert r[j] == rest[j - 1] && r[j] in s - {m};
      } else {
        assert r[i] == rest[i - 1] && r[j] == rest[j - 1];
      }
    }
  }

  /** Removing the element at `k` removes one occurrence of it from the multiset. */
  lemma RemoveAt<T>(b: seq<T>, k: nat)
    requires k < |b|
    ensures multiset(b[..k] + b[k + 1..]) == multiset(b) - multiset{b[k]}
  {
    assert b == b[..k] + [b[k]] + b[k + 1..];
  }

  // ---------------------------------------------------------------- sorted map entries

  /** `sorted(m.items(), key=lambda pair: pair[0])`: the entries of a map in increasing key order. */
  function SortedItems<V>(m: map<string, V>): seq<(string, V)> {
    var keys := SortedFromSet(m.Keys);
    seq(|keys|, i requires 0 <= i < |keys| => (keys[i], m[keys[i]]))
  }

  /** The sorted items are the map's entries, in the order of its sorted keys. */
  lemma SortedItemsKeys<V>(m: map<string, V>)
    ensures var r := SortedItems(m); var keys := SortedFromSet(m.Keys);
      && |r| == |keys| == |m|
      && forall i :: 0 <= i < |r| ==> r[i].0 == keys[i] && r[i].0 in m && r[i].1 == m[r[i].0]
  {
  }

  /** The sorted items hold every entry of the map once, in increasing key order. */
  lemma SortedItemsFacts<V>(m: map<string, V>)
    ensures var r := SortedItems(m);
      && |r| == |m|
      && (forall i :: 0 <= i < |r| ==> r[i].0 in m && r[i].1 == m[r[i].0])
      && (forall k :: k in m ==> exists i :: 0 <= i < |r| && r[i].0 == k)
      && (forall i, j :: 0 <= i < j < |r| ==> StrLt(r[i].0, r[j].0))
  {
    var keys := SortedFromSet(m.Keys);
    var r := SortedItems(m);
    SortedItemsKeys(m);
    forall k | k in m ensures exists i :: 0 <= i < |r| && r[i].0 == k {
      assert k in keys;
      var i :| 0 <= i < |keys| && keys[i] == k;
      assert r[i].0 == k;
    }
    assert StrictlyIncreasing(keys);
  }

  /** Keys in strictly increasing order are pairwise different. */
  lemma IncreasingDistinct<V>(items: seq<(string, V)>)
    requires forall i, j :: 0 <= i < j < |items| ==> StrLt(items[i].0, items[j].0)
    ensures forall i, j :: 0 <= i < j < |items| ==> items[i].0 != items[j].0
  {
    forall i, j | 0 <= i < j < |items| ensures items[i].0 != items[j].0 {
      StrLeReflexive(items[i].0);
    }
  }

  /** The keys of a map's sorted items are pairwise different. */
  lemma SortedItemsDistinct<V>(m: map<string, V>)
    ensures forall i, j :: 0 <= i < j < |SortedItems(m)| ==> SortedItems(m)[i].0 != SortedItems(m)[j].0
  {
    SortedItemsFacts(m);
    IncreasingDistinct(SortedItems(m));
  }
}
