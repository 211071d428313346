/**
 * `Array.prototype.sort` with a descending numeric comparator
 * (`(a, b) => key(b) - key(a)`), as the record list and the supervisor
 * chart use it. The built-in sort is stable, so the result is the unique
 * stable ordering by decreasing key, here built by insertion.
 */
module Sorting {

  /** No element has a larger key than an element before it. */
  ghost predicate Descending<T>(s: seq<T>, key: T -> int) {
    forall i, j :: 0 <= i < j < |s| ==> key(s[i]) >= key(s[j])
  }

  /** The elements of `s` whose key is `v`, in their order in `s`. */
  function WithKey<T>(s: seq<T>, key: T -> int, v: int): (r: seq<T>)
    ensures |r| <= |s|
  {
    if s == [] then []
    else (if key(s[0]) == v then [s[0]] else []) + WithKey(s[1..], key, v)
  }

  /** Places `x` before the first element whose key is not larger. */
  function Insert<T>(x: T, s: seq<T>, key: T -> int): (r: seq<T>)
    ensures |r| == |s| + 1
  {
    if s == [] || key(s[0]) <= key(x) then [x] + s
    else [s[0]] + Insert(x, s[1..], key)
  }

  /** `[...s].sort((a, b) => key(b) - key(a))` */
  function SortDescending<T>(s: seq<T>, key: T -> int): (r: seq<T>)
    ensures |r| == |s|
  {
    if s == [] then []
    else Insert(s[0], SortDescending(s[1..], key), key)
  }

  lemma {:induction false} InsertPermutes<T>(x: T, s: seq<T>, key: T -> int)
    ensures multiset(Insert(x, s, key)) == multiset(s) + multiset{x}
  {
    if s != [] && key(s[0]) > key(x) {
      InsertPermutes(x, s[1..], key);
      assert s == [s[0]] + s[1..];
    }
  }

  lemma {:induction false} InsertDescending<T>(x: T, s: seq<T>, key: T -> int)
    requires Descending(s, key)
    ensures Descending(Insert(x, s, key), key)
  {
    if s != [] && key(s[0]) > key(x) {
      Descending1(s, key);
      InsertDescending(x, s[1..], key);
      var rest := Insert(x, s[1..], key);
      InsertBelowHead(x, s, key);
      ConsDescending(s[0], rest, key);
    }
  }

  /** Inserting below the head of a descending sequence keeps every key at
      most the head's. */
  lemma InsertBelowHead<T>(x: T, s: seq<T>, key: T -> int)
    requires s != [] && key(s[0]) > key(x) && Descending(s, key)
    ensures forall j :: 0 <= j < |Insert(x, s[1..], key)| ==> key(s[0]) >= key(Insert(x, s[1..], key)[j])
  {
    var rest := Insert(x, s[1..], key);
    InsertPermutes(x, s[1..], key);
    forall j | 0 <= j < |rest|
      ensures key(s[0]) >= key(rest[j])
    {
      var y := rest[j];
      assert y in multiset(rest);
      if y != x {
        assert y in multiset(s[1..]);
        var i :| 0 <= i < |s[1..]| && s[1..][i] == y;
        assert s[i + 1] == y;
      }
    }
  }

  /** A head no smaller than any key of a descending tail. */
  lemma ConsDescending<T>(h: T, rest: seq<T>, key: T -> int)
    requires Descending(rest, key)
    requires forall j :: 0 <= j < |rest| ==> key(h) >= key(rest[j])
    ensures Descending([h] + rest, key)
  {
    var r := [h] + rest;
    forall i, j | 0 <= i < j < |r|
      ensures key(r[i]) >= key(r[j])
    {
      assert r[j] == rest[j - 1];
      if i > 0 {
        assert r[i] == rest[i - 1];
      }
    }
  }

  /** The sort rearranges its input: it neither drops nor adds elements. */
  lemma {:induction false} SortPermutes<T>(s: seq<T>, key: T -> int)
    ensures multiset(SortDescending(s, key)) == multiset(s)
  {
    if s != [] {
      SortPermutes(s[1..], key);
      InsertPermutes(s[0], SortDescending(s[1..], key), key);
      assert s == [s[0]] + s[1..];
    }
  }

  /** The sort puts larger keys first. */
  lemma {:induction false} SortDescends<T>(s: seq<T>, key: T -> int)
    ensures Descending(SortDescending(s, key), key)
  {
    if s != [] {
      SortDescends(s[1..], key);
      InsertDescending(s[0], SortDescending(s[1..], key), key);
    }
  }

  lemma WithKeyCons<T>(y: T, s: seq<T>, key: T -> int, v: int)
    ensures WithKey([y] + s, key, v) == (if key(y) == v then [y] else []) + WithKey(s, key, v)
  {
    assert ([y] + s)[1..] == s;
  }

  lemma {:induction false} InsertWithKey<T>(x: T, s: seq<T>, key: T -> int, v: int)
    ensures WithKey(Insert(x, s, key), key, v) ==
            (if key(x) == v then [x] else []) + WithKey(s, key, v)
  {
    if s == [] || key(s[0]) <= key(x) {
      WithKeyCons(x, s, key, v);
    } else {
      var rest := Insert(x, s[1..], key);
      InsertWithKey(x, s[1..], key, v);
      WithKeyCons(s[0], rest, key, v);
      WithKeyCons(s[0], s[1..], key, v);
      assert [s[0]] + s[1..] == s;
    }
  }

  /** A nonempty sequence has an element under its first key. */
  lemma WithKeyHead<T>(s: seq<T>, key: T -> int)
    ensures s != [] ==> WithKey(s, key, key(s[0])) != []
  {
  }

  /** The sort is stable: elements with equal keys keep their relative
      order. */
  lemma {:induction false} SortStable<T>(s: seq<T>, key: T -> int, v: int)
    ensures WithKey(SortDescending(s, key), key, v) == WithKey(s, key, v)
  {
    if s != [] {
      SortStable(s[1..], key, v);
      InsertWithKey(s[0], SortDescending(s[1..], key), key, v);
    }
  }

  /** A stable descending ordering of `s` is the sort of `s`: whatever
      stable sort the engine runs, the result is this one. */
  lemma {:induction false} SortUnique<T>(s: seq<T>, t: seq<T>, key: T -> int)
    requires Descending(t, key)
    requires forall v :: WithKey(t, key, v) == WithKey(s, key, v)
    ensures t == SortDescending(s, key)
  {
    var r := SortDescending(s, key);
    SortDescends(s, key);
    forall v
      ensures WithKey(t, key, v) == WithKey(r, key, v)
    {
      SortStable(s, key, v);
    }
    DescendingDeterminedByKeys(t, r, key);
  }

  /** Two descending sequences with the same elements under every key are
      equal. */
  lemma {:induction false} DescendingDeterminedByKeys<T>(t: seq<T>, r: seq<T>, key: T -> int)
    requires Descending(t, key) && Descending(r, key)
    requires forall v :: WithKey(t, key, v) == WithKey(r, key, v)
    ensures t == r
    decreases |t| + |r|
  {
    if t == [] || r == [] {
      if t != [] || r != [] {
        WithKeyHead(t, key);
        WithKeyHead(r, key);
        assert false;
      }
    } else {
      TopKey(t, r, key);
      var v := key(t[0]);
      assert key(r[0]) == v;
      assert t[0] == WithKey(t, key, v)[0] == WithKey(r, key, v)[0] == r[0];
      forall w
        ensures WithKey(t[1..], key, w) == WithKey(r[1..], key, w)
      {
        if w == v {
          assert WithKey(t, key, w) == [t[0]] + WithKey(t[1..], key, w);
          assert WithKey(r, key, w) == [r[0]] + WithKey(r[1..], key, w);
          assert WithKey(t[1..], key, w) == WithKey(t, key, w)[1..];
          assert WithKey(r[1..], key, w) == WithKey(r, key, w)[1..];
        } else {
          assert WithKey(t, key, w) == WithKey(t[1..], key, w);
          assert WithKey(r, key, w) == WithKey(r[1..], key, w);
        }
      }
      Descending1(t, key);
      Descending1(r, key);
      DescendingDeterminedByKeys(t[1..], r[1..], key);
    }
  }

  lemma Descending1<T>(t: seq<T>, key: T -> int)
    requires t != [] && Descending(t, key)
    ensures Descending(t[1..], key)
  {
    forall i, j | 0 <= i < j < |t[1..]|
      ensures key(t[1..][i]) >= key(t[1..][j])
    {
      assert t[1..][i] == t[i + 1] && t[1..][j] == t[j + 1];
    }
  }

  /** `WithKey(s, key, v)` is empty exactly when no element has key `v`. */
  lemma {:induction false} WithKeyEmpty<T>(s: seq<T>, key: T -> int, v: int)
    ensures WithKey(s, key, v) == [] <==> forall i :: 0 <= i < |s| ==> key(s[i]) != v
  {
    if s != [] {
      WithKeyEmpty(s[1..], key, v);
      forall i | 0 < i < |s|
        ensures s[i] == s[1..][i - 1]
      {
      }
    }
  }

  /** Two nonempty descending sequences that agree under every key begin
      with the same key. */
  lemma TopKey<T>(t: seq<T>, r: seq<T>, key: T -> int)
    requires t != [] && r != []
    requires Descending(t, key) && Descending(r, key)
    requires forall v :: WithKey(t, key, v) == WithKey(r, key, v)
    ensures key(t[0]) == key(r[0])
  {
    var a, b := key(t[0]), key(r[0]);
    if a > b {
      assert WithKey(t, key, a) != [];
      WithKeyEmpty(r, key, a);
      assert false;
    } else if a < b {
      assert WithKey(r, key, b) != [];
      WithKeyEmpty(t, key, b);
      assert false;
    }
  }
}
