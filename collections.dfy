/** The library operations the ranking relies on, written out: the stable
    sort behind `list.sort`, `sorted` and `DataFrame.sort_values`, the
    keep-first de-duplication behind `drop_duplicates` and `unique`, and
    boolean-mask row selection. */
module Collections {

  /** `le` is total and transitive, the ordering every sort call assumes. */
  ghost predicate TotalPreorder<T(!new)>(le: (T, T) -> bool)
  {
    && (forall a, b :: le(a, b) || le(b, a))
    && (forall a, b, c :: le(a, b) && le(b, c) ==> le(a, c))
  }

  ghost predicate SortedBy<T>(s: seq<T>, le: (T, T) -> bool)
  {
    forall i, j :: 0 <= i < j < |s| ==> le(s[i], s[j])
  }

  predicate Distinct<T(==)>(s: seq<T>)
  {
    forall i, j :: 0 <= i < j < |s| ==> s[i] != s[j]
  }

  /** Inserts `x` before the first element it is not greater than; equal
      elements already present stay after it. */
  function Insert<T>(x: T, s: seq<T>, le: (T, T) -> bool): (r: seq<T>)
    ensures |r| == |s| + 1
    ensures multiset(r) == multiset(s) + multiset{x}
  {
    if s == [] || le(x, s[0]) then [x] + s
    else
      assert s == [s[0]] + s[1..];
      [s[0]] + Insert(x, s[1..], le)
  }

  /** Stable sort: an element that came first in `s` stays ahead of any
      element it compares equal to. */
  function SortBy<T>(s: seq<T>, le: (T, T) -> bool): (r: seq<T>)
    ensures |r| == |s|
    ensures multiset(r) == multiset(s)
  {
    if s == [] then []
    else
      assert s == [s[0]] + s[1..];
      Insert(s[0], SortBy(s[1..], le), le)
  }

  lemma {:induction false} InsertSorted<T(!new)>(x: T, s: seq<T>, le: (T, T) -> bool)
    requires TotalPreorder(le)
    requires SortedBy(s, le)
    ensures SortedBy(Insert(x, s, le), le)
  {
    if s == [] || le(x, s[0]) {
    } else {
      var rest := Insert(x, s[1..], le);
      InsertSorted(x, s[1..], le);
      assert le(s[0], x);
      forall k | 0 <= k < |rest|
        ensures le(s[0], rest[k])
      {
        assert rest[k] in multiset(rest);
        if rest[k] != x {
          assert rest[k] in multiset(s[1..]);
          var m :| 0 <= m < |s[1..]| && s[1..][m] == rest[k];
          assert s[m + 1] == rest[k];
        }
      }
    }
  }

  /** The sort's output is in order. */
  lemma {:induction false} SortBySorted<T(!new)>(s: seq<T>, le: (T, T) -> bool)
    requires TotalPreorder(le)
    ensures SortedBy(SortBy(s, le), le)
  {
    if s != [] {
      SortBySorted(s[1..], le);
      InsertSorted(s[0], SortBy(s[1..], le), le);
    }
  }

  /** An element of a sorted sequence that is not in a prefix of it lies at
      or above every element of that prefix. */
  lemma SortedPrefixBelow<T>(s: seq<T>, le: (T, T) -> bool, n: nat, x: T)
    requires SortedBy(s, le)
    requires n <= |s|
    requires x in s && x !in s[..n]
    ensures forall c :: c in s[..n] ==> le(c, x)
  {
    var m :| 0 <= m < |s| && s[m] == x;
    assert m >= n;
    forall c | c in s[..n]
      ensures le(c, x)
    {
      var i :| 0 <= i < n && s[..n][i] == c;
      assert s[i] == c;
    }
  }

  /** The first element of a sorted sequence is below every element of it. */
  lemma SortedFirstIsLeast<T(!new)>(s: seq<T>, le: (T, T) -> bool, y: T)
    requires TotalPreorder(le)
    requires y in s
    ensures le(SortBy(s, le)[0], y)
  {
    var r := SortBy(s, le);
    SortBySorted(s, le);
    assert y in multiset(r);
    var j :| 0 <= j < |r| && r[j] == y;
    if j > 0 {
      assert le(r[0], r[j]);
    } else {
      assert le(y, y) || le(y, y);
    }
  }

  lemma {:induction false} DistinctCount<T>(s: seq<T>, x: T)
    requires Distinct(s)
    ensures multiset(s)[x] <= 1
  {
    if s != [] {
      assert s == [s[0]] + s[1..];
      DistinctCount(s[1..], x);
      if s[0] == x {
        assert x !in s[1..];
      }
    }
  }

  lemma RepeatCount<T>(s: seq<T>, i: int, j: int)
    requires 0 <= i < j < |s| && s[i] == s[j]
    ensures multiset(s)[s[i]] >= 2
  {
    assert s == s[..j] + s[j..];
    assert s[i] in s[..j];
    assert s[j] in s[j..];
  }

  /** Reordering a sequence without repeats leaves it without repeats. */
  lemma PermutationDistinct<T>(s: seq<T>, t: seq<T>)
    requires multiset(s) == multiset(t)
    requires Distinct(s)
    ensures Distinct(t)
  {
    forall i, j | 0 <= i < j < |t|
      ensures t[i] != t[j]
    {
      if t[i] == t[j] {
        RepeatCount(t, i, j);
        DistinctCount(s, t[i]);
      }
    }
  }

  /** Keeps, in order, the first element of `s` for each key not yet in
      `seen`: `drop_duplicates(keep="first")` and `unique()`. */
  function KeepFirst<T, K(==)>(s: seq<T>, key: T -> K, seen: set<K>): (r: seq<T>)
    ensures forall x :: x in r ==> x in s && key(x) !in seen
  {
    if s == [] then []
    else if key(s[0]) in seen then KeepFirst(s[1..], key, seen)
    else [s[0]] + KeepFirst(s[1..], key, seen + {key(s[0])})
  }

  function DropDuplicates<T, K(==)>(s: seq<T>, key: T -> K): (r: seq<T>)
  {
    KeepFirst(s, key, {})
  }

  /** No two kept elements share a key. */
  lemma {:induction false} KeepFirstDistinctKeys<T, K>(s: seq<T>, key: T -> K, seen: set<K>)
    ensures forall i, j :: 0 <= i < j < |KeepFirst(s, key, seen)| ==>
              key(KeepFirst(s, key, seen)[i]) != key(KeepFirst(s, key, seen)[j])
  {
    if s != [] {
      if key(s[0]) in seen {
        assert KeepFirst(s, key, seen) == KeepFirst(s[1..], key, seen);
        KeepFirstDistinctKeys(s[1..], key, seen);
      } else {
        var rest := KeepFirst(s[1..], key, seen + {key(s[0])});
        KeepFirstDistinctKeys(s[1..], key, seen + {key(s[0])});
        var r := [s[0]] + rest;
        forall i, j | 0 <= i < j < |r|
          ensures key(r[i]) != key(r[j])
        {
          assert r[j] == rest[j - 1];
          assert r[j] in rest;
          assert key(r[j]) !in seen + {key(s[0])};
          if i > 0 {
            assert r[i] == rest[i - 1];
          }
        }
      }
    }
  }

  /** Every key of `s` outside `seen` is carried by some kept element. */
  lemma {:induction false} KeepFirstCoversKeys<T, K>(s: seq<T>, key: T -> K, seen: set<K>, k: int)
    requires 0 <= k < |s| && key(s[k]) !in seen
    ensures exists x :: x in KeepFirst(s, key, seen) && key(x) == key(s[k])
  {
    if key(s[0]) in seen {
      assert s[k] == s[1..][k - 1];
      KeepFirstCoversKeys(s[1..], key, seen, k - 1);
    } else if key(s[k]) == key(s[0]) {
      assert s[0] in KeepFirst(s, key, seen);
    } else {
      assert k > 0 && s[k] == s[1..][k - 1];
      KeepFirstCoversKeys(s[1..], key, seen + {key(s[0])}, k - 1);
      var x :| x in KeepFirst(s[1..], key, seen + {key(s[0])}) && key(x) == key(s[k]);
      assert x in KeepFirst(s, key, seen);
    }
  }

  /** Every kept element is the first element of `s` carrying its key. */
  lemma {:induction false} KeepFirstIsFirst<T, K>(s: seq<T>, key: T -> K, seen: set<K>, x: T)
    requires x in KeepFirst(s, key, seen)
    ensures exists j :: 0 <= j < |s| && s[j] == x && forall k :: 0 <= k < j ==> key(s[k]) != key(x)
  {
    if key(s[0]) in seen || x != s[0] {
      var seen' := if key(s[0]) in seen then seen else seen + {key(s[0])};
      assert x in KeepFirst(s[1..], key, seen');
      KeepFirstIsFirst(s[1..], key, seen', x);
      var j :| 0 <= j < |s[1..]| && s[1..][j] == x && forall k :: 0 <= k < j ==> key(s[1..][k]) != key(x);
      assert key(x) !in seen';
      forall k | 0 <= k < j + 1
        ensures key(s[k]) != key(x)
      {
        if k > 0 {
          assert s[k] == s[1..][k - 1];
        }
      }
      assert s[j + 1] == x;
    } else {
      assert s[0] == x;
    }
  }

  /** `s[mask]`: the elements that satisfy `keep`, in their original order. */
  function Filter<T(!new)>(s: seq<T>, keep: T -> bool): (r: seq<T>)
    ensures |r| <= |s|
    ensures forall x :: x in r ==> x in s && keep(x)
    ensures forall x :: x in s && keep(x) ==> x in r
  {
    if s == [] then []
    else
      assert s == [s[0]] + s[1..];
      (if keep(s[0]) then [s[0]] else []) + Filter(s[1..], keep)
  }

  /** One step of the mask: the head is kept or dropped, then the rest. */
  lemma FilterCons<T(!new)>(x: T, s: seq<T>, keep: T -> bool)
    ensures Filter([x] + s, keep) == (if keep(x) then [x] else []) + Filter(s, keep)
  {
    assert ([x] + s)[0] == x;
    assert ([x] + s)[1..] == s;
  }

  /** The mask keeps every occurrence of a kept value and none of a
      dropped one. */
  lemma {:induction false} FilterCount<T(!new)>(s: seq<T>, keep: T -> bool)
    ensures forall x :: multiset(Filter(s, keep))[x] == if keep(x) then multiset(s)[x] else 0
  {
    if s != [] {
      FilterCount(s[1..], keep);
      assert s == [s[0]] + s[1..];
      FilterCons(s[0], s[1..], keep);
    }
  }

  /** Filtering keeps the input order: the kept part of a concatenation is
      the kept part of the first piece followed by that of the second. */
  lemma {:induction false} FilterAppend<T(!new)>(a: seq<T>, b: seq<T>, keep: T -> bool)
    ensures Filter(a + b, keep) == Filter(a, keep) + Filter(b, keep)
  {
    if a == [] {
      assert a + b == b;
      assert Filter(a, keep) + Filter(b, keep) == Filter(b, keep);
    } else {
      var head, tail := a[0], a[1..];
      var front := if keep(head) then [head] else [];
      assert Filter(a + b, keep) == front + Filter(tail + b, keep) by {
        assert a + b == [head] + (tail + b);
        FilterCons(head, tail + b, keep);
      }
      assert Filter(a, keep) == front + Filter(tail, keep) by {
        assert a == [head] + tail;
        FilterCons(head, tail, keep);
      }
      FilterAppend(tail, b, keep);
      var left, right := Filter(tail, keep), Filter(b, keep);
      assert front + (left + right) == (front + left) + right;
    }
  }

  /** Inserting `x` passes over no element of its own class: when `x` is
      below every element picked by `same`, the picked elements after the
      insertion are `x` (if picked) followed by those of `s`, in order. */
  lemma {:induction false} FilterInsert<T(!new)>(x: T, s: seq<T>, le: (T, T) -> bool, same: T -> bool)
    requires same(x) ==> forall z :: same(z) ==> le(x, z)
    ensures Filter(Insert(x, s, le), same) == (if same(x) then [x] else []) + Filter(s, same)
  {
    if s == [] || le(x, s[0]) {
      FilterCons(x, s, same);
    } else {
      var head, tail := s[0], s[1..];
      assert s == [head] + tail;
      var rest := Insert(x, tail, le);
      var mine := if same(x) then [x] else [];
      var theirs := if same(head) then [head] else [];
      var picked := Filter(tail, same);
      assert Filter(Insert(x, s, le), same) == theirs + Filter(rest, same) by {
        assert Insert(x, s, le) == [head] + rest;
        FilterCons(head, rest, same);
      }
      assert Filter(s, same) == theirs + picked by {
        FilterCons(head, tail, same);
      }
      FilterInsert(x, tail, le, same);
      // `x` passed over `head`, so they are not both of the class.
      if same(x) {
        assert theirs == [];
        assert theirs + (mine + picked) == mine + picked;
        assert theirs + picked == picked;
      } else {
        assert mine + picked == picked;
        assert mine + (theirs + picked) == theirs + picked;
      }
    }
  }

  /** The sort is stable: among elements that compare equal to each other
      (a class picked by `same`), the sorted order is the input order. */
  lemma {:induction false} SortByStable<T(!new)>(s: seq<T>, le: (T, T) -> bool, same: T -> bool)
    requires forall a, b :: same(a) && same(b) ==> le(a, b)
    ensures Filter(SortBy(s, le), same) == Filter(s, same)
  {
    if s != [] {
      var sorted := SortBy(s[1..], le);
      assert SortBy(s, le) == Insert(s[0], sorted, le);
      SortByStable(s[1..], le, same);
      FilterInsert(s[0], sorted, le, same);
      assert s == [s[0]] + s[1..];
      FilterCons(s[0], s[1..], same);
    }
  }
}
