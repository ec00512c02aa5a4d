/**
 * Python list operations used throughout the engine, written out with the
 * semantics CPython gives them: `insert` clamps its index, `remove` drops the
 * first occurrence only, and a list "as a set" is the set of its elements.
 */
module Lists {

  /** No element occurs twice. */
  ghost predicate Distinct<T>(s: seq<T>) {
    forall i, j :: 0 <= i < j < |s| ==> s[i] != s[j]
  }

  /** The set of elements of `s`. */
  function Elems<T>(s: seq<T>): set<T> {
    set x | x in s
  }

  lemma DistinctTail<T>(s: seq<T>)
    requires Distinct(s) && s != []
    ensures Distinct(s[1..]) && s[0] !in s[1..]
  {
    forall i, j | 0 <= i < j < |s[1..]| ensures s[1..][i] != s[1..][j] {
      assert s[1..][i] == s[i + 1] && s[1..][j] == s[j + 1];
    }
  }

  lemma {:induction false} SubsetCard<T>(a: set<T>, b: set<T>)
    requires a <= b
    ensures |a| <= |b|
    decreases a
  {
    if a != {} {
      var x :| x in a;
      SubsetCard(a - {x}, b - {x});
    }
  }

  lemma SubsetCardStrict<T>(a: set<T>, b: set<T>)
    requires a < b
    ensures |a| < |b|
  {
    assert b - a != {};
    var x :| x in b - a;
    SubsetCard(a, b - {x});
  }

  lemma {:induction false} ElemsCard<T>(s: seq<T>)
    ensures |Elems(s)| <= |s|
    ensures Distinct(s) ==> |Elems(s)| == |s|
  {
    if s != [] {
      ElemsCard(s[1..]);
      assert Elems(s) == {s[0]} + Elems(s[1..]);
      if Distinct(s) {
        DistinctTail(s);
      }
    }
  }

  /** A duplicate-free list whose elements all occur in `t` is no longer than `t`. */
  lemma DistinctSubsetLength<T>(s: seq<T>, t: seq<T>)
    requires Distinct(s)
    requires forall x :: x in s ==> x in t
    ensures |s| <= |t|
  {
    ElemsCard(s);
    ElemsCard(t);
    SubsetCard(Elems(s), Elems(t));
  }

  /**
   * A duplicate-free list inside a duplicate-free list of the same length
   * holds every element of it.
   */
  lemma DistinctSubsetCovers<T>(s: seq<T>, t: seq<T>)
    requires Distinct(s) && Distinct(t) && |s| == |t|
    requires forall x :: x in s ==> x in t
    ensures forall x :: x in t ==> x in s
  {
    ElemsCard(s);
    ElemsCard(t);
    forall x | x in t ensures x in s {
      if x !in s {
        SubsetCard(Elems(s), Elems(t) - {x});
      }
    }
  }

  /** `list.insert(index, x)`: an index past the end appends, a negative one counts from the end. */
  function Insert<T>(s: seq<T>, index: int, x: T): (r: seq<T>)
    ensures |r| == |s| + 1
    ensures x in r && forall y :: y in s ==> y in r
    ensures forall y :: y in r ==> y == x || y in s
  {
    var i := ClampIndex(|s|, index);
    s[..i] + [x] + s[i..]
  }

  /** The position `list.insert` actually uses for `index` in a list of length `n`. */
  function ClampIndex(n: nat, index: int): (i: nat)
    ensures i <= n
    ensures 0 <= index <= n ==> i == index
    ensures index > n ==> i == n
  {
    if index >= n then n
    else if index >= 0 then index
    else if n + index >= 0 then n + index
    else 0
  }

  /** `list.remove(x)` when `x` is present: drops its first occurrence. */
  function RemoveFirst<T(==)>(s: seq<T>, x: T): (r: seq<T>)
    ensures x in s ==> |r| == |s| - 1
    ensures x !in s ==> r == s
    ensures forall y :: y in r ==> y in s
    decreases s
  {
    if s == [] then []
    else if s[0] == x then s[1..]
    else [s[0]] + RemoveFirst(s[1..], x)
  }

  /** The position of the first occurrence of `x`. */
  function IndexOf<T(==)>(s: seq<T>, x: T): (i: nat)
    requires x in s
    ensures i < |s| && s[i] == x
    ensures forall j :: 0 <= j < i ==> s[j] != x
  {
    if s[0] == x then 0 else 1 + IndexOf(s[1..], x)
  }

  /** Removing one element of a duplicate-free list removes exactly that element. */
  lemma {:induction false} RemoveFirstDistinct<T>(s: seq<T>, x: T)
    requires Distinct(s)
    ensures Distinct(RemoveFirst(s, x))
    ensures forall y :: y in RemoveFirst(s, x) <==> y in s && y != x
  {
    if s != [] {
      DistinctTail(s);
      RemoveFirstDistinct(s[1..], x);
      if s[0] != x {
        var r := RemoveFirst(s[1..], x);
        assert RemoveFirst(s, x) == [s[0]] + r;
        assert s[0] !in r;
        forall i, j | 0 <= i < j < |[s[0]] + r| ensures ([s[0]] + r)[i] != ([s[0]] + r)[j] {
          if i > 0 {
            assert ([s[0]] + r)[i] == r[i - 1];
          }
          assert ([s[0]] + r)[j] == r[j - 1];
        }
      }
    }
  }

  /** Removing the first occurrence of `x` cuts the list around the position `IndexOf` finds. */
  lemma {:induction false} RemoveFirstAt<T>(s: seq<T>, x: T)
    requires x in s
    ensures RemoveFirst(s, x) == s[..IndexOf(s, x)] + s[IndexOf(s, x) + 1..]
  {
    if s[0] != x {
      RemoveFirstAt(s[1..], x);
      var i := IndexOf(s[1..], x);
      assert s[..i + 1] == [s[0]] + s[1..][..i];
      assert s[i + 2..] == s[1..][i + 1..];
    }
  }

  /** `list.insert` at the index `list.remove` took the element from puts the list back as it was. */
  lemma ReinsertRestores<T>(s: seq<T>, x: T)
    requires x in s
    ensures Insert(RemoveFirst(s, x), IndexOf(s, x), x) == s
  {
    var i := IndexOf(s, x);
    RemoveFirstAt(s, x);
    InsertBetween(s[..i], s[i + 1..], x);
    SplitAround(s, i);
  }

  /** A list is its prefix, the element at `i` and the rest. */
  lemma SplitAround<T>(s: seq<T>, i: nat)
    requires i < |s|
    ensures s == s[..i] + [s[i]] + s[i + 1..]
  {
    assert s[..i] + [s[i]] == s[..i + 1];
    assert s[..i + 1] + s[i + 1..] == s;
  }

  /** Inserting at the length of a prefix puts the element between the prefix and the rest. */
  lemma InsertBetween<T>(a: seq<T>, b: seq<T>, x: T)
    ensures Insert(a + b, |a|, x) == a + [x] + b
  {
    assert (a + b)[..|a|] == a;
    assert (a + b)[|a|..] == b;
  }

  /** Two duplicate-free lists with no common element concatenate to a duplicate-free list. */
  lemma DistinctAppend<T>(a: seq<T>, b: seq<T>)
    requires Distinct(a) && Distinct(b)
    requires forall x :: x in a ==> x !in b
    ensures Distinct(a + b)
  {
    forall i, j | 0 <= i < j < |a + b| ensures (a + b)[i] != (a + b)[j] {
      if j < |a| {
        assert (a + b)[i] == a[i] && (a + b)[j] == a[j];
      } else if i >= |a| {
        assert (a + b)[i] == b[i - |a|] && (a + b)[j] == b[j - |a|];
      } else {
        assert (a + b)[i] in a && (a + b)[j] in b;
      }
    }
  }

  /** The elements of `s` that satisfy `p`, in their original order. */
  function Filter<T(!new)>(s: seq<T>, p: T -> bool): (r: seq<T>)
    ensures |r| <= |s|
    ensures forall y :: y in r <==> y in s && p(y)
    decreases s
  {
    if s == [] then []
    else if p(s[0]) then [s[0]] + Filter(s[1..], p)
    else Filter(s[1..], p)
  }

  lemma {:induction false} FilterDistinct<T(!new)>(s: seq<T>, p: T -> bool)
    ensures Distinct(s) ==> Distinct(Filter(s, p))
  {
    if s != [] && Distinct(s) {
      DistinctTail(s);
      FilterDistinct(s[1..], p);
    }
  }

  /** Filtering a list with one more element at the end. */
  lemma {:induction false} FilterSnoc<T(!new)>(s: seq<T>, x: T, p: T -> bool)
    ensures Filter(s + [x], p) == Filter(s, p) + (if p(x) then [x] else [])
    decreases s
  {
    if s == [] {
      assert [x][1..] == [];
    } else {
      assert (s + [x])[1..] == s[1..] + [x];
      FilterSnoc(s[1..], x, p);
    }
  }

  /** Removing an element appended to a list that did not hold it gives the list back. */
  lemma {:induction false} RemoveFirstAppended<T>(s: seq<T>, x: T)
    requires x !in s
    ensures RemoveFirst(s + [x], x) == s
    decreases s
  {
    if s == [] {
      assert [x][1..] == [];
    } else {
      assert (s + [x])[1..] == s[1..] + [x];
      RemoveFirstAppended(s[1..], x);
    }
  }

  /** `list.remove(x)` takes exactly one `x` out of the multiset of elements. */
  lemma RemoveFirstMultiset<T>(s: seq<T>, x: T)
    requires x in s
    ensures multiset(RemoveFirst(s, x)) == multiset(s) - multiset{x}
  {
    var i := IndexOf(s, x);
    RemoveFirstAt(s, x);
    SplitAround(s, i);
    assert multiset(s) == multiset(s[..i]) + multiset{x} + multiset(s[i + 1..]);
  }

  /** `list.remove` applied for each element of `xs` in turn. */
  function RemoveEach<T(==)>(s: seq<T>, xs: seq<T>): seq<T>
    decreases xs
  {
    if xs == [] then s else RemoveEach(RemoveFirst(s, xs[0]), xs[1..])
  }

  /** Removing an element absent from the front part of a list only touches the back part. */
  lemma {:induction false} RemoveFirstBehind<T>(a: seq<T>, b: seq<T>, x: T)
    requires x !in a
    ensures RemoveFirst(a + b, x) == a + RemoveFirst(b, x)
    decreases a
  {
    if a != [] {
      assert (a + b)[0] == a[0] && (a + b)[1..] == a[1..] + b;
      assert a[0] in a && a[0] != x;
      assert RemoveFirst(a + b, x) == [a[0]] + RemoveFirst(a[1..] + b, x);
      assert x !in a[1..];
      RemoveFirstBehind(a[1..], b, x);
      assert [a[0]] + (a[1..] + RemoveFirst(b, x)) == a + RemoveFirst(b, x);
    } else {
      assert a + b == b;
    }
  }

  /** Removing, one by one, elements that were appended to a list that held none of them gives the list back. */
  lemma {:induction false} RemoveEachAppended<T>(a: seq<T>, xs: seq<T>)
    requires forall x :: x in xs ==> x !in a
    ensures RemoveEach(a + xs, xs) == a
    decreases xs
  {
    if xs == [] {
      assert a + xs == a;
    } else {
      RemoveFirstBehind(a, xs, xs[0]);
      assert RemoveFirst(xs, xs[0]) == xs[1..];
      RemoveEachAppended(a, xs[1..]);
    }
  }

  /** Inserting a new element and removing it again gives the list back. */
  lemma InsertThenRemove<T>(s: seq<T>, index: int, x: T)
    requires x !in s
    ensures RemoveFirst(Insert(s, index, x), x) == s
  {
    var i := ClampIndex(|s|, index);
    assert x !in s[..i];
    RemoveFirstBehind(s[..i], [x] + s[i..], x);
    assert Insert(s, index, x) == s[..i] + ([x] + s[i..]);
    assert s[..i] + s[i..] == s;
  }

  /** Inserting keeps the other elements and adds one `x` to the multiset. */
  lemma InsertMultiset<T>(s: seq<T>, index: int, x: T)
    ensures multiset(Insert(s, index, x)) == multiset(s) + multiset{x}
  {
    var i := ClampIndex(|s|, index);
    assert s == s[..i] + s[i..];
  }

  /** The inserted element sits at the clamped position. */
  lemma InsertAtClamp<T>(s: seq<T>, index: int, x: T)
    ensures Insert(s, index, x)[ClampIndex(|s|, index)] == x
  {
    var i := ClampIndex(|s|, index);
    assert (s[..i] + [x] + s[i..])[i] == x;
  }

  /** Inserting an element new to a duplicate-free list keeps it duplicate-free. */
  lemma InsertDistinct<T>(s: seq<T>, index: int, x: T)
    requires Distinct(s) && x !in s
    ensures Distinct(Insert(s, index, x))
  {
    var i := ClampIndex(|s|, index);
    var r := Insert(s, index, x);
    forall a, b | 0 <= a < b < |r| ensures r[a] != r[b] {
      if b < i {
        assert r[a] == s[a] && r[b] == s[b];
      } else if b == i {
        assert r[a] == s[a];
      } else if a < i {
        assert r[a] == s[a] && r[b] == s[b - 1];
      } else if a == i {
        assert r[b] == s[b - 1];
      } else {
        assert r[a] == s[a - 1] && r[b] == s[b - 1];
      }
    }
  }
}
