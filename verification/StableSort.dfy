/** The stable sort that ECMAScript's `Array.prototype.sort` and an SQL `ORDER BY` over insertion order perform. */
module StableSort {

  /** A strict weak order: the comparators the program sorts with. */
  ghost predicate WeakOrder<T(!new)>(lt: (T, T) -> bool) {
    && (forall x, y :: lt(x, y) ==> !lt(y, x))
    && (forall x, y, z :: lt(x, y) && lt(y, z) ==> lt(x, z))
    && (forall x, y, z :: lt(x, z) ==> lt(x, y) || lt(y, z))
  }

  /** A strict total order: distinct values never tie. */
  ghost predicate TotalOrder<T(!new)>(lt: (T, T) -> bool) {
    && (forall x, y :: lt(x, y) ==> !lt(y, x))
    && (forall x, y, z :: lt(x, y) && lt(y, z) ==> lt(x, z))
    && (forall x, y :: x != y ==> lt(x, y) || lt(y, x))
  }

  ghost predicate Sorted<T>(s: seq<T>, lt: (T, T) -> bool) {
    forall i, j :: 0 <= i < j < |s| ==> !lt(s[j], s[i])
  }

  function Insert<T>(x: T, s: seq<T>, lt: (T, T) -> bool): seq<T> {
    if s == [] || !lt(s[0], x) then [x] + s else [s[0]] + Insert(x, s[1..], lt)
  }

  /** Sorts by `lt`; elements that tie keep their input order. */
  function Sort<T>(s: seq<T>, lt: (T, T) -> bool): seq<T> {
    if s == [] then [] else Insert(s[0], Sort(s[1..], lt), lt)
  }

  lemma {:induction false} InsertPermutes<T>(x: T, s: seq<T>, lt: (T, T) -> bool)
    ensures multiset(Insert(x, s, lt)) == multiset(s) + multiset{x}
    ensures |Insert(x, s, lt)| == |s| + 1
  {
    if s == [] || !lt(s[0], x) {
    } else {
      InsertPermutes(x, s[1..], lt);
      assert s == [s[0]] + s[1..];
    }
  }

  lemma SameMembers<T>(s: seq<T>, t: seq<T>)
    requires multiset(s) == multiset(t)
    ensures |s| == |t|
    ensures forall x :: x in s <==> x in t
  {
    assert |s| == |multiset(s)| && |t| == |multiset(t)|;
    forall x
      ensures x in s <==> x in t
    {
      assert x in s <==> x in multiset(s);
      assert x in t <==> x in multiset(t);
    }
  }

  lemma {:induction false} SortMultiset<T>(s: seq<T>, lt: (T, T) -> bool)
    ensures multiset(Sort(s, lt)) == multiset(s)
  {
    if s != [] {
      SortMultiset(s[1..], lt);
      InsertPermutes(s[0], Sort(s[1..], lt), lt);
      assert s == [s[0]] + s[1..];
    }
  }

  lemma SortPermutes<T>(s: seq<T>, lt: (T, T) -> bool)
    ensures multiset(Sort(s, lt)) == multiset(s)
    ensures |Sort(s, lt)| == |s|
    ensures forall x :: x in Sort(s, lt) <==> x in s
  {
    SortMultiset(s, lt);
    SameMembers(Sort(s, lt), s);
  }

  lemma {:induction false} InsertSorted<T(!new)>(x: T, s: seq<T>, lt: (T, T) -> bool)
    requires WeakOrder(lt) && Sorted(s, lt)
    ensures Sorted(Insert(x, s, lt), lt)
  {
    var r := Insert(x, s, lt);
    if s == [] {
    } else if !lt(s[0], x) {
      forall i, j | 0 <= i < j < |r|
        ensures !lt(r[j], r[i])
      {
        if i == 0 && j > 1 {
          assert !lt(s[j - 1], s[0]);
        }
      }
    } else {
      InsertSorted(x, s[1..], lt);
      var t := Insert(x, s[1..], lt);
      InsertPermutes(x, s[1..], lt);
      forall j | 0 <= j < |t|
        ensures !lt(t[j], s[0])
      {
        assert t[j] in multiset(t);
        if t[j] != x {
          assert t[j] in s[1..];
        }
      }
    }
  }

  lemma {:induction false} SortSorts<T(!new)>(s: seq<T>, lt: (T, T) -> bool)
    requires WeakOrder(lt)
    ensures Sorted(Sort(s, lt), lt)
  {
    if s != [] {
      SortSorts(s[1..], lt);
      InsertSorted(s[0], Sort(s[1..], lt), lt);
    }
  }

  /** No two distinct elements of `s` tie under `lt`. */
  ghost predicate NoTies<T>(s: seq<T>, lt: (T, T) -> bool) {
    forall x, y :: x in s && y in s && x != y ==> lt(x, y) || lt(y, x)
  }

  /** Two sorted arrangements of one multiset without ties are the same sequence. */
  lemma {:induction false} SortedUnique<T(!new)>(s: seq<T>, t: seq<T>, lt: (T, T) -> bool)
    requires WeakOrder(lt) && Sorted(s, lt) && Sorted(t, lt)
    requires multiset(s) == multiset(t) && NoTies(s, lt)
    ensures s == t
  {
    SameMembers(s, t);
    if s != [] {
      SameLeast(s, t, lt);
      TailMultiset(s);
      TailMultiset(t);
      TailSorted(s, lt);
      TailSorted(t, lt);
      SortedUnique(s[1..], t[1..], lt);
      assert s == [s[0]] + s[1..] && t == [t[0]] + t[1..];
    }
  }

  lemma TailMultiset<T>(s: seq<T>)
    requires s != []
    ensures multiset(s[1..]) == multiset(s) - multiset{s[0]}
  {
    assert s == [s[0]] + s[1..];
  }

  lemma TailSorted<T(!new)>(s: seq<T>, lt: (T, T) -> bool)
    requires s != []
    ensures Sorted(s, lt) ==> Sorted(s[1..], lt)
    ensures NoTies(s, lt) ==> NoTies(s[1..], lt)
  {
  }

  lemma SameLeast<T(!new)>(s: seq<T>, t: seq<T>, lt: (T, T) -> bool)
    requires WeakOrder(lt) && Sorted(s, lt) && Sorted(t, lt) && NoTies(s, lt)
    requires s != [] && t != [] && forall x :: x in s <==> x in t
    ensures s[0] == t[0]
  {
    assert s[0] in t && t[0] in s;
    var i :| 0 <= i < |t| && t[i] == s[0];
    var j :| 0 <= j < |s| && s[j] == t[0];
  }

  /** Ties keep their input order, so swapping two distinct tied elements swaps them in the output. */
  lemma {:induction false} InsertTied<T(!new)>(x: T, y: T, s: seq<T>, lt: (T, T) -> bool)
    requires WeakOrder(lt) && !lt(x, y) && !lt(y, x) && x != y
    ensures Insert(x, Insert(y, s, lt), lt) != Insert(y, Insert(x, s, lt), lt)
  {
    if s == [] || !lt(s[0], x) {
      assert Insert(x, Insert(y, s, lt), lt)[0] == x;
      assert Insert(y, Insert(x, s, lt), lt)[0] == y;
    } else {
      var u, v := Insert(x, s[1..], lt), Insert(y, s[1..], lt);
      assert Insert(x, s, lt) == [s[0]] + u && Insert(y, s, lt) == [s[0]] + v;
      assert ([s[0]] + u)[1..] == u && ([s[0]] + v)[1..] == v;
      InsertTied(x, y, s[1..], lt);
      assert (Insert(x, [s[0]] + v, lt))[1..] == Insert(x, v, lt);
      assert (Insert(y, [s[0]] + u, lt))[1..] == Insert(y, u, lt);
    }
  }

  lemma Without<T>(s: seq<T>, x: T) returns (r: seq<T>)
    requires x in s
    ensures multiset([x] + r) == multiset(s)
  {
    var i :| 0 <= i < |s| && s[i] == x;
    r := s[..i] + s[i + 1..];
    assert s == s[..i] + [x] + s[i + 1..];
  }

  /** A list holding two distinct tied elements has two arrangements that sort differently. */
  lemma TiedArrangements<T(!new)>(s: seq<T>, x: T, y: T, lt: (T, T) -> bool) returns (b: seq<T>, c: seq<T>)
    requires WeakOrder(lt) && x in s && y in s && x != y && !lt(x, y) && !lt(y, x)
    ensures multiset(b) == multiset(s) && multiset(c) == multiset(s) && Sort(b, lt) != Sort(c, lt)
  {
    var s1 := Without(s, x);
    assert y in multiset(s1) by {
      assert multiset(s) == multiset{x} + multiset(s1);
      assert y in multiset(s);
    }
    var rest := Without(s1, y);
    b, c := [x] + ([y] + rest), [y] + ([x] + rest);
    assert multiset(b) == multiset{x} + multiset([y] + rest);
    assert multiset(c) == multiset{y} + (multiset{x} + multiset(rest));
    assert b[1..] == [y] + rest && c[1..] == [x] + rest && ([y] + rest)[1..] == rest && ([x] + rest)[1..] == rest;
    InsertTied(x, y, Sort(rest, lt), lt);
  }

  ghost predicate Distinct<T>(s: seq<T>) {
    forall i, j :: 0 <= i < j < |s| ==> s[i] != s[j]
  }

  lemma {:induction false} InsertDistinct<T>(x: T, s: seq<T>, lt: (T, T) -> bool)
    requires Distinct(s) && x !in s
    ensures Distinct(Insert(x, s, lt))
  {
    if s != [] && lt(s[0], x) {
      InsertDistinct(x, s[1..], lt);
      InsertPermutes(x, s[1..], lt);
      var u := Insert(x, s[1..], lt);
      forall j | 0 <= j < |u|
        ensures u[j] != s[0]
      {
        assert u[j] in multiset(u);
        assert u[j] == x || u[j] in s[1..];
      }
    }
  }

  lemma {:induction false} SortDistinct<T>(s: seq<T>, lt: (T, T) -> bool)
    requires Distinct(s)
    ensures Distinct(Sort(s, lt))
  {
    if s != [] {
      SortDistinct(s[1..], lt);
      SortPermutes(s[1..], lt);
      InsertDistinct(s[0], Sort(s[1..], lt), lt);
    }
  }

  /** Sorted sequences without repetition or ties are determined by their members. */
  lemma {:induction false} DistinctSortedUnique<T(!new)>(s: seq<T>, t: seq<T>, lt: (T, T) -> bool)
    requires WeakOrder(lt) && Sorted(s, lt) && Sorted(t, lt) && NoTies(s, lt)
    requires Distinct(s) && Distinct(t) && forall x :: x in s <==> x in t
    ensures s == t
  {
    if t != [] {
      HeadIsMember(t);
    }
    if s != [] {
      HeadIsMember(s);
      SameLeast(s, t, lt);
      TailMembers(s);
      TailMembers(t);
      DistinctSortedUnique(s[1..], t[1..], lt);
    }
  }

  lemma HeadIsMember<T>(s: seq<T>)
    requires s != []
    ensures s[0] in s
  {
  }

  lemma TailMembers<T(!new)>(s: seq<T>)
    requires s != [] && Distinct(s)
    ensures forall x :: x in s[1..] <==> x in s && x != s[0]
  {
    forall x
      ensures x in s[1..] <==> x in s && x != s[0]
    {
      if x in s && x != s[0] {
        var i :| 0 <= i < |s| && s[i] == x;
        assert s[1..][i - 1] == x;
      }
    }
  }
}
