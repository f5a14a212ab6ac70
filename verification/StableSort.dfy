/** What Go's `sort.SliceStable` promises, as a function and as a characterisation. */
module StableSort {

  /** `less` orders the elements up to ties. */
  ghost predicate IsWeakOrder<T(!new)>(less: (T, T) -> bool) {
    && (forall x, y :: less(x, y) ==> !less(y, x))
    && (forall x, y, z :: less(x, z) ==> less(x, y) || less(y, z))
  }

  predicate Tied<T>(less: (T, T) -> bool, x: T, y: T) {
    !less(x, y) && !less(y, x)
  }

  ghost predicate Sorted<T>(less: (T, T) -> bool, s: seq<T>) {
    forall i, j | 0 <= i < j < |s| :: !less(s[j], s[i])
  }

  /** The elements tied with `x`, in the order in which they stand. */
  function TiedWith<T>(less: (T, T) -> bool, s: seq<T>, x: T): seq<T> {
    if s == [] then []
    else if Tied(less, s[0], x) then [s[0]] + TiedWith(less, s[1..], x)
    else TiedWith(less, s[1..], x)
  }

  /** `t` orders the elements of `s` and keeps ties as they stood. */
  ghost predicate IsStableSort<T(!new)>(less: (T, T) -> bool, s: seq<T>, t: seq<T>) {
    Sorted(less, t) && forall x: T :: TiedWith(less, t, x) == TiedWith(less, s, x)
  }

  function Insert<T>(less: (T, T) -> bool, x: T, s: seq<T>): seq<T> {
    if s == [] || !less(s[0], x) then [x] + s else [s[0]] + Insert(less, x, s[1..])
  }

  function Sort<T>(less: (T, T) -> bool, s: seq<T>): seq<T> {
    if s == [] then [] else Insert(less, s[0], Sort(less, s[1..]))
  }

  lemma {:induction false} InsertHolds<T>(less: (T, T) -> bool, x: T, s: seq<T>)
    ensures multiset(Insert(less, x, s)) == multiset(s) + multiset{x}
  {
    if s != [] && less(s[0], x) {
      InsertHolds(less, x, s[1..]);
      assert s == [s[0]] + s[1..];
    }
  }

  lemma {:induction false} InsertSorts<T(!new)>(less: (T, T) -> bool, x: T, s: seq<T>)
    requires IsWeakOrder(less) && Sorted(less, s)
    ensures Sorted(less, Insert(less, x, s))
  {
    var t := Insert(less, x, s);
    if s == [] {
    } else if !less(s[0], x) {
      forall i, j | 0 <= i < j < |t|
        ensures !less(t[j], t[i])
      {
        if i == 0 {
          assert t[j] == s[j - 1];
          assert !less(s[j - 1], s[0]) && !less(s[0], x);
        } else {
          assert t[i] == s[i - 1] && t[j] == s[j - 1];
        }
      }
    } else {
      var rest := Insert(less, x, s[1..]);
      InsertSorts(less, x, s[1..]);
      InsertHolds(less, x, s[1..]);
      forall i, j | 0 <= i < j < |t|
        ensures !less(t[j], t[i])
      {
        assert t[j] == rest[j - 1];
        if i == 0 {
          assert t[j] in multiset(rest);
          assert t[j] == x || t[j] in s[1..];
        } else {
          assert t[i] == rest[i - 1];
        }
      }
    }
  }

  lemma {:induction false} InsertIsStable<T(!new)>(less: (T, T) -> bool, x: T, s: seq<T>, y: T)
    requires IsWeakOrder(less)
    ensures TiedWith(less, Insert(less, x, s), y) == TiedWith(less, [x] + s, y)
  {
    if s != [] && less(s[0], x) {
      InsertIsStable(less, x, s[1..], y);
      assert ([x] + s)[1..] == s && ([x] + s[1..])[1..] == s[1..];
      assert Insert(less, x, s)[1..] == Insert(less, x, s[1..]);
      // x and s[0] are not tied, so at most one of them is tied with y
    }
  }

  lemma {:induction false} SortHolds<T>(less: (T, T) -> bool, s: seq<T>)
    ensures multiset(Sort(less, s)) == multiset(s)
  {
    if s != [] {
      SortHolds(less, s[1..]);
      InsertHolds(less, s[0], Sort(less, s[1..]));
      assert s == [s[0]] + s[1..];
    }
  }

  lemma {:induction false} SortSorts<T(!new)>(less: (T, T) -> bool, s: seq<T>)
    requires IsWeakOrder(less)
    ensures Sorted(less, Sort(less, s))
  {
    if s != [] {
      SortSorts(less, s[1..]);
      InsertSorts(less, s[0], Sort(less, s[1..]));
    }
  }

  lemma {:induction false} SortKeepsTies<T(!new)>(less: (T, T) -> bool, s: seq<T>, x: T)
    requires IsWeakOrder(less)
    ensures TiedWith(less, Sort(less, s), x) == TiedWith(less, s, x)
  {
    if s != [] {
      var rest := Sort(less, s[1..]);
      SortKeepsTies(less, s[1..], x);
      InsertIsStable(less, s[0], rest, x);
      assert ([s[0]] + rest)[1..] == rest;
    }
  }

  /** The model sorts, keeps every element, and keeps ties in their order. */
  lemma SortIsStableSort<T(!new)>(less: (T, T) -> bool, s: seq<T>)
    requires IsWeakOrder(less)
    ensures IsStableSort(less, s, Sort(less, s))
    ensures multiset(Sort(less, s)) == multiset(s)
  {
    SortHolds(less, s);
    SortSorts(less, s);
    forall x: T
      ensures TiedWith(less, Sort(less, s), x) == TiedWith(less, s, x)
    {
      SortKeepsTies(less, s, x);
    }
  }

  lemma {:induction false} TiedAreMembers<T>(less: (T, T) -> bool, s: seq<T>, x: T)
    ensures forall y :: y in TiedWith(less, s, x) <==> y in s && Tied(less, y, x)
  {
    if s != [] {
      TiedAreMembers(less, s[1..], x);
    }
  }

  /** Nothing but the one order can be the result of a stable sort, whichever algorithm computes it. */
  lemma {:induction false} StableSortIsUnique<T(!new)>(less: (T, T) -> bool, t: seq<T>, u: seq<T>)
    requires IsWeakOrder(less) && Sorted(less, t) && Sorted(less, u)
    requires forall x: T :: TiedWith(less, t, x) == TiedWith(less, u, x)
    ensures t == u
  {
    if u != [] {
      HeadIsShared(less, t, u);
    }
    if t != [] {
      HeadIsShared(less, u, t);
      SameHead(less, t, u);
      forall x: T
        ensures TiedWith(less, t[1..], x) == TiedWith(less, u[1..], x)
      {
        assert TiedWith(less, t, x) == TiedWith(less, u, x);
        if Tied(less, t[0], x) {
          assert TiedWith(less, t, x)[1..] == TiedWith(less, t[1..], x);
          assert TiedWith(less, u, x)[1..] == TiedWith(less, u[1..], x);
        }
      }
      StableSortIsUnique(less, t[1..], u[1..]);
      assert t == [t[0]] + t[1..] && u == [u[0]] + u[1..];
    }
  }

  lemma HeadIsShared<T(!new)>(less: (T, T) -> bool, t: seq<T>, u: seq<T>)
    requires IsWeakOrder(less) && u != []
    requires forall x: T :: TiedWith(less, t, x) == TiedWith(less, u, x)
    ensures u[0] in t && Tied(less, u[0], u[0])
  {
    TiedAreMembers(less, t, u[0]);
    TiedAreMembers(less, u, u[0]);
    assert Tied(less, u[0], u[0]) && u[0] in u;
    assert TiedWith(less, t, u[0]) == TiedWith(less, u, u[0]);
  }

  lemma SameHead<T(!new)>(less: (T, T) -> bool, t: seq<T>, u: seq<T>)
    requires IsWeakOrder(less) && Sorted(less, t) && Sorted(less, u) && t != [] && u != []
    requires forall x: T :: TiedWith(less, t, x) == TiedWith(less, u, x)
    ensures t[0] == u[0]
  {
    HeadIsShared(less, t, u);
    HeadIsShared(less, u, t);
    assert Tied(less, t[0], u[0]);
    assert TiedWith(less, t, t[0]) == TiedWith(less, u, t[0]);
    assert TiedWith(less, t, t[0])[0] == t[0];
    assert TiedWith(less, u, t[0])[0] == u[0];
  }
}
