/** Stable sorting, as the standard library's slices provide it. The reference
  * definition is independent of any algorithm: the result is ordered, and the
  * elements that tie with each other keep their order. */
module StableSorts {

  ghost predicate TotalPreorder<T(!new)>(le: (T, T) -> bool) {
    && (forall x, y :: le(x, y) || le(y, x))
    && (forall x, y, z :: le(x, y) && le(y, z) ==> le(x, z))
  }

  ghost predicate Ordered<T(!new)>(le: (T, T) -> bool, s: seq<T>) {
    forall i, j :: 0 <= i < j < |s| ==> le(s[i], s[j])
  }

  predicate Tied<T(!new)>(le: (T, T) -> bool, x: T, y: T) {
    le(x, y) && le(y, x)
  }

  function Filter<T(!new)>(keep: T -> bool, s: seq<T>): (r: seq<T>)
    ensures forall y :: y in r <==> y in s && keep(y)
  {
    if |s| == 0 then [] else
      assert s == [s[0]] + s[1..];
      (if keep(s[0]) then [s[0]] else []) + Filter(keep, s[1..])
  }

  /** The elements of `s` that tie with `x`, in order. */
  function Ties<T(!new)>(le: (T, T) -> bool, x: T, s: seq<T>): seq<T> {
    Filter(y => Tied(le, x, y), s)
  }

  ghost predicate IsStableSort<T(!new)>(le: (T, T) -> bool, s: seq<T>, r: seq<T>) {
    && Ordered(le, r)
    && forall x :: Ties(le, x, r) == Ties(le, x, s)
  }

  function Insert<T(!new)>(le: (T, T) -> bool, x: T, s: seq<T>): (r: seq<T>)
    ensures |r| == |s| + 1 && multiset(r) == multiset(s) + multiset{x}
  {
    if |s| == 0 || le(x, s[0]) then [x] + s
    else
      assert s == [s[0]] + s[1..];
      [s[0]] + Insert(le, x, s[1..])
  }

  function Sort<T(!new)>(le: (T, T) -> bool, s: seq<T>): (r: seq<T>)
    ensures |r| == |s| && multiset(r) == multiset(s)
  {
    if |s| == 0 then [] else
      assert s == [s[0]] + s[1..];
      Insert(le, s[0], Sort(le, s[1..]))
  }

  lemma {:induction false} SameMembers<T(!new)>(le: (T, T) -> bool, s: seq<T>)
    ensures forall x :: x in Sort(le, s) <==> x in s
  {
    assert forall x :: x in s <==> x in multiset(s);
    assert forall x :: x in Sort(le, s) <==> x in multiset(Sort(le, s));
  }

  lemma {:induction false} FilterAppend<T(!new)>(keep: T -> bool, a: seq<T>, b: seq<T>)
    ensures Filter(keep, a + b) == Filter(keep, a) + Filter(keep, b)
  {
    if |a| == 0 {
      assert a + b == b;
    } else {
      assert (a + b)[1..] == a[1..] + b;
      FilterAppend(keep, a[1..], b);
    }
  }

  lemma {:induction false} InsertOrdered<T(!new)>(le: (T, T) -> bool, x: T, s: seq<T>)
    requires TotalPreorder(le) && Ordered(le, s)
    ensures Ordered(le, Insert(le, x, s))
  {
    if |s| > 0 && !le(x, s[0]) {
      var rest := Insert(le, x, s[1..]);
      InsertOrdered(le, x, s[1..]);
      forall j | 0 <= j < |rest| ensures le(s[0], rest[j]) {
        assert rest[j] in multiset(rest);
        assert rest[j] == x || rest[j] in s[1..];
      }
    } else if |s| > 0 {
      forall j | 0 <= j < |s| ensures le(x, s[j]) {
        assert le(s[0], s[j]);
      }
    }
  }

  lemma {:induction false} FilterCons<T(!new)>(keep: T -> bool, x: T, s: seq<T>)
    ensures Filter(keep, [x] + s) == (if keep(x) then [x] else []) + Filter(keep, s)
  {
    assert ([x] + s)[1..] == s;
  }

  /** Inserting before equals keeps `x` in front of its ties. */
  lemma {:induction false} InsertTies<T(!new)>(le: (T, T) -> bool, x: T, s: seq<T>, z: T)
    requires TotalPreorder(le)
    ensures Ties(le, z, Insert(le, x, s)) == (if Tied(le, z, x) then [x] else []) + Ties(le, z, s)
  {
    InsertFilter(le, y => Tied(le, z, y), x, s);
  }

  lemma {:induction false} InsertFilter<T(!new)>(le: (T, T) -> bool, keep: T -> bool, x: T, s: seq<T>)
    requires forall y :: keep(x) && keep(y) ==> le(x, y)
    ensures Filter(keep, Insert(le, x, s)) == (if keep(x) then [x] else []) + Filter(keep, s)
  {
    if |s| == 0 || le(x, s[0]) {
      FilterCons(keep, x, s);
    } else {
      InsertFilter(le, keep, x, s[1..]);
      FilterCons(keep, s[0], Insert(le, x, s[1..]));
    }
  }

  lemma {:induction false} SortIsStable<T(!new)>(le: (T, T) -> bool, s: seq<T>)
    requires TotalPreorder(le)
    ensures IsStableSort(le, s, Sort(le, s))
  {
    if |s| > 0 {
      SortIsStable(le, s[1..]);
      InsertOrdered(le, s[0], Sort(le, s[1..]));
      forall z ensures Ties(le, z, Sort(le, s)) == Ties(le, z, s) {
        InsertTies(le, s[0], Sort(le, s[1..]), z);
      }
    }
  }

  /** The reference definition leaves no freedom. */
  lemma {:induction false} StableSortUnique<T(!new)>(le: (T, T) -> bool, a: seq<T>, b: seq<T>)
    requires TotalPreorder(le)
    requires Ordered(le, a) && Ordered(le, b)
    requires forall x :: Ties(le, x, a) == Ties(le, x, b)
    ensures a == b
    decreases |a|
  {
    OwnTies(le, b);
    if |a| > 0 {
      assert a[0] in Ties(le, a[0], a);
      assert a[0] in b;
      assert b[0] in Ties(le, b[0], b);
      assert b[0] in a;
      assert Tied(le, a[0], b[0]);
      assert Ties(le, a[0], a)[0] == a[0] && Ties(le, a[0], b)[0] == b[0];
      forall x ensures Ties(le, x, a[1..]) == Ties(le, x, b[1..]) {
        TiesTail(le, x, a);
        TiesTail(le, x, b);
      }
      StableSortUnique(le, a[1..], b[1..]);
    }
  }

  lemma OwnTies<T(!new)>(le: (T, T) -> bool, s: seq<T>)
    requires TotalPreorder(le)
    ensures |s| > 0 ==> Ties(le, s[0], s) != []
  {
    if |s| > 0 {
      assert s[0] in Ties(le, s[0], s);
    }
  }

  lemma TiesTail<T(!new)>(le: (T, T) -> bool, x: T, s: seq<T>)
    requires |s| > 0
    ensures Ties(le, x, s[1..]) == if Tied(le, x, s[0]) then Ties(le, x, s)[1..] else Ties(le, x, s)
  {
  }
}
