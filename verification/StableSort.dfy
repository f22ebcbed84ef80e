/** Stable sorting as `Array.prototype.sort` does it (section 23.1.3.30 of ECMA-262), by insertion. */
module StableSort {

  /** Whether a comes no later than b. */
  type Order<!T> = (T, T) -> bool

  ghost predicate Total<T(!new)>(le: Order<T>) {
    && (forall a, b :: le(a, b) || le(b, a))
    && (forall a, b, c :: le(a, b) && le(b, c) ==> le(a, c))
  }

  /** Elements that the order does not tell apart. */
  predicate Tied<T>(le: Order<T>, a: T, b: T) { le(a, b) && le(b, a) }

  function TiedWith<T(!new)>(le: Order<T>, x: T, s: seq<T>): seq<T> { Filter(s, y => Tied(le, x, y)) }

  function Filter<T(!new)>(s: seq<T>, keep: T -> bool): (r: seq<T>)
    ensures forall x :: x in r <==> x in s && keep(x)
  {
    if s == [] then []
    else if keep(s[0]) then [s[0]] + Filter(s[1..], keep)
    else Filter(s[1..], keep)
  }

  ghost predicate Sorted<T>(le: Order<T>, s: seq<T>) {
    forall i, j :: 0 <= i < j < |s| ==> le(s[i], s[j])
  }

  /** A stable rearrangement: for every element, the elements tied with it keep their order. */
  ghost predicate Stable<T(!new)>(le: Order<T>, before: seq<T>, after: seq<T>) {
    forall x :: TiedWith(le, x, after) == TiedWith(le, x, before)
  }

  function Insert<T>(le: Order<T>, x: T, s: seq<T>): seq<T> {
    if s == [] || le(x, s[0]) then [x] + s else [s[0]] + Insert(le, x, s[1..])
  }

  function Sort<T>(le: Order<T>, s: seq<T>): seq<T> {
    if s == [] then [] else Insert(le, s[0], Sort(le, s[1..]))
  }

  lemma {:induction false} InsertMembers<T(!new)>(le: Order<T>, x: T, s: seq<T>)
    ensures forall y :: y in Insert(le, x, s) <==> y == x || y in s
    ensures multiset(Insert(le, x, s)) == multiset(s) + multiset{x}
  {
    if s != [] && !le(x, s[0]) {
      InsertMembers(le, x, s[1..]);
      assert s == [s[0]] + s[1..];
    } else {
      assert [x] + s == Insert(le, x, s);
    }
  }

  lemma {:induction false} InsertSorted<T(!new)>(le: Order<T>, x: T, s: seq<T>)
    requires Total(le) && Sorted(le, s)
    ensures Sorted(le, Insert(le, x, s))
  {
    if s != [] && !le(x, s[0]) {
      InsertSorted(le, x, s[1..]);
      InsertMembers(le, x, s[1..]);
      var r := Insert(le, x, s[1..]);
      forall j | 0 <= j < |r| ensures le(s[0], r[j]) {
        assert r[j] in r;
        if r[j] != x {
          var i :| 0 <= i < |s[1..]| && s[1..][i] == r[j];
        }
      }
    }
  }

  lemma {:induction false} InsertFilter<T(!new)>(le: Order<T>, x: T, s: seq<T>, keep: T -> bool)
    requires forall y :: y in s && keep(y) && keep(x) ==> le(x, y)
    ensures Filter(Insert(le, x, s), keep) == Filter([x] + s, keep)
  {
    assert ([x] + s)[1..] == s;
    if s != [] && !le(x, s[0]) {
      assert s[0] in s;
      InsertFilter(le, x, s[1..], keep);
      assert ([x] + s[1..])[1..] == s[1..];
    }
  }

  lemma {:induction false} SortKeeps<T(!new)>(le: Order<T>, s: seq<T>)
    ensures multiset(Sort(le, s)) == multiset(s) && |Sort(le, s)| == |s|
  {
    if s != [] {
      SortKeeps(le, s[1..]);
      InsertMembers(le, s[0], Sort(le, s[1..]));
      assert s == [s[0]] + s[1..];
      assert |multiset(Sort(le, s))| == |multiset(s)|;
    }
  }

  lemma {:induction false} SortFilter<T(!new)>(le: Order<T>, s: seq<T>, x: T)
    requires Total(le)
    ensures TiedWith(le, x, Sort(le, s)) == TiedWith(le, x, s)
  {
    if s != [] {
      var keep := y => Tied(le, x, y);
      SortFilter(le, s[1..], x);
      InsertFilter(le, s[0], Sort(le, s[1..]), keep);
      assert ([s[0]] + Sort(le, s[1..]))[1..] == Sort(le, s[1..]);
    }
  }

  /** Insertion sort sorts, keeps every element and is stable. */
  lemma {:induction false} SortIsStable<T(!new)>(le: Order<T>, s: seq<T>)
    requires Total(le)
    ensures Sorted(le, Sort(le, s)) && multiset(Sort(le, s)) == multiset(s) && Stable(le, s, Sort(le, s))
  {
    SortKeeps(le, s);
    forall x ensures TiedWith(le, x, Sort(le, s)) == TiedWith(le, x, s) {
      SortFilter(le, s, x);
    }
    if s != [] {
      SortIsStable(le, s[1..]);
      InsertSorted(le, s[0], Sort(le, s[1..]));
    }
  }
}
