/** `Array.prototype.sort(compare)` is a stable sort. It is represented here
    by an insertion sort whose result is proved to be ordered, a permutation
    of the input, and stable: elements the comparator ties keep their
    relative order. `less(a, b)` stands for "`compare(a, b)` is negative". */
module StableSort {
  import opened Sequences

  /** The comparator describes a strict weak order, as `sort` expects. */
  ghost predicate StrictWeakOrder<T(!new)>(less: (T, T) -> bool)
  {
    && (forall a :: !less(a, a))
    && (forall a, b, c :: less(a, b) && less(b, c) ==> less(a, c))
    && (forall a, b, c {:trigger less(a, b), less(b, c)} {:trigger less(a, c), less(a, b)} {:trigger less(a, c), less(b, c)} ::
          less(a, c) ==> less(a, b) || less(b, c))
  }

  /** Neither element sorts before the other. */
  predicate Tied<T>(less: (T, T) -> bool, a: T, b: T)
  {
    !less(a, b) && !less(b, a)
  }

  /** No element is placed before one it sorts after. */
  predicate Ordered<T>(s: seq<T>, less: (T, T) -> bool)
  {
    forall i, j :: 0 <= i < j < |s| ==> !less(s[j], s[i])
  }

  /** The elements of `s` tied with `y`, in their order in `s`. */
  function TiedWith<T>(s: seq<T>, y: T, less: (T, T) -> bool): seq<T>
  {
    if s == [] then []
    else (if Tied(less, s[0], y) then [s[0]] else []) + TiedWith(s[1..], y, less)
  }

  /** `x` inserted before the first element that it sorts before. */
  function Insert<T>(x: T, s: seq<T>, less: (T, T) -> bool): (r: seq<T>)
    ensures |r| == |s| + 1
  {
    if s == [] then [x]
    else if less(x, s[0]) then [x] + s
    else [s[0]] + Insert(x, s[1..], less)
  }

  /** Inserting adds the element and keeps all others. */
  lemma {:induction false} InsertPermutes<T>(x: T, s: seq<T>, less: (T, T) -> bool)
    ensures multiset(Insert(x, s, less)) == multiset(s) + multiset{x}
    decreases |s|
  {
    if s != [] {
      ConsSplit(s, []);
      if !less(x, s[0]) {
        InsertPermutes(x, s[1..], less);
      }
    }
  }

  /** The result of sorting `s` with a comparator. */
  function SortBy<T>(s: seq<T>, less: (T, T) -> bool): (r: seq<T>)
    ensures |r| == |s|
  {
    if s == [] then []
    else Insert(s[|s| - 1], SortBy(s[..|s| - 1], less), less)
  }

  /** Sorting gives a permutation of its input. */
  lemma {:induction false} SortByPermutes<T>(s: seq<T>, less: (T, T) -> bool)
    ensures multiset(SortBy(s, less)) == multiset(s)
    decreases |s|
  {
    if s != [] {
      var front, last := s[..|s| - 1], s[|s| - 1];
      SortByPermutes(front, less);
      InsertPermutes(last, SortBy(front, less), less);
      MultisetSnoc(s);
    }
  }

  /** The multiset of a non-empty sequence: that of its front and its last element. */
  lemma MultisetSnoc<T>(s: seq<T>)
    requires s != []
    ensures multiset(s) == multiset(s[..|s| - 1]) + multiset{s[|s| - 1]}
  {
    assert s == s[..|s| - 1] + [s[|s| - 1]];
  }

  /** Sorting one more element inserts it into the sorted rest. */
  lemma SortBySnoc<T>(s: seq<T>, x: T, less: (T, T) -> bool)
    ensures SortBy(s + [x], less) == Insert(x, SortBy(s, less), less)
  {
    assert (s + [x])[..|s|] == s;
  }

  lemma {:induction false} InsertOrdered<T(!new)>(x: T, s: seq<T>, less: (T, T) -> bool)
    requires StrictWeakOrder(less)
    requires Ordered(s, less)
    ensures Ordered(Insert(x, s, less), less)
    decreases |s|
  {
    if s != [] && !less(x, s[0]) {
      InsertOrdered(x, s[1..], less);
      var r := Insert(x, s, less);
      assert r == [s[0]] + Insert(x, s[1..], less);
      InsertPermutes(x, s[1..], less);
      forall j | 1 <= j < |r| ensures !less(r[j], s[0]) {
        assert r[j] in multiset(s[1..]) + multiset{x};
        if r[j] != x {
          assert r[j] in s[1..];
        }
      }
    }
  }

  /** Sorting gives an ordered sequence. */
  lemma {:induction false} SortByOrdered<T(!new)>(s: seq<T>, less: (T, T) -> bool)
    requires StrictWeakOrder(less)
    ensures Ordered(SortBy(s, less), less)
    decreases |s|
  {
    if s != [] {
      SortByOrdered(s[..|s| - 1], less);
      InsertOrdered(s[|s| - 1], SortBy(s[..|s| - 1], less), less);
    }
  }

  lemma {:induction false} TiedWithConcat<T>(a: seq<T>, b: seq<T>, y: T, less: (T, T) -> bool)
    ensures TiedWith(a + b, y, less) == TiedWith(a, y, less) + TiedWith(b, y, less)
    decreases |a|
  {
    if a == [] {
      assert a + b == b;
    } else {
      TiedWithConcat(a[1..], b, y, less);
      TiedWithConcatStep(a, b, y, less);
    }
  }

  /** The step of `TiedWithConcat`: from the tail of `a` to `a`. */
  lemma TiedWithConcatStep<T>(a: seq<T>, b: seq<T>, y: T, less: (T, T) -> bool)
    requires a != []
    requires TiedWith(a[1..] + b, y, less) == TiedWith(a[1..], y, less) + TiedWith(b, y, less)
    ensures TiedWith(a + b, y, less) == TiedWith(a, y, less) + TiedWith(b, y, less)
  {
    var head := if Tied(less, a[0], y) then [a[0]] else [];
    ConsSplit(a, b);
    TiedWithCons(a[0], a[1..] + b, y, less);
    TiedWithCons(a[0], a[1..], y, less);
    Regroup(head, TiedWith(a[1..], y, less), TiedWith(b, y, less));
  }

  /** The tied elements of a sequence with a first element put in front. */
  lemma TiedWithCons<T>(h: T, rest: seq<T>, y: T, less: (T, T) -> bool)
    ensures TiedWith([h] + rest, y, less) == (if Tied(less, h, y) then [h] else []) + TiedWith(rest, y, less)
  {
    assert ([h] + rest)[1..] == rest;
  }

  /** When `x` sorts before the first element of an ordered sequence and is
      tied with `y`, nothing in the sequence is tied with `y`. */
  lemma {:induction false} NothingTiedAfter<T(!new)>(x: T, s: seq<T>, y: T, less: (T, T) -> bool)
    requires StrictWeakOrder(less)
    requires Ordered(s, less)
    requires s != [] && less(x, s[0]) && Tied(less, x, y)
    ensures TiedWith(s, y, less) == []
    decreases |s|
  {
    assert !Tied(less, s[0], y) by {
      assert less(x, y) || less(y, s[0]);
    }
    if |s| > 1 {
      assert !less(s[1], s[0]);
      assert Ordered(s[1..], less);
      NothingTiedAfter(x, s[1..], y, less);
    }
  }

  lemma {:induction false} InsertStable<T(!new)>(x: T, s: seq<T>, y: T, less: (T, T) -> bool)
    requires StrictWeakOrder(less)
    requires Ordered(s, less)
    ensures TiedWith(Insert(x, s, less), y, less)
      == TiedWith(s, y, less) + (if Tied(less, x, y) then [x] else [])
    decreases |s|
  {
    if s == [] {
    } else if less(x, s[0]) {
      InsertFrontStable(x, s, y, less);
    } else {
      var rest := Insert(x, s[1..], less);
      assert Ordered(s[1..], less);
      InsertStable(x, s[1..], y, less);
      assert Insert(x, s, less) == [s[0]] + rest;
      TiedWithCons(s[0], rest, y, less);
      Regroup(if Tied(less, s[0], y) then [s[0]] else [], TiedWith(s[1..], y, less),
              if Tied(less, x, y) then [x] else []);
    }
  }

  /** Inserting at the front keeps the tied elements in order. */
  lemma InsertFrontStable<T(!new)>(x: T, s: seq<T>, y: T, less: (T, T) -> bool)
    requires StrictWeakOrder(less)
    requires Ordered(s, less)
    requires s != [] && less(x, s[0])
    ensures TiedWith(Insert(x, s, less), y, less)
      == TiedWith(s, y, less) + (if Tied(less, x, y) then [x] else [])
  {
    assert Insert(x, s, less) == [x] + s;
    TiedWithCons(x, s, y, less);
    if Tied(less, x, y) {
      NothingTiedAfter(x, s, y, less);
    }
  }

  /** Sorting is stable: the elements tied with any `y` come out in the
      order they went in. */
  lemma {:induction false} SortByStable<T(!new)>(s: seq<T>, y: T, less: (T, T) -> bool)
    requires StrictWeakOrder(less)
    ensures TiedWith(SortBy(s, less), y, less) == TiedWith(s, y, less)
    decreases |s|
  {
    if s != [] {
      SortByStable(s[..|s| - 1], y, less);
      SortByStableStep(s, y, less);
    }
  }

  /** The step of `SortByStable`: from the front of `s` to `s`. */
  lemma SortByStableStep<T(!new)>(s: seq<T>, y: T, less: (T, T) -> bool)
    requires StrictWeakOrder(less)
    requires s != []
    requires TiedWith(SortBy(s[..|s| - 1], less), y, less) == TiedWith(s[..|s| - 1], y, less)
    ensures TiedWith(SortBy(s, less), y, less) == TiedWith(s, y, less)
  {
    var front, last := s[..|s| - 1], s[|s| - 1];
    var tail := if Tied(less, last, y) then [last] else [];
    SortByOrdered(front, less);
    InsertStable(last, SortBy(front, less), y, less);
    TiedWithCons(last, [], y, less);
    AppendNothing(tail);
    assert [last] + [] == [last];
    TiedWithConcat(front, [last], y, less);
    SnocSplit([], s);
    calc {
      TiedWith(SortBy(s, less), y, less);
      TiedWith(Insert(last, SortBy(front, less), less), y, less);
      TiedWith(SortBy(front, less), y, less) + tail;
      TiedWith(front, y, less) + TiedWith([last], y, less);
      TiedWith(front + [last], y, less);
    }
  }

  /** Inserting before the first element. */
  lemma InsertFront<T>(x: T, h: T, t: seq<T>, less: (T, T) -> bool)
    requires less(x, h)
    ensures Insert(x, [h] + t, less) == [x, h] + t
  {
  }

  /** Inserting past the first element. */
  lemma InsertPast<T>(x: T, h: T, t: seq<T>, less: (T, T) -> bool)
    requires !less(x, h)
    ensures Insert(x, [h] + t, less) == [h] + Insert(x, t, less)
  {
    assert ([h] + t)[1..] == t;
  }

  lemma SortOne<T>(a: T, less: (T, T) -> bool)
    ensures SortBy([a], less) == [a]
  {
    SortBySnoc([], a, less);
    assert [] + [a] == [a];
  }

  lemma SortTwoDescending<T>(a: T, b: T, less: (T, T) -> bool)
    requires less(b, a)
    ensures SortBy([a, b], less) == [b, a]
  {
    SortOne(a, less);
    SortBySnoc([a], b, less);
    assert [a] + [b] == [a, b];
    InsertFront(b, a, [], less);
    assert [b, a] + [] == [b, a];
  }

  /** Three elements given in descending order come out reversed. */
  lemma SortThreeDescending<T>(a: T, b: T, c: T, less: (T, T) -> bool)
    requires less(b, a) && less(c, b)
    ensures SortBy([a, b, c], less) == [c, b, a]
  {
    SortTwoDescending(a, b, less);
    SortBySnoc([a, b], c, less);
    assert [a, b] + [c] == [a, b, c];
    assert [b, a] == [b] + [a];
    InsertFront(c, b, [a], less);
    assert [c, b] + [a] == [c, b, a];
  }

  /** A fourth element that belongs between the second and third of the
      sorted three. */
  lemma SortFourThirdLast<T>(a: T, b: T, c: T, d: T, less: (T, T) -> bool)
    requires less(b, a) && less(c, b)
    requires !less(d, c) && !less(d, b) && less(d, a)
    ensures SortBy([a, b, c, d], less) == [c, b, d, a]
  {
    InsertSecondOfThree(d, c, b, a, less);
    SortThreeDescending(a, b, c, less);
    SortBySnoc([a, b, c], d, less);
    assert [a, b, c] + [d] == [a, b, c, d];
  }

  lemma InsertAfterOne<T>(x: T, a: T, b: T, less: (T, T) -> bool)
    requires !less(x, a) && less(x, b)
    ensures Insert(x, [a, b], less) == [a, x, b]
  {
    assert [a, b] == [a] + [b];
    InsertPast(x, a, [b], less);
    assert [b] == [b] + [];
    InsertFront(x, b, [], less);
    assert [a] + ([x, b] + []) == [a, x, b];
  }

  lemma InsertSecondOfThree<T>(x: T, a: T, b: T, c: T, less: (T, T) -> bool)
    requires !less(x, a) && !less(x, b) && less(x, c)
    ensures Insert(x, [a, b, c], less) == [a, b, x, c]
  {
    InsertAfterOne(x, b, c, less);
    assert [a, b, c] == [a] + [b, c];
    InsertPast(x, a, [b, c], less);
    assert [a] + [b, x, c] == [a, b, x, c];
  }
}
