/**
 * The stable sort pandas performs in `sort_values` and the value order of
 * `groupby(sort=True)` and `value_counts`: an insertion sort that places each
 * element after every earlier element that does not sort strictly after it.
 */
module Sorting {

  /** `le` is total and transitive on the elements of `xs`. */
  ghost predicate TotalPreorderOn<T>(xs: seq<T>, le: (T, T) -> bool) {
    (forall a, b :: a in xs && b in xs ==> le(a, b) || le(b, a))
    && (forall a, b, c :: a in xs && b in xs && c in xs && le(a, b) && le(b, c) ==> le(a, c))
  }

  ghost predicate Sorted<T>(xs: seq<T>, le: (T, T) -> bool) {
    forall i, j :: 0 <= i < j < |xs| ==> le(xs[i], xs[j])
  }

  /** Each element sorts strictly before every later one. */
  ghost predicate StrictlySorted<T>(xs: seq<T>, le: (T, T) -> bool) {
    forall i, j :: 0 <= i < j < |xs| ==> le(xs[i], xs[j]) && !le(xs[j], xs[i])
  }

  /** No two positions of `xs` hold elements that sort alike. */
  ghost predicate Apart<T>(xs: seq<T>, le: (T, T) -> bool) {
    forall i, j :: 0 <= i < |xs| && 0 <= j < |xs| && i != j ==> !(le(xs[i], xs[j]) && le(xs[j], xs[i]))
  }

  /** Inserts `x` in front of the first element that sorts strictly after it. */
  function Insert<T>(x: T, xs: seq<T>, le: (T, T) -> bool): (r: seq<T>)
    ensures multiset(r) == multiset(xs) + multiset{x}
    ensures |r| == |xs| + 1
  {
    if xs == [] then [x]
    else if le(x, xs[0]) && !le(xs[0], x) then [x] + xs
    else
      assert xs == [xs[0]] + xs[1..];
      [xs[0]] + Insert(x, xs[1..], le)
  }

  /** `xs` sorted by `le`, equal elements keeping their order. */
  function SortBy<T>(xs: seq<T>, le: (T, T) -> bool): (r: seq<T>)
    ensures multiset(r) == multiset(xs)
    ensures |r| == |xs|
  {
    if xs == [] then []
    else
      assert xs == xs[..|xs| - 1] + [xs[|xs| - 1]];
      Insert(xs[|xs| - 1], SortBy(xs[..|xs| - 1], le), le)
  }

  lemma {:induction false} InsertSorted<T>(x: T, xs: seq<T>, le: (T, T) -> bool)
    requires Sorted(xs, le)
    requires TotalPreorderOn(xs + [x], le)
    ensures Sorted(Insert(x, xs, le), le)
    decreases |xs|
  {
    var r := Insert(x, xs, le);
    var all := xs + [x];
    assert x in all;
    if xs == [] {
    } else if le(x, xs[0]) && !le(xs[0], x) {
      forall j | 0 < j < |r| ensures le(r[0], r[j]) {
        assert r[j] == xs[j - 1] && xs[0] in all && xs[j - 1] in all;
        if j > 1 {
          assert le(xs[0], xs[j - 1]);
        }
      }
    } else {
      var tail := xs[1..];
      assert TotalPreorderOn(tail + [x], le) by {
        forall a | a in tail + [x] ensures a in all {
          if a in tail {
            var k :| 0 <= k < |tail| && tail[k] == a;
            assert all[k + 1] == a;
          }
        }
      }
      InsertSorted(x, tail, le);
      var rest := Insert(x, tail, le);
      assert le(xs[0], x) by {
        assert xs[0] in all;
      }
      forall j | 0 <= j < |rest| ensures le(xs[0], rest[j]) {
        assert rest[j] in multiset(tail) + multiset{x};
        if rest[j] in multiset(tail) {
          var k :| 0 <= k < |tail| && tail[k] == rest[j];
          assert xs[k + 1] == rest[j];
        }
      }
    }
  }

  lemma {:induction false} SortByIsSorted<T>(xs: seq<T>, le: (T, T) -> bool)
    requires TotalPreorderOn(xs, le)
    ensures Sorted(SortBy(xs, le), le)
    decreases |xs|
  {
    if xs != [] {
      var init := xs[..|xs| - 1];
      var x := xs[|xs| - 1];
      assert xs == init + [x];
      assert TotalPreorderOn(init, le) by {
        forall a | a in init ensures a in xs {
        }
      }
      SortByIsSorted(init, le);
      var sorted := SortBy(init, le);
      assert TotalPreorderOn(sorted + [x], le) by {
        forall a | a in sorted + [x] ensures a in xs {
          if a in sorted {
            assert a in multiset(sorted);
          }
        }
      }
      InsertSorted(x, sorted, le);
    }
  }

  lemma {:induction false} InsertStrict<T>(x: T, xs: seq<T>, le: (T, T) -> bool)
    requires StrictlySorted(xs, le)
    requires TotalPreorderOn(xs + [x], le)
    requires forall y :: y in xs ==> !(le(x, y) && le(y, x))
    ensures StrictlySorted(Insert(x, xs, le), le)
    decreases |xs|
  {
    var r := Insert(x, xs, le);
    var all := xs + [x];
    assert x in all;
    if xs == [] {
    } else if le(x, xs[0]) && !le(xs[0], x) {
      forall j | 0 < j < |r| ensures le(r[0], r[j]) && !le(r[j], r[0]) {
        assert r[j] == xs[j - 1] && xs[0] in all && xs[j - 1] in all;
        if j > 1 {
          assert le(xs[0], xs[j - 1]) && !le(xs[j - 1], xs[0]);
        }
      }
    } else {
      var tail := xs[1..];
      assert TotalPreorderOn(tail + [x], le) by {
        forall a | a in tail + [x] ensures a in all {
          if a in tail {
            var k :| 0 <= k < |tail| && tail[k] == a;
            assert all[k + 1] == a;
          }
        }
      }
      assert StrictlySorted(tail, le) by {
        forall i, j | 0 <= i < j < |tail| ensures le(tail[i], tail[j]) && !le(tail[j], tail[i]) {
          assert tail[i] == xs[i + 1] && tail[j] == xs[j + 1];
        }
      }
      InsertStrict(x, tail, le);
      var rest := Insert(x, tail, le);
      assert le(xs[0], x) && !le(x, xs[0]) by {
        assert xs[0] in all && xs[0] in xs;
      }
      forall j | 0 <= j < |rest| ensures le(xs[0], rest[j]) && !le(rest[j], xs[0]) {
        assert rest[j] in multiset(tail) + multiset{x};
        if rest[j] in multiset(tail) {
          var k :| 0 <= k < |tail| && tail[k] == rest[j];
          assert xs[k + 1] == rest[j];
        }
      }
    }
  }

  /** Sorting elements no two of which sort alike leaves each strictly before the next. */
  lemma {:induction false} SortByStrict<T>(xs: seq<T>, le: (T, T) -> bool)
    requires TotalPreorderOn(xs, le) && Apart(xs, le)
    ensures StrictlySorted(SortBy(xs, le), le)
    decreases |xs|
  {
    if xs != [] {
      var init := xs[..|xs| - 1];
      var x := xs[|xs| - 1];
      assert xs == init + [x];
      assert TotalPreorderOn(init, le) by {
        forall a | a in init ensures a in xs {
        }
      }
      assert Apart(init, le) by {
        forall i, j | 0 <= i < |init| && 0 <= j < |init| && i != j ensures !(le(init[i], init[j]) && le(init[j], init[i])) {
          assert init[i] == xs[i] && init[j] == xs[j];
        }
      }
      SortByStrict(init, le);
      var sorted := SortBy(init, le);
      assert TotalPreorderOn(sorted + [x], le) by {
        forall a | a in sorted + [x] ensures a in xs {
          if a in sorted {
            assert a in multiset(sorted);
          }
        }
      }
      forall y | y in sorted ensures !(le(x, y) && le(y, x)) {
        assert y in multiset(init);
        var k :| 0 <= k < |init| && init[k] == y;
        assert xs[k] == y;
      }
      InsertStrict(x, sorted, le);
    }
  }
}
