/**
 * The tasks as the page holds them after loading the issues list, and the
 * de-duplication `[...new Set(xs)]` that both the task list and the Gantt
 * chart rely on.
 */
module Tasks {
  import opened Wrappers

  /**
   * A loaded task. Dates are day numbers; a field that is missing, or a
   * date that is the empty string, is `None`.
   */
  datatype Task = Task(
    id: string,
    createdAt: string,
    title: string,
    projectId: Option<string>,
    assigneeId: Option<string>,
    status: Option<string>,
    startDate: Option<int>,
    endDate: Option<int>)

  /** `issue.startDate || today`. */
  function StartOr(t: Task, today: int): int {
    t.startDate.GetOr(today)
  }

  /** `issue.endDate || today + 3 days`. */
  function EndOr(t: Task, today: int): int {
    t.endDate.GetOr(today + 3)
  }

  /** `[...new Set(xs)]`: every value once, in the order of its first appearance. */
  function Distinct<T(==, !new)>(xs: seq<T>): (d: seq<T>)
    ensures forall x :: x in d <==> x in xs
  {
    if xs == [] then []
    else
      var init := xs[..|xs| - 1];
      var d := Distinct(init);
      assert xs == init + [xs[|xs| - 1]];
      if xs[|xs| - 1] in d then d else d + [xs[|xs| - 1]]
  }

  /** No value occurs twice in `xs`. */
  predicate NoDuplicates<T(==)>(xs: seq<T>) {
    forall i, j :: 0 <= i < j < |xs| ==> xs[i] != xs[j]
  }

  /** The index of the first occurrence of `x` in `xs`. */
  function FirstIndex<T(==)>(xs: seq<T>, x: T): (i: nat)
    requires x in xs
    ensures i < |xs| && xs[i] == x
  {
    if xs[0] == x then 0
    else
      assert x in xs[1..];
      FirstIndex(xs[1..], x) + 1
  }

  /** No occurrence of `x` comes before `FirstIndex`. */
  lemma {:induction false} FirstIndexLeast<T>(xs: seq<T>, x: T, j: nat)
    requires j < |xs| && xs[j] == x
    ensures FirstIndex(xs, x) <= j
  {
    if xs[0] != x {
      assert x in xs[1..];
      assert xs[1..][j - 1] == x;
      FirstIndexLeast(xs[1..], x, j - 1);
    }
  }

  /** The first occurrence of a value of a prefix is its first occurrence in the whole sequence. */
  lemma FirstIndexInPrefix<T>(xs: seq<T>, n: nat, x: T)
    requires n <= |xs| && x in xs[..n]
    ensures x in xs && FirstIndex(xs, x) == FirstIndex(xs[..n], x)
  {
    var i := FirstIndex(xs[..n], x);
    FirstIndexLeast(xs, x, i);
    var k := FirstIndex(xs, x);
    FirstIndexLeast(xs[..n], x, k);
  }

  /** The values of `d` occur in `xs`, and their first occurrences there come in the order of `d`. */
  predicate InFirstAppearanceOrder<T(==)>(xs: seq<T>, d: seq<T>) {
    forall i, j :: 0 <= i < j < |d| ==> d[i] in xs && d[j] in xs && FirstIndex(xs, d[i]) < FirstIndex(xs, d[j])
  }

  /** `Distinct` keeps each value once, and keeps the values in the order of their first appearance in `xs`. */
  lemma {:induction false} DistinctFirstAppearance<T(!new)>(xs: seq<T>)
    ensures NoDuplicates(Distinct(xs))
    ensures InFirstAppearanceOrder(xs, Distinct(xs))
  {
    if xs != [] {
      var n := |xs| - 1;
      var init := xs[..n];
      var d := Distinct(init);
      DistinctFirstAppearance(init);
      forall i | 0 <= i < |d|
        ensures d[i] in xs && FirstIndex(xs, d[i]) == FirstIndex(init, d[i]) < n
      {
        FirstIndexInPrefix(xs, n, d[i]);
      }
      if xs[n] in d {
        assert Distinct(xs) == d;
        forall i, j | 0 <= i < j < |d|
          ensures d[i] != d[j] && d[i] in xs && d[j] in xs && FirstIndex(xs, d[i]) < FirstIndex(xs, d[j])
        {
          assert FirstIndex(init, d[i]) < FirstIndex(init, d[j]);
        }
      } else {
        var e := d + [xs[n]];
        assert Distinct(xs) == e;
        assert FirstIndex(xs, xs[n]) == n by {
          FirstIndexLeast(xs, xs[n], n);
          forall k | 0 <= k < n
            ensures xs[k] != xs[n]
          {
            assert init[k] == xs[k];
          }
        }
        forall i, j | 0 <= i < j < |e|
          ensures e[i] != e[j] && e[i] in xs && e[j] in xs && FirstIndex(xs, e[i]) < FirstIndex(xs, e[j])
        {
          assert e[i] == d[i];
          if j < |d| {
            assert e[j] == d[j];
          }
        }
      }
    }
  }

  // ----- Array.prototype.filter -----

  /** `xs.filter(keep)`: the elements that `keep` accepts, in their order. */
  function Filter<T>(xs: seq<T>, keep: T -> bool): (r: seq<T>)
    ensures |r| <= |xs|
  {
    if xs == [] then []
    else Filter(xs[..|xs| - 1], keep) + (if keep(xs[|xs| - 1]) then [xs[|xs| - 1]] else [])
  }

  /** The filter keeps exactly the elements that `keep` accepts. */
  lemma {:induction false} FilterMembers<T>(xs: seq<T>, keep: T -> bool, x: T)
    ensures x in Filter(xs, keep) <==> x in xs && keep(x)
  {
    if xs != [] {
      FilterMembers(xs[..|xs| - 1], keep, x);
      assert xs == xs[..|xs| - 1] + [xs[|xs| - 1]];
    }
  }

  /** Filtering twice is filtering once by both tests: successive filters compose. */
  lemma {:induction false} FilterTwice<T>(xs: seq<T>, first: T -> bool, second: T -> bool, both: T -> bool)
    requires forall x :: both(x) == (first(x) && second(x))
    ensures Filter(Filter(xs, first), second) == Filter(xs, both)
  {
    if xs != [] {
      var init := xs[..|xs| - 1];
      var x := xs[|xs| - 1];
      FilterTwice(init, first, second, both);
      var f := Filter(init, first);
      if first(x) {
        assert Filter(xs, first) == f + [x];
        assert (f + [x])[..|f|] == f;
      } else {
        assert Filter(xs, first) == f;
        assert !both(x);
      }
    }
  }

  /** A filter that accepts every element keeps the sequence as it is. */
  lemma {:induction false} FilterAll<T>(xs: seq<T>, keep: T -> bool)
    requires forall x :: x in xs ==> keep(x)
    ensures Filter(xs, keep) == xs
  {
    if xs != [] {
      FilterAll(xs[..|xs| - 1], keep);
      assert xs == xs[..|xs| - 1] + [xs[|xs| - 1]];
    }
  }

  /** A filter keeps the number of elements of each value that it accepts, and drops the others. */
  lemma {:induction false} FilterCount<T>(xs: seq<T>, keep: T -> bool, x: T)
    ensures multiset(Filter(xs, keep))[x] == if keep(x) then multiset(xs)[x] else 0
  {
    if xs != [] {
      FilterCount(xs[..|xs| - 1], keep, x);
      assert xs == xs[..|xs| - 1] + [xs[|xs| - 1]];
    }
  }

  /** Two filters whose tests agree on every element keep the same elements. */
  lemma {:induction false} FilterSameTest<T>(xs: seq<T>, keep: T -> bool, keep': T -> bool)
    requires forall x :: keep(x) == keep'(x)
    ensures Filter(xs, keep) == Filter(xs, keep')
  {
    if xs != [] {
      FilterSameTest(xs[..|xs| - 1], keep, keep');
    }
  }

  /** Filtering a concatenation filters each part. */
  lemma {:induction false} FilterConcat<T>(xs: seq<T>, ys: seq<T>, keep: T -> bool)
    ensures Filter(xs + ys, keep) == Filter(xs, keep) + Filter(ys, keep)
  {
    if ys != [] {
      var init := ys[..|ys| - 1];
      FilterConcat(xs, init, keep);
      assert (xs + ys)[..|xs + ys| - 1] == xs + init;
    } else {
      assert xs + ys == xs;
    }
  }

  /** Filtering a sequence with one element singled out. */
  lemma FilterAround<T>(xs: seq<T>, x: T, ys: seq<T>, keep: T -> bool)
    ensures Filter(xs + [x] + ys, keep) == Filter(xs, keep) + (if keep(x) then [x] else []) + Filter(ys, keep)
  {
    FilterConcat(xs + [x], ys, keep);
    FilterConcat(xs, [x], keep);
    assert [x][..0] == [];
  }

  /** A filter that accepts no element keeps nothing. */
  lemma {:induction false} FilterNone<T>(xs: seq<T>, keep: T -> bool)
    requires forall x :: x in xs ==> !keep(x)
    ensures Filter(xs, keep) == []
  {
    if xs != [] {
      FilterNone(xs[..|xs| - 1], keep);
    }
  }

  /** Splicing `x` in between `xs` and `ys` adds it at the end of what the filter keeps, when the filter keeps nothing of `ys`. */
  lemma FilterSplice<T>(xs: seq<T>, x: T, ys: seq<T>, keep: T -> bool)
    requires keep(x) ==> forall y :: y in ys ==> !keep(y)
    ensures Filter(xs + [x] + ys, keep) == Filter(xs + ys, keep) + (if keep(x) then [x] else [])
  {
    FilterAround(xs, x, ys, keep);
    FilterConcat(xs, ys, keep);
    if keep(x) {
      FilterNone(ys, keep);
    }
  }
}
