/**
 * The ordering `getExpenses` imposes: `Array.prototype.sort` with the
 * comparator `(a, b) => b.date - a.date`. JavaScript's sort is stable, so the
 * result is fully determined: newest first, and records with equal dates in
 * their stored order. `SortByDate` is that result, written as a stable
 * insertion sort; `SortByDateInPlace` is the in-place sort of an array.
 */
module DateOrder {
  import opened ExpenseModel

  /** Newest first: no record is followed by a later-dated one. */
  predicate SortedByDateDesc(s: seq<Expense>) {
    forall i, j :: 0 <= i < j < |s| ==> s[i].date >= s[j].date
  }

  /** The records of `s` dated `d`, in the order `s` holds them. */
  function OnDate(s: seq<Expense>, d: int): seq<Expense> {
    if s == [] then []
    else OnDate(s[..|s| - 1], d) + (if s[|s| - 1].date == d then [s[|s| - 1]] else [])
  }

  /** Places `x` after every trailing record of `s` that is not older than it, scanning from the right. */
  function InsertByDate(s: seq<Expense>, x: Expense): seq<Expense> {
    if s == [] || s[|s| - 1].date >= x.date then s + [x]
    else InsertByDate(s[..|s| - 1], x) + [s[|s| - 1]]
  }

  /** The array a stable sort by descending date produces. */
  function SortByDate(s: seq<Expense>): seq<Expense> {
    if s == [] then [] else InsertByDate(SortByDate(s[..|s| - 1]), s[|s| - 1])
  }

  lemma {:induction false} OnDateAppend(s: seq<Expense>, t: seq<Expense>, d: int)
    ensures OnDate(s + t, d) == OnDate(s, d) + OnDate(t, d)
    decreases |t|
  {
    if t == [] {
      assert s + t == s;
    } else {
      var u := t[..|t| - 1];
      assert (s + t)[..|s + t| - 1] == s + u;
      OnDateAppend(s, u, d);
    }
  }

  lemma {:induction false} InsertByDatePerm(s: seq<Expense>, x: Expense)
    ensures |InsertByDate(s, x)| == |s| + 1
    ensures multiset(InsertByDate(s, x)) == multiset(s) + multiset{x}
    decreases |s|
  {
    if !(s == [] || s[|s| - 1].date >= x.date) {
      var p := s[..|s| - 1];
      assert s == p + [s[|s| - 1]];
      InsertByDatePerm(p, x);
    }
  }

  lemma {:induction false} InsertByDateOnDate(s: seq<Expense>, x: Expense, d: int)
    ensures OnDate(InsertByDate(s, x), d) == OnDate(s, d) + OnDate([x], d)
    decreases |s|
  {
    if s == [] || s[|s| - 1].date >= x.date {
      OnDateAppend(s, [x], d);
    } else {
      var p, last := s[..|s| - 1], s[|s| - 1];
      var r := InsertByDate(p, x);
      var ox, ol := OnDate([x], d), OnDate([last], d);
      assert InsertByDate(s, x) == r + [last];
      assert OnDate(r + [last], d) == OnDate(r, d) + ol by {
        OnDateAppend(r, [last], d);
      }
      assert OnDate(r, d) == OnDate(p, d) + ox by {
        InsertByDateOnDate(p, x, d);
      }
      assert OnDate(s, d) == OnDate(p, d) + ol by {
        assert s == p + [last];
        OnDateAppend(p, [last], d);
      }
      // `last` is older than `x`, so at most one of the two is dated `d`.
      assert ox == [] || ol == [] by {
        assert ox == (if x.date == d then [x] else []);
        assert ol == (if last.date == d then [last] else []);
      }
      SwapEmpty(OnDate(p, d), ox, ol);
    }
  }

  lemma SwapEmpty(a: seq<Expense>, b: seq<Expense>, c: seq<Expense>)
    requires b == [] || c == []
    ensures a + b + c == a + c + b
  {
  }

  lemma {:induction false} InsertByDateSorted(s: seq<Expense>, x: Expense)
    requires SortedByDateDesc(s)
    ensures SortedByDateDesc(InsertByDate(s, x))
    decreases |s|
  {
    if !(s == [] || s[|s| - 1].date >= x.date) {
      var p, last := s[..|s| - 1], s[|s| - 1];
      assert SortedByDateDesc(p);
      InsertByDateSorted(p, x);
      InsertByDatePerm(p, x);
      var r := InsertByDate(p, x);
      // Every record of r is either x or a record of p, all of which are at least as new as `last`.
      forall k | 0 <= k < |r| ensures r[k].date >= last.date {
        assert r[k] in multiset(r);
        if r[k] != x {
          assert r[k] in multiset(p);
          var i :| 0 <= i < |p| && p[i] == r[k];
          assert s[i] == p[i];
        }
      }
    }
  }

  /**
   * The sorted result holds exactly the stored records, newest first, and
   * records sharing a date keep their stored order (the sort is stable).
   */
  lemma {:induction false} SortByDateCorrect(s: seq<Expense>)
    ensures |SortByDate(s)| == |s|
    ensures multiset(SortByDate(s)) == multiset(s)
    ensures SortedByDateDesc(SortByDate(s))
    ensures forall d :: OnDate(SortByDate(s), d) == OnDate(s, d)
    decreases |s|
  {
    if s != [] {
      var p, last := s[..|s| - 1], s[|s| - 1];
      assert s == p + [last];
      SortByDateCorrect(p);
      InsertByDatePerm(SortByDate(p), last);
      InsertByDateSorted(SortByDate(p), last);
      forall d ensures OnDate(SortByDate(s), d) == OnDate(s, d) {
        InsertByDateOnDate(SortByDate(p), last, d);
        OnDateAppend(p, [last], d);
      }
    }
  }

  /** Sorting an already ordered array leaves it as it is. */
  lemma {:induction false} SortByDateOfSorted(s: seq<Expense>)
    requires SortedByDateDesc(s)
    ensures SortByDate(s) == s
    decreases |s|
  {
    if s != [] {
      var p, last := s[..|s| - 1], s[|s| - 1];
      assert SortedByDateDesc(p);
      SortByDateOfSorted(p);
      assert p == [] || p[|p| - 1].date >= last.date;
      assert SortByDate(s) == InsertByDate(p, last) == p + [last];
      assert s == p + [last];
    }
  }

  /**
   * Where `InsertByDate` puts `x`: right after the last record that is not
   * older than it, with only older records behind it.
   */
  lemma {:induction false} InsertByDatePosition(p: seq<Expense>, j: int, x: Expense)
    requires 0 <= j <= |p|
    requires j == 0 || p[j - 1].date >= x.date
    requires forall k :: j <= k < |p| ==> p[k].date < x.date
    ensures InsertByDate(p, x) == p[..j] + [x] + p[j..]
    decreases |p|
  {
    if j == |p| {
      assert p[..j] == p && p[j..] == [];
    } else {
      var q := p[..|p| - 1];
      InsertByDatePosition(q, j, x);
      assert q[..j] == p[..j];
      assert p[j..] == q[j..] + [p[|p| - 1]];
    }
  }

  /** A sequence that agrees with `pre` around position `j` and holds `x` there is `pre` with `x` spliced in. */
  lemma Splice(b: seq<Expense>, pre: seq<Expense>, j: int, x: Expense)
    requires |b| == |pre| + 1 && 0 <= j <= |pre|
    requires forall k :: 0 <= k < j ==> b[k] == pre[k]
    requires b[j] == x
    requires forall k :: j < k < |b| ==> b[k] == pre[k - 1]
    ensures b == pre[..j] + [x] + pre[j..]
  {
    var r := pre[..j] + [x] + pre[j..];
    forall k | 0 <= k < |b| ensures b[k] == r[k] {
      if k > j {
        assert r[k] == pre[j..][k - j - 1];
      }
    }
  }

  /**
   * One step of the in-place sort: with `a[..i]` already sorted, moves `a[i]`
   * left past the older-dated records just before it.
   */
  method InsertAt(a: array<Expense>, i: int)
    requires 0 <= i < a.Length
    modifies a
    ensures a[..i + 1] == InsertByDate(old(a[..i]), old(a[i]))
    ensures a[i + 1..] == old(a[i + 1..])
  {
    ghost var pre := a[..i];
    var x := a[i];
    var j := i;
    while j > 0 && a[j - 1].date < x.date
      invariant 0 <= j <= i
      invariant forall k :: 0 <= k < j ==> a[k] == pre[k]
      invariant forall k :: j < k <= i ==> a[k] == pre[k - 1]
      invariant forall k :: i < k < a.Length ==> a[k] == old(a[k])
      invariant forall k :: j <= k < i ==> pre[k].date < x.date
    {
      a[j] := a[j - 1];
      j := j - 1;
    }
    a[j] := x;
    assert a[..i + 1] == InsertByDate(pre, x) by {
      InsertByDatePosition(pre, j, x);
      Splice(a[..i + 1], pre, j, x);
    }
  }

  /** One step of the in-place sort, on the array's contents before and after `InsertAt`. */
  lemma SortStep(orig: seq<Expense>, i: int, before: seq<Expense>, after: seq<Expense>)
    requires 0 <= i < |orig|
    requires before == SortByDate(orig[..i]) + orig[i..]
    requires |before| == |after| == |orig|
    requires after[..i + 1] == InsertByDate(before[..i], before[i])
    requires after[i + 1..] == before[i + 1..]
    ensures after == SortByDate(orig[..i + 1]) + orig[i + 1..]
  {
    var sorted := SortByDate(orig[..i]);
    assert |sorted| == i by {
      SortByDateCorrect(orig[..i]);
    }
    assert before[..i] == sorted;
    assert before[i] == orig[i];
    assert before[i + 1..] == orig[i + 1..];
    assert orig[..i + 1][..i] == orig[..i];
    assert after == after[..i + 1] + after[i + 1..];
  }

  /**
   * `expenses.sort((a, b) => b.date - a.date)`: sorts the array in place,
   * growing a sorted prefix one element at a time.
   */
  method SortByDateInPlace(a: array<Expense>)
    modifies a
    ensures a[..] == SortByDate(old(a[..]))
  {
    ghost var orig := a[..];
    var i := 0;
    while i < a.Length
      invariant 0 <= i <= a.Length
      invariant a[..] == SortByDate(orig[..i]) + orig[i..]
    {
      ghost var before := a[..];
      InsertAt(a, i);
      SortStep(orig, i, before, a[..]);
      i := i + 1;
    }
    assert orig[..a.Length] == orig;
  }
}
