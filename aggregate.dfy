/**
 * The list computations of the expense charts: the date-window filters, the
 * `reduce` totals, and the grouping of amounts into a dictionary keyed by
 * category or weekday label. All list functions consume the list from its
 * end, the way a left-to-right `filter`, `reduce` or `forEach` has seen a
 * prefix of it at each step.
 */
module Aggregation {
  import opened ExpenseModel
  import opened Calendar

  /** `expenses.filter(e => new Date(e.date) >= start)`. */
  function Since(xs: seq<Expense>, start: int): seq<Expense> {
    if xs == [] then []
    else Since(xs[..|xs| - 1], start) + (if xs[|xs| - 1].date >= start then [xs[|xs| - 1]] else [])
  }

  /** `expenses.reduce((sum, e) => sum + e.amount, 0)`. */
  function Total(xs: seq<Expense>): real {
    if xs == [] then 0.0 else Total(xs[..|xs| - 1]) + xs[|xs| - 1].amount
  }

  /**
   * The keys of the dictionary `forEach` builds, in insertion order: each
   * distinct key of the list once, where it first occurs.
   */
  function KeysOf(xs: seq<Expense>, key: Expense -> string): seq<string> {
    if xs == [] then []
    else
      var ks := KeysOf(xs[..|xs| - 1], key);
      if key(xs[|xs| - 1]) in ks then ks else ks + [key(xs[|xs| - 1])]
  }

  /** The sum of the amounts of the records whose key is `k`. */
  function SumFor(xs: seq<Expense>, key: Expense -> string, k: string): real {
    if xs == [] then 0.0
    else SumFor(xs[..|xs| - 1], key, k) + (if key(xs[|xs| - 1]) == k then xs[|xs| - 1].amount else 0.0)
  }

  /** The per-key sums of `xs` added up over the keys `ks`. */
  function SumOver(ks: seq<string>, xs: seq<Expense>, key: Expense -> string): real {
    if ks == [] then 0.0 else SumOver(ks[..|ks| - 1], xs, key) + SumFor(xs, key, ks[|ks| - 1])
  }

  /**
   * `Number(x.toFixed(2))` on an exact decimal: the nearest multiple of 0.01,
   * halves rounded away from zero (`toFixed` rounds the magnitude and keeps
   * the sign).
   */
  function Round2(x: real): real {
    var magnitude := if x < 0.0 then -x else x;
    var cents := (magnitude * 100.0 + 0.5).Floor;
    (if x < 0.0 then -cents else cents) as real / 100.0
  }

  /** One entry of a chart's data: a category or weekday label and its rounded total. */
  datatype Entry = Entry(name: string, amount: real)

  /** A record's category, the key of `aggregateByCategory`. */
  function CategoryOf(e: Expense): string {
    e.category
  }

  /** A record's short weekday label, the key of `aggregateByDay`. */
  function DayOf(e: Expense): string {
    WeekdayLabel(e.date)
  }

  /** No two keys of the dictionary are equal. */
  predicate Distinct(ks: seq<string>) {
    forall i, j :: 0 <= i < j < |ks| ==> ks[i] != ks[j]
  }

  /** The filter keeps the list's order: filtering a concatenation filters each part. */
  lemma {:induction false} SinceAppend(xs: seq<Expense>, ys: seq<Expense>, start: int)
    ensures Since(xs + ys, start) == Since(xs, start) + Since(ys, start)
    decreases |ys|
  {
    if ys == [] {
      assert xs + ys == xs;
    } else {
      var p := ys[..|ys| - 1];
      assert (xs + ys)[..|xs + ys| - 1] == xs + p;
      SinceAppend(xs, p, start);
    }
  }

  /** The window holds exactly the records dated at or after its start. */
  lemma {:induction false} SinceMembers(xs: seq<Expense>, start: int)
    ensures |Since(xs, start)| <= |xs|
    ensures forall e :: e in Since(xs, start) <==> e in xs && e.date >= start
  {
    if xs != [] {
      var p := xs[..|xs| - 1];
      SinceMembers(p, start);
      assert xs == p + [xs[|xs| - 1]];
    }
  }

  /**
   * A window nested in a wider one: filtering the wider window by the later
   * start gives the narrower window, in the same order.
   */
  lemma {:induction false} SinceNested(xs: seq<Expense>, early: int, late: int)
    requires early <= late
    ensures Since(Since(xs, early), late) == Since(xs, late)
  {
    if xs != [] {
      var p, e := xs[..|xs| - 1], xs[|xs| - 1];
      SinceNested(p, early, late);
      SinceAppend(Since(p, early), if e.date >= early then [e] else [], late);
    }
  }

  lemma {:induction false} TotalAppend(xs: seq<Expense>, ys: seq<Expense>)
    ensures Total(xs + ys) == Total(xs) + Total(ys)
    decreases |ys|
  {
    if ys == [] {
      assert xs + ys == xs;
    } else {
      var p := ys[..|ys| - 1];
      assert (xs + ys)[..|xs + ys| - 1] == xs + p;
      TotalAppend(xs, p);
    }
  }

  /** No key is added to the dictionary twice. */
  lemma {:induction false} KeysOfDistinct(xs: seq<Expense>, key: Expense -> string)
    ensures Distinct(KeysOf(xs, key))
  {
    if xs != [] {
      KeysOfDistinct(xs[..|xs| - 1], key);
    }
  }

  /** Every record's key is in the dictionary. */
  lemma {:induction false} KeysOfCovers(xs: seq<Expense>, key: Expense -> string)
    ensures forall i :: 0 <= i < |xs| ==> key(xs[i]) in KeysOf(xs, key)
  {
    if xs != [] {
      var p := xs[..|xs| - 1];
      KeysOfCovers(p, key);
      forall i | 0 <= i < |xs| ensures key(xs[i]) in KeysOf(xs, key) {
        if i < |p| {
          assert xs[i] == p[i];
        }
      }
    }
  }

  /** Every key in the dictionary is some record's key. */
  lemma {:induction false} KeysOfFromRecords(xs: seq<Expense>, key: Expense -> string)
    ensures forall k :: k in KeysOf(xs, key) ==> exists i :: 0 <= i < |xs| && key(xs[i]) == k
  {
    if xs != [] {
      var p := xs[..|xs| - 1];
      KeysOfFromRecords(p, key);
      forall k | k in KeysOf(xs, key) ensures exists i :: 0 <= i < |xs| && key(xs[i]) == k {
        if k in KeysOf(p, key) {
          var i :| 0 <= i < |p| && key(p[i]) == k;
          assert xs[i] == p[i];
        } else {
          assert key(xs[|xs| - 1]) == k;
        }
      }
    }
  }

  /**
   * The dictionary has exactly one key per distinct key of the list: no key
   * twice, every record's key present, no key that no record has, and no
   * keys at all for an empty list.
   */
  lemma KeysOfExact(xs: seq<Expense>, key: Expense -> string)
    ensures Distinct(KeysOf(xs, key))
    ensures forall i :: 0 <= i < |xs| ==> key(xs[i]) in KeysOf(xs, key)
    ensures forall k :: k in KeysOf(xs, key) ==> exists i :: 0 <= i < |xs| && key(xs[i]) == k
    ensures KeysOf(xs, key) == [] <==> xs == []
  {
    KeysOfDistinct(xs, key);
    KeysOfCovers(xs, key);
    KeysOfFromRecords(xs, key);
    if xs != [] {
      assert key(xs[0]) in KeysOf(xs, key);
    }
  }

  /** A key no record carries has sum 0. */
  lemma {:induction false} SumForAbsent(xs: seq<Expense>, key: Expense -> string, k: string)
    requires k !in KeysOf(xs, key)
    ensures SumFor(xs, key, k) == 0.0
  {
    if xs != [] {
      SumForAbsent(xs[..|xs| - 1], key, k);
    }
  }

  /** Adding one record to the list adds its amount to the sums over distinct keys iff its key is among them. */
  lemma {:induction false} SumOverSnoc(ks: seq<string>, xs: seq<Expense>, e: Expense, key: Expense -> string)
    requires Distinct(ks)
    ensures SumOver(ks, xs + [e], key) == SumOver(ks, xs, key) + (if key(e) in ks then e.amount else 0.0)
  {
    if ks != [] {
      var q := ks[..|ks| - 1];
      assert Distinct(q);
      SumOverSnoc(q, xs, e, key);
      assert (xs + [e])[..|xs + [e]| - 1] == xs;
      assert key(e) in ks <==> key(e) in q || key(e) == ks[|ks| - 1];
    }
  }

  /**
   * Grouping loses nothing: the unrounded per-key totals add up to the total
   * of the list.
   */
  lemma {:induction false} GroupTotalsConserved(xs: seq<Expense>, key: Expense -> string)
    ensures SumOver(KeysOf(xs, key), xs, key) == Total(xs)
  {
    if xs != [] {
      var p, e := xs[..|xs| - 1], xs[|xs| - 1];
      var ks := KeysOf(p, key);
      assert xs == p + [e];
      assert Total(xs) == Total(p) + e.amount;
      GroupTotalsConserved(p, key);
      assert Distinct(ks) by {
        KeysOfExact(p, key);
      }
      SumOverSnoc(ks, p, e, key);
      if key(e) in ks {
        assert KeysOf(xs, key) == ks;
      } else {
        var k := key(e);
        assert KeysOf(xs, key) == ks + [k];
        assert (ks + [k])[..|ks|] == ks;
        assert SumOver(ks + [k], xs, key) == SumOver(ks, xs, key) + SumFor(xs, key, k);
        SumForAbsent(p, key, k);
        assert SumFor(xs, key, k) == SumFor(p, key, k) + e.amount;
      }
    }
  }

  /** Absolute value of a real. */
  function Abs(r: real): real {
    if r < 0.0 then -r else r
  }

  /** The amount of `n` whole cents. */
  function Cents(n: int): real {
    n as real / 100.0
  }

  /**
   * `toFixed(2)` gives a whole number of cents, and the nearest one: no
   * amount of cents is closer to `x`. So it moves a value by at most half a
   * cent.
   */
  lemma Round2IsNearest(x: real)
    ensures (Round2(x) * 100.0).Floor as real == Round2(x) * 100.0
    ensures forall n: int :: Abs(Round2(x) - x) <= Abs(Cents(n) - x)
    ensures -0.005 <= Round2(x) - x <= 0.005
  {
    forall n: int ensures Abs(Round2(x) - x) <= Abs(Cents(n) - x) {
      Round2NearerThan(x, n);
    }
  }

  /** `Round2(x)` is at least as close to `x` as `n` cents are. */
  lemma Round2NearerThan(x: real, n: int)
    ensures Abs(Round2(x) - x) <= Abs(Cents(n) - x)
  {
    var magnitude := if x < 0.0 then -x else x;
    var m := (magnitude * 100.0 + 0.5).Floor;
    var c := if x < 0.0 then -m else m;
    var y := x * 100.0;
    assert Round2(x) == c as real / 100.0;
    // The rounded cents are within half a cent of x: |c - y| <= 1/2.
    assert -0.5 <= c as real - y <= 0.5;
    // Any other whole number of cents is at least one away from c, hence at least 1/2 from y.
    if n != c {
      assert n as real - y >= 0.5 || n as real - y <= -0.5;
    }
    assert Abs(c as real - y) <= Abs(n as real - y);
    assert Abs(Round2(x) - x) == Abs(c as real - y) / 100.0;
    assert Abs(Cents(n) - x) == Abs(n as real - y) / 100.0;
  }

  /** A value that already has at most two decimals comes back unchanged (so 0.1 + 0.2 shows as 0.3). */
  lemma Round2OfCents(n: int)
    ensures Round2(n as real / 100.0) == n as real / 100.0
  {
    var x := n as real / 100.0;
    var m := if n < 0 then -n else n;
    assert (if x < 0.0 then -x else x) * 100.0 + 0.5 == m as real + 0.5;
    assert (m as real + 0.5).Floor == m;
  }

  /** The chart entries for the keys `ks`: each key with its rounded sum, in the order of `ks`. */
  function GroupedOver(ks: seq<string>, xs: seq<Expense>, key: Expense -> string): seq<Entry> {
    if ks == [] then []
    else GroupedOver(ks[..|ks| - 1], xs, key) + [Entry(ks[|ks| - 1], Round2(SumFor(xs, key, ks[|ks| - 1])))]
  }

  /** What `aggregateByCategory` (key `CategoryOf`) or `aggregateByDay` (key `DayOf`) returns for `xs`. */
  function Grouped(xs: seq<Expense>, key: Expense -> string): seq<Entry> {
    GroupedOver(KeysOf(xs, key), xs, key)
  }

  /** The amounts of chart entries added up. */
  function EntriesTotal(es: seq<Entry>): real {
    if es == [] then 0.0 else EntriesTotal(es[..|es| - 1]) + es[|es| - 1].amount
  }

  lemma {:induction false} GroupedOverEntries(ks: seq<string>, xs: seq<Expense>, key: Expense -> string)
    ensures |GroupedOver(ks, xs, key)| == |ks|
    ensures forall i :: 0 <= i < |ks| ==>
      GroupedOver(ks, xs, key)[i] == Entry(ks[i], Round2(SumFor(xs, key, ks[i])))
  {
    if ks != [] {
      GroupedOverEntries(ks[..|ks| - 1], xs, key);
    }
  }

  /**
   * The chart has one entry per distinct key of the records, in order of
   * first occurrence, each with the rounded sum of that key's amounts; the
   * names are distinct, and there are no entries exactly when there are no
   * records.
   */
  lemma GroupedEntries(xs: seq<Expense>, key: Expense -> string)
    ensures |Grouped(xs, key)| == |KeysOf(xs, key)|
    ensures forall i :: 0 <= i < |Grouped(xs, key)| ==>
      Grouped(xs, key)[i] == Entry(KeysOf(xs, key)[i], Round2(SumFor(xs, key, KeysOf(xs, key)[i])))
    ensures forall i, j :: 0 <= i < j < |Grouped(xs, key)| ==> Grouped(xs, key)[i].name != Grouped(xs, key)[j].name
    ensures Grouped(xs, key) == [] <==> xs == []
  {
    KeysOfExact(xs, key);
    GroupedOverEntries(KeysOf(xs, key), xs, key);
  }

  /** Every record's key names an entry of the chart. */
  lemma GroupedCoversKeys(xs: seq<Expense>, key: Expense -> string)
    ensures forall i :: 0 <= i < |xs| ==>
      exists j :: 0 <= j < |Grouped(xs, key)| && Grouped(xs, key)[j].name == key(xs[i])
  {
    var ks := KeysOf(xs, key);
    KeysOfExact(xs, key);
    GroupedOverEntries(ks, xs, key);
    var g := Grouped(xs, key);
    forall i | 0 <= i < |xs|
      ensures exists j :: 0 <= j < |g| && g[j].name == key(xs[i])
    {
      var j :| 0 <= j < |ks| && ks[j] == key(xs[i]);
      assert g[j].name == key(xs[i]);
    }
  }

  /** Every entry of the chart is named by some record's key. */
  lemma GroupedNamesFromRecords(xs: seq<Expense>, key: Expense -> string)
    ensures forall j :: 0 <= j < |Grouped(xs, key)| ==>
      exists i :: 0 <= i < |xs| && key(xs[i]) == Grouped(xs, key)[j].name
  {
    var ks := KeysOf(xs, key);
    KeysOfExact(xs, key);
    GroupedOverEntries(ks, xs, key);
    var g := Grouped(xs, key);
    forall j | 0 <= j < |g|
      ensures exists i :: 0 <= i < |xs| && key(xs[i]) == g[j].name
    {
      assert ks[j] in ks;
    }
  }

  /** Rounding each entry moves the sum of the entries by at most half a cent per entry. */
  lemma {:induction false} GroupedOverTotalNear(ks: seq<string>, xs: seq<Expense>, key: Expense -> string)
    ensures -0.005 * |ks| as real <= EntriesTotal(GroupedOver(ks, xs, key)) - SumOver(ks, xs, key) <= 0.005 * |ks| as real
  {
    if ks != [] {
      var q := ks[..|ks| - 1];
      GroupedOverTotalNear(q, xs, key);
      Round2IsNearest(SumFor(xs, key, ks[|ks| - 1]));
      var g := GroupedOver(ks, xs, key);
      assert g[..|g| - 1] == GroupedOver(q, xs, key);
    }
  }

  /**
   * The chart entries add up to the list's total up to rounding: within half
   * a cent per entry of the `reduce` total shown on the summary card.
   */
  lemma GroupedTotalNear(xs: seq<Expense>, key: Expense -> string)
    ensures -0.005 * |Grouped(xs, key)| as real <= EntriesTotal(Grouped(xs, key)) - Total(xs)
      <= 0.005 * |Grouped(xs, key)| as real
  {
    GroupTotalsConserved(xs, key);
    GroupedOverTotalNear(KeysOf(xs, key), xs, key);
    GroupedOverEntries(KeysOf(xs, key), xs, key);
  }

  /**
   * `aggregateByCategory` / `aggregateByDay`: accumulates
   * `totals[k] = (totals[k] || 0) + e.amount` over the list in a dictionary
   * that remembers the order its keys were added, then maps its entries to
   * rounded chart entries.
   */
  method AggregateBy(xs: seq<Expense>, key: Expense -> string) returns (entries: seq<Entry>)
    ensures entries == Grouped(xs, key)
  {
    var totals: map<string, real> := map[];
    var order: seq<string> := [];
    var i := 0;
    while i < |xs|
      invariant 0 <= i <= |xs|
      invariant order == KeysOf(xs[..i], key)
      invariant forall k :: k in totals <==> k in order
      invariant forall k :: k in totals ==> totals[k] == SumFor(xs[..i], key, k)
    {
      var e := xs[i];
      var k := key(e);
      assert xs[..i + 1] == xs[..i] + [e];
      if k !in totals {
        SumForAbsent(xs[..i], key, k);
        order := order + [k];
      }
      var prior := if k in totals then totals[k] else 0.0;
      totals := totals[k := prior + e.amount];
      i := i + 1;
    }
    assert xs[..i] == xs;
    entries := [];
    for j := 0 to |order|
      invariant entries == GroupedOver(order[..j], xs, key)
    {
      assert order[..j + 1][..j] == order[..j];
      entries := entries + [Entry(order[j], Round2(totals[order[j]]))];
    }
    assert order[..|order|] == order;
  }

  /** `aggregateByCategory`: the per-category chart of a list. */
  method AggregateByCategory(xs: seq<Expense>) returns (entries: seq<Entry>)
    ensures entries == Grouped(xs, CategoryOf)
  {
    entries := AggregateBy(xs, CategoryOf);
  }

  /** `aggregateByDay`: the per-weekday chart of a list. */
  method AggregateByDay(xs: seq<Expense>) returns (entries: seq<Entry>)
    ensures entries == Grouped(xs, DayOf)
  {
    entries := AggregateBy(xs, DayOf);
  }

  /** Entries with distinct names drawn from `pool` are no more than the pool is large. */
  lemma {:induction false} DistinctWithin(es: seq<Entry>, pool: set<string>)
    requires forall i, j :: 0 <= i < j < |es| ==> es[i].name != es[j].name
    requires forall i :: 0 <= i < |es| ==> es[i].name in pool
    ensures |es| <= |pool|
  {
    if es != [] {
      var last := es[|es| - 1].name;
      DistinctWithin(es[..|es| - 1], pool - {last});
    }
  }

  /** A sequence holds at most as many different names as it is long. */
  lemma {:induction false} NamesIn(s: seq<string>)
    ensures |set name | name in s| <= |s|
  {
    if s != [] {
      var p := s[..|s| - 1];
      NamesIn(p);
      assert (set name | name in s) == (set name | name in p) + {s[|s| - 1]};
    }
  }

  /** The per-weekday chart is named by the seven short labels only. */
  lemma DayChartNames(xs: seq<Expense>)
    ensures forall j :: 0 <= j < |Grouped(xs, DayOf)| ==> Grouped(xs, DayOf)[j].name in WeekdayLabels
  {
    var g := Grouped(xs, DayOf);
    GroupedNamesFromRecords(xs, DayOf);
    forall j | 0 <= j < |g| ensures g[j].name in WeekdayLabels {
      var i :| 0 <= i < |xs| && DayOf(xs[i]) == g[j].name;
    }
  }

  /** So the per-weekday chart has at most seven entries, however many weeks the records span. */
  lemma DayChartAtMostSeven(xs: seq<Expense>)
    ensures |Grouped(xs, DayOf)| <= 7
  {
    var g := Grouped(xs, DayOf);
    var pool := set name | name in WeekdayLabels;
    assert forall i, j :: 0 <= i < j < |g| ==> g[i].name != g[j].name by {
      GroupedEntries(xs, DayOf);
    }
    assert forall i :: 0 <= i < |g| ==> g[i].name in pool by {
      DayChartNames(xs);
    }
    DistinctWithin(g, pool);
    NamesIn(WeekdayLabels);
  }
}
