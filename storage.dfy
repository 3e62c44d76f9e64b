/**
 * Per-user expense persistence (`src/utils/storage.ts`).
 *
 * The browser's `localStorage` is a string-to-string map, held here as the
 * field `items` of an `ExpenseStore`. Each user's expenses live under one key
 * as the JSON text of an array. `getExpenses` reads, parses and sorts;
 * `addExpense` prepends a record and writes the array back; `deleteExpense`
 * filters one id out and writes the result, but under a different key from
 * the one the other two use.
 */
module Storage {
  import opened ExpenseModel
  import opened DateOrder

  /** The key `getExpenses` and `addExpense` use: `expenses_${username}`. */
  function ReadKey(username: string): string {
    "expenses_" + username
  }

  /** The key `deleteExpense` writes: `${username}_expenses`. */
  function DeleteKey(username: string): string {
    username + "_expenses"
  }

  /**
   * The array stored under `key`, as `getExpenses` sees it before sorting:
   * a missing key or an empty string (`if (data)` fails) reads as no records,
   * and so does text that does not parse (the `catch` returns `[]`).
   */
  function StoredUnder(items: map<string, string>, json: Codec, key: string): seq<Expense> {
    if key !in items || items[key] == "" then []
    else
      match json.parse(items[key])
      case None => []
      case Some(xs) => xs
  }

  /** What `getExpenses(username)` returns for the storage contents `items`. */
  function Listed(items: map<string, string>, json: Codec, username: string): seq<Expense> {
    SortByDate(StoredUnder(items, json, ReadKey(username)))
  }

  /** `expenses.filter(expense => expense.id !== expenseId)`. */
  function Without(xs: seq<Expense>, expenseId: string): seq<Expense> {
    if xs == [] then []
    else (if xs[0].id != expenseId then [xs[0]] else []) + Without(xs[1..], expenseId)
  }

  /** The usernames whose two keys coincide: `("expenses_")^k + "expenses"` for some k. */
  predicate SelfKeyed(username: string)
    decreases |username|
  {
    username == "expenses"
    || (|username| > 9 && username[..9] == "expenses_" && SelfKeyed(username[9..]))
  }

  /**
   * The browser's storage together with the JSON codec. `full` stands for a
   * storage area whose quota is used up: every `setItem` then throws.
   */
  class ExpenseStore {
    var items: map<string, string>
    var full: bool
    const json: Codec

    constructor (json: Codec, items: map<string, string>, full: bool)
      ensures this.json == json && this.items == items && this.full == full
    {
      this.json := json;
      this.items := items;
      this.full := full;
    }

    /** `localStorage.setItem(key, value)`: stores the value, or throws when the quota is used up. */
    method SetItem(key: string, value: string) returns (res: Outcome)
      modifies this`items
      ensures res.Pass? <==> !full
      ensures items == if res.Pass? then old(items)[key := value] else old(items)
    {
      if full {
        res := Fail("QuotaExceededError");
      } else {
        items := items[key := value];
        res := Pass;
      }
    }

    /**
     * `getExpenses(username)`: the stored records of the user, newest first,
     * equal dates in stored order; nothing when the key is missing, empty or
     * unparsable. Reads only.
     */
    method GetExpenses(username: string) returns (expenses: seq<Expense>)
      ensures expenses == Listed(items, json, username)
      ensures ReadKey(username) !in items ==> expenses == []
      ensures ReadKey(username) in items && json.parse(items[ReadKey(username)]) == None ==> expenses == []
      ensures multiset(expenses) == multiset(StoredUnder(items, json, ReadKey(username)))
      ensures SortedByDateDesc(expenses)
      ensures forall d :: OnDate(expenses, d) == OnDate(StoredUnder(items, json, ReadKey(username)), d)
    {
      var key := ReadKey(username);
      expenses := [];
      if key in items && items[key] != "" {
        var parsed := json.parse(items[key]);
        if parsed.Some? {
          var xs := parsed.value;
          var a := new Expense[|xs|](i requires 0 <= i < |xs| => xs[i]);
          assert a[..] == xs;
          SortByDateInPlace(a);
          expenses := a[..];
        }
      }
      SortByDateCorrect(StoredUnder(items, json, key));
    }

    /**
     * `addExpense(username, expenseData)`: builds the record from the
     * caller's fields, the assigned `id` and `createdAt`, puts it in front of
     * what `getExpenses` returns and writes that array under the read key.
     * A failing write rejects with the error and leaves storage as it was.
     */
    method AddExpense(username: string, input: ExpenseInput, id: string, createdAt: int)
      returns (res: Outcome)
      modifies this`items
      ensures res.Pass? <==> !full
      ensures res.Pass? ==> items == old(items)[ReadKey(username) :=
        json.stringify([NewExpense(input, id, createdAt)] + Listed(old(items), json, username))]
      ensures res.Fail? ==> items == old(items)
    {
      var key := ReadKey(username);
      var current := GetExpenses(username);
      var added := NewExpense(input, id, createdAt);
      res := SetItem(key, json.stringify([added] + current));
    }

    /**
     * `deleteExpense(username, expenseId)` as written: filters the record out
     * of what `getExpenses` returns but writes the result under
     * `${username}_expenses`. A failing write throws to the caller.
     */
    method DeleteExpense(username: string, expenseId: string) returns (res: Outcome)
      modifies this`items
      ensures res.Pass? <==> !full
      ensures res.Pass? ==> items == old(items)[DeleteKey(username) :=
        json.stringify(Without(Listed(old(items), json, username), expenseId))]
      ensures res.Fail? ==> items == old(items)
    {
      var expenses := GetExpenses(username);
      var updated := Without(expenses, expenseId);
      res := SetItem(DeleteKey(username), json.stringify(updated));
    }

    /** `deleteExpense` writing under the same key `getExpenses` reads. */
    method DeleteExpenseCorrected(username: string, expenseId: string) returns (res: Outcome)
      modifies this`items
      ensures res.Pass? <==> !full
      ensures res.Pass? ==> items == old(items)[ReadKey(username) :=
        json.stringify(Without(Listed(old(items), json, username), expenseId))]
      ensures res.Fail? ==> items == old(items)
    {
      var expenses := GetExpenses(username);
      var updated := Without(expenses, expenseId);
      res := SetItem(ReadKey(username), json.stringify(updated));
    }
  }

  /**
   * The filter keeps exactly the records with another id, each no more often
   * than the list holds it.
   */
  lemma {:induction false} WithoutMembers(xs: seq<Expense>, expenseId: string)
    ensures forall e :: e in Without(xs, expenseId) <==> e in xs && e.id != expenseId
    ensures multiset(Without(xs, expenseId)) <= multiset(xs)
    ensures |Without(xs, expenseId)| <= |xs|
  {
    if xs != [] {
      WithoutMembers(xs[1..], expenseId);
      assert xs == [xs[0]] + xs[1..];
      assert multiset(xs) == multiset{xs[0]} + multiset(xs[1..]);
    }
  }

  /** With no record carrying the id, the filter returns the list unchanged. */
  lemma {:induction false} WithoutAbsentId(xs: seq<Expense>, expenseId: string)
    requires forall e | e in xs :: e.id != expenseId
    ensures Without(xs, expenseId) == xs
  {
    if xs != [] {
      assert xs[0] in xs;
      WithoutAbsentId(xs[1..], expenseId);
      assert xs == [xs[0]] + xs[1..];
    }
  }

  /** A record not older than any record of a newest-first list can go in front of it. */
  lemma SortedCons(x: Expense, rest: seq<Expense>)
    requires SortedByDateDesc(rest)
    requires forall e | e in rest :: x.date >= e.date
    ensures SortedByDateDesc([x] + rest)
  {
    var r := [x] + rest;
    forall i, j | 0 <= i < j < |r| ensures r[i].date >= r[j].date {
      assert r[j] == rest[j - 1];
      if i > 0 {
        assert r[i] == rest[i - 1];
      } else {
        assert rest[j - 1] in rest;
      }
    }
  }

  /** Filtering a newest-first list leaves it newest first. */
  lemma {:induction false} WithoutSorted(xs: seq<Expense>, expenseId: string)
    requires SortedByDateDesc(xs)
    ensures SortedByDateDesc(Without(xs, expenseId))
  {
    if xs != [] {
      var tail := xs[1..];
      assert SortedByDateDesc(tail);
      WithoutSorted(tail, expenseId);
      var rest := Without(tail, expenseId);
      if xs[0].id != expenseId {
        assert forall e | e in rest :: xs[0].date >= e.date by {
          WithoutMembers(tail, expenseId);
          forall e | e in rest ensures xs[0].date >= e.date {
            var k :| 0 <= k < |tail| && tail[k] == e;
            assert xs[k + 1] == e;
          }
        }
        SortedCons(xs[0], rest);
      }
    }
  }

  /** Filtering distributes over concatenation: the filter keeps the stored order. */
  lemma {:induction false} WithoutAppend(xs: seq<Expense>, ys: seq<Expense>, expenseId: string)
    ensures Without(xs + ys, expenseId) == Without(xs, expenseId) + Without(ys, expenseId)
  {
    if xs == [] {
      assert xs + ys == ys;
    } else {
      var head := if xs[0].id != expenseId then [xs[0]] else [];
      assert (xs + ys)[0] == xs[0];
      assert (xs + ys)[1..] == xs[1..] + ys;
      WithoutAppend(xs[1..], ys, expenseId);
      assert Without(xs + ys, expenseId) == head + (Without(xs[1..], expenseId) + Without(ys, expenseId));
      assert Without(xs, expenseId) == head + Without(xs[1..], expenseId);
    }
  }

  /** `expenses_u` equals `u_expenses` exactly for the usernames `("expenses_")^k + "expenses"`. */
  lemma {:induction false} KeysCoincide(username: string)
    ensures ReadKey(username) == DeleteKey(username) <==> SelfKeyed(username)
    decreases |username|
  {
    var p, q := "expenses_", "_expenses";
    var u := username;
    if |u| > 9 {
      var v := u[9..];
      KeysCoincide(v);
      assert u == u[..9] + v;
    }
    if SelfKeyed(u) && u != "expenses" {
      var v := u[9..];
      assert u == p + v;
      assert p + u == p + (v + q) == u + q;
    }
    if p + u == u + q {
      if |u| < 9 {
        assert (p + u)[|u|] == p[|u|];
        assert (u + q)[|u|] == '_';
        assert u == (p + u)[..|u|];
      } else {
        var v := u[9..];
        assert u[..9] == (u + q)[..9] == (p + u)[..9] == p;
        assert u == p + v;
        assert p + (v + q) == p + (p + v);
        assert v + q == (p + (v + q))[9..] == (p + (p + v))[9..] == p + v;
      }
    }
  }

  /**
   * Read-your-writes for `addExpense`: once the prepended array is written
   * back, `getExpenses` of that user returns it sorted, holding the new record
   * and every earlier one; no other user's list changes.
   */
  lemma AddThenGet(items: map<string, string>, json: Codec, username: string, e: Expense)
    requires json.ReadsBack([e] + Listed(items, json, username))
    ensures var after := items[ReadKey(username) := json.stringify([e] + Listed(items, json, username))];
      && Listed(after, json, username) == SortByDate([e] + Listed(items, json, username))
      && multiset(Listed(after, json, username)) == multiset{e} + multiset(Listed(items, json, username))
      && e in Listed(after, json, username)
      && forall other :: other != username ==> Listed(after, json, other) == Listed(items, json, other)
  {
    var written := [e] + Listed(items, json, username);
    var after := items[ReadKey(username) := json.stringify(written)];
    assert StoredUnder(after, json, ReadKey(username)) == written;
    SortByDateCorrect(written);
    assert e in multiset(SortByDate(written));
    OtherUsersUnchanged(items, json, username, json.stringify(written));
  }

  /** A record not older than any stored one is listed first, in front of the earlier list unchanged. */
  lemma AddNewestThenGet(items: map<string, string>, json: Codec, username: string, e: Expense)
    requires json.ReadsBack([e] + Listed(items, json, username))
    requires forall x | x in Listed(items, json, username) :: x.date <= e.date
    ensures var after := items[ReadKey(username) := json.stringify([e] + Listed(items, json, username))];
      Listed(after, json, username) == [e] + Listed(items, json, username)
  {
    var before := Listed(items, json, username);
    var written := [e] + before;
    assert SortByDate(written) == written by {
      assert SortedByDateDesc(written) by {
        SortByDateCorrect(StoredUnder(items, json, ReadKey(username)));
        SortedCons(e, before);
      }
      SortByDateOfSorted(written);
    }
    AddThenGet(items, json, username, e);
  }

  /**
   * The defect of `deleteExpense`: unless the two keys coincide, the write
   * lands beside the read key, so the next `getExpenses` returns the same list.
   */
  lemma DeleteIsInvisible(items: map<string, string>, json: Codec, username: string, expenseId: string)
    requires !SelfKeyed(username)
    ensures var after := items[DeleteKey(username) :=
        json.stringify(Without(Listed(items, json, username), expenseId))];
      && (ReadKey(username) in after <==> ReadKey(username) in items)
      && (ReadKey(username) in items ==> after[ReadKey(username)] == items[ReadKey(username)])
      && Listed(after, json, username) == Listed(items, json, username)
  {
    KeysCoincide(username);
  }

  /** For the usernames whose keys coincide, the delete does take effect. */
  lemma DeleteSelfKeyedThenGet(items: map<string, string>, json: Codec, username: string, expenseId: string)
    requires json.ReadsBack(Without(Listed(items, json, username), expenseId)) && SelfKeyed(username)
    ensures var after := items[DeleteKey(username) :=
        json.stringify(Without(Listed(items, json, username), expenseId))];
      && Listed(after, json, username) == Without(Listed(items, json, username), expenseId)
      && forall e | e in Listed(after, json, username) :: e.id != expenseId
  {
    KeysCoincide(username);
    DeleteCorrectedThenGet(items, json, username, expenseId);
  }

  /**
   * `deleteExpense` writing under the read key: the next `getExpenses`
   * returns the earlier list minus exactly the records with that id, in the
   * same order; no other user's list changes.
   */
  lemma DeleteCorrectedThenGet(items: map<string, string>, json: Codec, username: string, expenseId: string)
    requires json.ReadsBack(Without(Listed(items, json, username), expenseId))
    ensures var after := items[ReadKey(username) :=
        json.stringify(Without(Listed(items, json, username), expenseId))];
      && Listed(after, json, username) == Without(Listed(items, json, username), expenseId)
      && (forall e :: e in Listed(after, json, username) <==> e in Listed(items, json, username) && e.id != expenseId)
      && forall other :: other != username ==> Listed(after, json, other) == Listed(items, json, other)
  {
    var before := Listed(items, json, username);
    var written := Without(before, expenseId);
    var after := items[ReadKey(username) := json.stringify(written)];
    assert Listed(after, json, username) == written by {
      assert SortedByDateDesc(written) by {
        SortByDateCorrect(StoredUnder(items, json, ReadKey(username)));
        WithoutSorted(before, expenseId);
      }
      SortByDateOfSorted(written);
      assert StoredUnder(after, json, ReadKey(username)) == written;
    }
    assert forall e :: e in written <==> e in before && e.id != expenseId by {
      WithoutMembers(before, expenseId);
    }
    OtherUsersUnchanged(items, json, username, json.stringify(written));
  }

  /** A write under one user's read key leaves every other user's list as it was. */
  lemma OtherUsersUnchanged(items: map<string, string>, json: Codec, username: string, value: string)
    ensures forall other :: other != username ==>
      Listed(items[ReadKey(username) := value], json, other) == Listed(items, json, other)
  {
    forall other | other != username
      ensures Listed(items[ReadKey(username) := value], json, other) == Listed(items, json, other)
    {
      assert ReadKey(other)[9..] == other && ReadKey(username)[9..] == username;
    }
  }

  /** With an id no listed record carries, the corrected delete leaves the list as it was. */
  lemma DeleteAbsentIdThenGet(items: map<string, string>, json: Codec, username: string, expenseId: string)
    requires json.ReadsBack(Listed(items, json, username))
    requires forall e | e in Listed(items, json, username) :: e.id != expenseId
    ensures var after := items[ReadKey(username) :=
        json.stringify(Without(Listed(items, json, username), expenseId))];
      Listed(after, json, username) == Listed(items, json, username)
  {
    WithoutAbsentId(Listed(items, json, username), expenseId);
    DeleteCorrectedThenGet(items, json, username, expenseId);
  }

  /**
   * A concrete case of the defect: user "alice" stores one record and deletes
   * it; the record is still in what `getExpenses("alice")` returns.
   */
  lemma DeletedRecordStillListed(json: Codec, e: Expense)
    requires json.ReadsBack([e])
    ensures var items := map[ReadKey("alice") := json.stringify([e])];
      var after := items[DeleteKey("alice") := json.stringify(Without(Listed(items, json, "alice"), e.id))];
      && Listed(items, json, "alice") == [e]
      && e in Listed(after, json, "alice")
  {
    var items := map[ReadKey("alice") := json.stringify([e])];
    assert StoredUnder(items, json, ReadKey("alice")) == [e];
    assert SortByDate([e]) == InsertByDate(SortByDate([]), e);
    assert !SelfKeyed("alice");
    DeleteIsInvisible(items, json, "alice", e.id);
  }

  /**
   * The misplaced write can also hit another user: deleting as
   * "expenses_bob" overwrites the list of user "bob_expenses" with
   * "expenses_bob"'s own filtered list.
   */
  lemma DeleteOverwritesOtherUser(items: map<string, string>, json: Codec, expenseId: string)
    requires json.ReadsBack(Without(Listed(items, json, "expenses_bob"), expenseId))
    ensures var mine := Listed(items, json, "expenses_bob");
      var after := items[DeleteKey("expenses_bob") := json.stringify(Without(mine, expenseId))];
      && DeleteKey("expenses_bob") == ReadKey("bob_expenses")
      && Listed(after, json, "bob_expenses") == Without(mine, expenseId)
  {
    var mine := Listed(items, json, "expenses_bob");
    var written := Without(mine, expenseId);
    assert DeleteKey("expenses_bob") == ReadKey("bob_expenses");
    SortByDateCorrect(StoredUnder(items, json, ReadKey("expenses_bob")));
    WithoutSorted(mine, expenseId);
    SortByDateOfSorted(written);
  }
}
