/** The table `kicc_daily_totals` and the additive UPSERT on it. */
module DailyTotals {
  import opened Text

  /** The conflict key; `kicc_port` is always 0. */
  datatype Key = Key(tsUnix: int, bid: string, mid: string, psn: string)

  datatype Buckets = Buckets(
    cardAmount: int, cardCount: int,
    cashAmount: int, cashCount: int,
    cancelAmount: int, cancelCount: int,
    otherAmount: int, otherCount: int)

  datatype DailyRow = DailyRow(key: Key, sums: Buckets)

  type Totals = map<Key, Buckets>

  const ZERO := Buckets(0, 0, 0, 0, 0, 0, 0, 0)

  function Plus(a: Buckets, b: Buckets): Buckets {
    Buckets(
      a.cardAmount + b.cardAmount, a.cardCount + b.cardCount,
      a.cashAmount + b.cashAmount, a.cashCount + b.cashCount,
      a.cancelAmount + b.cancelAmount, a.cancelCount + b.cancelCount,
      a.otherAmount + b.otherAmount, a.otherCount + b.otherCount)
  }

  function Get(t: Totals, k: Key): Buckets {
    if k in t then t[k] else ZERO
  }

  // ----- adding tables -----

  function Merge(a: Totals, b: Totals): Totals {
    map k | k in a.Keys + b.Keys :: Plus(Get(a, k), Get(b, k))
  }

  lemma MergeAssociative(a: Totals, b: Totals, c: Totals)
    ensures Merge(Merge(a, b), c) == Merge(a, Merge(b, c))
  {
    var left, right := Merge(Merge(a, b), c), Merge(a, Merge(b, c));
    forall k | k in left
      ensures k in right && left[k] == right[k]
    {
      GetMerge(a, b, k);
      GetMerge(b, c, k);
      PlusAssociative(Get(a, k), Get(b, k), Get(c, k));
    }
    assert left.Keys == right.Keys;
  }

  lemma GetMerge(a: Totals, b: Totals, k: Key)
    ensures Get(Merge(a, b), k) == Plus(Get(a, k), Get(b, k))
  {
  }

  lemma PlusAssociative(a: Buckets, b: Buckets, c: Buckets)
    ensures Plus(Plus(a, b), c) == Plus(a, Plus(b, c))
  {
  }

  lemma PlusSwap(a: Buckets, b: Buckets, c: Buckets)
    ensures Plus(a, Plus(b, c)) == Plus(b, Plus(a, c))
  {
  }

  lemma MergeEmpty(a: Totals)
    ensures Merge(a, map[]) == a && Merge(map[], a) == a
  {
  }

  /** The sums of a list of rows, key by key. */
  function TotalOf(rows: seq<DailyRow>): Totals {
    if rows == [] then map[]
    else
      var last := rows[|rows| - 1];
      Merge(TotalOf(rows[..|rows| - 1]), map[last.key := last.sums])
  }

  lemma {:induction false} TotalOfConcat(a: seq<DailyRow>, b: seq<DailyRow>)
    ensures TotalOf(a + b) == Merge(TotalOf(a), TotalOf(b))
  {
    if b == [] {
      assert a + b == a;
      MergeEmpty(TotalOf(a));
    } else {
      var last := b[|b| - 1];
      assert (a + b)[..|a + b| - 1] == a + b[..|b| - 1];
      TotalOfConcat(a, b[..|b| - 1]);
      MergeAssociative(TotalOf(a), TotalOf(b[..|b| - 1]), map[last.key := last.sums]);
    }
  }

  lemma {:induction false} TotalOfKeys(rows: seq<DailyRow>)
    ensures forall k :: k in TotalOf(rows) <==> exists i :: 0 <= i < |rows| && rows[i].key == k
  {
    if rows == [] {
    } else {
      var init := rows[..|rows| - 1];
      TotalOfKeys(init);
      forall k | k in TotalOf(rows)
        ensures exists i :: 0 <= i < |rows| && rows[i].key == k
      {
        if k in TotalOf(init) {
          var i :| 0 <= i < |init| && init[i].key == k;
          assert rows[i].key == k;
        } else {
          assert rows[|rows| - 1].key == k;
        }
      }
      forall k, i | 0 <= i < |rows| && rows[i].key == k
        ensures k in TotalOf(rows)
      {
        if i < |init| {
          assert init[i].key == k;
        }
      }
    }
  }

  // ----- one INSERT ... ON CONFLICT DO UPDATE statement -----

  ghost predicate DistinctKeys(rows: seq<DailyRow>) {
    forall i, j :: 0 <= i < j < |rows| ==> rows[i].key != rows[j].key
  }

  /** A row is inserted, or added to the row that has its key. */
  function UpsertRow(t: Totals, row: DailyRow): Totals {
    if row.key in t then t[row.key := Plus(t[row.key], row.sums)] else t[row.key := row.sums]
  }

  function KeysOf(rows: seq<DailyRow>): set<Key> {
    set i | 0 <= i < |rows| :: rows[i].key
  }

  /** The statement over a list of rows. It fails if it would affect one row a second time. */
  function Upsert(t: Totals, rows: seq<DailyRow>): Option<Totals> {
    if rows == [] then Some(t)
    else
      var init, last := rows[..|rows| - 1], rows[|rows| - 1];
      match Upsert(t, init)
      case None => None
      case Some(u) => if last.key in KeysOf(init) then None else Some(UpsertRow(u, last))
  }

  lemma UpsertRowAdds(t: Totals, row: DailyRow)
    ensures UpsertRow(t, row) == Merge(t, map[row.key := row.sums])
  {
  }

  /** The statement succeeds exactly when the keys of its rows are distinct, and then it adds the
      sums of the rows to the table. */
  lemma {:induction false} UpsertAdds(t: Totals, rows: seq<DailyRow>)
    ensures Upsert(t, rows).Some? <==> DistinctKeys(rows)
    ensures Upsert(t, rows).Some? ==> Upsert(t, rows).value == Merge(t, TotalOf(rows))
  {
    if rows == [] {
      MergeEmpty(t);
    } else {
      var init, last := rows[..|rows| - 1], rows[|rows| - 1];
      UpsertAdds(t, init);
      assert last.key in KeysOf(init) <==> exists i :: 0 <= i < |init| && init[i].key == last.key;
      assert DistinctKeys(rows) <==> DistinctKeys(init) && last.key !in KeysOf(init) by {
        DistinctSplit(rows);
      }
      if DistinctKeys(rows) {
        UpsertRowAdds(Upsert(t, init).value, last);
        MergeAssociative(t, TotalOf(init), map[last.key := last.sums]);
      }
    }
  }

  lemma DistinctSplit(rows: seq<DailyRow>)
    requires rows != []
    ensures var init, last := rows[..|rows| - 1], rows[|rows| - 1];
            DistinctKeys(rows) <==> DistinctKeys(init) && last.key !in KeysOf(init)
  {
    var init, last := rows[..|rows| - 1], rows[|rows| - 1];
    assert forall i :: 0 <= i < |init| ==> init[i].key == rows[i].key;
    if DistinctKeys(init) && last.key !in KeysOf(init) {
      forall i, j | 0 <= i < j < |rows|
        ensures rows[i].key != rows[j].key
      {
        assert init[i].key == rows[i].key;
        assert init[i].key in KeysOf(init);
      }
    }
  }

  // ----- adding up a whole table -----

  /** The eight sums over all rows of a table. */
  ghost function GrandTotal(t: Totals): Buckets {
    if t == map[] then ZERO
    else
      var k :| k in t;
      Plus(t[k], GrandTotal(t - {k}))
  }

  lemma {:induction false} GrandTotalWithout(t: Totals, k: Key)
    requires k in t
    ensures GrandTotal(t) == Plus(t[k], GrandTotal(t - {k}))
    decreases |t|
  {
    var j :| j in t && GrandTotal(t) == Plus(t[j], GrandTotal(t - {j}));
    if j != k {
      GrandTotalWithout(t - {j}, k);
      GrandTotalWithout(t - {k}, j);
      assert t - {j} - {k} == t - {k} - {j};
      PlusSwap(t[j], t[k], GrandTotal(t - {j} - {k}));
    }
  }

  lemma GrandTotalAdd(t: Totals, k: Key, b: Buckets)
    ensures GrandTotal(Merge(t, map[k := b])) == Plus(GrandTotal(t), b)
  {
    var u := Merge(t, map[k := b]);
    MergeWithout(t, k, b);
    GrandTotalWithout(u, k);
    if k in t {
      GrandTotalWithout(t, k);
    } else {
      assert t - {k} == t;
    }
  }

  lemma MergeWithout(t: Totals, k: Key, b: Buckets)
    ensures Merge(t, map[k := b]) - {k} == t - {k}
    ensures k in Merge(t, map[k := b]) && Merge(t, map[k := b])[k] == Plus(Get(t, k), b)
  {
  }
}
