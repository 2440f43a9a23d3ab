/** The two levels of aggregation together compute what one level over the transactions would. */
module TransactionLaws {
  import opened Prelude
  import opened Transactions

  // ----- directly over the transactions -----

  function SumOf(txs: seq<Tx>, db: string, q: Quantity): int {
    if txs == [] then 0 else SumOf(txs[1..], db, q) + if txs[0].database == Some(db) then Amount(txs[0], q) else 0
  }

  function CountOf(txs: seq<Tx>, db: string, status: Option<string>): nat {
    if txs == [] then 0 else CountOf(txs[1..], db, status) + if KeyOf(txs[0]) == Key(Some(db), status) then 1 else 0
  }

  /** `x` is the longest known elapsed time in a database, or 0 if none is longer than that. */
  ghost predicate IsLongest(x: int, txs: seq<Tx>, db: string) {
    && x >= 0
    && (forall t :: t in txs && t.database == Some(db) && t.elapsed.Some? ==> t.elapsed.value <= x)
    && (x == 0 || exists t :: t in txs && t.database == Some(db) && t.elapsed == Some(x))
  }

  // ----- groups -----

  lemma {:induction false} SumSplit(txs: seq<Tx>, a: set<Key>, b: set<Key>, q: Quantity)
    requires a !! b
    ensures Sum(txs, a + b, q) == Sum(txs, a, q) + Sum(txs, b, q)
  {
    if txs != [] {
      SumSplit(txs[1..], a, b, q);
    }
  }

  lemma {:induction false} SumIsSumOf(txs: seq<Tx>, keys: set<Key>, db: string, q: Quantity)
    requires forall t :: t in txs ==> (KeyOf(t) in keys <==> t.database == Some(db))
    ensures Sum(txs, keys, q) == SumOf(txs, db, q)
  {
    if txs != [] {
      assert txs[0] in txs;
      SumIsSumOf(txs[1..], keys, db, q);
    }
  }

  lemma {:induction false} SumOfNone(txs: seq<Tx>, q: Quantity)
    ensures Sum(txs, {}, q) == 0
  {
    if txs != [] {
      SumOfNone(txs[1..], q);
    }
  }

  lemma {:induction false} CountIsCountOf(txs: seq<Tx>, db: string, status: Option<string>)
    ensures Count(txs, {Key(Some(db), status)}) == CountOf(txs, db, status)
  {
    if txs != [] {
      CountIsCountOf(txs[1..], db, status);
    }
  }

  lemma {:induction false} MaxIs(txs: seq<Tx>, keys: set<Key>)
    ensures forall t :: t in txs && KeyOf(t) in keys && t.elapsed.Some? ==>
              Max(txs, keys).Some? && t.elapsed.value <= Max(txs, keys).value
    ensures Max(txs, keys).Some? ==> exists t :: t in txs && KeyOf(t) in keys && t.elapsed == Max(txs, keys)
  {
    if txs != [] {
      var rest := txs[1..];
      MaxIs(rest, keys);
      assert forall t :: t in txs ==> t == txs[0] || t in rest;
      if Max(rest, keys).Some? {
        var t :| t in rest && KeyOf(t) in keys && t.elapsed == Max(rest, keys);
        assert t in txs;
      }
      assert txs[0] in txs;
    }
  }

  // ----- the fold -----

  /** The groups of a database among the first `n` rows. */
  function KeysTo(rows: seq<Row>, n: nat, db: string): set<Key>
    requires n <= |rows|
  {
    if n == 0 then {}
    else KeysTo(rows, n - 1, db) + if AsString(rows[n - 1].key.database) == db then {rows[n - 1].key} else {}
  }

  lemma {:induction false} KeysToAre(rows: seq<Row>, n: nat, db: string, k: Key)
    requires n <= |rows|
    ensures k in KeysTo(rows, n, db) <==> exists i :: 0 <= i < n && rows[i].key == k && AsString(k.database) == db
  {
    if n > 0 {
      KeysToAre(rows, n - 1, db, k);
    }
  }

  lemma PlusOf(a: Totals, b: Totals, q: Quantity)
    ensures Plus(a, b).Of(q) == a.Of(q) + b.Of(q)
  {
  }

  lemma GroupRowOf(txs: seq<Tx>, k: Key, q: Quantity)
    ensures GroupRow(txs, k).totals.Of(q) == Sum(txs, {k}, q)
  {
  }

  lemma {:induction false} FoldSums(rows: seq<Row>, txs: seq<Tx>, n: nat, db: string, q: Quantity)
    requires Answers(rows, txs) && n <= |rows|
    ensures Folded(rows, n, db).totals.Of(q) == Sum(txs, KeysTo(rows, n, db), q)
  {
    if n == 0 {
      SumOfNone(txs, q);
    } else {
      FoldSums(rows, txs, n - 1, db, q);
      var r, before := rows[n - 1], KeysTo(rows, n - 1, db);
      if AsString(r.key.database) == db {
        KeysToAre(rows, n - 1, db, r.key);
        SumSplit(txs, before, {r.key}, q);
        PlusOf(Folded(rows, n - 1, db).totals, r.totals, q);
        GroupRowOf(txs, r.key, q);
      } else {
        assert KeysTo(rows, n, db) == before;
      }
    }
  }

  ghost predicate LongestTo(x: int, rows: seq<Row>, n: nat, db: string)
    requires n <= |rows|
  {
    && x >= 0
    && (forall i :: 0 <= i < n && AsString(rows[i].key.database) == db ==> Coalesce(rows[i].longest) <= x)
    && (x == 0 || exists i :: 0 <= i < n && AsString(rows[i].key.database) == db && rows[i].longest == Some(x))
  }

  lemma {:induction false} FoldLongest(rows: seq<Row>, n: nat, db: string)
    requires n <= |rows|
    ensures LongestTo(Folded(rows, n, db).longest, rows, n, db)
  {
    if n > 0 {
      FoldLongest(rows, n - 1, db);
    }
  }

  lemma CoversDatabase(rows: seq<Row>, txs: seq<Tx>, db: string)
    requires Answers(rows, txs) && db != ""
    ensures forall t :: t in txs ==> (KeyOf(t) in KeysTo(rows, |rows|, db) <==> t.database == Some(db))
  {
    forall t | t in txs
      ensures KeyOf(t) in KeysTo(rows, |rows|, db) <==> t.database == Some(db)
    {
      KeysToAre(rows, |rows|, db, KeyOf(t));
    }
  }

  /**
   However the groups are ordered, the fold gives for each named database the sums of its
   transactions' quantities, nulls counting as zero, and their longest elapsed time.
   */
  lemma {:induction false} TwoLevelsAreOne(rows: seq<Row>, txs: seq<Tx>, db: string, q: Quantity)
    requires Answers(rows, txs) && db != ""
    ensures Folded(rows, |rows|, db).totals.Of(q) == SumOf(txs, db, q)
    ensures IsLongest(Folded(rows, |rows|, db).longest, txs, db)
  {
    FoldSums(rows, txs, |rows|, db, q);
    CoversDatabase(rows, txs, db);
    SumIsSumOf(txs, KeysTo(rows, |rows|, db), db, q);
    LongestOverall(rows, txs, db);
  }

  lemma LongestOverall(rows: seq<Row>, txs: seq<Tx>, db: string)
    requires Answers(rows, txs) && db != ""
    ensures IsLongest(Folded(rows, |rows|, db).longest, txs, db)
  {
    var x := Folded(rows, |rows|, db).longest;
    FoldLongest(rows, |rows|, db);
    forall t | t in txs && t.database == Some(db) && t.elapsed.Some?
      ensures t.elapsed.value <= x
    {
      var i :| 0 <= i < |rows| && rows[i].key == KeyOf(t);
      MaxIs(txs, {rows[i].key});
      assert Coalesce(rows[i].longest) <= x;
    }
    if x != 0 {
      var i :| 0 <= i < |rows| && AsString(rows[i].key.database) == db && rows[i].longest == Some(x);
      MaxIs(txs, {rows[i].key});
    }
  }

  /** A database has gauges exactly when it is named and has a transaction. */
  lemma {:induction false} GaugedIff(rows: seq<Row>, txs: seq<Tx>, db: string)
    requires Answers(rows, txs) && db != ""
    ensures Mentioned(rows, |rows|, db) <==> exists t :: t in txs && t.database == Some(db)
  {
    if Mentioned(rows, |rows|, db) {
      var i :| 0 <= i < |rows| && AsString(rows[i].key.database) == db;
      CountPositive(txs, rows[i].key);
    }
    if t :| t in txs && t.database == Some(db) {
      var i :| 0 <= i < |rows| && rows[i].key == KeyOf(t);
    }
  }

  lemma {:induction false} CountPositive(txs: seq<Tx>, k: Key)
    ensures Count(txs, {k}) > 0 <==> exists t :: t in txs && KeyOf(t) == k
  {
    if txs != [] {
      CountPositive(txs[1..], k);
      assert forall t :: t in txs <==> t == txs[0] || t in txs[1..];
    }
  }

  // ----- the number of active transactions -----

  lemma {:induction false} ShownIsLast(rows: seq<Row>, n: nat, db: string, status: string)
    requires n <= |rows|
    ensures Shown(rows, n, db, status).None? <==> forall i :: 0 <= i < n ==> !Labelled(rows[i], db, status)
    ensures Shown(rows, n, db, status).Some? ==>
              exists i :: 0 <= i < n && Labelled(rows[i], db, status)
                          && Shown(rows, n, db, status) == Some(rows[i].active)
  {
    if n > 0 && !Labelled(rows[n - 1], db, status) {
      ShownIsLast(rows, n - 1, db, status);
    }
  }

  /** Every group that has transactions has a row. */
  lemma RowOf(rows: seq<Row>, txs: seq<Tx>, k: Key)
    requires Answers(rows, txs)
    ensures Count(txs, {k}) > 0 ==>
              exists i :: 0 <= i < |rows| && rows[i].key == k
                          && Labelled(rows[i], AsString(k.database), AsString(k.status))
  {
    CountPositive(txs, k);
    if Count(txs, {k}) > 0 {
      var t :| t in txs && KeyOf(t) == k;
      var i :| 0 <= i < |rows| && rows[i].key == KeyOf(t);
      assert Labelled(rows[i], AsString(k.database), AsString(k.status));
    }
  }

  lemma ShownIsACount(rows: seq<Row>, txs: seq<Tx>, db: string, status: string)
    requires Answers(rows, txs) && db != "" && Shown(rows, |rows|, db, status).Some?
    ensures exists s :: AsString(s) == status && Shown(rows, |rows|, db, status) == Some(Count(txs, {Key(Some(db), s)}))
                        && Count(txs, {Key(Some(db), s)}) > 0
  {
    ShownIsLast(rows, |rows|, db, status);
    var i :| 0 <= i < |rows| && Labelled(rows[i], db, status)
             && Shown(rows, |rows|, db, status) == Some(rows[i].active);
    assert rows[i].key == Key(Some(db), rows[i].key.status);
  }

  /** A named status shows how many transactions have it. */
  lemma {:induction false} ActiveIsCount(rows: seq<Row>, txs: seq<Tx>, db: string, status: string)
    requires Answers(rows, txs) && db != "" && status != ""
    ensures Coalesce(Shown(rows, |rows|, db, status)) == CountOf(txs, db, Some(status))
  {
    CountIsCountOf(txs, db, Some(status));
    if Shown(rows, |rows|, db, status).Some? {
      ShownIsACount(rows, txs, db, status);
    } else {
      ShownIsLast(rows, |rows|, db, status);
      RowOf(rows, txs, Key(Some(db), Some(status)));
    }
  }

  /**
   A null status and an empty one share their label, and the later row replaces the earlier:
   the gauge counts both exactly when one of them has no transactions.
   */
  lemma {:induction false} NamelessStatusIff(rows: seq<Row>, txs: seq<Tx>, db: string)
    requires Answers(rows, txs) && db != ""
    ensures Coalesce(Shown(rows, |rows|, db, "")) == CountOf(txs, db, None) + CountOf(txs, db, Some(""))
       <==> CountOf(txs, db, None) == 0 || CountOf(txs, db, Some("")) == 0
  {
    CountIsCountOf(txs, db, None);
    CountIsCountOf(txs, db, Some(""));
    if Shown(rows, |rows|, db, "").Some? {
      ShownIsACount(rows, txs, db, "");
    } else {
      ShownIsLast(rows, |rows|, db, "");
      RowOf(rows, txs, Key(Some(db), None));
      RowOf(rows, txs, Key(Some(db), Some("")));
    }
  }

  /** Which column each quantity is, on both levels. */
  lemma {:induction false} Columns(t: Tx, a: Totals)
    ensures Amount(t, Cpu) == (if t.cpu.Some? then t.cpu.value else 0) && a.Of(Cpu) == a.cpu
    ensures Amount(t, Wait) == (if t.wait.Some? then t.wait.value else 0) && a.Of(Wait) == a.wait
    ensures Amount(t, Idle) == (if t.idle.Some? then t.idle.value else 0) && a.Of(Idle) == a.idle
    ensures Amount(t, Direct) == (if t.direct.Some? then t.direct.value else 0) && a.Of(Direct) == a.direct
    ensures Amount(t, Heap) == (if t.heap.Some? then t.heap.value else 0) && a.Of(Heap) == a.heap
    ensures Amount(t, PageHits) == (if t.pageHits.Some? then t.pageHits.value else 0) && a.Of(PageHits) == a.pageHits
    ensures Amount(t, PageFaults) == (if t.pageFaults.Some? then t.pageFaults.value else 0)
    ensures a.Of(PageFaults) == a.pageFaults
    ensures Amount(t, Locks) == (if t.locks.Some? then t.locks.value else 0) && a.Of(Locks) == a.locks
  {
  }
}
