/**
 Two-level aggregation of running transactions (`transactions.go`): the database groups
 them by (database, status), the exporter folds the groups of each database.
 Durations and counters are exact integers.
 */
module Transactions {
  import opened Prelude

  // ----- the transactions and the grouping query -----

  /** The quantities that are summed. */
  datatype Quantity = Cpu | Wait | Idle | Direct | Heap | PageHits | PageFaults | Locks

  datatype Totals = Totals(
    cpu: int,
    wait: int,
    idle: int,
    direct: int,
    heap: int,
    pageHits: int,
    pageFaults: int,
    locks: int)
  {
    function Of(q: Quantity): int {
      match q
      case Cpu => cpu
      case Wait => wait
      case Idle => idle
      case Direct => direct
      case Heap => heap
      case PageHits => pageHits
      case PageFaults => pageFaults
      case Locks => locks
    }
  }

  const ZERO := Totals(0, 0, 0, 0, 0, 0, 0, 0)

  function Plus(a: Totals, b: Totals): Totals {
    Totals(a.cpu + b.cpu, a.wait + b.wait, a.idle + b.idle, a.direct + b.direct,
           a.heap + b.heap, a.pageHits + b.pageHits, a.pageFaults + b.pageFaults, a.locks + b.locks)
  }

  /** A transaction as the database lists it; anything may be null. */
  datatype Tx = Tx(
    database: Option<string>,
    status: Option<string>,
    elapsed: Option<int>,
    cpu: Option<int>,
    wait: Option<int>,
    idle: Option<int>,
    direct: Option<int>,
    heap: Option<int>,
    pageHits: Option<int>,
    pageFaults: Option<int>,
    locks: Option<int>)

  function Coalesce(x: Option<int>): int {
    if x.Some? then x.value else 0
  }

  /** What a transaction contributes; null counts as zero. */
  function Amount(t: Tx, q: Quantity): int {
    match q
    case Cpu => Coalesce(t.cpu)
    case Wait => Coalesce(t.wait)
    case Idle => Coalesce(t.idle)
    case Direct => Coalesce(t.direct)
    case Heap => Coalesce(t.heap)
    case PageHits => Coalesce(t.pageHits)
    case PageFaults => Coalesce(t.pageFaults)
    case Locks => Coalesce(t.locks)
  }

  datatype Key = Key(database: Option<string>, status: Option<string>)

  function KeyOf(t: Tx): Key {
    Key(t.database, t.status)
  }

  function Count(txs: seq<Tx>, keys: set<Key>): nat {
    if txs == [] then 0 else Count(txs[1..], keys) + if KeyOf(txs[0]) in keys then 1 else 0
  }

  function Sum(txs: seq<Tx>, keys: set<Key>, q: Quantity): int {
    if txs == [] then 0 else Sum(txs[1..], keys, q) + if KeyOf(txs[0]) in keys then Amount(txs[0], q) else 0
  }

  function Larger(a: Option<int>, b: Option<int>): Option<int> {
    if a.None? || (b.Some? && a.value < b.value) then b else a
  }

  /** Cypher's `max`: nulls are passed over, and nothing has no maximum. */
  function Max(txs: seq<Tx>, keys: set<Key>): Option<int> {
    if txs == [] then None
    else Larger(Max(txs[1..], keys), if KeyOf(txs[0]) in keys then txs[0].elapsed else None)
  }

  datatype Row = Row(key: Key, active: nat, longest: Option<int>, totals: Totals)

  function GroupRow(txs: seq<Tx>, k: Key): Row {
    var g := {k};
    Row(k, Count(txs, g), Max(txs, g),
        Totals(Sum(txs, g, Cpu), Sum(txs, g, Wait), Sum(txs, g, Idle), Sum(txs, g, Direct),
               Sum(txs, g, Heap), Sum(txs, g, PageHits), Sum(txs, g, PageFaults), Sum(txs, g, Locks)))
  }

  /** `rows` is an answer to the query: one row for each group that has transactions, in any order. */
  ghost predicate Answers(rows: seq<Row>, txs: seq<Tx>) {
    && (forall i, j :: 0 <= i < j < |rows| ==> rows[i].key != rows[j].key)
    && (forall i :: 0 <= i < |rows| ==> rows[i] == GroupRow(txs, rows[i].key) && rows[i].active > 0)
    && (forall t :: t in txs ==> exists i :: 0 <= i < |rows| && rows[i].key == KeyOf(t))
  }

  // ----- the fold over the rows -----

  /** A null name reads as the empty string. */
  function AsString(s: Option<string>): string {
    if s.Some? then s.value else ""
  }

  datatype Agg = Agg(longest: int, totals: Totals)

  const EMPTY := Agg(0, ZERO)

  function Merge(a: Agg, r: Row): Agg {
    Agg(if Coalesce(r.longest) > a.longest then Coalesce(r.longest) else a.longest, Plus(a.totals, r.totals))
  }

  /** What the first `n` rows add up to for one database. */
  function Folded(rows: seq<Row>, n: nat, db: string): Agg
    requires n <= |rows|
  {
    if n == 0 then EMPTY
    else if AsString(rows[n - 1].key.database) == db then Merge(Folded(rows, n - 1, db), rows[n - 1])
    else Folded(rows, n - 1, db)
  }

  predicate Mentioned(rows: seq<Row>, n: nat, db: string)
    requires n <= |rows|
  {
    exists i :: 0 <= i < n && AsString(rows[i].key.database) == db
  }

  lemma {:induction false} FoldedUnmentioned(rows: seq<Row>, n: nat, db: string)
    requires n <= |rows| && !Mentioned(rows, n, db)
    ensures Folded(rows, n, db) == EMPTY
  {
    if n > 0 {
      assert AsString(rows[n - 1].key.database) != db;
      assert !Mentioned(rows, n - 1, db);
      FoldedUnmentioned(rows, n - 1, db);
    }
  }

  predicate Labelled(r: Row, db: string, status: string) {
    AsString(r.key.database) == db && AsString(r.key.status) == status
  }

  /** What `active` shows after the first `n` rows: the last row with these labels. */
  function Shown(rows: seq<Row>, n: nat, db: string, status: string): Option<nat>
    requires n <= |rows|
  {
    if n == 0 then None
    else if Labelled(rows[n - 1], db, status) then Some(rows[n - 1].active)
    else Shown(rows, n - 1, db, status)
  }

  /** The accumulator of one database, updated in place. */
  class DbAgg {
    var longest: int
    var cpu: int
    var wait: int
    var idle: int
    var direct: int
    var heap: int
    var pageHits: int
    var pageFaults: int
    var locks: int

    function Value(): Agg
      reads this
    {
      Agg(longest, Totals(cpu, wait, idle, direct, heap, pageHits, pageFaults, locks))
    }

    constructor ()
      ensures Value() == EMPTY
    {
      longest, cpu, wait, idle, direct, heap, pageHits, pageFaults, locks := 0, 0, 0, 0, 0, 0, 0, 0, 0;
    }

    method Add(r: Row)
      modifies this
      ensures Value() == Merge(old(Value()), r)
    {
      if Coalesce(r.longest) > longest {
        longest := Coalesce(r.longest);
      }
      cpu := cpu + r.totals.cpu;
      wait := wait + r.totals.wait;
      idle := idle + r.totals.idle;
      direct := direct + r.totals.direct;
      heap := heap + r.totals.heap;
      pageHits := pageHits + r.totals.pageHits;
      pageFaults := pageFaults + r.totals.pageFaults;
      locks := locks + r.totals.locks;
    }
  }

  type ActiveGauge = map<(string, string), nat>

  ghost predicate ShowsActive(active: ActiveGauge, rows: seq<Row>, n: nat)
    requires n <= |rows|
  {
    forall db, status :: (if (db, status) in active then Some(active[(db, status)]) else None)
                         == if db == "" then None else Shown(rows, n, db, status)
  }

  lemma ActiveNext(active: ActiveGauge, rows: seq<Row>, n: nat)
    requires n < |rows| && ShowsActive(active, rows, n)
    ensures var db, status := AsString(rows[n].key.database), AsString(rows[n].key.status);
            ShowsActive(if db == "" then active else active[(db, status) := rows[n].active], rows, n + 1)
  {
  }

  /** `perDB` after the first `n` rows: an object of its own for each database, holding its fold. */
  ghost predicate Accumulated(perDB: map<string, DbAgg>, rows: seq<Row>, n: nat)
    requires n <= |rows|
    reads perDB.Values
  {
    && (forall db :: db in perDB <==> db != "" && Mentioned(rows, n, db))
    && (forall db :: db in perDB ==> perDB[db].Value() == Folded(rows, n, db))
    && (forall a, b :: a in perDB && b in perDB && a != b ==> perDB[a] != perDB[b])
  }

  /** `Accumulated`, but with an accumulator for `db` in any case. */
  ghost predicate ReadyFor(perDB: map<string, DbAgg>, rows: seq<Row>, n: nat, db: string)
    requires n <= |rows|
    reads perDB.Values
  {
    && (forall d :: d in perDB <==> d == db || (d != "" && Mentioned(rows, n, d)))
    && (forall d :: d in perDB ==> perDB[d].Value() == Folded(rows, n, d))
    && (forall a, b :: a in perDB && b in perDB && a != b ==> perDB[a] != perDB[b])
  }

  method FindOrMake(perDB: map<string, DbAgg>, rows: seq<Row>, n: nat, db: string) returns (after: map<string, DbAgg>)
    requires n <= |rows| && Accumulated(perDB, rows, n) && db != ""
    ensures ReadyFor(after, rows, n, db)
    ensures forall d :: d in after ==> after[d] in perDB.Values || fresh(after[d])
  {
    after := perDB;
    if db !in after {
      FoldedUnmentioned(rows, n, db);
      var ag := new DbAgg();
      after := after[db := ag];
    }
  }

  /** One row of a named database: find or make its accumulator and add to it in place. */
  method AddRow(perDB: map<string, DbAgg>, rows: seq<Row>, n: nat) returns (after: map<string, DbAgg>)
    requires n < |rows| && Accumulated(perDB, rows, n) && AsString(rows[n].key.database) != ""
    modifies perDB.Values
    ensures Accumulated(after, rows, n + 1)
    ensures forall db :: db in after ==> after[db] in perDB.Values || fresh(after[db])
  {
    var db := AsString(rows[n].key.database);
    after := FindOrMake(perDB, rows, n, db);
    after[db].Add(rows[n]);
  }

  /** The loop of `Collect`, and the nine gauges labelled by database that it ends with. */
  method Collect(rows: seq<Row>) returns (active: ActiveGauge, gauges: map<string, Agg>)
    ensures ShowsActive(active, rows, |rows|)
    ensures forall db :: db in gauges <==> db != "" && Mentioned(rows, |rows|, db)
    ensures forall db :: db in gauges ==> gauges[db] == Folded(rows, |rows|, db)
  {
    active := map[];
    var perDB: map<string, DbAgg> := map[];
    for n := 0 to |rows|
      invariant ShowsActive(active, rows, n)
      invariant Accumulated(perDB, rows, n)
      invariant forall db :: db in perDB ==> fresh(perDB[db])
    {
      var db, status := AsString(rows[n].key.database), AsString(rows[n].key.status);
      ActiveNext(active, rows, n);
      if db == "" {
        continue;
      }
      active := active[(db, status) := rows[n].active];
      perDB := AddRow(perDB, rows, n);
    }
    gauges := map[];
    var unvisited := perDB.Keys;
    while unvisited != {}
      invariant unvisited <= perDB.Keys && gauges.Keys == perDB.Keys - unvisited
      invariant forall db :: db in gauges ==> gauges[db] == Folded(rows, |rows|, db)
      decreases unvisited
    {
      var db :| db in unvisited;
      unvisited := unvisited - {db};
      gauges := gauges[db := perDB[db].Value()];
    }
  }
}
