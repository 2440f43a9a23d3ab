/** Bounded label sets: the index loop (`indexes.go`) and `emitMapBounded` (`apoc_meta.go`). */
module Cardinality {
  import opened Prelude
  import opened MapSum

  const TRUNCATED := "<truncated>"

  // ----- SHOW INDEXES -----

  /** `lastRead` is absent unless it is a time other than the zero time. */
  datatype Index = Index(
    name: string,
    typ: string,
    entity: string,
    state: string,
    population: int,
    readCount: int,
    lastRead: Option<int>)

  datatype Kind = Kind(state: string, typ: string, entity: string)

  datatype Series = Series(name: string, typ: string)

  datatype Metric = Population | Reads | LastRead

  function KindOf(r: Index): Kind {
    Kind(r.state, r.typ, r.entity)
  }

  function CapOf(setting: int): int {
    if setting == 0 then 500 else setting
  }

  function LabelOf(rows: seq<Index>, cap: int, i: nat): Series
    requires i < |rows|
  {
    Series(if i >= cap then TRUNCATED else rows[i].name, rows[i].typ)
  }

  /** What a row sets one of the three per-index gauges to, if it sets it. */
  function SetBy(r: Index, g: Metric): Option<int> {
    match g
    case Population => if r.state == "POPULATING" then Some(r.population) else None
    case Reads => Some(r.readCount)
    case LastRead => r.lastRead
  }

  /** What a gauge shows after the first `n` rows: the last value set. */
  function Shown(rows: seq<Index>, cap: int, g: Metric, n: nat, s: Series): Option<int>
    requires n <= |rows|
  {
    if n == 0 then None
    else if LabelOf(rows, cap, n - 1) == s && SetBy(rows[n - 1], g).Some? then SetBy(rows[n - 1], g)
    else Shown(rows, cap, g, n - 1, s)
  }

  function Kinds(rows: seq<Index>): seq<Kind> {
    seq(|rows|, i requires 0 <= i < |rows| => KindOf(rows[i]))
  }

  type Gauge = map<Series, int>

  function Get<K, V>(m: map<K, V>, k: K): Option<V> {
    if k in m then Some(m[k]) else None
  }

  ghost predicate Shows(gauge: Gauge, rows: seq<Index>, cap: int, g: Metric, n: nat)
    requires n <= |rows|
  {
    forall s :: Get(gauge, s) == Shown(rows, cap, g, n, s)
  }

  /** `histogram` counts the kinds of the first `n` rows. */
  ghost predicate Counts(histogram: map<Kind, nat>, rows: seq<Index>, n: nat)
    requires n <= |rows|
  {
    forall k :: multiset(Kinds(rows)[..n])[k] == if k in histogram then histogram[k] else 0
  }

  /** A gauge after one more row. */
  function After(gauge: Gauge, rows: seq<Index>, cap: int, g: Metric, n: nat): Gauge
    requires n < |rows|
  {
    match SetBy(rows[n], g)
    case Some(v) => gauge[LabelOf(rows, cap, n) := v]
    case None => gauge
  }

  lemma ShowsNext(gauge: Gauge, rows: seq<Index>, cap: int, g: Metric, n: nat)
    requires n < |rows| && Shows(gauge, rows, cap, g, n)
    ensures Shows(After(gauge, rows, cap, g, n), rows, cap, g, n + 1)
  {
    forall s
      ensures Get(After(gauge, rows, cap, g, n), s) == Shown(rows, cap, g, n + 1, s)
    {
      assert Get(gauge, s) == Shown(rows, cap, g, n, s);
    }
  }

  lemma CountsNext(histogram: map<Kind, nat>, rows: seq<Index>, n: nat)
    requires n < |rows| && Counts(histogram, rows, n)
    ensures var k := KindOf(rows[n]);
            Counts(histogram[k := (if k in histogram then histogram[k] else 0) + 1], rows, n + 1)
  {
    assert Kinds(rows)[..n + 1] == Kinds(rows)[..n] + [KindOf(rows[n])];
  }

  /** The loop of `IndexesCollector.Collect`. The histogram counts every row, truncated or not. */
  method CollectIndexes(rows: seq<Index>, setting: int)
    returns (population: Gauge, readCount: Gauge, lastRead: Gauge, histogram: map<Kind, nat>)
    ensures Shows(population, rows, CapOf(setting), Population, |rows|)
    ensures Shows(readCount, rows, CapOf(setting), Reads, |rows|)
    ensures Shows(lastRead, rows, CapOf(setting), LastRead, |rows|)
    ensures forall k :: multiset(Kinds(rows))[k] == if k in histogram then histogram[k] else 0
    ensures Sum(histogram) == |rows|
  {
    population, readCount, lastRead, histogram := map[], map[], map[], map[];
    var cap := if setting == 0 then 500 else setting;
    for i := 0 to |rows|
      invariant Shows(population, rows, cap, Population, i)
      invariant Shows(readCount, rows, cap, Reads, i)
      invariant Shows(lastRead, rows, cap, LastRead, i)
      invariant Counts(histogram, rows, i)
    {
      CountsNext(histogram, rows, i);
      ShowsNext(population, rows, cap, Population, i);
      ShowsNext(readCount, rows, cap, Reads, i);
      ShowsNext(lastRead, rows, cap, LastRead, i);
      var k := Kind(rows[i].state, rows[i].typ, rows[i].entity);
      histogram := histogram[k := (if k in histogram then histogram[k] else 0) + 1];
      population, readCount, lastRead := SetSeries(population, readCount, lastRead, rows, cap, i);
    }
    assert Kinds(rows)[..|rows|] == Kinds(rows);
    SumOfHistogram(histogram, multiset(Kinds(rows)));
  }

  /** The part of the loop that sets the per-index gauges. */
  method SetSeries(population: Gauge, readCount: Gauge, lastRead: Gauge, rows: seq<Index>, cap: int, i: nat)
    returns (p: Gauge, c: Gauge, l: Gauge)
    requires i < |rows|
    ensures p == After(population, rows, cap, Population, i)
    ensures c == After(readCount, rows, cap, Reads, i)
    ensures l == After(lastRead, rows, cap, LastRead, i)
  {
    p, c, l := population, readCount, lastRead;
    var r := rows[i];
    var name := r.name;
    if i >= cap {
      name := TRUNCATED;
    }
    var s := Series(name, r.typ);
    if r.state == "POPULATING" {
      p := p[s := r.population];
    }
    c := c[s := r.readCount];
    if r.lastRead.Some? {
      l := l[s := r.lastRead.value];
    }
  }

  /** The name labels used for the first `n` rows. */
  function NamesTo(rows: seq<Index>, cap: int, n: nat): set<string>
    requires n <= |rows|
  {
    if n == 0 then {} else NamesTo(rows, cap, n - 1) + {LabelOf(rows, cap, n - 1).name}
  }

  lemma {:induction false} NamesAreThoseShown(rows: seq<Index>, cap: int, n: nat, name: string)
    requires n <= |rows|
    ensures name in NamesTo(rows, cap, n) <==> exists typ :: Shown(rows, cap, Reads, n, Series(name, typ)).Some?
  {
    if n > 0 {
      NamesAreThoseShown(rows, cap, n - 1, name);
      var last := LabelOf(rows, cap, n - 1);
      if name == last.name {
        assert Shown(rows, cap, Reads, n, Series(name, last.typ)).Some?;
      }
      if typ :| Shown(rows, cap, Reads, n - 1, Series(name, typ)).Some? {
        assert Shown(rows, cap, Reads, n, Series(name, typ)).Some?;
      }
    }
  }

  ghost predicate DistinctTo(rows: seq<Index>, n: nat)
    requires n <= |rows|
  {
    forall i, j :: 0 <= i < j < n ==> rows[i].name != rows[j].name
  }

  lemma {:induction false} NamesUnderCap(rows: seq<Index>, cap: int, n: nat, name: string)
    requires n <= |rows| && n <= cap
    ensures name in NamesTo(rows, cap, n) <==> exists i :: 0 <= i < n && rows[i].name == name
  {
    if n > 0 {
      NamesUnderCap(rows, cap, n - 1, name);
    }
  }

  lemma DistinctNext(rows: seq<Index>, n: nat)
    requires 0 < n <= |rows|
    ensures DistinctTo(rows, n) <==>
            DistinctTo(rows, n - 1) && !exists i :: 0 <= i < n - 1 && rows[i].name == rows[n - 1].name
  {
  }

  lemma {:induction false} DistinctNames(rows: seq<Index>, cap: int, n: nat)
    requires n <= |rows| && n <= cap
    ensures |NamesTo(rows, cap, n)| <= n
    ensures |NamesTo(rows, cap, n)| == n <==> DistinctTo(rows, n)
  {
    if n > 0 {
      var before, name := NamesTo(rows, cap, n - 1), rows[n - 1].name;
      DistinctNames(rows, cap, n - 1);
      NamesUnderCap(rows, cap, n - 1, name);
      assert NamesTo(rows, cap, n) == before + {name};
      DistinctNext(rows, n);
      if name in before {
        assert before + {name} == before;
      }
    }
  }

  lemma {:induction false} NamesOverCap(rows: seq<Index>, cap: nat, n: nat)
    requires cap < n <= |rows|
    ensures NamesTo(rows, cap, n) == NamesTo(rows, cap, cap) + {TRUNCATED}
  {
    if n > cap + 1 {
      NamesOverCap(rows, cap, n - 1);
    }
  }

  /**
   At most cap + 1 name labels are in use, and the cap itself is exceeded exactly when
   there are more rows than that, the first of them all differ and none is called "<truncated>".
   */
  lemma {:induction false} NameLabelsBounded(rows: seq<Index>, cap: nat)
    ensures var used := |NamesTo(rows, cap, |rows|)|;
            used <= cap + 1 && (used > cap <==> |rows| > cap && DistinctTo(rows, cap)
                                                && forall i :: 0 <= i < cap ==> rows[i].name != TRUNCATED)
  {
    if |rows| <= cap {
      DistinctNames(rows, cap, |rows|);
    } else {
      DistinctNames(rows, cap, cap);
      NamesUnderCap(rows, cap, cap, TRUNCATED);
      NamesOverCap(rows, cap, |rows|);
    }
  }

  lemma {:induction false} ShownAfter(rows: seq<Index>, cap: int, g: Metric, n: nat, i: nat)
    requires i < n <= |rows| && SetBy(rows[i], g).Some?
    requires forall j :: i < j < n ==> LabelOf(rows, cap, j) != LabelOf(rows, cap, i)
    ensures Shown(rows, cap, g, n, LabelOf(rows, cap, i)) == SetBy(rows[i], g)
  {
    if i < n - 1 {
      ShownAfter(rows, cap, g, n - 1, i);
    }
  }

  /** As long as names are distinct, every index under the cap keeps its own value. */
  lemma {:induction false} UnderCapExact(rows: seq<Index>, cap: nat, g: Metric, i: nat)
    requires i < |rows| && i < cap && SetBy(rows[i], g).Some?
    requires DistinctTo(rows, if |rows| < cap then |rows| else cap)
    requires |rows| <= cap || rows[i].name != TRUNCATED
    ensures Shown(rows, cap, g, |rows|, Series(rows[i].name, rows[i].typ)) == SetBy(rows[i], g)
  {
    ShownAfter(rows, cap, g, |rows|, i);
  }

  // ----- emitMapBounded -----

  type Values = map<string, int>

  function Min(a: int, b: int): int {
    if a < b then a else b
  }

  function NotBelowZero(a: int): nat {
    if a < 0 then 0 else a
  }

  /** The series of the keys that got one of their own. */
  function Own(m: Values, shown: set<string>): (g: Values)
    ensures shown <= m.Keys ==> g.Keys == shown
  {
    map k | k in m && k in shown :: m[k]
  }

  /** `shown` are the keys with a series of their own, `last` the key that got the common series. */
  ghost predicate Emitted(g: Values, m: Values, cap: nat, shown: set<string>, last: Option<string>) {
    && shown <= m.Keys && |shown| == Min(|m|, cap)
    && (last.Some? <==> |m| > cap)
    && (last.Some? ==> last.value in m.Keys - shown)
    && g == if last.Some? then Own(m, shown)[TRUNCATED := m[last.value]] else Own(m, shown)
  }

  /** A cap below zero acts like zero. Which keys are shown is up to the order in which the map is ranged over. */
  method EmitMapBounded(m: Values, cap: int)
    returns (g: Values)
    ensures exists shown, last :: Emitted(g, m, NotBelowZero(cap), shown, last)
  {
    g := map[];
    ghost var shown: set<string> := {};
    var unvisited, count := m.Keys, 0;
    while unvisited != {}
      invariant unvisited <= m.Keys && shown == m.Keys - unvisited
      invariant count == |shown| && |shown| + |unvisited| == |m.Keys|
      invariant count <= NotBelowZero(cap)
      invariant g == Own(m, shown)
      decreases unvisited
    {
      var k :| k in unvisited;
      if count >= cap {
        g := g[TRUNCATED := m[k]];
        assert Emitted(g, m, NotBelowZero(cap), shown, Some(k));
        return;
      }
      OwnNext(m, shown, k);
      unvisited := unvisited - {k};
      shown := shown + {k};
      g := g[k := m[k]];
      count := count + 1;
    }
    assert Emitted(g, m, NotBelowZero(cap), shown, None);
  }

  lemma OwnNext(m: Values, shown: set<string>, k: string)
    requires k in m
    ensures Own(m, shown)[k := m[k]] == Own(m, shown + {k})
  {
  }

  /**
   Whatever the order: unless a shown key is itself called "<truncated>" there are exactly
   min(|m|, cap + 1) series, the common one is there exactly when the cap is exceeded, and
   it carries the value of a key that has no series of its own.
   */
  lemma {:induction false} SeriesBounded(g: Values, m: Values, cap: nat, shown: set<string>, last: Option<string>)
    requires Emitted(g, m, cap, shown, last)
    ensures |g| == Min(|m|, cap + 1) <==> !(|m| > cap && TRUNCATED in shown)
    ensures TRUNCATED in g <==> |m| > cap || TRUNCATED in m
    ensures |m| > cap ==> exists k :: k in m && k !in shown && g[TRUNCATED] == m[k]
    ensures forall k :: k in shown && k != TRUNCATED ==> k in g && g[k] == m[k]
  {
    if |m| <= cap {
      SubsetSame(shown, m.Keys);
    } else if TRUNCATED in shown {
      assert g.Keys == shown;
    } else {
      assert g.Keys == shown + {TRUNCATED};
    }
    assert |g| == |g.Keys|;
  }

  lemma SubsetSame<T>(a: set<T>, b: set<T>)
    requires a <= b && |a| == |b|
    ensures a == b
  {
    assert b == a + (b - a);
    assert |b - a| == 0;
  }

  /** Positive counts are lost exactly when more than one key goes without a series of its own. */
  lemma {:induction false} NothingLostIff(g: Values, m: Values, cap: nat, shown: set<string>, last: Option<string>)
    requires Emitted(g, m, cap, shown, last)
    requires TRUNCATED !in m && forall k :: k in m ==> m[k] > 0
    ensures Sum(g) <= Sum(m)
    ensures Sum(g) == Sum(m) <==> |m| <= cap + 1
  {
    if last.None? {
      SubsetSame(shown, m.Keys);
      assert g == m;
    } else {
      CommonSeriesSum(m, shown, last.value);
      var part := Own(m, shown + {last.value});
      SumOfPart(part, m);
      assert |part.Keys| == cap + 1;
      if |m| == cap + 1 {
        SubsetSame(part.Keys, m.Keys);
        assert part == m;
      }
    }
  }

  /** Under its common label a key adds the same to the sum. */
  lemma CommonSeriesSum(m: Values, shown: set<string>, last: string)
    requires shown <= m.Keys && TRUNCATED !in m && last in m.Keys - shown
    ensures Sum(Own(m, shown)[TRUNCATED := m[last]]) == Sum(Own(m, shown + {last}))
  {
    var own, g, part := Own(m, shown), Own(m, shown)[TRUNCATED := m[last]], Own(m, shown + {last});
    SumWithout(part, last);
    assert part - {last} == own;
    SumWithout(g, TRUNCATED);
    assert g - {TRUNCATED} == own;
  }

  // ----- which column is shown -----

  /** The row whose value a series shows: the last one with its labels that sets the gauge. */
  lemma {:induction false} ShownIsLast(rows: seq<Index>, cap: int, g: Metric, n: nat, s: Series)
    returns (i: nat)
    requires n <= |rows| && Shown(rows, cap, g, n, s).Some?
    ensures i < n && s.typ == rows[i].typ && s.name == (if i < cap then rows[i].name else "<truncated>")
    ensures var v := Shown(rows, cap, g, n, s).value;
            match g
            case Population => rows[i].state == "POPULATING" && v == rows[i].population
            case Reads => v == rows[i].readCount
            case LastRead => rows[i].lastRead == Some(v)
    ensures forall j :: i < j < n && LabelOf(rows, cap, j) == s ==>
              match g
              case Population => rows[j].state != "POPULATING"
              case Reads => false
              case LastRead => rows[j].lastRead.None?
  {
    if LabelOf(rows, cap, n - 1) == s && SetBy(rows[n - 1], g).Some? {
      i := n - 1;
    } else {
      i := ShownIsLast(rows, cap, g, n - 1, s);
    }
  }

  /** The cap is 500 unless it is set. */
  lemma {:induction false} CapIsDefaulted(setting: int)
    ensures CapOf(0) == 500 && (setting != 0 ==> CapOf(setting) == setting)
  {
  }

  function Alike(rows: seq<Index>, n: nat, state: string, typ: string, entity: string): nat
    requires n <= |rows|
  {
    if n == 0 then 0
    else Alike(rows, n - 1, state, typ, entity)
         + if rows[n - 1].state == state && rows[n - 1].typ == typ && rows[n - 1].entity == entity then 1 else 0
  }

  /** The histogram under one state, type and entity is how many rows have them. */
  lemma {:induction false} HistogramCounts(rows: seq<Index>, n: nat, state: string, typ: string, entity: string)
    requires n <= |rows|
    ensures multiset(Kinds(rows)[..n])[Kind(state, typ, entity)] == Alike(rows, n, state, typ, entity)
  {
    if n > 0 {
      HistogramCounts(rows, n - 1, state, typ, entity);
      assert Kinds(rows)[..n] == Kinds(rows)[..n - 1] + [KindOf(rows[n - 1])];
    }
  }
}
