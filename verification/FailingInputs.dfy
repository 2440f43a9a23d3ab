/** One concrete input for each promise that the code does not keep on all inputs. */
module FailingInputs {
  import opened Prelude
  import opened Schema
  import opened ConfigSpec
  import opened ConfigLaws
  import opened Lookup
  import opened SampleConfig
  import Capability
  import DriverPool
  import SD = SharedDatabase
  import OM = OpenMetrics
  import SQ = SlowQueries
  import Reader = SlowQueryReader
  import Utf8
  import TX = Transactions
  import TL = TransactionLaws
  import CA = Cardinality
  import MapSum

  // ----- the default target -----

  const LAX := Target("", ":7687", "nope", Bolt("bolt", "", "", "", "neo4j", "none"), None)

  const LAX_CONFIG := Sample([], Some(LAX))

  lemma LaxIsSound()
    ensures Sound(LAX_CONFIG)
  {
    assert LAX.address[0] == ':';
    SampleIsSound([], Some(LAX));
  }

  lemma FarAway()
    ensures WithPort("far:1") == "far:1" && !IsLocalhost("far:1")
  {
    assert "far:1"[3] == ':';
    assert Host("far:1") == "far";
    assert "far:1" != DEFAULT_LABEL;
  }

  lemma LaxAnswers()
    ensures FindTarget(LAX_CONFIG, "far:1") == Some(LAX.(address := "far:1"))
  {
    FarAway();
    CompleteIsDefaulted(LAX.(address := "far:1"));
  }

  /** A configuration that loads, and a query for which it yields a remote target without authentication. */
  lemma {:induction false} RemoteWithoutAuth()
    ensures Sound(LAX_CONFIG)
    ensures FindTarget(LAX_CONFIG, "far:1").Some? && FindTarget(LAX_CONFIG, "far:1").value.bolt.auth == "none"
    ensures !IsLocalhost(FindTarget(LAX_CONFIG, "far:1").value.address)
  {
    LaxIsSound();
    LaxAnswers();
    FarAway();
  }

  /** The same query yields a target whose module no one has defined. */
  lemma {:induction false} UndefinedModule()
    ensures Sound(LAX_CONFIG) && FindTarget(LAX_CONFIG, "far:1").Some?
    ensures FindTarget(LAX_CONFIG, "far:1").value.moduleName !in LAX_CONFIG.modules
  {
    LaxIsSound();
    LaxAnswers();
  }

  /** The driver of that query is dropped by a reload that changes nothing. */
  lemma {:induction false} DroppedByNextReload()
    ensures Sound(LAX_CONFIG) && FindTarget(LAX_CONFIG, "far:1").Some?
    ensures var key := DriverPool.AuthHash(FindTarget(LAX_CONFIG, "far:1").value, NO_FILES);
            key.Ok? && key.value !in DriverPool.KeysOf(LAX_CONFIG.targets, NO_FILES)
  {
    LaxIsSound();
    LaxAnswers();
  }

  // ----- one connection, two databases -----

  function Reading(name: string, database: string): Target {
    Target(name, "h:1", "default", Bolt("bolt", "u", "p", "", database, ""), None)
  }

  const TWO_DATABASES := Sample([Reading("a", "one"), Reading("b", "two")], None)

  /** Two listed targets that share an entry and name different databases: the second one's is not read. */
  lemma {:induction false} SecondDatabaseNotRead(r: Result<Capability.Entry, DriverPool.PoolError>)
    ensures Sound(TWO_DATABASES)
    ensures var asked := [SD.Request(TWO_DATABASES.targets[0], NO_FILES, NO_FILES, true),
                          SD.Request(TWO_DATABASES.targets[1], NO_FILES, NO_FILES, true)];
            && SD.KeyOf(asked[0]).Ok? && SD.KeyOf(asked[0]) == SD.KeyOf(asked[1])
            && (SD.SettingsOfMaker(asked, 1, r) && r.Ok? ==>
                  SD.DatabaseOf(r.value.bolt) == "one" && SD.DatabaseOf(asked[1].target.bolt) == "two")
  {
    var a, b := Reading("a", "one"), Reading("b", "two");
    assert "h:1"[1] == ':' && a.address[1] == ':' && b.address[1] == ':';
    assert a.name != b.name;
    SampleIsSound([a, b], None);
    assert TWO_DATABASES.targets[0] == a && TWO_DATABASES.targets[1] == b;
    var asked := [SD.Request(a, NO_FILES, NO_FILES, true), SD.Request(b, NO_FILES, NO_FILES, true)];
    var key := SD.KeyOf(asked[0]).value;
    assert SD.CanMake(asked[0], key);
    assert SD.Maker(asked, 0, key) == None && SD.Maker(asked, 1, key) == Some(0);
    SD.MakerStays(asked, 1, 2, key);
  }

  // ----- lookup -----

  function At(name: string): Target {
    Target(name, "h:1", "default", Bolt("bolt", "u", "p", "", "neo4j", ""), None)
  }

  const TWO_AT_ONE_ADDRESS := Sample([At("a"), At("b")], None)

  /** Two listed targets at one address: the second is not found by it. */
  lemma {:induction false} ShadowedByAddress()
    ensures Sound(TWO_AT_ONE_ADDRESS)
    ensures FindTarget(TWO_AT_ONE_ADDRESS, At("b").address) != Some(At("b"))
  {
    var d := TWO_AT_ONE_ADDRESS;
    assert "h:1"[1] == ':' && At("a").address[1] == ':' && At("b").address[1] == ':';
    assert "a" != "b" && At("a").name != At("b").name;
    SampleIsSound([At("a"), At("b")], None);
    assert d.targets[0] == At("a") && d.targets[1] == At("b");
    FoundByAddressIff(d, 1);
  }

  // ----- the slow-query page -----

  const PLAIN := SQ.Style(q => "", q => q, c => true, true)

  function RowOf(transaction: string, query: string): SQ.Row {
    SQ.Row(SQ.Text("neo4j"), SQ.Text(transaction), SQ.Null, SQ.Null, SQ.Null, SQ.Text(query),
           "1", "1", "1", SQ.Nil, SQ.Nil)
  }

  /** A query of one quote reads back as a backslash and a quote. */
  lemma {:induction false} PreviewWithBackslash()
    ensures var read := Reader.InfoRead(RowOf("t", "\""), PLAIN);
            read != [] && read[|read| - 1] == OM.Label(SQ.PREVIEW, "\\\"")
  {
    Reader.PreviewExactIff(RowOf("t", "\""), PLAIN);
    assert OM.Escape("\"") == "\\\"" by {
      assert OM.Escape("\""[1..]) == [];
    }
  }

  /** A transaction named by the bell character is read back under another name. */
  lemma {:induction false} MisreadTransaction()
    ensures Reader.ReadSample(SQ.SampleLine(SQ.CPU, RowOf("\U{7}", ""), PLAIN)).Some?
    ensures Reader.ReadSample(SQ.SampleLine(SQ.CPU, RowOf("\U{7}", ""), PLAIN)).value.labels
         != [OM.Label(SQ.TRANSACTION, "\U{7}")]
  {
    Reader.GaugeNamesTransactionIff(SQ.CPU, RowOf("\U{7}", ""), PLAIN);
    assert "\U{7}"[0] in "\U{7}";
  }

  /** Two bytes of one letter, cut after the first. */
  lemma {:induction false} CutInsideLetter()
    ensures Utf8.Valid([0xC3, 0xA9]) && !Utf8.Valid(Utf8.CutForLog([0xC3, 0xA9], 1))
  {
    var s: seq<Utf8.byte> := [0xC3, 0xA9];
    assert s[..2] == s && s[2..] == [];
    Utf8.LogCutValidIff(s, 1);
  }

  // ----- aggregation -----

  function TxWith(status: Option<string>): TX.Tx {
    TX.Tx(Some("neo4j"), status, None, None, None, None, None, None, None, None, None)
  }

  lemma CountOne(k: TX.Key, t: TX.Tx, u: TX.Tx)
    requires TX.KeyOf(t) == k && TX.KeyOf(u) != k
    ensures TX.Count([t, u], {k}) == 1 && TX.Count([u, t], {k}) == 1
  {
    assert [t, u][1..] == [u] && [u, t][1..] == [t];
    assert [u][1..] == [] && [t][1..] == [];
    assert TX.Count([u], {k}) == 0 && TX.Count([t], {k}) == 1;
  }

  /** One transaction without a status, one with an empty one: the gauge shows one of the two. */
  lemma {:induction false} NamelessStatusLost() returns (rows: seq<TX.Row>, txs: seq<TX.Tx>)
    ensures TX.Answers(rows, txs) && TL.CountOf(txs, "neo4j", None) + TL.CountOf(txs, "neo4j", Some("")) == 2
    ensures TX.Shown(rows, |rows|, "neo4j", "") == Some(1)
  {
    var t, u := TxWith(None), TxWith(Some(""));
    var k, l := TX.KeyOf(t), TX.KeyOf(u);
    txs := [t, u];
    rows := [TX.GroupRow(txs, k), TX.GroupRow(txs, l)];
    CountOne(k, t, u);
    CountOne(l, u, t);
    TL.CountIsCountOf(txs, "neo4j", None);
    TL.CountIsCountOf(txs, "neo4j", Some(""));
    assert rows[0].key == k && rows[1].key == l;
    assert TX.Answers(rows, txs);
  }

  // ----- caps -----

  function Named(i: nat): CA.Index {
    CA.Index(seq(i + 12, _ => 'i'), "RANGE", "NODE", "ONLINE", 100, 0, None)
  }

  /** Whatever the cap, enough indexes with names of their own put one more label in use. */
  lemma {:induction false} OneLabelTooMany(cap: nat)
    ensures |CA.NamesTo(seq(cap + 1, i requires 0 <= i => Named(i)), cap, cap + 1)| == cap + 1
  {
    var rows := seq(cap + 1, i requires 0 <= i => Named(i));
    forall i | 0 <= i < cap
      ensures rows[i].name != CA.TRUNCATED
    {
      assert |rows[i].name| == i + 12 && |CA.TRUNCATED| == 11;
    }
    forall i, j | 0 <= i < j < cap
      ensures rows[i].name != rows[j].name
    {
      assert |rows[i].name| == i + 12 && |rows[j].name| == j + 12;
    }
    CA.NameLabelsBounded(rows, cap);
  }

  /** Three keys under a cap of one: a count is gone. */
  lemma {:induction false} CountLost()
    ensures var m, g := map["a" := 1, "b" := 1, "c" := 1], map["a" := 1, CA.TRUNCATED := 1];
            CA.Emitted(g, m, 1, {"a"}, Some("b")) && MapSum.Sum(g) < MapSum.Sum(m)
  {
    var m: CA.Values := map["a" := 1, "b" := 1, "c" := 1];
    var g: CA.Values := map["a" := 1, CA.TRUNCATED := 1];
    assert m.Keys == {"a", "b", "c"} && |m.Keys| == 3;
    assert g == CA.Own(m, {"a"})[CA.TRUNCATED := m["b"]];
    assert CA.TRUNCATED !in m by {
      assert |CA.TRUNCATED| == 11;
    }
    CA.NothingLostIff(g, m, 1, {"a"}, Some("b"));
  }

  /** A key that is itself called "<truncated>" shares its series with the common one. */
  lemma {:induction false} SeriesMerged()
    ensures var m, g := map[CA.TRUNCATED := 1, "b" := 2], map[CA.TRUNCATED := 2];
            CA.Emitted(g, m, 1, {CA.TRUNCATED}, Some("b")) && |g| == 1
  {
    var m: CA.Values := map[CA.TRUNCATED := 1, "b" := 2];
    var g: CA.Values := map[CA.TRUNCATED := 2];
    assert CA.TRUNCATED != "b" by {
      assert |CA.TRUNCATED| == 11;
    }
    assert m.Keys == {CA.TRUNCATED, "b"} && |m.Keys| == 2;
    assert g == CA.Own(m, {CA.TRUNCATED})[CA.TRUNCATED := m["b"]];
    assert g.Keys == {CA.TRUNCATED} && |g| == |g.Keys|;
  }
}
