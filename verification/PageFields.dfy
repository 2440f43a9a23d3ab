/** Which figure of which row a reader of the slow-query page finds where, name by name. */
module PageFields {
  import opened Prelude
  import opened OpenMetrics
  import opened GoQuote
  import opened SlowQueries
  import opened SlowQueryReader

  // ----- the info line -----

  /** A label with this key is there exactly when the text is not empty, and it carries the text. */
  ghost predicate Tells(read: seq<Label>, key: string, text: string) {
    && (forall l :: l in read && l.key == key ==> l.value == text)
    && ((exists l :: l in read && l.key == key) <==> text != "")
  }

  function TextOf(v: Value): string {
    if v.Text? then v.text else if v.Other? then v.printed else ""
  }

  ghost predicate InfoTells(read: seq<Label>, r: Row, style: Style) {
    && Tells(read, "database", TextOf(r.database))
    && Tells(read, "transaction_id", TextOf(r.transactionId))
    && Tells(read, "username", TextOf(r.username))
    && Tells(read, "client_address", TextOf(r.clientAddress))
    && Tells(read, "status", TextOf(r.status))
    && Tells(read, "query_hash", if TextOf(r.currentQuery) == "" then "" else style.digest(TextOf(r.currentQuery)))
    && (forall l :: l in read ==>
          || l.key in {"database", "transaction_id", "username", "client_address", "status", "query_hash"}
          || (l.key == "query_preview" && style.exposeText))
  }

  /** The keys differ: in length, or in how they begin. */
  lemma KeysDiffer()
    ensures DATABASE != USERNAME && TRANSACTION != CLIENT
    ensures |DATABASE| == |USERNAME| == 8 && |TRANSACTION| == |CLIENT| == 14
    ensures |STATUS| == 6 && |HASH| == 10 && |PREVIEW| == 13
  {
    assert DATABASE[0] == 'd' && USERNAME[0] == 'u' && TRANSACTION[0] == 't' && CLIENT[0] == 'c';
  }

  lemma NonEmptyMembers(ls: seq<Label>, l: Label)
    ensures l in NonEmpty(ls) <==> l in ls && l.value != ""
  {
    var at := NonEmptyKeepsOrder(ls);
    if l in ls && l.value != "" {
      var k :| 0 <= k < |ls| && ls[k] == l;
      var i :| 0 <= i < |at| && at[i] == k;
      assert NonEmpty(ls)[i] == l;
    }
    if l in NonEmpty(ls) {
      var i :| 0 <= i < |at| && NonEmpty(ls)[i] == l;
      assert ls[at[i]] == l && at[i] in at;
    }
  }

  /** In a list of labels with keys of their own, the kept ones tell what they were given. */
  lemma KeptTells(ls: seq<Label>, k: nat)
    requires k < |ls| && forall i :: 0 <= i < |ls| && i != k ==> ls[i].key != ls[k].key
    ensures Tells(NonEmpty(ls), ls[k].key, ls[k].value)
  {
    forall l | l in NonEmpty(ls) && l.key == ls[k].key
      ensures l.value == ls[k].value
    {
      NonEmptyMembers(ls, l);
      var i :| 0 <= i < |ls| && ls[i] == l;
    }
    NonEmptyMembers(ls, ls[k]);
    if exists l :: l in NonEmpty(ls) && l.key == ls[k].key {
      var l :| l in NonEmpty(ls) && l.key == ls[k].key;
      NonEmptyMembers(ls, l);
      var i :| 0 <= i < |ls| && ls[i] == l;
    }
  }

  lemma InfoKeys(r: Row, style: Style)
    ensures var ls := InfoLabels(r, style);
            && |ls| == (if style.exposeText then 7 else 6)
            && ls[0].key == DATABASE && ls[1].key == TRANSACTION && ls[2].key == USERNAME
            && ls[3].key == CLIENT && ls[4].key == STATUS && ls[5].key == HASH
            && (style.exposeText ==> ls[6].key == PREVIEW)
  {
  }

  lemma InfoValues(r: Row, style: Style)
    ensures var ls := InfoLabels(r, style);
            && ls[0].value == TextOf(r.database) && ls[1].value == TextOf(r.transactionId)
            && ls[2].value == TextOf(r.username) && ls[3].value == TextOf(r.clientAddress)
            && ls[4].value == TextOf(r.status)
            && ls[5].value == if TextOf(r.currentQuery) == "" then "" else style.digest(TextOf(r.currentQuery))
  {
  }

  lemma DistinctKeys(r: Row, style: Style, k: nat, i: nat)
    requires k < 6 && i < |InfoLabels(r, style)| && i != k
    ensures InfoLabels(r, style)[i].key != InfoLabels(r, style)[k].key
  {
    InfoKeys(r, style);
    KeysDiffer();
  }

  lemma FieldTold(r: Row, style: Style, k: nat)
    requires k < 6
    ensures |InfoLabels(r, style)| >= 6
    ensures Tells(NonEmpty(InfoLabels(r, style)), InfoLabels(r, style)[k].key, InfoLabels(r, style)[k].value)
  {
    InfoKeys(r, style);
    forall i | 0 <= i < |InfoLabels(r, style)| && i != k
      ensures InfoLabels(r, style)[i].key != InfoLabels(r, style)[k].key
    {
      DistinctKeys(r, style, k, i);
    }
    KeptTells(InfoLabels(r, style), k);
  }

  lemma OnlyTheseKeys(r: Row, style: Style, l: Label)
    requires l in NonEmpty(InfoLabels(r, style))
    ensures l.key in {DATABASE, TRANSACTION, USERNAME, CLIENT, STATUS, HASH} || (l.key == PREVIEW && style.exposeText)
  {
    NonEmptyMembers(InfoLabels(r, style), l);
    InfoKeys(r, style);
    var i :| 0 <= i < |InfoLabels(r, style)| && InfoLabels(r, style)[i] == l;
  }

  lemma InfoIsTold(r: Row, style: Style)
    ensures InfoTells(NonEmpty(InfoLabels(r, style)), r, style)
  {
    var read := NonEmpty(InfoLabels(r, style));
    InfoKeys(r, style);
    InfoValues(r, style);
    FieldTold(r, style, 0);
    FieldTold(r, style, 1);
    FieldTold(r, style, 2);
    FieldTold(r, style, 3);
    FieldTold(r, style, 4);
    FieldTold(r, style, 5);
    forall l | l in read
      ensures l.key in {DATABASE, TRANSACTION, USERNAME, CLIENT, STATUS, HASH} || (l.key == PREVIEW && style.exposeText)
    {
      OnlyTheseKeys(r, style, l);
    }
  }

  /** The i-th line under the first two headers is the info line of row i, field by field. */
  lemma {:induction false} InfoOnPage(rows: seq<Row>, style: Style, lines: seq<string>, i: nat)
    requires ReadFromPage(lines, rows, style) && i < |rows|
    ensures 2 + i < |lines| && ReadSample(lines[2 + i]).Some?
    ensures var sample := ReadSample(lines[2 + i]).value;
            sample.name == "neo4j_slow_query_info" && sample.value == "1" && InfoTells(sample.labels, rows[i], style)
  {
    PageFraming(rows, style, lines, 2 + i, 0, i);
    InfoIsTold(rows[i], style);
  }

  // ----- the gauges -----

  /** The line is a sample of this name with this figure, for the row's transaction. */
  ghost predicate GaugeTells(line: string, name: string, figure: string, r: Row, style: Style) {
    && ReadSample(line).Some?
    && ReadSample(line).value.name == name && ReadSample(line).value.value == figure
    && |ReadSample(line).value.labels| == 1
    && ReadSample(line).value.labels[0].key == "transaction_id"
    && ReadSample(line).value.labels[0].value == Meant(TextOf(r.transactionId), style.wide)
  }

  ghost predicate GaugeStands(
      lines: seq<string>, at: nat, name: string, figure: string, r: Row, style: Style)
  {
    at < |lines| && GaugeTells(lines[at], name, figure, r, style)
  }

  function Figure(c: Counter): string {
    if c.Number? then c.printed else "0"
  }

  lemma GaugeLine(line: string, family: Family, name: string, figure: string, r: Row, style: Style)
    requires SaysRow(line, family, r, style) && family.kind.Gauge?
    requires name == family.name && figure == family.tells(r)
    ensures GaugeTells(line, name, figure, r, style)
  {
  }

  lemma GaugeAt(
      rows: seq<Row>, style: Style, lines: seq<string>, at: nat, f: nat, i: nat, family: Family, name: string,
      figure: string, r: Row)
    requires ReadFromPage(lines, rows, style) && 0 < f < |FAMILIES| && i < |rows| && r == rows[i]
    requires at == Start(f, |rows| + 2) + 2 + i && FAMILIES[f] == family && family.kind.Gauge?
    requires name == family.name && figure == family.tells(r)
    ensures GaugeStands(lines, at, name, figure, r, style)
  {
    PageFraming(rows, style, lines, at, f, i);
    GaugeLine(lines[at], family, name, figure, r, style);
  }

  lemma Places(n: nat)
    ensures Start(1, n + 2) == n + 2 && Start(2, n + 2) == 2 * n + 4 && Start(3, n + 2) == 3 * n + 6
    ensures Start(4, n + 2) == 4 * n + 8 && Start(5, n + 2) == 5 * n + 10
  {
  }

  lemma ElapsedIs(r: Row)
    ensures |FAMILIES| == 6 && FAMILIES[1] == ELAPSED && ELAPSED.kind.Gauge?
    ensures ELAPSED.name == "neo4j_slow_query_elapsed_seconds" && ELAPSED.tells(r) == r.elapsed
  {
  }

  lemma CpuIs(r: Row)
    ensures |FAMILIES| == 6 && FAMILIES[2] == CPU && CPU.kind.Gauge?
    ensures CPU.name == "neo4j_slow_query_cpu_seconds" && CPU.tells(r) == r.cpu
  {
  }

  lemma WaitIs(r: Row)
    ensures |FAMILIES| == 6 && FAMILIES[3] == WAIT && WAIT.kind.Gauge?
    ensures WAIT.name == "neo4j_slow_query_wait_seconds" && WAIT.tells(r) == r.wait
  {
  }

  lemma PageFaultsIs(r: Row)
    ensures |FAMILIES| == 6 && FAMILIES[4] == PAGE_FAULTS && PAGE_FAULTS.kind.Gauge?
    ensures PAGE_FAULTS.name == "neo4j_slow_query_page_faults" && PAGE_FAULTS.tells(r) == Figure(r.pageFaults)
  {
  }

  lemma AllocatedIs(r: Row)
    ensures |FAMILIES| == 6 && FAMILIES[5] == ALLOCATED && ALLOCATED.kind.Gauge?
    ensures ALLOCATED.name == "neo4j_slow_query_allocated_bytes" && ALLOCATED.tells(r) == Figure(r.allocatedBytes)
  {
  }

  lemma {:induction false} ElapsedOnPage(rows: seq<Row>, style: Style, lines: seq<string>, i: nat)
    requires ReadFromPage(lines, rows, style) && i < |rows|
    ensures GaugeStands(lines, |rows| + 4 + i, "neo4j_slow_query_elapsed_seconds", rows[i].elapsed, rows[i], style)
  {
    ElapsedIs(rows[i]);
    Places(|rows|);
    GaugeAt(rows, style, lines, |rows| + 4 + i, 1, i, ELAPSED,
            "neo4j_slow_query_elapsed_seconds", rows[i].elapsed, rows[i]);
  }

  lemma {:induction false} CpuOnPage(rows: seq<Row>, style: Style, lines: seq<string>, i: nat)
    requires ReadFromPage(lines, rows, style) && i < |rows|
    ensures GaugeStands(lines, 2 * |rows| + 6 + i, "neo4j_slow_query_cpu_seconds", rows[i].cpu, rows[i], style)
  {
    CpuIs(rows[i]);
    Places(|rows|);
    GaugeAt(rows, style, lines, 2 * |rows| + 6 + i, 2, i, CPU,
            "neo4j_slow_query_cpu_seconds", rows[i].cpu, rows[i]);
  }

  lemma {:induction false} WaitOnPage(rows: seq<Row>, style: Style, lines: seq<string>, i: nat)
    requires ReadFromPage(lines, rows, style) && i < |rows|
    ensures GaugeStands(lines, 3 * |rows| + 8 + i, "neo4j_slow_query_wait_seconds", rows[i].wait, rows[i], style)
  {
    WaitIs(rows[i]);
    Places(|rows|);
    GaugeAt(rows, style, lines, 3 * |rows| + 8 + i, 3, i, WAIT,
            "neo4j_slow_query_wait_seconds", rows[i].wait, rows[i]);
  }

  lemma {:induction false} PageFaultsOnPage(rows: seq<Row>, style: Style, lines: seq<string>, i: nat)
    requires ReadFromPage(lines, rows, style) && i < |rows|
    ensures GaugeStands(lines, 4 * |rows| + 10 + i, "neo4j_slow_query_page_faults",
                        Figure(rows[i].pageFaults), rows[i], style)
  {
    PageFaultsIs(rows[i]);
    Places(|rows|);
    GaugeAt(rows, style, lines, 4 * |rows| + 10 + i, 4, i, PAGE_FAULTS,
            "neo4j_slow_query_page_faults", Figure(rows[i].pageFaults), rows[i]);
  }

  lemma {:induction false} AllocatedOnPage(rows: seq<Row>, style: Style, lines: seq<string>, i: nat)
    requires ReadFromPage(lines, rows, style) && i < |rows|
    ensures GaugeStands(lines, 5 * |rows| + 12 + i, "neo4j_slow_query_allocated_bytes",
                        Figure(rows[i].allocatedBytes), rows[i], style)
  {
    AllocatedIs(rows[i]);
    Places(|rows|);
    GaugeAt(rows, style, lines, 5 * |rows| + 12 + i, 5, i, ALLOCATED,
            "neo4j_slow_query_allocated_bytes", Figure(rows[i].allocatedBytes), rows[i]);
  }
}
