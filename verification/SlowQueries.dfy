/** The page of long-running queries (`writeSlowOpenMetrics`), and reading it back. */
module SlowQueries {
  import opened Prelude
  import opened OpenMetrics
  import opened GoQuote

  // ----- rows -----

  /** A printed number. */
  type Numeral = s: string | s != "" && '\n' !in s && ' ' !in s witness "0"

  datatype Value = Null | Text(text: string) | Other(printed: string)

  datatype Counter = Nil | Number(printed: Numeral)

  datatype Row = Row(
    database: Value,
    transactionId: Value,
    username: Value,
    clientAddress: Value,
    status: Value,
    currentQuery: Value,
    elapsed: Numeral,
    cpu: Numeral,
    wait: Numeral,
    pageFaults: Counter,
    allocatedBytes: Counter)

  function StrOf(v: Value): string {
    match v
    case Null => ""
    case Text(s) => s
    case Other(s) => s
  }

  function NumOf(c: Counter): Numeral {
    match c
    case Nil => "0"
    case Number(n) => n
  }

  /**
   What the page depends on besides the rows: the short hash and the cut text of a
   query, the printable characters, and whether the module shows query texts.
   */
  datatype Style = Style(digest: string -> string, cut: string -> string, wide: char -> bool, exposeText: bool)

  function QueryHash(q: string, style: Style): string {
    if q == "" then "" else style.digest(q)
  }

  const DATABASE: Name := "database"
  const TRANSACTION: Name := "transaction_id"
  const USERNAME: Name := "username"
  const CLIENT: Name := "client_address"
  const STATUS: Name := "status"
  const HASH: Name := "query_hash"
  const PREVIEW: Name := "query_preview"

  function InfoLabels(r: Row, style: Style): seq<Label> {
    [Label(DATABASE, StrOf(r.database)),
     Label(TRANSACTION, StrOf(r.transactionId)),
     Label(USERNAME, StrOf(r.username)),
     Label(CLIENT, StrOf(r.clientAddress)),
     Label(STATUS, StrOf(r.status)),
     Label(HASH, QueryHash(StrOf(r.currentQuery), style))]
    + if style.exposeText then [Label(PREVIEW, OpenMetricsEscape(style.cut(StrOf(r.currentQuery))))] else []
  }

  // ----- the page, line by line -----

  type OneLine = s: string | '\n' !in s

  datatype Kind = Info | Gauge

  /** A metric family; `tells` is what its sample says about a row. */
  datatype Family = Family(name: Name, kind: Kind, help: OneLine, tells: Row -> Numeral)

  const INFO: Family :=
    Family("neo4j_slow_query_info", Info, "Long-running query snapshot." + " Refreshed each scrape.", r => "1")
  const ELAPSED: Family :=
    Family("neo4j_slow_query_elapsed_seconds", Gauge, "Wall-clock elapsed seconds.", (r: Row) => r.elapsed)
  const CPU: Family :=
    Family("neo4j_slow_query_cpu_seconds", Gauge, "CPU seconds consumed.", (r: Row) => r.cpu)
  const WAIT: Family :=
    Family("neo4j_slow_query_wait_seconds", Gauge, "Time spent waiting for locks.", (r: Row) => r.wait)
  const PAGE_FAULTS: Family :=
    Family("neo4j_slow_query_page_faults", Gauge, "Page faults caused" + " by this transaction.",
           (r: Row) => NumOf(r.pageFaults))
  const ALLOCATED: Family :=
    Family("neo4j_slow_query_allocated_bytes", Gauge, "Heap bytes allocated" + " by current query.",
           (r: Row) => NumOf(r.allocatedBytes))

  const FAMILIES: seq<Family> := [INFO, ELAPSED, CPU, WAIT, PAGE_FAULTS, ALLOCATED]

  function HelpLine(f: Family): string {
    "# HELP " + f.name + " " + f.help
  }

  function TypeLine(f: Family): string {
    "# TYPE " + f.name + " " + if f.kind.Info? then "info" else "gauge"
  }

  function Line(f: Family, labels: string, r: Row): string {
    f.name + "{" + labels + "}" + " " + f.tells(r)
  }

  function LabelPart(f: Family, r: Row, style: Style): string {
    match f.kind
    case Info => Joined(NonEmpty(InfoLabels(r, style)))
    case Gauge => TRANSACTION + "=\"" + Quoted(StrOf(r.transactionId), style.wide) + "\""
  }

  function SampleLine(f: Family, r: Row, style: Style): string {
    Line(f, LabelPart(f, r, style), r)
  }

  function RowPrinter(f: Family, style: Style): Row -> string {
    r => SampleLine(f, r, style)
  }

  /** A line for each of the first `n` rows. */
  function Samples(print_: Row -> string, rows: seq<Row>, n: nat): (r: seq<string>)
    requires n <= |rows|
    ensures |r| == n
  {
    if n == 0 then [] else Samples(print_, rows, n - 1) + [print_(rows[n - 1])]
  }

  function Block(f: Family, rows: seq<Row>, style: Style): seq<string> {
    [HelpLine(f), TypeLine(f)] + Samples(RowPrinter(f, style), rows, |rows|)
  }

  function BlockPrinter(rows: seq<Row>, style: Style): Family -> seq<string> {
    f => Block(f, rows, style)
  }

  function Blocks(fs: seq<Family>, block: Family -> seq<string>): seq<seq<string>> {
    seq(|fs|, f requires 0 <= f < |fs| => block(fs[f]))
  }

  /** The first `k` of some sequences, one after the other. */
  function Flat<T>(parts: seq<seq<T>>, k: nat): seq<T>
    requires k <= |parts|
  {
    if k == 0 then [] else Flat(parts, k - 1) + parts[k - 1]
  }

  const EOF := "# EOF"

  /** The page for some families, each with a sample for each row. */
  function PageLines(fs: seq<Family>, rows: seq<Row>, style: Style): seq<string> {
    Page(Blocks(fs, BlockPrinter(rows, style)))
  }

  function Page(blocks: seq<seq<string>>): seq<string> {
    Flat(blocks, |blocks|) + [EOF]
  }

  /** Lines as they are sent: each with its newline. */
  function Sent(lines: seq<string>): string {
    if lines == [] then "" else Sent(lines[..|lines| - 1]) + lines[|lines| - 1] + "\n"
  }

  // ----- writing -----

  lemma SentSnoc(lines: seq<string>, line: string)
    ensures Sent(lines + [line]) == Sent(lines) + line + "\n"
  {
    assert (lines + [line])[..|lines|] == lines;
  }

  class Writer {
    var text: string
    ghost var lines: seq<string>

    ghost predicate Valid()
      reads this
    {
      text == Sent(lines)
    }

    constructor ()
      ensures Valid() && lines == []
    {
      text := "";
      lines := [];
    }

    method Println(line: string)
      requires Valid()
      modifies this
      ensures Valid() && lines == old(lines) + [line]
    {
      SentSnoc(lines, line);
      text := text + line + "\n";
      lines := lines + [line];
    }
  }

  method Header(w: Writer, f: Family)
    requires w.Valid()
    modifies w
    ensures w.Valid() && w.lines == old(w.lines) + [HelpLine(f), TypeLine(f)]
  {
    w.Println(HelpLine(f));
    w.Println(TypeLine(f));
  }

  lemma SamplesNext(head: seq<string>, print_: Row -> string, rows: seq<Row>, n: nat)
    requires n < |rows|
    ensures head + Samples(print_, rows, n) + [print_(rows[n])] == head + Samples(print_, rows, n + 1)
  {
  }

  lemma BlockIs(before: seq<string>, f: Family, rows: seq<Row>, style: Style)
    ensures before + [HelpLine(f), TypeLine(f)] + Samples(RowPrinter(f, style), rows, |rows|)
         == before + Block(f, rows, style)
  {
  }

  method WriteInfo(w: Writer, f: Family, rows: seq<Row>, style: Style)
    requires w.Valid() && f.kind.Info?
    modifies w
    ensures w.Valid() && w.lines == old(w.lines) + Block(f, rows, style)
  {
    ghost var before := w.lines;
    Header(w, f);
    ghost var head := w.lines;
    for i := 0 to |rows|
      invariant w.Valid() && w.lines == head + Samples(RowPrinter(f, style), rows, i)
    {
      var part := InfoPart(rows[i], style);
      w.Println(Line(f, part, rows[i]));
      SamplesNext(head, RowPrinter(f, style), rows, i);
    }
    BlockIs(before, f, rows, style);
  }

  method InfoPart(r: Row, style: Style) returns (part: string)
    ensures part == Joined(NonEmpty(InfoLabels(r, style)))
  {
    var labels := [
      Label(DATABASE, StrOf(r.database)),
      Label(TRANSACTION, StrOf(r.transactionId)),
      Label(USERNAME, StrOf(r.username)),
      Label(CLIENT, StrOf(r.clientAddress)),
      Label(STATUS, StrOf(r.status)),
      Label(HASH, QueryHash(StrOf(r.currentQuery), style))];
    if style.exposeText {
      labels := labels + [Label(PREVIEW, OpenMetricsEscape(style.cut(StrOf(r.currentQuery))))];
    }
    assert labels == InfoLabels(r, style);
    part := JoinLabels(labels);
  }

  method WriteGauge(w: Writer, f: Family, rows: seq<Row>, style: Style)
    requires w.Valid() && f.kind.Gauge?
    modifies w
    ensures w.Valid() && w.lines == old(w.lines) + Block(f, rows, style)
  {
    ghost var before := w.lines;
    Header(w, f);
    ghost var head := w.lines;
    for i := 0 to |rows|
      invariant w.Valid() && w.lines == head + Samples(RowPrinter(f, style), rows, i)
    {
      var part := TRANSACTION + "=\"" + Quoted(StrOf(rows[i].transactionId), style.wide) + "\"";
      w.Println(Line(f, part, rows[i]));
      SamplesNext(head, RowPrinter(f, style), rows, i);
    }
    BlockIs(before, f, rows, style);
  }

  lemma BlocksNext(fs: seq<Family>, block: Family -> seq<string>, k: nat)
    requires k < |fs|
    ensures Flat(Blocks(fs, block), k + 1) == Flat(Blocks(fs, block), k) + block(fs[k])
  {
  }

  method WriteFamily(w: Writer, f: Family, rows: seq<Row>, style: Style, ghost block: seq<string>)
    requires w.Valid() && block == Block(f, rows, style)
    modifies w
    ensures w.Valid() && w.lines == old(w.lines) + block
  {
    if f.kind.Info? {
      WriteInfo(w, f, rows, style);
    } else {
      WriteGauge(w, f, rows, style);
    }
  }

  /** Marks the families for which `Prints` is to be applied. */
  predicate Here(f: Family) {
    true
  }

  ghost predicate Prints(block: Family -> seq<string>, rows: seq<Row>, style: Style) {
    forall f {:trigger Here(f)} :: Here(f) ==> block(f) == Block(f, rows, style)
  }

  method WriteNext(w: Writer, fs: seq<Family>, n: nat, rows: seq<Row>, style: Style, ghost block: Family -> seq<string>)
    requires n < |fs| && Prints(block, rows, style)
    requires w.Valid() && w.lines == Flat(Blocks(fs, block), n)
    modifies w
    ensures w.Valid() && w.lines == Flat(Blocks(fs, block), n + 1)
  {
    assert Here(fs[n]);
    BlocksNext(fs, block, n);
    WriteFamily(w, fs[n], rows, style, block(fs[n]));
  }

  method WriteBlocks(w: Writer, fs: seq<Family>, rows: seq<Row>, style: Style, ghost block: Family -> seq<string>)
    requires w.Valid() && w.lines == [] && Prints(block, rows, style)
    modifies w
    ensures w.Valid() && w.lines == Flat(Blocks(fs, block), |fs|)
  {
    for n := 0 to |fs|
      invariant w.Valid() && w.lines == Flat(Blocks(fs, block), n)
    {
      WriteNext(w, fs, n, rows, style, block);
    }
  }

  method WriteFamilies(fs: seq<Family>, rows: seq<Row>, style: Style) returns (text: string)
    ensures text == Sent(PageLines(fs, rows, style))
  {
    var w := new Writer();
    assert Prints(BlockPrinter(rows, style), rows, style);
    WriteBlocks(w, fs, rows, style, BlockPrinter(rows, style));
    w.Println(EOF);
    return w.text;
  }

  /** `writeSlowOpenMetrics`. */
  method WritePage(rows: seq<Row>, style: Style) returns (text: string)
    ensures text == Sent(PageLines(FAMILIES, rows, style))
  {
    text := WriteFamilies(FAMILIES, rows, style);
  }
}
