/** Reading the page of long-running queries back, line by line. */
module SlowQueryReader {
  import opened Prelude
  import opened OpenMetrics
  import opened GoQuote
  import opened SlowQueries

  /** The lines of a text all of whose lines end in a newline; what follows the last one is dropped. */
  function Lines(s: string): seq<string> {
    if '\n' !in s then [] else [UpToNewline(s)] + Lines(s[|UpToNewline(s)| + 1..])
  }

  function UpToNewline(s: string): (r: string)
    requires '\n' in s
    ensures |r| < |s| && s[..|r|] == r && s[|r|] == '\n' && '\n' !in r
  {
    if s[0] == '\n' then [] else [s[0]] + UpToNewline(s[1..])
  }

  datatype Sample = Sample(name: string, labels: seq<Label>, value: string)

  /** Reads `metricname "{" labels "}" SP number`. */
  function ReadSample(line: string): Option<Sample> {
    var n := NameLength(line);
    if !IsLabelName(line[..n]) || n == |line| || line[n] != '{' then None
    else
      var labels := ReadLabelSet(line[n + 1..]);
      if labels.None? || labels.value.1 == "" || labels.value.1[0] != ' ' then None
      else Some(Sample(line[..n], labels.value.0, labels.value.1[1..]))
  }

  lemma {:induction false} LinesConcat(line: string, s: string)
    requires '\n' !in line
    ensures Lines(line + "\n" + s) == [line] + Lines(s)
  {
    var whole := line + "\n" + s;
    assert whole[|line|] == '\n';
    assert forall i :: 0 <= i < |line| ==> whole[i] == line[i];
    var first := UpToNewline(whole);
    assert |first| >= |line| by {
      assert forall i :: 0 <= i < |line| ==> line[i] != '\n';
    }
    assert |first| <= |line| by {
      assert forall i :: 0 <= i < |first| ==> first[i] == whole[i];
    }
    assert first == line;
    assert whole[|line| + 1..] == s;
  }

  lemma SentSnocThen(lines: seq<string>, line: string, after: string)
    ensures Sent(lines + [line]) + after == Sent(lines) + (line + "\n" + after)
  {
    SentSnoc(lines, line);
    Regroup(Sent(lines), line, "\n", after);
  }

  lemma {:induction false} LinesOfSent(lines: seq<string>, after: string)
    requires forall i :: 0 <= i < |lines| ==> '\n' !in lines[i]
    ensures Lines(Sent(lines) + after) == lines + Lines(after)
  {
    if lines == [] {
      assert Sent(lines) + after == after;
      assert lines + Lines(after) == Lines(after);
    } else {
      var init, last := lines[..|lines| - 1], lines[|lines| - 1];
      assert lines == init + [last];
      LinesOfSent(init, last + "\n" + after);
      LinesConcat(last, after);
      SentSnocThen(init, last, after);
      Associative(init, [last], Lines(after));
    }
  }

  // ----- what the page says -----

  /** Where part number `f` starts when all parts have the same length. */
  function Start(f: nat, length: nat): nat {
    if f == 0 then 0 else Start(f - 1, length) + length
  }

  lemma {:induction false} StartIs(f: nat, length: nat)
    ensures Start(f, length) == f * length
  {
    if f > 0 {
      StartIs(f - 1, length);
    }
  }

  ghost predicate AllOfLength<T>(parts: seq<seq<T>>, length: nat) {
    forall j :: 0 <= j < |parts| ==> |parts[j]| == length
  }

  lemma {:induction false} FlatLength<T>(parts: seq<seq<T>>, k: nat, length: nat)
    requires k <= |parts| && AllOfLength(parts, length)
    ensures |Flat(parts, k)| == Start(k, length)
  {
    if k > 0 {
      FlatLength(parts, k - 1, length);
    }
  }

  lemma {:induction false} FlatAt<T>(parts: seq<seq<T>>, k: nat, length: nat, f: nat, i: nat)
    requires f < k <= |parts| && i < length && AllOfLength(parts, length)
    ensures Start(f, length) + i < |Flat(parts, k)|
    ensures Flat(parts, k)[Start(f, length) + i] == parts[f][i]
  {
    FlatLength(parts, k - 1, length);
    if f < k - 1 {
      FlatAt(parts, k - 1, length, f, i);
    }
  }

  lemma {:induction false} SamplesAt(print_: Row -> string, rows: seq<Row>, n: nat, i: nat)
    requires i < n <= |rows|
    ensures Samples(print_, rows, n)[i] == print_(rows[i])
  {
    if i < n - 1 {
      SamplesAt(print_, rows, n - 1, i);
    }
  }

  lemma LabelPartHasNoNewline(f: Family, r: Row, style: Style)
    ensures '\n' !in LabelPart(f, r, style)
  {
    if f.kind.Info? {
      JoinedHasNoNewline(NonEmpty(InfoLabels(r, style)));
    } else {
      QuotedHasNoNewline(StrOf(r.transactionId), style.wide);
      assert IsLabelName(TRANSACTION);
    }
  }

  /** No value of any row can break a line. */
  lemma SampleHasNoNewline(f: Family, r: Row, style: Style)
    ensures '\n' !in SampleLine(f, r, style)
  {
    LabelPartHasNoNewline(f, r, style);
    assert IsLabelName(f.name);
  }

  lemma HeadersHaveNoNewline(f: Family)
    ensures '\n' !in HelpLine(f) && '\n' !in TypeLine(f)
  {
    assert IsLabelName(f.name);
  }

  lemma BlockSample(f: Family, rows: seq<Row>, style: Style, i: nat)
    requires i < |rows|
    ensures |Block(f, rows, style)| == |rows| + 2
    ensures Block(f, rows, style)[2 + i] == SampleLine(f, rows[i], style)
  {
    SamplesAt(RowPrinter(f, style), rows, |rows|, i);
  }

  lemma BlockHasNoNewline(f: Family, rows: seq<Row>, style: Style, i: nat)
    requires i < |rows| + 2
    ensures '\n' !in Block(f, rows, style)[i]
  {
    var block := Block(f, rows, style);
    if i < 2 {
      HeadersHaveNoNewline(f);
      assert block[i] == if i == 0 then HelpLine(f) else TypeLine(f);
    } else {
      BlockSample(f, rows, style, i - 2);
      SampleHasNoNewline(f, rows[i - 2], style);
      assert block[i] == SampleLine(f, rows[i - 2], style);
    }
  }

  lemma {:induction false} FlatHasNoNewline(parts: seq<seq<string>>, k: nat)
    requires k <= |parts|
    requires forall f, i :: 0 <= f < k && 0 <= i < |parts[f]| ==> '\n' !in parts[f][i]
    ensures forall i :: 0 <= i < |Flat(parts, k)| ==> '\n' !in Flat(parts, k)[i]
  {
    if k > 0 {
      FlatHasNoNewline(parts, k - 1);
    }
  }

  /** The labels a reader finds on a sample of family `f`. */
  function LabelsRead(f: Family, r: Row, style: Style): seq<Label> {
    match f.kind
    case Info => NonEmpty(InfoLabels(r, style))
    case Gauge => [Label(TRANSACTION, Meant(StrOf(r.transactionId), style.wide))]
  }

  lemma QuotedLabelReadsAs(k: Name, s: string, wide: char -> bool, rest: string)
    requires rest != [] && rest[0] == '}'
    ensures ReadLabelSet(k + "=\"" + Quoted(s, wide) + "\"" + rest) == Some(([Label(k, Meant(s, wide))], rest[1..]))
  {
    var quoted, whole := Quoted(s, wide) + "\"" + rest, k + "=\"" + Quoted(s, wide) + "\"" + rest;
    QuotedReadsAs(s, wide, rest);
    ReadLabelShape(k, quoted);
    Regroup(k + "=\"", Quoted(s, wide), "\"", rest);
    LastLabelReadsBack(whole, Label(k, Meant(s, wide)), rest);
    assert IsLabelName(k) && whole[0] == k[0];
  }

  lemma LabelPartReadsBack(f: Family, r: Row, style: Style, rest: string)
    ensures ReadLabelSet(LabelPart(f, r, style) + "}" + rest) == Some((LabelsRead(f, r, style), rest))
  {
    if f.kind.Info? {
      LabelSetReadsBack(InfoLabels(r, style), rest);
    } else {
      QuotedLabelReadsAs(TRANSACTION, StrOf(r.transactionId), style.wide, "}" + rest);
      Associative(LabelPart(f, r, style), "}", rest);
    }
  }

  lemma LineReadsBack(f: Family, part: string, r: Row, labels: seq<Label>)
    requires ReadLabelSet(part + "}" + (" " + f.tells(r))) == Some((labels, " " + f.tells(r)))
    ensures ReadSample(Line(f, part, r)) == Some(Sample(f.name, labels, f.tells(r)))
  {
    var name, value := f.name, f.tells(r);
    var tail, line := part + "}" + (" " + value), Line(f, part, r);
    assert line == name + ("{" + tail) by {
      Associative(name + "{" + part + "}", " ", value);
      Regroup(name + "{", part, "}", " " + value);
      Associative(name, "{", tail);
    }
    NameLengthIs(name, "{" + tail);
    assert line[..|name|] == name && line[|name|] == '{' && line[|name| + 1..] == tail;
  }

  lemma SampleReadsBack(f: Family, r: Row, style: Style)
    ensures ReadSample(SampleLine(f, r, style)) == Some(Sample(f.name, LabelsRead(f, r, style), f.tells(r)))
  {
    LabelPartReadsBack(f, r, style, " " + f.tells(r));
    LineReadsBack(f, LabelPart(f, r, style), r, LabelsRead(f, r, style));
  }

  /** The text that is sent splits into the lines that were written. */
  lemma {:induction false} PageSplits(fs: seq<Family>, rows: seq<Row>, style: Style)
    ensures Lines(Sent(PageLines(fs, rows, style))) == PageLines(fs, rows, style)
  {
    var lines := PageLines(fs, rows, style);
    var blocks := Blocks(fs, BlockPrinter(rows, style));
    forall f, i | 0 <= f < |fs| && 0 <= i < |blocks[f]|
      ensures '\n' !in blocks[f][i]
    {
      BlockHasNoNewline(fs[f], rows, style, i);
    }
    FlatHasNoNewline(blocks, |fs|);
    LinesOfSent(lines, "");
    assert Sent(lines) + "" == Sent(lines);
  }

  lemma PageAt(blocks: seq<seq<string>>, length: nat, f: nat, i: nat)
    requires f < |blocks| && i < length && AllOfLength(blocks, length)
    ensures Start(f, length) + i < |Page(blocks)|
    ensures Page(blocks)[Start(f, length) + i] == blocks[f][i]
  {
    FlatAt(blocks, |blocks|, length, f, i);
  }

  /** A reader takes a line for the sample of family `f` that row `r` calls for. */
  predicate SaysRow(line: string, f: Family, r: Row, style: Style) {
    ReadSample(line) == Some(Sample(f.name, LabelsRead(f, r, style), f.tells(r)))
  }

  lemma LineOfPage(
      fs: seq<Family>, block: Family -> seq<string>, n: nat, lines: seq<string>, at: nat, f: nat, i: nat)
    requires lines == Page(Blocks(fs, block)) && forall g :: |block(g)| == n + 2
    requires f < |fs| && i < n && at == Start(f, n + 2) + 2 + i
    ensures at < |lines| && lines[at] == block(fs[f])[2 + i]
  {
    PageAt(Blocks(fs, block), n + 2, f, 2 + i);
  }

  lemma BlockLengths(rows: seq<Row>, style: Style)
    ensures forall g :: |BlockPrinter(rows, style)(g)| == |rows| + 2
  {
  }

  lemma SampleOnPage(
      fs: seq<Family>, rows: seq<Row>, style: Style, lines: seq<string>, at: nat, f: nat, i: nat)
    requires f < |fs| && i < |rows| && lines == PageLines(fs, rows, style) && at == Start(f, |rows| + 2) + 2 + i
    ensures at < |lines| && lines[at] == SampleLine(fs[f], rows[i], style)
  {
    BlockLengths(rows, style);
    LineOfPage(fs, BlockPrinter(rows, style), |rows|, lines, at, f, i);
    BlockSample(fs[f], rows, style, i);
  }

  /** On a page of any families, the i-th sample of each reads back as what row i says. */
  lemma {:induction false} SamplesReadBack(
      fs: seq<Family>, rows: seq<Row>, style: Style, lines: seq<string>, at: nat, f: nat, i: nat)
    requires f < |fs| && i < |rows| && lines == PageLines(fs, rows, style) && at == Start(f, |rows| + 2) + 2 + i
    ensures at < |lines| && SaysRow(lines[at], fs[f], rows[i], style)
  {
    SampleOnPage(fs, rows, style, lines, at, f, i);
    SampleSaysRow(lines[at], fs[f], rows[i], style);
  }

  lemma SampleSaysRow(line: string, f: Family, r: Row, style: Style)
    requires line == SampleLine(f, r, style)
    ensures SaysRow(line, f, r, style)
  {
    SampleReadsBack(f, r, style);
  }

  lemma LineCount(fs: seq<Family>, block: Family -> seq<string>, n: nat, lines: seq<string>)
    requires lines == Page(Blocks(fs, block)) && forall g :: |block(g)| == n + 2
    ensures |lines| == Start(|fs|, n + 2) + 1 && lines[|lines| - 1] == EOF
  {
    FlatLength(Blocks(fs, block), |fs|, n + 2);
  }

  /** Marks the proofs that have to know what `ReadFromPage` says. */
  predicate Opening(n: nat) {
    true
  }

  /** `lines` is what a reader finds on the page of the six families. */
  ghost predicate ReadFromPage(lines: seq<string>, rows: seq<Row>, style: Style) {
    forall n {:trigger Opening(n)} :: Opening(n) ==> lines == Lines(Sent(PageLines(FAMILIES, rows, style)))
  }

  lemma ReadFromPageIff(lines: seq<string>, rows: seq<Row>, style: Style)
    ensures ReadFromPage(lines, rows, style) <==> lines == Lines(Sent(PageLines(FAMILIES, rows, style)))
  {
    assert Opening(0);
  }

  lemma LinesAreThoseWritten(lines: seq<string>, rows: seq<Row>, style: Style)
    requires ReadFromPage(lines, rows, style)
    ensures lines == PageLines(FAMILIES, rows, style)
  {
    ReadFromPageIff(lines, rows, style);
    PageSplits(FAMILIES, rows, style);
  }

  /** The page for n rows, none included, is 13 + 6n lines ending in the end mark. */
  lemma {:induction false} PageLength(rows: seq<Row>, style: Style, lines: seq<string>)
    requires ReadFromPage(lines, rows, style)
    ensures |lines| == 13 + 6 * |rows| && lines[|lines| - 1] == EOF
  {
    LinesAreThoseWritten(lines, rows, style);
    BlockLengths(rows, style);
    LineCount(FAMILIES, BlockPrinter(rows, style), |rows|, lines);
    StartIs(|FAMILIES|, |rows| + 2);
  }

  /** On the page of the six families, the i-th sample of each reads back as what row i says. */
  lemma {:induction false} PageFraming(rows: seq<Row>, style: Style, lines: seq<string>, at: nat, f: nat, i: nat)
    requires ReadFromPage(lines, rows, style) && f < |FAMILIES| && i < |rows| && at == Start(f, |rows| + 2) + 2 + i
    ensures at < |lines| && SaysRow(lines[at], FAMILIES[f], rows[i], style)
  {
    LinesAreThoseWritten(lines, rows, style);
    SamplesReadBack(FAMILIES, rows, style, lines, at, f, i);
  }

  /** The labels a reader finds on the info line of a row. */
  function InfoRead(r: Row, style: Style): seq<Label> {
    var sample := ReadSample(SampleLine(INFO, r, style));
    if sample.Some? then sample.value.labels else []
  }

  lemma LastOfInfo(r: Row, style: Style)
    requires style.exposeText && style.cut(StrOf(r.currentQuery)) != ""
    ensures var labels := NonEmpty(InfoLabels(r, style));
            labels != [] && labels[|labels| - 1] == Label(PREVIEW, Escape(style.cut(StrOf(r.currentQuery))))
  {
    var cut, labels := style.cut(StrOf(r.currentQuery)), InfoLabels(r, style);
    ThreePassesAreOne(cut);
    EscapeIsIdentityIff(cut);
    assert labels[|labels| - 1] == Label(PREVIEW, Escape(cut));
  }

  /**
   The preview is escaped before it is handed over to be escaped: a reader gets the
   escaped text, which is the text itself exactly when nothing in it needed escaping.
   */
  lemma {:induction false} PreviewExactIff(r: Row, style: Style)
    requires style.exposeText && style.cut(StrOf(r.currentQuery)) != ""
    ensures var cut, read := style.cut(StrOf(r.currentQuery)), InfoRead(r, style);
            && read != [] && read[|read| - 1] == Label(PREVIEW, Escape(cut))
            && (read[|read| - 1].value == cut <==> '\\' !in cut && '"' !in cut && '\n' !in cut)
  {
    InfoReadIs(r, style);
    LastOfInfo(r, style);
    EscapeIsIdentityIff(style.cut(StrOf(r.currentQuery)));
  }

  lemma InfoReadIs(r: Row, style: Style)
    ensures InfoRead(r, style) == NonEmpty(InfoLabels(r, style))
  {
    SampleReadsBack(INFO, r, style);
  }

  /** A gauge names its transaction to a reader exactly when `%q` writes each character of it as OpenMetrics does. */
  lemma {:induction false} GaugeNamesTransactionIff(f: Family, r: Row, style: Style)
    requires f.kind.Gauge?
    ensures ReadSample(SampleLine(f, r, style)).Some?
    ensures ReadSample(SampleLine(f, r, style)).value.labels == [Label(TRANSACTION, StrOf(r.transactionId))]
       <==> forall c :: c in StrOf(r.transactionId) ==> Shared(c, style.wide)
  {
    SampleReadsBack(f, r, style);
    MeantIsSelfIff(StrOf(r.transactionId), style.wide);
  }
}
