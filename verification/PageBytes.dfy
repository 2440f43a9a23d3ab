/** The page of long-running queries as it is sent: UTF-8, but for query texts that were cut by bytes. */
module PageBytes {
  import opened Prelude
  import opened Utf8
  import opened LogText
  import OM = OpenMetrics
  import opened SlowQueries

  // ----- encoding -----

  /** Section 3 of RFC 3629; anything but a scalar value becomes U+FFFD, as in Go. */
  function EncodeChar(c: char): seq<byte> {
    var n := c as bv32;
    if n < 0x80 then [n as byte]
    else if n < 0x800 then [(0xC0 | (n >> 6)) as byte, (0x80 | (n & 0x3F)) as byte]
    else if 0xD800 <= n <= 0xDFFF || n > 0x10FFFF then [0xEF, 0xBF, 0xBD]
    else if n < 0x10000 then
      [(0xE0 | (n >> 12)) as byte, (0x80 | ((n >> 6) & 0x3F)) as byte, (0x80 | (n & 0x3F)) as byte]
    else
      [(0xF0 | (n >> 18)) as byte, (0x80 | ((n >> 12) & 0x3F)) as byte,
       (0x80 | ((n >> 6) & 0x3F)) as byte, (0x80 | (n & 0x3F)) as byte]
  }

  function Encode(s: string): seq<byte> {
    if s == [] then [] else EncodeChar(s[0]) + Encode(s[1..])
  }

  lemma EncodedIsCodePoint(c: char)
    ensures CodePoint(EncodeChar(c))
  {
  }

  lemma {:induction false} EncodedIsValid(s: string)
    ensures Valid(Encode(s)) && (Encode(s) == [] <==> s == [])
  {
    if s != [] {
      EncodedIsValid(s[1..]);
      EncodedIsCodePoint(s[0]);
      ValidCons(EncodeChar(s[0]), Encode(s[1..]));
    }
  }

  lemma {:induction false} EncodeConcat(a: string, b: string)
    ensures Encode(a + b) == Encode(a) + Encode(b)
  {
    if a == [] {
      assert a + b == b;
    } else {
      assert (a + b)[0] == a[0] && (a + b)[1..] == a[1..] + b;
      EncodeConcat(a[1..], b);
      Associative(EncodeChar(a[0]), Encode(a[1..]), Encode(b));
    }
  }

  // ----- escaping bytes -----

  predicate Special(b: byte) {
    b == 0x5C || b == 0x22 || b == 0x0A
  }

  /** What `openMetricsEscape` does to one byte. */
  function EscapeByte(b: byte): seq<byte> {
    if b == 0x5C then [0x5C, 0x5C] else if b == 0x22 then [0x5C, 0x22] else if b == 0x0A then [0x5C, 0x6E] else [b]
  }

  function EscapeBytes(s: seq<byte>): seq<byte> {
    if s == [] then [] else EscapeByte(s[0]) + EscapeBytes(s[1..])
  }

  lemma {:induction false} EscapeConcat(a: seq<byte>, b: seq<byte>)
    ensures EscapeBytes(a + b) == EscapeBytes(a) + EscapeBytes(b)
  {
    if a == [] {
      assert a + b == b;
    } else {
      assert (a + b)[0] == a[0] && (a + b)[1..] == a[1..] + b;
      EscapeConcat(a[1..], b);
      Associative(EscapeByte(a[0]), EscapeBytes(a[1..]), EscapeBytes(b));
    }
  }

  lemma {:induction false} EscapePlain(s: seq<byte>)
    requires forall i :: 0 <= i < |s| ==> !Special(s[i])
    ensures EscapeBytes(s) == s
  {
    if s != [] {
      EscapePlain(s[1..]);
    }
  }

  lemma PlainChar(c: char)
    requires OM.EscapeChar(c) == [c]
    ensures forall i :: 0 <= i < |EncodeChar(c)| ==> !Special(EncodeChar(c)[i])
  {
    assert c as bv32 != 0x5C && c as bv32 != 0x22 && c as bv32 != 0x0A;
  }

  lemma EncodeTwo(c: char, d: char)
    ensures Encode([c, d]) == EncodeChar(c) + EncodeChar(d) && Encode([c]) == EncodeChar(c)
  {
    assert [c, d][1..] == [d] && [d][1..] == [] && [c][1..] == [];
    assert Encode([d]) == EncodeChar(d);
  }

  lemma EncodeSpecials()
    ensures EncodeChar('\\') == [0x5C] && EncodeChar('"') == [0x22]
    ensures EncodeChar('\n') == [0x0A] && EncodeChar('n') == [0x6E]
  {
  }

  lemma EscapeOne(b: byte)
    ensures EscapeBytes([b]) == EscapeByte(b)
  {
    assert EscapeBytes([b][1..]) == [];
  }

  lemma EscapeSpecial(c: char, d: char, b: byte, e: byte)
    requires EncodeChar(c) == [b] && EncodeChar('\\') == [0x5C] && EncodeChar(d) == [e] && EscapeByte(b) == [0x5C, e]
    ensures EscapeBytes(EncodeChar(c)) == Encode(['\\', d])
  {
    EscapeOne(b);
    EncodeTwo('\\', d);
    assert [0x5C as byte] + [e] == [0x5C, e];
  }

  lemma EscapePlainChar(c: char)
    requires OM.EscapeChar(c) == [c]
    ensures EscapeBytes(EncodeChar(c)) == Encode([c])
  {
    PlainChar(c);
    EscapePlain(EncodeChar(c));
    EncodeTwo(c, c);
  }

  lemma EscapeEncodedChar(c: char)
    ensures EscapeBytes(EncodeChar(c)) == Encode(OM.EscapeChar(c))
  {
    if c == '\\' || c == '"' || c == '\n' {
      EncodeSpecials();
      EscapeSpecial(c, if c == '\n' then 'n' else c, EncodeChar(c)[0], if c == '\n' then 0x6E else EncodeChar(c)[0]);
    } else {
      EscapePlainChar(c);
    }
  }

  /** Escaping the bytes of a text is escaping the text. */
  lemma {:induction false} EscapeEncoded(s: string)
    ensures EscapeBytes(Encode(s)) == Encode(OM.Escape(s))
  {
    if s != [] {
      EscapeEncoded(s[1..]);
      EscapeEncodedChar(s[0]);
      EscapeConcat(EncodeChar(s[0]), Encode(s[1..]));
      EncodeConcat(OM.EscapeChar(s[0]), OM.Escape(s[1..]));
    }
  }

  // ----- validity of pieces -----

  /** Valid text between two pieces keeps them apart: neither can repair the other. */
  lemma Between(a: seq<byte>, v: seq<byte>, b: seq<byte>)
    requires Valid(v) && v != []
    ensures Valid(a + v + b) <==> Valid(a) && Valid(b)
  {
    var whole := a + v + b;
    if Valid(a) && Valid(b) {
      ValidConcat(a, v);
      ValidConcat(a + v, b);
    }
    if Valid(whole) {
      var c, t := Uncons(v);
      CodePointShape(c);
      assert whole[|a|] == v[0] == c[0] && whole[..|a|] == a && whole[|a|..] == v + b;
      PrefixValidIff(whole, |a|);
      AfterValid(v, b);
    }
  }

  lemma AfterValid(v: seq<byte>, b: seq<byte>)
    requires Valid(v)
    ensures Valid(v + b) <==> Valid(b)
  {
    if Valid(b) {
      ValidConcat(v, b);
    }
    if Valid(v + b) {
      assert (v + b)[..|v|] == v && (v + b)[|v|..] == b;
      PrefixValidIff(v + b, |v|);
    }
  }

  lemma AsciiIsValid(s: seq<byte>)
    requires 0 < |s| <= 2 && forall i :: 0 <= i < |s| ==> s[i] <= 0x7F
    ensures Valid(s)
  {
    CodePointIsValid([s[0]]);
    if |s| == 1 {
      assert s == [s[0]];
    } else {
      CodePointIsValid([s[1]]);
      ValidConcat([s[0]], [s[1]]);
      assert s == [s[0]] + [s[1]];
    }
  }

  lemma SpecialValidIff(a: seq<byte>, b: byte, rest: seq<byte>)
    requires Special(b)
    ensures Valid(a + [b] + rest) <==> Valid(a) && Valid(rest)
    ensures Valid(a + EscapeByte(b) + rest) <==> Valid(a) && Valid(rest)
  {
    AsciiIsValid([b]);
    AsciiIsValid(EscapeByte(b));
    Between(a, [b], rest);
    Between(a, EscapeByte(b), rest);
  }

  lemma Split(a: seq<byte>, s: seq<byte>)
    requires s != []
    ensures a + s == a + [s[0]] + s[1..]
  {
    assert s == [s[0]] + s[1..];
    Associative(a, [s[0]], s[1..]);
  }

  lemma SplitEscaped(a: seq<byte>, s: seq<byte>)
    requires s != []
    ensures a + EscapeBytes(s) == a + EscapeByte(s[0]) + EscapeBytes(s[1..])
  {
    Associative(a, EscapeByte(s[0]), EscapeBytes(s[1..]));
  }

  lemma {:induction false} EscapeAfterValidIff(a: seq<byte>, s: seq<byte>)
    ensures Valid(a + EscapeBytes(s)) <==> Valid(a + s)
    decreases |s|
  {
    if s != [] {
      var b, rest := s[0], s[1..];
      Split(a, s);
      SplitEscaped(a, s);
      if Special(b) {
        SpecialValidIff(a, b, rest);
        SpecialValidIff(a, b, EscapeBytes(rest));
        EscapeAfterValidIff([], rest);
        assert [] + EscapeBytes(rest) == EscapeBytes(rest) && [] + rest == rest;
      } else {
        EscapeAfterValidIff(a + [b], rest);
      }
    }
  }

  /** Escaping neither repairs nor breaks a text. */
  lemma {:induction false} EscapeValidIff(s: seq<byte>)
    ensures Valid(EscapeBytes(s)) <==> Valid(s)
  {
    EscapeAfterValidIff([], s);
    assert [] + EscapeBytes(s) == EscapeBytes(s) && [] + s == s;
  }

  // ----- the page in pieces -----

  /** Ordinary text, or a query text cut by bytes, which is escaped twice. */
  datatype Chunk = Words(text: string) | Cut(bytes: seq<byte>)

  function BytesOf(c: Chunk): seq<byte> {
    match c
    case Words(t) => Encode(t)
    case Cut(b) => EscapeBytes(EscapeBytes(b))
  }

  function Bytes(chunks: seq<Chunk>): seq<byte> {
    if chunks == [] then [] else BytesOf(chunks[0]) + Bytes(chunks[1..])
  }

  lemma {:induction false} BytesConcat(a: seq<Chunk>, b: seq<Chunk>)
    ensures Bytes(a + b) == Bytes(a) + Bytes(b)
  {
    if a == [] {
      assert a + b == b;
    } else {
      assert (a + b)[0] == a[0] && (a + b)[1..] == a[1..] + b;
      BytesConcat(a[1..], b);
      Associative(BytesOf(a[0]), Bytes(a[1..]), Bytes(b));
    }
  }

  /** Every cut text is followed by some words. */
  ghost predicate WellSpaced(chunks: seq<Chunk>) {
    forall i :: 0 <= i < |chunks| && chunks[i].Cut? ==>
      i + 1 < |chunks| && chunks[i + 1].Words? && chunks[i + 1].text != ""
  }

  ghost predicate CutsValid(chunks: seq<Chunk>) {
    forall i :: 0 <= i < |chunks| && chunks[i].Cut? ==> Valid(chunks[i].bytes)
  }

  lemma {:induction false} ChunksValidIff(chunks: seq<Chunk>)
    requires WellSpaced(chunks)
    ensures Valid(Bytes(chunks)) <==> CutsValid(chunks)
    decreases |chunks|
  {
    if chunks != [] {
      var rest := chunks[1..];
      assert forall i :: 0 < i < |chunks| ==> chunks[i] == rest[i - 1];
      ChunksValidIff(rest);
      CutsValidCons(chunks);
      if chunks[0].Words? {
        EncodedIsValid(chunks[0].text);
        AfterValid(Encode(chunks[0].text), Bytes(rest));
      } else {
        CutThenWords(chunks[0].bytes, rest);
      }
    }
  }

  lemma CutsValidCons(chunks: seq<Chunk>)
    requires chunks != []
    ensures CutsValid(chunks) <==> CutsValid(chunks[1..]) && (chunks[0].Cut? ==> Valid(chunks[0].bytes))
  {
    assert forall i :: 0 < i < |chunks| ==> chunks[i] == chunks[1..][i - 1];
  }

  lemma CutThenWords(b: seq<byte>, rest: seq<Chunk>)
    requires rest != [] && rest[0].Words? && rest[0].text != ""
    ensures Valid(EscapeBytes(EscapeBytes(b)) + Bytes(rest)) <==> Valid(b) && Valid(Bytes(rest))
  {
    var e, v, tail := EscapeBytes(EscapeBytes(b)), Encode(rest[0].text), Bytes(rest[1..]);
    EncodedIsValid(rest[0].text);
    EscapeValidIff(b);
    EscapeValidIff(EscapeBytes(b));
    Between(e, v, tail);
    AfterValid(v, tail);
    Associative(e, v, tail);
  }

  const PREVIEW_BYTES := 200

  /** The preview of a row: its query, collapsed and cut. */
  function CutOf(r: Row): seq<byte> {
    TruncateForLog(Encode(StrOf(r.currentQuery)), PREVIEW_BYTES)
  }

  function SixLabels(r: Row, style: Style): seq<OM.Label> {
    InfoLabels(r, style.(exposeText := false))
  }

  predicate Previews(r: Row, style: Style) {
    style.exposeText && CutOf(r) != []
  }

  function BeforeCut(f: Family, r: Row, style: Style): string {
    var six := OM.NonEmpty(SixLabels(r, style));
    f.name + "{" + (OM.Joined(six) + (if six == [] then "" else ",") + (PREVIEW + "=\""))
  }

  function AfterCut(f: Family, r: Row): string {
    "\"" + "}" + " " + f.tells(r) + "\n"
  }

  function RowChunks(f: Family, r: Row, style: Style): seq<Chunk> {
    if f.kind.Info? && Previews(r, style) then
      [Words(BeforeCut(f, r, style)), Cut(CutOf(r)), Words(AfterCut(f, r))]
    else [Words(SampleLine(f, r, style.(exposeText := false)) + "\n")]
  }

  /** The chunks of the first `n` items, one after the other. */
  function AllChunks<A>(chunks: A -> seq<Chunk>, items: seq<A>, n: nat): seq<Chunk>
    requires n <= |items|
  {
    if n == 0 then [] else AllChunks(chunks, items, n - 1) + chunks(items[n - 1])
  }

  function RowChunker(f: Family, style: Style): Row -> seq<Chunk> {
    r => RowChunks(f, r, style)
  }

  function HeadWords(f: Family): Chunk {
    Words(HelpLine(f) + "\n" + TypeLine(f) + "\n")
  }

  function BlockChunks(f: Family, rows: seq<Row>, style: Style): seq<Chunk> {
    [HeadWords(f)] + AllChunks(RowChunker(f, style), rows, |rows|)
  }

  function BlockChunker(rows: seq<Row>, style: Style): Family -> seq<Chunk> {
    f => BlockChunks(f, rows, style)
  }

  function PageChunks(fs: seq<Family>, rows: seq<Row>, style: Style): seq<Chunk> {
    AllChunks(BlockChunker(rows, style), fs, |fs|) + [Words(EOF + "\n")]
  }

  /** The bytes of the page. */
  function PageBytes(fs: seq<Family>, rows: seq<Row>, style: Style): seq<byte> {
    Bytes(PageChunks(fs, rows, style))
  }

  // ----- when the page is valid -----

  lemma SpacedConcat(a: seq<Chunk>, b: seq<Chunk>)
    requires WellSpaced(a) && WellSpaced(b)
    ensures WellSpaced(a + b)
    ensures CutsValid(a + b) <==> CutsValid(a) && CutsValid(b)
  {
    var c := a + b;
    assert forall i :: 0 <= i < |a| ==> c[i] == a[i];
    assert forall i :: 0 <= i < |b| ==> c[|a| + i] == b[i];
  }

  predicate CutOk(f: Family, r: Row, style: Style) {
    f.kind.Info? && Previews(r, style) ==> Valid(CutOf(r))
  }

  lemma RowSpaced(f: Family, r: Row, style: Style)
    ensures WellSpaced(RowChunks(f, r, style))
    ensures CutsValid(RowChunks(f, r, style)) <==> CutOk(f, r, style)
  {
    var chunks := RowChunks(f, r, style);
    if f.kind.Info? && Previews(r, style) {
      assert chunks[1] == Cut(CutOf(r));
    }
  }

  lemma {:induction false} AllSpaced<A>(chunks: A -> seq<Chunk>, items: seq<A>, n: nat)
    requires n <= |items| && forall i :: 0 <= i < |items| ==> WellSpaced(chunks(items[i]))
    ensures WellSpaced(AllChunks(chunks, items, n))
    ensures CutsValid(AllChunks(chunks, items, n)) <==> forall i :: 0 <= i < n ==> CutsValid(chunks(items[i]))
  {
    if n > 0 {
      AllSpaced(chunks, items, n - 1);
      SpacedConcat(AllChunks(chunks, items, n - 1), chunks(items[n - 1]));
    }
  }

  ghost predicate BlockOk(f: Family, rows: seq<Row>, style: Style) {
    forall i :: 0 <= i < |rows| ==> CutOk(f, rows[i], style)
  }

  lemma WordsSpaced(c: Chunk)
    requires c.Words?
    ensures WellSpaced([c]) && CutsValid([c])
  {
  }

  lemma BlockSpaced(f: Family, rows: seq<Row>, style: Style)
    ensures WellSpaced(BlockChunks(f, rows, style))
    ensures CutsValid(BlockChunks(f, rows, style)) <==> BlockOk(f, rows, style)
  {
    var chunks := RowChunker(f, style);
    forall i | 0 <= i < |rows|
      ensures WellSpaced(chunks(rows[i])) && (CutsValid(chunks(rows[i])) <==> CutOk(f, rows[i], style))
    {
      RowSpaced(f, rows[i], style);
    }
    AllSpaced(chunks, rows, |rows|);
    WordsSpaced(HeadWords(f));
    SpacedConcat([HeadWords(f)], AllChunks(chunks, rows, |rows|));
  }

  lemma {:induction false} PageValidUnless(fs: seq<Family>, rows: seq<Row>, style: Style)
    ensures Valid(PageBytes(fs, rows, style)) <==> forall j :: 0 <= j < |fs| ==> BlockOk(fs[j], rows, style)
  {
    var chunks, end := BlockChunker(rows, style), Words(EOF + "\n");
    forall j | 0 <= j < |fs|
      ensures WellSpaced(chunks(fs[j])) && (CutsValid(chunks(fs[j])) <==> BlockOk(fs[j], rows, style))
    {
      BlockSpaced(fs[j], rows, style);
    }
    AllSpaced(chunks, fs, |fs|);
    WordsSpaced(end);
    SpacedConcat(AllChunks(chunks, fs, |fs|), [end]);
    ChunksValidIff(PageChunks(fs, rows, style));
  }

  /** The collapsed query is cut inside a code point. */
  predicate CutInside(r: Row) {
    var c := Collapse(Encode(StrOf(r.currentQuery)));
    |c| > PREVIEW_BYTES && Tail(c[PREVIEW_BYTES])
  }

  lemma CutValidIff(r: Row)
    ensures Valid(CutOf(r)) <==> !CutInside(r)
    ensures CutInside(r) ==> CutOf(r) != []
  {
    var q := Encode(StrOf(r.currentQuery));
    EncodedIsValid(StrOf(r.currentQuery));
    TruncateValidIff(q, PREVIEW_BYTES);
    assert |ELLIPSIS| == 3;
  }

  /** A page with an info family is valid UTF-8 exactly when texts are hidden or no query is cut inside a code point. */
  lemma {:induction false} PageValidIff(fs: seq<Family>, rows: seq<Row>, style: Style)
    requires fs != [] && fs[0].kind.Info?
    ensures Valid(PageBytes(fs, rows, style)) <==>
            !style.exposeText || forall i :: 0 <= i < |rows| ==> !CutInside(rows[i])
  {
    PageValidUnless(fs, rows, style);
    forall r
      ensures Valid(CutOf(r)) <==> !CutInside(r)
      ensures CutInside(r) ==> CutOf(r) != []
    {
      CutValidIff(r);
    }
    if Valid(PageBytes(fs, rows, style)) {
      assert BlockOk(fs[0], rows, style);
      assert forall i :: 0 <= i < |rows| ==> CutOk(fs[0], rows[i], style);
    }
  }
  // ----- the bytes and the text -----

  lemma {:induction false} SentConcat(a: seq<string>, b: seq<string>)
    ensures Sent(a + b) == Sent(a) + Sent(b)
    decreases |b|
  {
    if b == [] {
      assert a + b == a;
    } else {
      var init, last := b[..|b| - 1], b[|b| - 1];
      assert b == init + [last] && a + b == a + init + [last];
      SentConcat(a, init);
      SentSnoc(a + init, last);
      SentSnoc(init, last);
      Associative(Sent(a), Sent(init), last);
      Associative(Sent(a), Sent(init) + last, "\n");
    }
  }

  function AllLines<A>(lines: A -> seq<string>, items: seq<A>, n: nat): seq<string>
    requires n <= |items|
  {
    if n == 0 then [] else AllLines(lines, items, n - 1) + lines(items[n - 1])
  }

  /** These chunks are the encoding of these lines as they are sent. */
  predicate Encodes(chunks: seq<Chunk>, lines: seq<string>) {
    Bytes(chunks) == Encode(Sent(lines))
  }

  lemma AppendEncoded(before: seq<Chunk>, more: seq<Chunk>, lines: seq<string>, next: seq<string>)
    requires Encodes(before, lines) && Encodes(more, next)
    ensures Encodes(before + more, lines + next)
  {
    BytesConcat(before, more);
    SentConcat(lines, next);
    EncodeConcat(Sent(lines), Sent(next));
  }

  ghost predicate AllMatch<A>(chunks: A -> seq<Chunk>, lines: A -> seq<string>, items: seq<A>) {
    forall i :: 0 <= i < |items| ==> Encodes(chunks(items[i]), lines(items[i]))
  }

  lemma MatchAt<A>(chunks: A -> seq<Chunk>, lines: A -> seq<string>, items: seq<A>, i: nat)
    requires i < |items| && AllMatch(chunks, lines, items)
    ensures Encodes(chunks(items[i]), lines(items[i]))
  {
  }

  lemma {:induction false} AllEncoded<A>(chunks: A -> seq<Chunk>, lines: A -> seq<string>, items: seq<A>, n: nat)
    returns (all: seq<Chunk>, text: seq<string>)
    requires n <= |items| && AllMatch(chunks, lines, items)
    ensures all == AllChunks(chunks, items, n) && text == AllLines(lines, items, n) && Encodes(all, text)
  {
    if n == 0 {
      all, text := [], [];
      NothingEncoded();
    } else {
      var before, written := AllEncoded(chunks, lines, items, n - 1);
      var more, next := chunks(items[n - 1]), lines(items[n - 1]);
      MatchAt(chunks, lines, items, n - 1);
      AppendEncoded(before, more, written, next);
      all, text := before + more, written + next;
    }
  }

  lemma NothingEncoded()
    ensures Encodes([], [])
  {
  }

  lemma {:induction false} SamplesAreLines(print_: Row -> string, lines: Row -> seq<string>, rows: seq<Row>, n: nat)
    requires n <= |rows| && forall r :: lines(r) == [print_(r)]
    ensures AllLines(lines, rows, n) == Samples(print_, rows, n)
  {
    if n > 0 {
      SamplesAreLines(print_, lines, rows, n - 1);
    }
  }

  lemma {:induction false} BlocksAreLines(fs: seq<Family>, block: Family -> seq<string>, n: nat)
    requires n <= |fs|
    ensures AllLines(block, fs, n) == Flat(Blocks(fs, block), n)
  {
    if n > 0 {
      BlocksAreLines(fs, block, n - 1);
      BlocksNext(fs, block, n - 1);
    }
  }

  lemma OneChunk(c: Chunk)
    ensures Bytes([c]) == BytesOf(c)
  {
    assert Bytes([c][1..]) == [];
  }

  lemma ThreeChunks(a: Chunk, b: Chunk, c: Chunk)
    ensures Bytes([a, b, c]) == BytesOf(a) + BytesOf(b) + BytesOf(c)
  {
    OneChunk(a);
    OneChunk(b);
    OneChunk(c);
    assert [a, b, c] == [a] + [b] + [c];
    BytesConcat([a], [b]);
    BytesConcat([a] + [b], [c]);
  }

  /** `style.cut` gives the text whose bytes the preview of this row is. */
  predicate CutKnown(r: Row, style: Style) {
    Encode(style.cut(StrOf(r.currentQuery))) == CutOf(r)
  }

  /** The info labels with a preview, printed. */
  lemma JoinedWithPreview(r: Row, style: Style)
    requires style.exposeText && style.cut(StrOf(r.currentQuery)) != ""
    ensures var six, cut := OM.NonEmpty(SixLabels(r, style)), style.cut(StrOf(r.currentQuery));
            OM.Joined(OM.NonEmpty(InfoLabels(r, style)))
            == OM.Joined(six) + (if six == [] then "" else ",") + (PREVIEW + "=\"" + OM.Escape(OM.Escape(cut)) + "\"")
  {
    var cut := style.cut(StrOf(r.currentQuery));
    var p := OM.Label(PREVIEW, OM.OpenMetricsEscape(cut));
    OM.ThreePassesAreOne(cut);
    OM.EscapeIsIdentityIff(cut);
    assert InfoLabels(r, style) == SixLabels(r, style) + [p];
    OM.JoinedStep(SixLabels(r, style), p);
  }

  lemma NoPreview(f: Family, r: Row, style: Style)
    requires CutKnown(r, style) && !(f.kind.Info? && Previews(r, style))
    ensures SampleLine(f, r, style.(exposeText := false)) == SampleLine(f, r, style)
  {
    EncodedIsValid(style.cut(StrOf(r.currentQuery)));
    if f.kind.Info? && style.exposeText {
      var p := OM.Label(PREVIEW, OM.OpenMetricsEscape(""));
      assert InfoLabels(r, style) == SixLabels(r, style) + [p];
      OM.JoinedStep(SixLabels(r, style), p);
    }
  }

  lemma Assemble(name: string, six: string, sep: string, key: string, value: string, tells: string)
    ensures name + "{" + (six + sep + (key + "=\"" + value + "\"")) + "}" + " " + tells + "\n"
         == name + "{" + (six + sep + (key + "=\"")) + value + ("\"" + "}" + " " + tells + "\n")
  {
    var a, b, c := six + sep, key + "=\"", "}" + " " + tells + "\n";
    assert a + (b + value + "\"") == (a + b) + value + "\"";
    assert "\"" + "}" + " " + tells + "\n" == "\"" + c;
    assert name + "{" + (a + (b + value + "\"")) + "}" + " " + tells + "\n"
        == name + "{" + (a + (b + value + "\"")) + c;
    assert name + "{" + ((a + b) + value + "\"") + c == name + "{" + (a + b) + value + ("\"" + c);
  }

  lemma WithPreview(f: Family, r: Row, style: Style)
    requires CutKnown(r, style) && f.kind.Info? && Previews(r, style)
    ensures SampleLine(f, r, style) + "\n"
         == BeforeCut(f, r, style) + OM.Escape(OM.Escape(style.cut(StrOf(r.currentQuery)))) + AfterCut(f, r)
  {
    var cut, six := style.cut(StrOf(r.currentQuery)), OM.NonEmpty(SixLabels(r, style));
    EncodedIsValid(cut);
    JoinedWithPreview(r, style);
    Assemble(f.name, OM.Joined(six), if six == [] then "" else ",", PREVIEW, OM.Escape(OM.Escape(cut)), f.tells(r));
  }

  lemma EncodeThree(a: string, b: string, c: string)
    ensures Encode(a + b + c) == Encode(a) + Encode(b) + Encode(c)
  {
    EncodeConcat(a + b, c);
    EncodeConcat(a, b);
  }

  lemma RowEncoded(f: Family, r: Row, style: Style)
    requires CutKnown(r, style)
    ensures Bytes(RowChunks(f, r, style)) == Encode(SampleLine(f, r, style) + "\n")
  {
    if f.kind.Info? && Previews(r, style) {
      var cut := style.cut(StrOf(r.currentQuery));
      WithPreview(f, r, style);
      EscapeEncoded(cut);
      EscapeEncoded(OM.Escape(cut));
      EncodeThree(BeforeCut(f, r, style), OM.Escape(OM.Escape(cut)), AfterCut(f, r));
      ThreeChunks(Words(BeforeCut(f, r, style)), Cut(CutOf(r)), Words(AfterCut(f, r)));
    } else {
      NoPreview(f, r, style);
      OneChunk(Words(SampleLine(f, r, style) + "\n"));
    }
  }

  lemma SentOne(line: string)
    ensures Sent([line]) == line + "\n"
  {
    assert [line][..0] == [] && Sent([line][..0]) == "";
  }

  lemma SentTwo(a: string, b: string)
    ensures Sent([a, b]) == a + "\n" + b + "\n"
  {
    SentOne(a);
    SentSnoc([a], b);
    assert [a, b] == [a] + [b];
  }

  function LinesOf(print_: Row -> string): Row -> seq<string> {
    r => [print_(r)]
  }

  lemma LineEncoded(f: Family, r: Row, style: Style)
    requires CutKnown(r, style)
    ensures Encodes(RowChunker(f, style)(r), LinesOf(RowPrinter(f, style))(r))
  {
    RowEncoded(f, r, style);
    PrintedLine(RowPrinter(f, style), r);
    assert RowPrinter(f, style)(r) == SampleLine(f, r, style);
  }

  lemma PrintedLine(print_: Row -> string, r: Row)
    ensures Sent(LinesOf(print_)(r)) == print_(r) + "\n"
  {
    SentOne(print_(r));
  }

  lemma BlockEncoded(f: Family, rows: seq<Row>, style: Style)
    requires forall i :: 0 <= i < |rows| ==> CutKnown(rows[i], style)
    ensures Encodes(BlockChunks(f, rows, style), Block(f, rows, style))
  {
    var chunks, lines := RowChunker(f, style), LinesOf(RowPrinter(f, style));
    forall i | 0 <= i < |rows|
      ensures Encodes(chunks(rows[i]), lines(rows[i]))
    {
      LineEncoded(f, rows[i], style);
    }
    var all, text := AllEncoded(chunks, lines, rows, |rows|);
    SamplesAreLines(RowPrinter(f, style), lines, rows, |rows|);
    HeadAndSamples(f, all, text);
  }

  lemma HeadAndSamples(f: Family, chunks: seq<Chunk>, samples: seq<string>)
    requires Encodes(chunks, samples)
    ensures Encodes([HeadWords(f)] + chunks, [HelpLine(f), TypeLine(f)] + samples)
  {
    SentTwo(HelpLine(f), TypeLine(f));
    OneChunk(HeadWords(f));
    AppendEncoded([HeadWords(f)], chunks, [HelpLine(f), TypeLine(f)], samples);
  }

  /** With the cut texts known, the bytes are the encoding of the page written line by line. */
  lemma {:induction false} PageIsEncoded(fs: seq<Family>, rows: seq<Row>, style: Style)
    requires forall i :: 0 <= i < |rows| ==> CutKnown(rows[i], style)
    ensures PageBytes(fs, rows, style) == Encode(Sent(PageLines(fs, rows, style)))
  {
    var chunks, block := BlockChunker(rows, style), BlockPrinter(rows, style);
    forall j | 0 <= j < |fs|
      ensures Encodes(chunks(fs[j]), block(fs[j]))
    {
      BlockEncoded(fs[j], rows, style);
    }
    var all, text := AllEncoded(chunks, block, fs, |fs|);
    BlocksAreLines(fs, block, |fs|);
    EndOfPage(all, text);
  }

  lemma EndOfPage(chunks: seq<Chunk>, lines: seq<string>)
    requires Encodes(chunks, lines)
    ensures Encodes(chunks + [Words(EOF + "\n")], lines + [EOF])
  {
    OneChunk(Words(EOF + "\n"));
    SentOne(EOF);
    AppendEncoded(chunks, [Words(EOF + "\n")], lines, [EOF]);
  }
}
