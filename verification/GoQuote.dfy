/** `fmt`'s `%q`, as the gauge lines of `slowqueries.go` use it, read by an OpenMetrics reader. */
module GoQuote {
  import opened Prelude
  import opened OpenMetrics

  /** `strconv.IsPrint`; `wide` is its table from U+0080 on. */
  predicate IsPrint(c: char, wide: char -> bool) {
    if c < '\U{7f}' then ' ' <= c else c != '\U{7f}' && wide(c)
  }

  const DIGITS := "0123456789abcdef"

  /** The last `width` hexadecimal digits of a number. */
  function Hex(n: nat, width: nat): string {
    if width == 0 then "" else Hex(n / 16, width - 1) + [DIGITS[n % 16]]
  }

  /** One character inside `strconv.Quote`. */
  function QuoteChar(c: char, wide: char -> bool): string {
    if c == '"' || c == '\\' then ['\\', c]
    else if IsPrint(c, wide) then [c]
    else if c == '\U{7}' then "\\a"
    else if c == '\U{8}' then "\\b"
    else if c == '\U{c}' then "\\f"
    else if c == '\n' then "\\n"
    else if c == '\r' then "\\r"
    else if c == '\t' then "\\t"
    else if c == '\U{b}' then "\\v"
    else if c < ' ' || c == '\U{7f}' then "\\x" + Hex(c as int, 2)
    else if c as int < 0x10000 then "\\u" + Hex(c as int, 4)
    else "\\U" + Hex(c as int, 8)
  }

  /** `strconv.Quote` without its outer quotes. */
  function Quoted(s: string, wide: char -> bool): string {
    if s == [] then [] else QuoteChar(s[0], wide) + Quoted(s[1..], wide)
  }

  /** The characters that Go and OpenMetrics write alike. */
  predicate Shared(c: char, wide: char -> bool) {
    IsPrint(c, wide) || c == '\n'
  }

  /** What an OpenMetrics reader takes a quoted text to mean. */
  function Meant(s: string, wide: char -> bool): string {
    if s == [] then []
    else (if Shared(s[0], wide) then [s[0]] else QuoteChar(s[0], wide)) + Meant(s[1..], wide)
  }

  predicate Plain(s: string) {
    forall i :: 0 <= i < |s| ==> s[i] !in {'\\', '"', '\n'}
  }

  lemma {:induction false} HexIsPlain(n: nat, width: nat)
    ensures |Hex(n, width)| == width && Plain(Hex(n, width))
  {
    if width > 0 {
      HexIsPlain(n / 16, width - 1);
    }
  }

  /** An escape of Go's that OpenMetrics does not define: a backslash, a letter other than n, then plain text. */
  lemma UnsharedShape(c: char, wide: char -> bool)
    requires !Shared(c, wide)
    ensures |QuoteChar(c, wide)| >= 2 && QuoteChar(c, wide)[0] == '\\'
    ensures QuoteChar(c, wide)[1] !in {'n', '"', '\\', '\n'} && Plain(QuoteChar(c, wide)[2..])
  {
    HexIsPlain(c as int, 2);
    HexIsPlain(c as int, 4);
    HexIsPlain(c as int, 8);
  }

  lemma {:induction false} ReadPlain(t: string, s: string)
    requires Plain(t)
    ensures ReadString(t + s) == Prepend(t, ReadString(s))
  {
    if t == [] {
      assert t + s == s;
      if ReadString(s).Some? {
        assert t + ReadString(s).value.0 == ReadString(s).value.0;
      }
    } else {
      ReadPlain(t[1..], s);
      assert (t + s)[0] == t[0] && (t + s)[1..] == t[1..] + s;
      assert t == [t[0]] + t[1..];
      if ReadString(s).Some? {
        Associative([t[0]], t[1..], ReadString(s).value.0);
      }
    }
  }

  lemma ReadQuotedChar(c: char, wide: char -> bool, s: string)
    ensures ReadString(QuoteChar(c, wide) + s)
         == Prepend(if Shared(c, wide) then [c] else QuoteChar(c, wide), ReadString(s))
  {
    var q := QuoteChar(c, wide);
    if Shared(c, wide) {
      assert (q + s)[|q|..] == s;
    } else {
      UnsharedShape(c, wide);
      var digits := q[2..];
      assert q == q[..2] + digits;
      assert (q + s)[0] == q[0] && (q + s)[1] == q[1] && (q + s)[2..] == digits + s;
      ReadPlain(digits, s);
      assert q[..2] == ['\\', q[1]];
      if ReadString(s).Some? {
        Associative(q[..2], digits, ReadString(s).value.0);
      }
    }
  }

  lemma {:induction false} QuotedReadsAs(s: string, wide: char -> bool, rest: string)
    ensures ReadString(Quoted(s, wide) + "\"" + rest) == Some((Meant(s, wide), rest))
  {
    if s == [] {
      assert Quoted(s, wide) + "\"" + rest == "\"" + rest;
    } else {
      var tail := Quoted(s[1..], wide) + "\"" + rest;
      QuotedReadsAs(s[1..], wide, rest);
      assert Quoted(s, wide) + "\"" + rest == QuoteChar(s[0], wide) + tail;
      ReadQuotedChar(s[0], wide, tail);
    }
  }

  lemma {:induction false} MeantIsSelfIff(s: string, wide: char -> bool)
    ensures |Meant(s, wide)| >= |s|
    ensures Meant(s, wide) == s <==> forall c :: c in s ==> Shared(c, wide)
  {
    if s != [] {
      MeantIsSelfIff(s[1..], wide);
      assert s == [s[0]] + s[1..];
      if Shared(s[0], wide) {
        assert Meant(s, wide)[1..] == Meant(s[1..], wide);
      } else {
        UnsharedShape(s[0], wide);
        assert |Meant(s, wide)| > |s|;
      }
    }
  }

  /** A text written with `%q` reads back as it was exactly when Go finds its characters printable or newlines. */
  lemma {:induction false} QuotedReadsBackIff(s: string, wide: char -> bool, rest: string)
    ensures ReadString(Quoted(s, wide) + "\"" + rest) == Some((s, rest))
       <==> forall c :: c in s ==> Shared(c, wide)
  {
    QuotedReadsAs(s, wide, rest);
    MeantIsSelfIff(s, wide);
  }

  lemma QuotedCharHasNoNewline(c: char, wide: char -> bool)
    ensures '\n' !in QuoteChar(c, wide)
  {
    if !Shared(c, wide) {
      UnsharedShape(c, wide);
      var q := QuoteChar(c, wide);
      assert q == [q[0]] + [q[1]] + q[2..];
    }
  }

  lemma {:induction false} QuotedHasNoNewline(s: string, wide: char -> bool)
    ensures '\n' !in Quoted(s, wide)
  {
    if s != [] {
      QuotedHasNoNewline(s[1..], wide);
      QuotedCharHasNoNewline(s[0], wide);
    }
  }
}
