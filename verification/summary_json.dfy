/** The `summary` field of revisionai2.py's result is itself JSON text: the
    pipeline stores `json.dumps({"summary": s, "web_links": links})` and
    app2.py reads it back with `json.loads`. This module models both ends for
    that one object: `json.dumps` with its defaults (`ensure_ascii=True`,
    separators `", "` and `": "`, keys in insertion order), and `json.loads`
    on the text layout that `json.dumps` produces. */
module SummaryJson {
  import opened Wrappers

  /** Printable ASCII, the only characters `json.dumps` emits by default. */
  predicate IsPrintableAscii(c: char) {
    ' ' <= c <= '~'
  }

  predicate AllPrintableAscii(s: string) {
    forall k :: 0 <= k < |s| ==> IsPrintableAscii(s[k])
  }

  predicate StartsWith(s: string, prefix: string) {
    |prefix| <= |s| && s[..|prefix|] == prefix
  }

  /** The lower-case hexadecimal digit for `d`. */
  function HexDigit(d: nat): (c: char)
    requires d < 16
    ensures IsPrintableAscii(c)
  {
    if d < 10 then ('0' as int + d) as char else ('a' as int + d - 10) as char
  }

  /** The value of a hexadecimal digit of either case. */
  function HexValue(c: char): Option<nat> {
    if '0' <= c <= '9' then Some(c as int - '0' as int)
    else if 'a' <= c <= 'f' then Some(c as int - 'a' as int + 10)
    else if 'A' <= c <= 'F' then Some(c as int - 'A' as int + 10)
    else None
  }

  /** `'{0:04x}'.format(n)`. */
  function Hex4(n: nat): (r: string)
    requires n < 0x10000
    ensures |r| == 4
  {
    [HexDigit(n / 0x1000), HexDigit(n / 0x100 % 16), HexDigit(n / 16 % 16), HexDigit(n % 16)]
  }

  /** The four hexadecimal digits at the front of `s`, as a number. */
  function ParseHex4(s: string): (r: Option<nat>)
    requires |s| >= 4
    ensures r.Some? ==> r.value < 0x10000
  {
    match (HexValue(s[0]), HexValue(s[1]), HexValue(s[2]), HexValue(s[3]))
    case (Some(a), Some(b), Some(c), Some(d)) =>
      assert a < 16 && b < 16 && c < 16 && d < 16;
      Some(a * 0x1000 + b * 0x100 + c * 16 + d)
    case _ => None
  }

  lemma HexDigitRoundTrip(d: nat)
    requires d < 16
    ensures HexValue(HexDigit(d)) == Some(d)
  {
  }

  /** The four digits of `Hex4(n)` weigh back to `n`. */
  lemma Hex4Digits(n: nat)
    requires n < 0x10000
    ensures (n / 0x1000) * 0x1000 + (n / 0x100 % 16) * 0x100 + (n / 16 % 16) * 16 + n % 16 == n
  {
    var q1 := n / 16;
    var q2 := q1 / 16;
    assert n == q1 * 16 + n % 16;
    assert q1 == q2 * 16 + q1 % 16;
    assert q2 == (q2 / 16) * 16 + q2 % 16;
    assert q2 == n / 0x100;
    assert q2 / 16 == n / 0x1000;
  }

  lemma Hex4RoundTrip(n: nat, rest: string)
    requires n < 0x10000
    ensures ParseHex4(Hex4(n) + rest) == Some(n)
  {
    var s := Hex4(n) + rest;
    var a, b, c, d := n / 0x1000, n / 0x100 % 16, n / 16 % 16, n % 16;
    HexDigitRoundTrip(a);
    HexDigitRoundTrip(b);
    HexDigitRoundTrip(c);
    HexDigitRoundTrip(d);
    assert s[0] == HexDigit(a) && s[1] == HexDigit(b) && s[2] == HexDigit(c) && s[3] == HexDigit(d);
    Hex4Digits(n);
  }

  /** How `json.dumps` writes one character of a string (`ensure_ascii`): the
      two-character escapes for `"`, `\` and five control characters, printable
      ASCII as it is, anything else as `\uXXXX`, and characters beyond the
      Basic Multilingual Plane as a surrogate pair of two such escapes. */
  function Escape(c: char): (r: string)
    ensures 2 <= |r| || (|r| == 1 && r[0] == c)
    ensures r[0] != '"'
  {
    if c == '"' then "\\\""
    else if c == '\\' then "\\\\"
    else if c == '\n' then "\\n"
    else if c == '\r' then "\\r"
    else if c == '\t' then "\\t"
    else if c == '\U{8}' then "\\b"
    else if c == '\U{C}' then "\\f"
    else if IsPrintableAscii(c) then [c]
    else if c as int < 0x10000 then "\\u" + Hex4(c as int)
    else
      var v := c as int - 0x10000;
      "\\u" + Hex4(0xD800 + v / 0x400) + "\\u" + Hex4(0xDC00 + v % 0x400)
  }

  /** The body of a JSON string literal for `x`. */
  function EncodeChars(x: string): string {
    if x == [] then "" else Escape(x[0]) + EncodeChars(x[1..])
  }

  /** `json.dumps` of a string. */
  function EncodeString(x: string): string {
    "\"" + EncodeChars(x) + "\""
  }

  /** The elements of a JSON array of strings, separated by `", "`. */
  function EncodeItems(xs: seq<string>): string {
    if xs == [] then ""
    else if |xs| == 1 then EncodeString(xs[0])
    else EncodeString(xs[0]) + ", " + EncodeItems(xs[1..])
  }

  const SummaryPrefix := "{\"summary\": \""
  const LinksPrefix := ", \"web_links\": ["

  /** `json.dumps({"summary": summary, "web_links": links})`, that is
      `{"summary": "…", "web_links": ["…", "…"]}`.
      The result is plain printable ASCII, whatever the model wrote:
      `ensure_ascii` escapes everything else. */
  function Encode(summary: string, links: seq<string>): (r: string)
    ensures AllPrintableAscii(r)
  {
    EncodeCharsAscii(summary);
    EncodeItemsAscii(links);
    FixedPartsAscii();
    AsciiJoin(SummaryPrefix, EncodeChars(summary), "\"", LinksPrefix, EncodeItems(links), "]}");
    SummaryPrefix + EncodeChars(summary) + "\"" + LinksPrefix + EncodeItems(links) + "]}"
  }

  /** The four hexadecimal digits after `\u` (and, for a high surrogate, the
      `\uXXXX` low surrogate after them), decoded to one character. A lone
      surrogate, which Python keeps in its `str`, is not a character here and
      is refused. */
  function DecodeUnicode(s: string): (r: Option<(char, string)>)
    ensures r.Some? ==> |r.value.1| < |s|
  {
    if |s| < 4 then None
    else match ParseHex4(s)
      case None => None
      case Some(u) =>
        if 0xD800 <= u < 0xDC00 then
          if |s| >= 10 && s[4] == '\\' && s[5] == 'u' then
            match ParseHex4(s[6..])
            case Some(l) =>
              if 0xDC00 <= l < 0xE000 then
                Some(((0x10000 + (u - 0xD800) * 0x400 + (l - 0xDC00)) as char, s[10..]))
              else None
            case None => None
          else None
        else if 0xDC00 <= u < 0xE000 then None
        else Some((u as char, s[4..]))
  }

  /** The character named by the escape after a backslash. */
  function DecodeEscape(s: string): (r: Option<(char, string)>)
    ensures r.Some? ==> |r.value.1| < |s|
  {
    if s == [] then None
    else if s[0] == '"' then Some(('"', s[1..]))
    else if s[0] == '\\' then Some(('\\', s[1..]))
    else if s[0] == '/' then Some(('/', s[1..]))
    else if s[0] == 'b' then Some(('\U{8}', s[1..]))
    else if s[0] == 'f' then Some(('\U{C}', s[1..]))
    else if s[0] == 'n' then Some(('\n', s[1..]))
    else if s[0] == 'r' then Some(('\r', s[1..]))
    else if s[0] == 't' then Some(('\t', s[1..]))
    else if s[0] == 'u' then DecodeUnicode(s[1..])
    else None
  }

  /** One character of a string literal's body (the caller has checked it is
      not the closing quote). Raw control characters are refused, as
      `json.loads` does by default. */
  function DecodeChar(s: string): (r: Option<(char, string)>)
    requires s != []
    ensures r.Some? ==> |r.value.1| < |s|
  {
    if s[0] == '\\' then DecodeEscape(s[1..])
    else if s[0] < ' ' then None
    else Some((s[0], s[1..]))
  }

  /** The body of a string literal up to its closing quote: the decoded string
      and the text after the quote. */
  function DecodeChars(s: string): (r: Option<(string, string)>)
    ensures r.Some? ==> |r.value.1| < |s|
    decreases |s|
  {
    if s == [] then None
    else if s[0] == '"' then Some(("", s[1..]))
    else
      match DecodeChar(s)
      case None => None
      case Some((c, rest)) =>
        match DecodeChars(rest)
        case None => None
        case Some((x, after)) => Some(([c] + x, after))
  }

  /** The elements of a non-empty array of strings up to its closing `]`. */
  function DecodeItems(s: string): (r: Option<(seq<string>, string)>)
    ensures r.Some? ==> |r.value.1| < |s|
    decreases |s|
  {
    if s == [] || s[0] != '"' then None
    else
      match DecodeChars(s[1..])
      case None => None
      case Some((x, rest)) =>
        if StartsWith(rest, ", ") then
          match DecodeItems(rest[2..])
          case None => None
          case Some((xs, after)) => Some(([x] + xs, after))
        else if StartsWith(rest, "]") then Some(([x], rest[1..]))
        else None
  }

  /** An array of strings after its opening `[`. */
  function DecodeList(s: string): Option<(seq<string>, string)> {
    if StartsWith(s, "]") then Some(([], s[1..])) else DecodeItems(s)
  }

  /** `json.loads` of the stored summary, read as the pair (`summary`,
      `web_links`); `None` where `json.loads` would raise. */
  function Decode(s: string): (r: Option<(string, seq<string>)>)
    ensures r.Some? ==> StartsWith(s, SummaryPrefix) && |s| > |SummaryPrefix|
  {
    if !StartsWith(s, SummaryPrefix) then None
    else
      match DecodeChars(s[|SummaryPrefix|..])
      case None => None
      case Some((summary, rest)) =>
        if !StartsWith(rest, LinksPrefix) then None
        else
          match DecodeList(rest[|LinksPrefix|..])
          case None => None
          case Some((links, after)) => if after == "}" then Some((summary, links)) else None
  }

  /** Decoding the escape of a character gives the character back, and what
      follows the escape is left as it was. */
  lemma EscapeRoundTrip(c: char, tail: string)
    ensures DecodeChar(Escape(c) + tail) == Some((c, tail))
  {
    if c == '"' || c == '\\' || c == '\n' || c == '\r' || c == '\t' || c == '\U{8}' || c == '\U{C}' {
      var s := Escape(c) + tail;
      assert |Escape(c)| == 2 && s[0] == '\\';
      assert s[1..][1..] == tail;
    } else if IsPrintableAscii(c) {
      var s := Escape(c) + tail;
      assert s[1..] == tail;
    } else if c as int < 0x10000 {
      BmpEscapeRoundTrip(c, tail);
    } else {
      SurrogateEscapeRoundTrip(c, tail);
    }
  }

  lemma BmpEscapeRoundTrip(c: char, tail: string)
    requires !IsPrintableAscii(c) && c != '\n' && c != '\r' && c != '\t' && c != '\U{8}' && c != '\U{C}'
    requires c as int < 0x10000
    ensures DecodeChar(Escape(c) + tail) == Some((c, tail))
  {
    var h := Hex4(c as int);
    BmpEscapeForm(c);
    var u := h + tail;
    Assoc("\\u", h, tail);
    EscapeTail(u);
    Hex4RoundTrip(c as int, tail);
    assert u[4..] == tail;
  }

  lemma BmpEscapeForm(c: char)
    requires !IsPrintableAscii(c) && c != '\n' && c != '\r' && c != '\t' && c != '\U{8}' && c != '\U{C}'
    requires c as int < 0x10000
    ensures Escape(c) == "\\u" + Hex4(c as int)
  {
  }

  lemma EscapeTail(u: string)
    ensures var s := "\\u" + u; s[0] == '\\' && s[1..] == "u" + u && s[1..][1..] == u
  {
  }

  lemma SurrogateEscapeRoundTrip(c: char, tail: string)
    requires c as int >= 0x10000
    ensures DecodeChar(Escape(c) + tail) == Some((c, tail))
  {
    var v := c as int - 0x10000;
    var hi, lo := 0xD800 + v / 0x400, 0xDC00 + v % 0x400;
    SurrogatePairSplit(c as int);
    var u := Hex4(hi) + ("\\u" + Hex4(lo) + tail);
    SurrogateEscapeForm(c);
    var s := Escape(c) + tail;
    assert s == "\\u" + u;
    SurrogatePairDecodes(hi, lo, c, tail);
    UnicodeEscapeDecodes(u, c, tail);
    assert DecodeChar(s) == DecodeChar("\\u" + u);
  }

  /** A backslash and `u` hand the rest to `DecodeUnicode`. */
  lemma UnicodeEscapeDecodes(u: string, ch: char, tail: string)
    requires DecodeUnicode(u) == Some((ch, tail))
    ensures DecodeChar("\\u" + u) == Some((ch, tail))
  {
    var s := "\\u" + u;
    assert s[1..] == "u" + u && s[1..][1..] == u;
  }

  lemma SurrogateEscapeForm(c: char)
    requires c as int >= 0x10000
    ensures var v := c as int - 0x10000;
      Escape(c) == "\\u" + Hex4(0xD800 + v / 0x400) + "\\u" + Hex4(0xDC00 + v % 0x400)
  {
  }

  /** The two halves of a surrogate pair put back together. */
  lemma SurrogatePairSplit(n: int)
    requires 0x10000 <= n < 0x110000
    ensures var v := n - 0x10000;
      && 0xD800 <= 0xD800 + v / 0x400 < 0xDC00
      && 0xDC00 <= 0xDC00 + v % 0x400 < 0xE000
      && 0x10000 + (v / 0x400) * 0x400 + v % 0x400 == n
  {
  }

  lemma SurrogatePairDecodes(hi: nat, lo: nat, c: char, tail: string)
    requires 0xD800 <= hi < 0xDC00 && 0xDC00 <= lo < 0xE000
    requires c as int == 0x10000 + (hi - 0xD800) * 0x400 + (lo - 0xDC00)
    ensures DecodeUnicode(Hex4(hi) + ("\\u" + Hex4(lo) + tail)) == Some((c, tail))
  {
    var u := Hex4(hi) + ("\\u" + Hex4(lo) + tail);
    Hex4RoundTrip(hi, "\\u" + Hex4(lo) + tail);
    assert u[4] == '\\' && u[5] == 'u';
    assert u[6..] == Hex4(lo) + tail;
    Hex4RoundTrip(lo, tail);
    assert u[10..] == tail;
  }

  /** Decoding a string body produced by `EncodeChars`, followed by its closing
      quote, gives the string back and leaves what follows the quote. */
  lemma {:induction false} CharsRoundTrip(x: string, rest: string)
    ensures DecodeChars(EncodeChars(x) + "\"" + rest) == Some((x, rest))
    decreases |x|
  {
    if x == [] {
      assert EncodeChars(x) + "\"" + rest == "\"" + rest;
    } else {
      var tail := EncodeChars(x[1..]) + "\"" + rest;
      CharsLayout(x, rest);
      EscapeRoundTrip(x[0], tail);
      CharsRoundTrip(x[1..], rest);
      assert [x[0]] + x[1..] == x;
    }
  }

  lemma CharsLayout(x: string, rest: string)
    requires x != []
    ensures EncodeChars(x) + "\"" + rest == Escape(x[0]) + (EncodeChars(x[1..]) + "\"" + rest)
  {
    var e, c := Escape(x[0]), EncodeChars(x[1..]);
    assert EncodeChars(x) == e + c;
    Assoc3(e, c, "\"", rest);
  }

  /** A printable ASCII string with no quote and no backslash: `json.dumps`
      copies it as it is. */
  predicate Plain(x: string) {
    forall k :: 0 <= k < |x| ==> IsPrintableAscii(x[k]) && x[k] != '"' && x[k] != '\\'
  }

  lemma {:induction false} PlainEncodesAsItself(x: string)
    requires Plain(x)
    ensures EncodeChars(x) == x
    decreases |x|
  {
    if x != [] {
      assert Escape(x[0]) == [x[0]];
      PlainEncodesAsItself(x[1..]);
      assert [x[0]] + x[1..] == x;
    }
  }

  /** A plain summary with no links is encoded by writing it between the
      fixed parts of the object. */
  lemma EncodePlainNoLinks(x: string)
    requires Plain(x)
    ensures Encode(x, []) == SummaryPrefix + x + "\"" + LinksPrefix + "]}"
  {
    PlainEncodesAsItself(x);
    assert EncodeItems([]) == "";
  }

  /** A string literal written by `EncodeString` reads back as its string,
      leaving what follows it. */
  lemma StringRoundTrip(x: string, after: string)
    ensures var s := EncodeString(x) + after;
      s != [] && s[0] == '"' && DecodeChars(s[1..]) == Some((x, after))
  {
    var s := EncodeString(x) + after;
    assert s[1..] == EncodeChars(x) + "\"" + after;
    CharsRoundTrip(x, after);
  }

  lemma {:induction false} ItemsRoundTrip(xs: seq<string>, rest: string)
    requires xs != []
    ensures DecodeItems(EncodeItems(xs) + "]" + rest) == Some((xs, rest))
    decreases |xs|
  {
    if |xs| == 1 {
      LastItemLayout(xs, rest);
      LastItemRoundTrip(xs[0], rest);
    } else {
      ItemsLayout(xs, rest);
      ItemsRoundTrip(xs[1..], rest);
      ItemThenMore(xs[0], EncodeItems(xs[1..]) + "]" + rest, xs[1..], rest);
    }
  }

  lemma LastItemLayout(xs: seq<string>, rest: string)
    requires |xs| == 1
    ensures EncodeItems(xs) + "]" + rest == EncodeString(xs[0]) + ("]" + rest)
    ensures xs == [xs[0]]
  {
    Assoc(EncodeString(xs[0]), "]", rest);
  }

  lemma ItemsLayout(xs: seq<string>, rest: string)
    requires |xs| > 1
    ensures EncodeItems(xs) + "]" + rest == EncodeString(xs[0]) + (", " + (EncodeItems(xs[1..]) + "]" + rest))
    ensures xs == [xs[0]] + xs[1..]
  {
    var e, m := EncodeString(xs[0]), EncodeItems(xs[1..]);
    assert EncodeItems(xs) == e + ", " + m;
    Assoc4(e, ", ", m, "]", rest);
  }

  lemma Assoc(a: string, b: string, c: string)
    ensures a + b + c == a + (b + c)
  {
  }

  lemma Assoc3(a: string, b: string, c: string, d: string)
    ensures (a + b) + c + d == a + (b + c + d)
  {
  }

  lemma Assoc4(a: string, b: string, c: string, d: string, e: string)
    ensures a + b + c + d + e == a + (b + (c + d + e))
  {
  }

  /** The last element of an array reads back, and decoding stops after `]`. */
  lemma LastItemRoundTrip(x: string, rest: string)
    ensures DecodeItems(EncodeString(x) + ("]" + rest)) == Some(([x], rest))
  {
    StringRoundTrip(x, "]" + rest);
    ClosingBracket(rest);
  }

  /** An element followed by `, ` and more elements reads back as that element
      in front of what the rest reads back as. */
  lemma ItemThenMore(x: string, more: string, ys: seq<string>, rest: string)
    requires DecodeItems(more) == Some((ys, rest))
    ensures DecodeItems(EncodeString(x) + (", " + more)) == Some(([x] + ys, rest))
  {
    StringRoundTrip(x, ", " + more);
    Separator(more);
  }

  lemma ClosingBracket(rest: string)
    ensures !StartsWith("]" + rest, ", ") && StartsWith("]" + rest, "]") && ("]" + rest)[1..] == rest
  {
    var t := "]" + rest;
    if |t| >= 2 {
      assert t[..2][0] == ']';
    }
  }

  lemma Separator(more: string)
    ensures StartsWith(", " + more, ", ") && (", " + more)[2..] == more
  {
  }

  lemma EncodeItemsOpensWithQuote(xs: seq<string>)
    requires xs != []
    ensures |EncodeItems(xs)| > 0 && EncodeItems(xs)[0] == '"'
  {
    var c := EncodeChars(xs[0]);
    OpensWith("\"", c + "\"");
    if |xs| > 1 {
      OpensWith(EncodeString(xs[0]), ", " + EncodeItems(xs[1..]));
    }
  }

  lemma OpensWith(a: string, b: string)
    requires a != []
    ensures |a + b| > 0 && (a + b)[0] == a[0]
  {
  }

  lemma ListRoundTrip(xs: seq<string>, rest: string)
    ensures DecodeList(EncodeItems(xs) + "]" + rest) == Some((xs, rest))
  {
    var s := EncodeItems(xs) + "]" + rest;
    if xs == [] {
      assert s == "]" + rest && s[1..] == rest;
    } else {
      EncodeItemsOpensWithQuote(xs);
      assert s[0] == EncodeItems(xs)[0];
      ItemsRoundTrip(xs, rest);
    }
  }

  /** `Decode` accepts a text made of the two prefixes, a string body and a
      list, and returns what those decode to. */
  lemma DecodeParts(s: string, summary: string, links: seq<string>, afterSummary: string)
    requires StartsWith(s, SummaryPrefix)
    requires DecodeChars(s[|SummaryPrefix|..]) == Some((summary, afterSummary))
    requires StartsWith(afterSummary, LinksPrefix)
    requires DecodeList(afterSummary[|LinksPrefix|..]) == Some((links, "}"))
    ensures Decode(s) == Some((summary, links))
  {
  }

  lemma Regroup(p: string, c: string, d: string, q: string, i: string, e: string, e1: string, e2: string)
    requires e == e1 + e2
    ensures p + c + d + q + i + e == p + (c + d + (q + (i + e1 + e2)))
  {
  }

  /** The encoded object, grouped as the decoder reads it. */
  lemma EncodeLayout(summary: string, links: seq<string>)
    ensures Encode(summary, links)
      == SummaryPrefix + (EncodeChars(summary) + "\"" + (LinksPrefix + (EncodeItems(links) + "]" + "}")))
  {
    assert "]}" == "]" + "}";
    Regroup(SummaryPrefix, EncodeChars(summary), "\"", LinksPrefix, EncodeItems(links), "]}", "]", "}");
  }

  lemma PrefixSplit(p: string, t: string)
    ensures StartsWith(p + t, p) && (p + t)[|p|..] == t
  {
    assert (p + t)[..|p|] == p;
  }

  /** app2.py's `json.loads` recovers exactly the summary text and links that
      revisionai2.py's `json.dumps` encoded. */
  lemma DecodeEncode(summary: string, links: seq<string>)
    ensures Decode(Encode(summary, links)) == Some((summary, links))
  {
    var afterSummary := LinksPrefix + (EncodeItems(links) + "]" + "}");
    EncodeLayout(summary, links);
    PrefixSplit(SummaryPrefix, EncodeChars(summary) + "\"" + afterSummary);
    CharsRoundTrip(summary, afterSummary);
    PrefixSplit(LinksPrefix, EncodeItems(links) + "]" + "}");
    ListRoundTrip(links, "}");
    DecodeParts(Encode(summary, links), summary, links, afterSummary);
  }

  lemma Hex4Ascii(n: nat)
    requires n < 0x10000
    ensures AllPrintableAscii(Hex4(n))
  {
  }

  lemma EscapeAscii(c: char)
    ensures AllPrintableAscii(Escape(c))
  {
    if !IsPrintableAscii(c) && c as int < 0x10000 {
      Hex4Ascii(c as int);
    } else if c as int >= 0x10000 {
      var v := c as int - 0x10000;
      Hex4Ascii(0xD800 + v / 0x400);
      Hex4Ascii(0xDC00 + v % 0x400);
    }
  }

  lemma {:induction false} EncodeCharsAscii(x: string)
    ensures AllPrintableAscii(EncodeChars(x))
    decreases |x|
  {
    if x != [] {
      EscapeAscii(x[0]);
      EncodeCharsAscii(x[1..]);
    }
  }

  lemma {:induction false} EncodeItemsAscii(xs: seq<string>)
    ensures AllPrintableAscii(EncodeItems(xs))
    decreases |xs|
  {
    if xs != [] {
      EncodeCharsAscii(xs[0]);
    }
    if |xs| > 1 {
      EncodeItemsAscii(xs[1..]);
    }
  }

  lemma AsciiConcat(a: string, b: string)
    requires AllPrintableAscii(a) && AllPrintableAscii(b)
    ensures AllPrintableAscii(a + b)
  {
    assert forall k :: 0 <= k < |a + b| ==> (a + b)[k] == if k < |a| then a[k] else b[k - |a|];
  }

  lemma FixedPartsAscii()
    ensures AllPrintableAscii(SummaryPrefix) && AllPrintableAscii(LinksPrefix)
    ensures AllPrintableAscii("\"") && AllPrintableAscii("]}")
  {
  }

  lemma AsciiJoin(a: string, b: string, c: string, d: string, e: string, f: string)
    requires AllPrintableAscii(a) && AllPrintableAscii(b) && AllPrintableAscii(c)
    requires AllPrintableAscii(d) && AllPrintableAscii(e) && AllPrintableAscii(f)
    ensures AllPrintableAscii(a + b + c + d + e + f)
  {
    AsciiConcat(a, b);
    AsciiConcat(a + b, c);
    AsciiConcat(a + b + c, d);
    AsciiConcat(a + b + c + d, e);
    AsciiConcat(a + b + c + d + e, f);
  }
}
