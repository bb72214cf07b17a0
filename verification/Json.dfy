/** JSON.stringify on strings, string arrays and header objects, and a reader for
    the grammar of section 7 of RFC 8259 that shows the encoding of a cache key can be undone. */
module Json {
  import opened Text

  /** A header value: single, or one array element per repeated row. */
  datatype HeaderValue = Single(text: string) | Rows(rows: seq<string>) | Number(n: nat) | Absent

  type Headers = seq<(string, HeaderValue)>

  function HexDigit(n: nat): (c: char)
    requires n < 16
    ensures HexValue(c) == Some(n)
  {
    if n < 10 then '0' + n as char else 'a' + (n - 10) as char
  }

  function HexValue(c: char): (r: Option<nat>)
    ensures r.Some? ==> r.value < 16
  {
    if '0' <= c <= '9' then Some(c as nat - '0' as nat)
    else if 'a' <= c <= 'f' then Some(c as nat - 'a' as nat + 10)
    else if 'A' <= c <= 'F' then Some(c as nat - 'A' as nat + 10)
    else None
  }

  function EscapeChar(c: char): string {
    if c == '"' then "\\\""
    else if c == '\\' then "\\\\"
    else if c == '\U{8}' then "\\b"
    else if c == '\t' then "\\t"
    else if c == '\n' then "\\n"
    else if c == '\U{c}' then "\\f"
    else if c == '\r' then "\\r"
    else if c < ' ' then "\\u00" + [HexDigit(c as nat / 16), HexDigit(c as nat % 16)]
    else [c]
  }

  function Escape(s: string): string {
    if s == [] then "" else EscapeChar(s[0]) + Escape(s[1..])
  }

  function Quote(s: string): string {
    "\"" + Escape(s) + "\""
  }

  function Elements(list: seq<string>): string {
    if list == [] then ""
    else if |list| == 1 then Quote(list[0])
    else Quote(list[0]) + ("," + Elements(list[1..]))
  }

  function QuoteList(list: seq<string>): string {
    "[" + Elements(list) + "]"
  }

  function Decimal(n: nat): string {
    (if n < 10 then "" else Decimal(n / 10)) + [HexDigit(n % 10)]
  }

  /** The members of a header object; undefined values are skipped. */
  function Members(headers: Headers): seq<string> {
    if headers == [] then []
    else
      var (name, value) := headers[0];
      var rest := Members(headers[1..]);
      match value
      case Absent => rest
      case Single(text) => [Quote(name) + ":" + Quote(text)] + rest
      case Rows(rows) => [Quote(name) + ":" + QuoteList(rows)] + rest
      case Number(n) => [Quote(name) + ":" + Decimal(n)] + rest
  }

  function StringifyHeaders(headers: Headers): string {
    "{" + Join(Members(headers), ",") + "}"
  }

  /** Buffer.byteLength: bytes of the UTF-8 encoding. */
  function ByteLength(s: string): nat {
    if s == [] then 0
    else
      (if s[0] < '\U{80}' then 1 else if s[0] < '\U{800}' then 2 else if s[0] < '\U{10000}' then 3 else 4)
      + ByteLength(s[1..])
  }

  /** The key under which the proxy stores a response. */
  function RequestKey(sessionId: string, url: string, encodings: seq<string>): string {
    "[" + (Quote(sessionId) + ("," + (Quote(url) + ("," + (QuoteList(encodings) + "]")))))
  }

  // ----- reading it back -----

  function ShortEscape(c: char): Option<char> {
    if c == '"' || c == '\\' || c == '/' then Some(c)
    else if c == 'b' then Some('\U{8}')
    else if c == 't' then Some('\t')
    else if c == 'n' then Some('\n')
    else if c == 'f' then Some('\U{c}')
    else if c == 'r' then Some('\r')
    else None
  }

  function HexQuad(s: string): (r: Option<char>)
    requires |s| == 4
  {
    match (HexValue(s[0]), HexValue(s[1]), HexValue(s[2]), HexValue(s[3]))
    case (Some(a), Some(b), Some(c), Some(d)) =>
      var n := ((a * 16 + b) * 16 + c) * 16 + d;
      if 0xd800 <= n < 0xe000 then None else Some(n as char)
    case _ => None
  }

  /** Reads one possibly escaped character, never a bare quote. */
  function ReadChar(s: string): (r: Option<(char, string)>)
    ensures r.Some? ==> |r.value.1| < |s|
  {
    if s == [] || s[0] < ' ' || s[0] == '"' then None
    else if s[0] != '\\' then Some((s[0], s[1..]))
    else if |s| >= 6 && s[1] == 'u' then
      match HexQuad(s[2..6])
      case Some(c) => Some((c, s[6..]))
      case None => None
    else if |s| >= 2 then
      match ShortEscape(s[1])
      case Some(c) => Some((c, s[2..]))
      case None => None
    else None
  }

  /** The string whose body starts here, and what follows its closing quote. */
  function ReadBody(s: string): (r: Option<(string, string)>)
    ensures r.Some? ==> |r.value.1| < |s|
    decreases |s|
  {
    if s != [] && s[0] == '"' then Some(("", s[1..]))
    else
      match ReadChar(s)
      case None => None
      case Some(p) =>
        match ReadBody(p.1)
        case None => None
        case Some(q) => Some(([p.0] + q.0, q.1))
  }

  function ReadString(s: string): (r: Option<(string, string)>)
    ensures r.Some? ==> |r.value.1| < |s|
  {
    if s != [] && s[0] == '"' then ReadBody(s[1..]) else None
  }

  function ReadElements(s: string): (r: Option<(seq<string>, string)>)
    decreases |s|
  {
    match ReadString(s)
    case None => None
    case Some(p) =>
      if p.1 != [] && p.1[0] == ']' then Some(([p.0], p.1[1..]))
      else if p.1 != [] && p.1[0] == ',' then
        match ReadElements(p.1[1..])
        case None => None
        case Some(q) => Some(([p.0] + q.0, q.1))
      else None
  }

  function ReadList(s: string): Option<(seq<string>, string)> {
    if s == [] || s[0] != '[' then None
    else if |s| > 1 && s[1] == ']' then Some(([], s[2..]))
    else ReadElements(s[1..])
  }

  /** The session, URL and encodings a key was made from. */
  function ReadKey(s: string): Option<(string, string, seq<string>)> {
    if s == [] || s[0] != '[' then None
    else
      match ReadString(s[1..])
      case None => None
      case Some(p) =>
        if p.1 == [] || p.1[0] != ',' then None
        else
          match ReadString(p.1[1..])
          case None => None
          case Some(q) =>
            if q.1 == [] || q.1[0] != ',' then None
            else
              match ReadList(q.1[1..])
              case Some((list, rest)) => if rest == "]" then Some((p.0, q.0, list)) else None
              case None => None
  }

  lemma ReadEscapedChar(c: char, rest: string)
    ensures ReadChar(EscapeChar(c) + rest) == Some((c, rest))
    ensures EscapeChar(c) != [] && EscapeChar(c)[0] != '"'
  {
    var e := EscapeChar(c);
    var s := e + rest;
    assert s[|e|..] == rest;
    if c < ' ' && |e| == 6 {
      assert s[2..6] == ['0', '0', HexDigit(c as nat / 16), HexDigit(c as nat % 16)];
    }
  }

  lemma {:induction false} ReadEscaped(s: string, rest: string)
    ensures ReadBody(Escape(s) + ("\"" + rest)) == Some((s, rest))
  {
    if s == [] {
      assert Escape(s) + ("\"" + rest) == "\"" + rest;
      assert ("\"" + rest)[1..] == rest;
    } else {
      var tail := Escape(s[1..]) + ("\"" + rest);
      Assoc(EscapeChar(s[0]), Escape(s[1..]), "\"" + rest);
      ReadEscapedChar(s[0], tail);
      ReadEscaped(s[1..], rest);
      assert [s[0]] + s[1..] == s;
    }
  }

  /** A quoted string is read back whole, whatever follows it. */
  lemma ReadQuoted(s: string, rest: string)
    ensures ReadString(Quote(s) + rest) == Some((s, rest))
  {
    Assoc("\"" + Escape(s), "\"", rest);
    Assoc("\"", Escape(s), "\"" + rest);
    assert ("\"" + (Escape(s) + ("\"" + rest)))[1..] == Escape(s) + ("\"" + rest);
    ReadEscaped(s, rest);
  }

  lemma {:induction false} ReadQuotedElements(list: seq<string>, rest: string)
    requires list != []
    ensures ReadElements(Elements(list) + ("]" + rest)) == Some((list, rest))
  {
    if |list| == 1 {
      ReadQuoted(list[0], "]" + rest);
      assert [list[0]] == list;
      assert ("]" + rest)[1..] == rest;
    } else {
      var next := Elements(list[1..]) + ("]" + rest);
      Assoc(Quote(list[0]), "," + Elements(list[1..]), "]" + rest);
      Assoc(",", Elements(list[1..]), "]" + rest);
      ReadQuoted(list[0], "," + next);
      assert ("," + next)[1..] == next;
      ReadQuotedElements(list[1..], rest);
      assert [list[0]] + list[1..] == list;
    }
  }

  lemma ReadQuotedList(list: seq<string>, rest: string)
    ensures ReadList(QuoteList(list) + rest) == Some((list, rest))
  {
    var tail := Elements(list) + ("]" + rest);
    Assoc("[" + Elements(list), "]", rest);
    Assoc("[", Elements(list), "]" + rest);
    assert ("[" + tail)[1..] == tail;
    if list == [] {
      assert tail == "]" + rest;
      assert ("[" + tail)[2..] == rest;
    } else {
      ReadQuotedElements(list, rest);
      assert tail[0] == Elements(list)[0] == '"';
    }
  }

  /** A cache key determines the session, the raw URL and the list of encodings. */
  lemma KeyRoundTrip(sessionId: string, url: string, encodings: seq<string>)
    ensures ReadKey(RequestKey(sessionId, url, encodings)) == Some((sessionId, url, encodings))
  {
    var afterUrl := "," + (QuoteList(encodings) + "]");
    var afterId := "," + (Quote(url) + afterUrl);
    var key := "[" + (Quote(sessionId) + afterId);
    assert key[1..] == Quote(sessionId) + afterId;
    ReadQuoted(sessionId, afterId);
    assert afterId[1..] == Quote(url) + afterUrl;
    ReadQuoted(url, afterUrl);
    assert afterUrl[1..] == QuoteList(encodings) + "]";
    ReadQuotedList(encodings, "]");
  }

  lemma KeyInjective(s1: string, u1: string, e1: seq<string>, s2: string, u2: string, e2: seq<string>)
    requires RequestKey(s1, u1, e1) == RequestKey(s2, u2, e2)
    ensures s1 == s2 && u1 == u2 && e1 == e2
  {
    KeyRoundTrip(s1, u1, e1);
    KeyRoundTrip(s2, u2, e2);
  }

  lemma {:induction false} ByteLengthBound(s: string)
    ensures ByteLength(s) <= 4 * |s|
  {
    if s != [] {
      ByteLengthBound(s[1..]);
    }
  }

  lemma {:induction false} EscapeBound(s: string)
    ensures |Escape(s)| <= 6 * |s|
  {
    if s != [] {
      EscapeBound(s[1..]);
      assert |EscapeChar(s[0])| <= 6;
    }
  }

  lemma QuoteBound(s: string)
    ensures |Quote(s)| <= 6 * |s| + 2
  {
    EscapeBound(s);
  }
}
