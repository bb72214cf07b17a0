/** Reading addresses and rules of the CIDR allowlist from text.
    Node's isIP and JavaScript's Number are parameters: a host says which texts are IPv6
    literals and what integer a numeric text denotes. */
module IpText {
  import opened Text
  import opened Cidr
  import Json

  datatype Host = Host(number: string -> Option<int>, isIp6: string -> bool, isLoopback: string -> bool)

  datatype Rule = V4(network: nat, prefix: nat) | V6(words: seq<nat>, prefix: nat)

  /** Strip the IPv4-mapped prefix or the brackets. */
  function NormalizeRemoteIp(address: string): string {
    var raw := Trim(address);
    if raw == "" then ""
    else if "::ffff:" <= raw then raw[7..]
    else
      var open := if raw[0] == '[' then raw[1..] else raw;
      if open != "" && open[|open| - 1] == ']' then open[..|open| - 1] else open
  }

  predicate IsOctet(n: Option<int>) {
    n.Some? && 0 <= n.value <= 255
  }

  function ParseIpv4(host: Host, ip: string): (r: Option<nat>)
    ensures r.Some? ==> r.value < 0x1_0000_0000
  {
    var parts := Split(ip, '.');
    if |parts| != 4 then None
    else
      var a, b, c, d := host.number(parts[0]), host.number(parts[1]), host.number(parts[2]), host.number(parts[3]);
      if !IsOctet(a) || !IsOctet(b) || !IsOctet(c) || !IsOctet(d) then None
      else Some(a.value * 0x100_0000 + b.value * 0x1_0000 + c.value * 0x100 + d.value)
  }

  /** toString(16). */
  function HexText(n: nat): (s: string)
    ensures s != []
  {
    if n < 16 then [Json.HexDigit(n)] else HexText(n / 16) + [Json.HexDigit(n % 16)]
  }

  function HexPrefix(s: string): (r: string)
    ensures IsHex(r) && r <= s
  {
    if s == [] || Json.HexValue(s[0]).None? then []
    else
      var r := HexPrefix(s[1..]);
      assert forall i :: 0 < i <= |r| ==> ([s[0]] + r)[i] == r[i - 1];
      [s[0]] + r
  }

  predicate IsHex(s: string) {
    forall i :: 0 <= i < |s| ==> Json.HexValue(s[i]).Some?
  }

  function HexNum(s: string): nat
    requires IsHex(s)
  {
    if s == [] then 0 else HexNum(s[..|s| - 1]) * 16 + Json.HexValue(s[|s| - 1]).value
  }

  /** parseInt(text, 16) on a text without sign, blank or 0x prefix: the longest run of digits. */
  function ParseHex(s: string): Option<nat> {
    var digits := HexPrefix(s);
    if digits == [] then None else Some(HexNum(digits))
  }

  /** Index of the first double colon, -1 when there is none. */
  function FindDouble(s: string): (i: int)
    ensures -1 <= i && (i >= 0 ==> i + 2 <= |s|)
  {
    if |s| < 2 then -1
    else if s[0] == ':' && s[1] == ':' then 0
    else
      var i := FindDouble(s[1..]);
      if i < 0 then -1 else i + 1
  }

  function LastColon(s: string): (i: int)
    ensures -1 <= i < |s|
  {
    if s == [] then -1 else if s[|s| - 1] == ':' then |s| - 1 else LastColon(s[..|s| - 1])
  }

  function Zeros(n: int): seq<string> {
    if n <= 0 then [] else ["0"] + Zeros(n - 1)
  }

  function GroupsOf(text: string): seq<string> {
    if text == "" then [] else Split(text, ':')
  }

  /** The groups before and after the double colon at `at`. */
  function Around(text: string, at: nat): (seq<string>, seq<string>)
    requires at + 2 <= |text|
  {
    var after := text[at + 2..];
    var next := FindDouble(after);
    (GroupsOf(text[..at]), GroupsOf(if next < 0 then after else after[..next]))
  }

  function Fill(sides: (seq<string>, seq<string>)): seq<string> {
    sides.0 + Zeros(8 - |sides.0| - |sides.1|) + sides.1
  }

  /** Replace the double colon by the zero groups it stands for. */
  function Expand(text: string): string {
    var at := FindDouble(text);
    if at < 0 then text else Join(Fill(Around(text, at)), ":")
  }

  function WordsOf(parts: seq<string>): Option<seq<nat>> {
    if parts == [] then Some([])
    else
      match (ParseHex(if parts[0] == "" then "0" else parts[0]), WordsOf(parts[1..]))
      case (Some(w), Some(rest)) => if w <= 0xffff then Some([w] + rest) else None
      case _ => None
  }

  /** An IPv6 literal without dotted tail. */
  function ParsePlain(host: Host, text: string): Option<seq<nat>> {
    if !host.isIp6(text) then None
    else
      var parts := Split(Expand(text), ':');
      if |parts| != 8 then None else WordsOf(parts)
  }

  /** Rewrite a dotted tail as two hexadecimal groups. */
  function Canonicalize(host: Host, text: string): Option<string> {
    if '.' !in text then Some(text)
    else
      var colon := LastColon(text);
      if colon < 0 then None
      else
        match ParseIpv4(host, text[colon + 1..])
        case None => None
        case Some(dotted) =>
          Some(text[..colon + 1] + (HexText(dotted / 0x1_0000 % 0x1_0000) + (":" + HexText(dotted % 0x1_0000))))
  }

  function ParseIpv6(host: Host, ip: string): Option<seq<nat>> {
    match Canonicalize(host, Lower(ip))
    case None => None
    case Some(text) => ParsePlain(host, text)
  }

  lemma {:induction false} WordsAreAddress(parts: seq<string>)
    ensures WordsOf(parts).Some? ==> |WordsOf(parts).value| == |parts|
    ensures WordsOf(parts).Some? ==> forall i :: 0 <= i < |parts| ==> WordsOf(parts).value[i] < 0x1_0000
  {
    if parts != [] {
      WordsAreAddress(parts[1..]);
    }
  }

  /** Whatever the text, a result is a list of eight 16-bit words. */
  lemma ParsedIsAddress(host: Host, ip: string)
    ensures ParseIpv6(host, ip).Some? ==> IsAddress(ParseIpv6(host, ip).value)
  {
    if Canonicalize(host, Lower(ip)).Some? {
      WordsAreAddress(Split(Expand(Canonicalize(host, Lower(ip)).value), ':'));
    }
  }

  // ----- the textual forms of section 2.2 of RFC 4291 -----

  /** One to four hexadecimal digits, either case. */
  predicate IsGroup(s: string) {
    1 <= |s| <= 4 && IsHex(s)
  }

  predicate AreGroups(parts: seq<string>) {
    forall i :: 0 <= i < |parts| ==> IsGroup(parts[i])
  }

  function GroupValues(parts: seq<string>): seq<nat>
    requires AreGroups(parts)
  {
    if parts == [] then [] else [HexNum(parts[0])] + GroupValues(parts[1..])
  }

  /** Four decimal octets the host reads as numbers up to 255. */
  predicate IsDotted(host: Host, octets: seq<string>) {
    |octets| == 4 && forall i :: 0 <= i < 4 ==> IsDecimal(octets[i]) && IsOctet(host.number(octets[i]))
  }

  predicate IsDecimal(s: string) {
    s != "" && forall i :: 0 <= i < |s| ==> '0' <= s[i] <= '9'
  }

  /** Groups before and after the double colon if there is one, and the dotted last 32 bits if any. */
  datatype Form = Form(head: seq<string>, gap: bool, tail: seq<string>, dotted: Option<seq<string>>)

  function Count(f: Form): nat {
    |f.head| + |f.tail| + if f.dotted.Some? then 2 else 0
  }

  predicate ValidForm(host: Host, f: Form) {
    && AreGroups(f.head) && AreGroups(f.tail)
    && (f.dotted.Some? ==> IsDotted(host, f.dotted.value))
    && (if f.gap then Count(f) <= 7 else Count(f) == 8 && f.tail == [])
  }

  function RenderParts(head: seq<string>, gap: bool, tail: seq<string>): string {
    if gap then Join(head, ":") + ("::" + Join(tail, ":")) else Join(head + tail, ":")
  }

  function Render(f: Form): string {
    var last := if f.dotted.Some? then [Join(f.dotted.value, ".")] else [];
    RenderParts(f.head, f.gap, f.tail + last)
  }

  function DottedWords(host: Host, octets: seq<string>): seq<nat>
    requires IsDotted(host, octets)
  {
    [host.number(octets[0]).value * 0x100 + host.number(octets[1]).value,
     host.number(octets[2]).value * 0x100 + host.number(octets[3]).value]
  }

  function ZeroWords(n: nat): seq<nat> {
    seq(n, i => 0)
  }

  /** The eight words the form denotes. */
  function FormWords(host: Host, f: Form): seq<nat>
    requires ValidForm(host, f)
  {
    GroupValues(f.head) + ZeroWords(8 - Count(f)) + GroupValues(f.tail)
    + if f.dotted.Some? then DottedWords(host, f.dotted.value) else []
  }

  /** The text handed to isIP: lower case, dotted tail rewritten as two groups. */
  function CanonicalText(host: Host, f: Form): string
    requires ValidForm(host, f)
  {
    RenderParts(LowerAll(f.head), f.gap, LowerAll(f.tail) + DottedGroups(host, f.dotted))
  }

  function DottedGroups(host: Host, dotted: Option<seq<string>>): seq<string>
    requires dotted.Some? ==> IsDotted(host, dotted.value)
  {
    match dotted
    case None => []
    case Some(octets) =>
      var words := DottedWords(host, octets);
      [HexText(words[0]), HexText(words[1])]
  }

  function LowerAll(parts: seq<string>): (r: seq<string>)
    ensures |r| == |parts| && forall i :: 0 <= i < |parts| ==> r[i] == Lower(parts[i])
  {
    seq(|parts|, i requires 0 <= i < |parts| => Lower(parts[i]))
  }

  // ----- joining -----

  lemma {:induction false} JoinConcat(a: seq<string>, b: seq<string>, sep: string)
    requires a != [] && b != []
    ensures Join(a + b, sep) == Join(a, sep) + (sep + Join(b, sep))
  {
    assert a == [a[0]] + a[1..] && a + b == [a[0]] + (a[1..] + b);
    JoinCons(a[0], a[1..] + b, sep);
    JoinCons(a[0], a[1..], sep);
    if |a| > 1 {
      JoinConcat(a[1..], b, sep);
      Assoc(sep, Join(a[1..], sep), sep + Join(b, sep));
      Assoc(a[0], sep + Join(a[1..], sep), sep + Join(b, sep));
    } else {
      assert a[1..] + b == b;
    }
  }

  lemma LowerConcat(a: string, b: string)
    ensures Lower(a + b) == Lower(a) + Lower(b)
  {
  }

  lemma {:induction false} LowerJoin(parts: seq<string>, sep: string)
    ensures Lower(Join(parts, sep)) == Join(LowerAll(parts), Lower(sep))
  {
    if |parts| > 1 {
      LowerJoin(parts[1..], sep);
      assert LowerAll(parts)[1..] == LowerAll(parts[1..]);
      LowerConcat(parts[0], sep + Join(parts[1..], sep));
      LowerConcat(sep, Join(parts[1..], sep));
    }
  }

  lemma LowerHex(s: string)
    requires IsHex(s)
    ensures IsHex(Lower(s)) && HexNum(Lower(s)) == HexNum(s)
    decreases |s|
  {
    if s != [] {
      LowerHex(s[..|s| - 1]);
      assert Lower(s)[..|s| - 1] == Lower(s[..|s| - 1]);
    }
  }

  lemma {:induction false} HexTextValue(n: nat)
    ensures IsHex(HexText(n)) && HexNum(HexText(n)) == n
    ensures n < 0x1_0000 ==> |HexText(n)| <= 4
    decreases n
  {
    if n >= 16 {
      HexTextValue(n / 16);
      HexTextLength(n);
      assert HexText(n)[..|HexText(n)| - 1] == HexText(n / 16);
    } else {
      assert HexText(n)[..0] == [];
    }
  }

  lemma HexTextLength(n: nat)
    ensures n < 0x1_0000 ==> |HexText(n)| <= 4
    ensures n < 0x1000 ==> |HexText(n)| <= 3
    ensures n < 0x100 ==> |HexText(n)| <= 2
  {
  }

  // ----- finding the double colon -----

  predicate Solid(part: string) {
    part != "" && ':' !in part
  }

  predicate AllSolid(parts: seq<string>) {
    forall i :: 0 <= i < |parts| ==> Solid(parts[i])
  }

  lemma {:induction false} DoubleAfterPlain(a: string, s: string)
    requires ':' !in a
    ensures FindDouble(a + s) == if FindDouble(s) < 0 then -1 else |a| + FindDouble(s)
  {
    if a == [] {
      assert a + s == s;
    } else {
      assert (a + s)[1..] == a[1..] + s;
      DoubleAfterPlain(a[1..], s);
    }
  }

  lemma DoubleAfterColon(s: string)
    requires s == "" || s[0] != ':'
    ensures FindDouble(":" + s) == if FindDouble(s) < 0 then -1 else 1 + FindDouble(s)
  {
    assert (":" + s)[1..] == s;
  }

  lemma {:induction false} JoinStartsSolid(parts: seq<string>, sep: string)
    requires parts != [] && Solid(parts[0])
    ensures Join(parts, sep) != "" && Join(parts, sep)[0] != ':'
  {
    assert parts[0][0] in parts[0];
  }

  lemma {:induction false} NoDoubleInJoin(parts: seq<string>)
    requires AllSolid(parts)
    ensures FindDouble(Join(parts, ":")) == -1
  {
    if |parts| == 1 {
      DoubleAfterPlain(parts[0], "");
      assert parts[0] + "" == parts[0];
    } else if |parts| > 1 {
      NoDoubleInJoin(parts[1..]);
      JoinStartsSolid(parts[1..], ":");
      DoubleAfterColon(Join(parts[1..], ":"));
      DoubleAfterPlain(parts[0], ":" + Join(parts[1..], ":"));
    }
  }

  lemma {:induction false} DoubleAfterJoin(parts: seq<string>, rest: string)
    requires AllSolid(parts)
    ensures FindDouble(Join(parts, ":") + ("::" + rest)) == |Join(parts, ":")|
  {
    if parts == [] {
      assert "" + ("::" + rest) == "::" + rest;
    } else if |parts| == 1 {
      DoubleAfterPlain(parts[0], "::" + rest);
    } else {
      DoubleAfterJoin(parts[1..], rest);
      var tail := Join(parts[1..], ":");
      JoinStartsSolid(parts[1..], ":");
      DoubleAfterColon(tail + ("::" + rest));
      Assoc(":", tail, "::" + rest);
      Assoc(parts[0], ":" + tail, "::" + rest);
      DoubleAfterPlain(parts[0], ":" + (tail + ("::" + rest)));
    }
  }

  lemma GroupsOfJoin(parts: seq<string>)
    requires AllSolid(parts)
    ensures GroupsOf(Join(parts, ":")) == parts
  {
    if parts != [] {
      JoinStartsSolid(parts, ":");
      SplitOfJoin(parts, ':');
    }
  }

  lemma {:induction false} ZerosAreSolid(n: int)
    ensures |Zeros(n)| == (if n < 0 then 0 else n) && forall i :: 0 <= i < |Zeros(n)| ==> Zeros(n)[i] == "0"
  {
    if n > 0 {
      ZerosAreSolid(n - 1);
    }
  }

  lemma GroupsAreSolid(parts: seq<string>)
    requires AreGroups(parts)
    ensures AllSolid(parts)
  {
    assert Json.HexValue(':').None?;
  }

  lemma SolidConcat(a: seq<string>, b: seq<string>)
    requires AllSolid(a) && AllSolid(b)
    ensures AllSolid(a + b)
  {
  }

  lemma SolidIsColonFree(parts: seq<string>)
    requires AllSolid(parts)
    ensures forall p :: p in parts ==> ':' !in p
  {
  }

  lemma CutGap(a: string, b: string)
    ensures var text := a + ("::" + b); text[..|a|] == a && text[|a| + 2..] == b
  {
  }

  lemma AroundGap(head: seq<string>, tail: seq<string>)
    requires AllSolid(head) && AllSolid(tail)
    ensures var text := RenderParts(head, true, tail);
      var at := FindDouble(text);
      at >= 0 && Around(text, at) == (head, tail)
  {
    DoubleAfterJoin(head, Join(tail, ":"));
    CutGap(Join(head, ":"), Join(tail, ":"));
    NoDoubleInJoin(tail);
    GroupsOfJoin(head);
    GroupsOfJoin(tail);
  }

  /** The double colon is expanded to exactly the missing zero groups, eight in all. */
  lemma ExpandRendered(head: seq<string>, gap: bool, tail: seq<string>)
    requires AreGroups(head) && AreGroups(tail)
    requires if gap then |head| + |tail| <= 8 else |head| + |tail| == 8
    ensures var parts := Split(Expand(RenderParts(head, gap, tail)), ':');
      |parts| == 8 && parts == head + Zeros(8 - |head| - |tail|) + tail
  {
    var all := head + Zeros(8 - |head| - |tail|) + tail;
    ExpandedGroups(head, gap, tail);
    SolidIsColonFree(all);
    SplitOfJoin(all, ':');
  }

  lemma WithGap(head: seq<string>, tail: seq<string>)
    requires AllSolid(head) && AllSolid(tail)
    ensures Expand(RenderParts(head, true, tail)) == Join(head + Zeros(8 - |head| - |tail|) + tail, ":")
  {
    hide FindDouble, Around, RenderParts, Join, Zeros, AllSolid;
    AroundGap(head, tail);
  }

  lemma WithoutGap(head: seq<string>, tail: seq<string>)
    requires AreGroups(head) && AreGroups(tail) && |head| + |tail| == 8
    requires AllSolid(head) && AllSolid(tail)
    ensures Expand(RenderParts(head, false, tail)) == Join(head + tail, ":")
  {
    SolidConcat(head, tail);
    NoDoubleInJoin(head + tail);
  }

  lemma ExpandedGroups(head: seq<string>, gap: bool, tail: seq<string>)
    requires AreGroups(head) && AreGroups(tail)
    requires if gap then |head| + |tail| <= 8 else |head| + |tail| == 8
    ensures var all := head + Zeros(8 - |head| - |tail|) + tail;
      |all| == 8 && AllSolid(all) && Expand(RenderParts(head, gap, tail)) == Join(all, ":")
  {
    hide Expand, RenderParts, AreGroups;
    GroupsAreSolid(head);
    GroupsAreSolid(tail);
    var zeros := Zeros(8 - |head| - |tail|);
    ZerosAreSolid(8 - |head| - |tail|);
    SolidConcat(head, zeros);
    SolidConcat(head + zeros, tail);
    if gap {
      WithGap(head, tail);
    } else {
      WithoutGap(head, tail);
      assert zeros == [] && head + [] + tail == head + tail;
    }
  }

  lemma {:induction false} WholeHex(s: string)
    requires IsHex(s)
    ensures HexPrefix(s) == s
  {
    if s != [] {
      WholeHex(s[1..]);
    }
  }

  lemma {:induction false} HexNumBound(s: string)
    requires IsHex(s) && |s| <= 4
    ensures |s| == 0 ==> HexNum(s) == 0
    ensures |s| <= 1 ==> HexNum(s) < 0x10
    ensures |s| <= 2 ==> HexNum(s) < 0x100
    ensures |s| <= 3 ==> HexNum(s) < 0x1000
    ensures HexNum(s) < 0x1_0000
  {
    if s != [] {
      HexNumBound(s[..|s| - 1]);
    }
  }

  lemma {:induction false} WordsOfGroups(parts: seq<string>)
    requires AreGroups(parts)
    ensures WordsOf(parts) == Some(GroupValues(parts))
  {
    if parts != [] {
      WholeHex(parts[0]);
      HexNumBound(parts[0]);
      WordsOfGroups(parts[1..]);
    }
  }

  lemma {:induction false} ZeroGroups(n: nat)
    ensures AreGroups(Zeros(n)) && GroupValues(Zeros(n)) == ZeroWords(n)
  {
    ZerosAreSolid(n);
    if n > 0 {
      ZeroGroups(n - 1);
      ZeroDigit();
      assert Zeros(n)[1..] == Zeros(n - 1);
      assert ZeroWords(n) == [0] + ZeroWords(n - 1);
    }
  }

  lemma ZeroDigit()
    ensures IsGroup("0") && HexNum("0") == 0
  {
    assert HexNum("0") == HexNum("0"[..0]) * 16 + Json.HexValue('0').value;
    assert HexNum("0"[..0]) == 0;
  }

  lemma {:induction false} GroupsConcat(a: seq<string>, b: seq<string>)
    requires AreGroups(a) && AreGroups(b)
    ensures AreGroups(a + b) && GroupValues(a + b) == GroupValues(a) + GroupValues(b)
  {
    if a == [] {
      assert a + b == b;
    } else {
      GroupsConcat(a[1..], b);
      assert (a + b)[1..] == a[1..] + b;
      Assoc([HexNum(a[0])], GroupValues(a[1..]), GroupValues(b));
    }
  }

  /** Literals made of groups only are read as their words. */
  lemma ParsePlainRendered(host: Host, head: seq<string>, gap: bool, tail: seq<string>)
    requires AreGroups(head) && AreGroups(tail)
    requires if gap then |head| + |tail| <= 8 else |head| + |tail| == 8
    requires host.isIp6(RenderParts(head, gap, tail))
    ensures ParsePlain(host, RenderParts(head, gap, tail))
      == Some(GroupValues(head) + ZeroWords(8 - |head| - |tail|) + GroupValues(tail))
  {
    ExpandRendered(head, gap, tail);
    var n := 8 - |head| - |tail|;
    ZeroGroups(n);
    GroupsConcat(head, Zeros(n));
    GroupsConcat(head + Zeros(n), tail);
    WordsOfGroups(head + Zeros(n) + tail);
  }

  // ----- the dotted tail -----

  /** The text before the last part of a rendered literal. */
  function Lead(head: seq<string>, gap: bool, tail: seq<string>): string {
    if gap then Join(head, ":") + ("::" + (if tail == [] then "" else Join(tail, ":") + ":"))
    else Join(head + tail, ":") + ":"
  }

  lemma RenderLead(head: seq<string>, gap: bool, tail: seq<string>, last: seq<string>)
    requires last != [] && (gap || head + tail != [])
    ensures RenderParts(head, gap, tail + last) == Lead(head, gap, tail) + Join(last, ":")
  {
    var l := Join(last, ":");
    if gap {
      if tail == [] {
        assert tail + last == last;
        assert "::" + "" == "::";
        Assoc(Join(head, ":"), "::", l);
      } else {
        JoinConcat(tail, last, ":");
        Assoc(Join(tail, ":"), ":", l);
        Assoc("::", Join(tail, ":") + ":", l);
        Assoc(Join(head, ":"), "::" + (Join(tail, ":") + ":"), l);
      }
    } else {
      assert head + (tail + last) == (head + tail) + last;
      JoinConcat(head + tail, last, ":");
      Assoc(Join(head + tail, ":"), ":", l);
    }
  }

  lemma LastColonOf(a: string, b: string)
    requires a != "" && a[|a| - 1] == ':' && ':' !in b
    ensures LastColon(a + b) == |a| - 1
    decreases |b|
  {
    if b == "" {
      assert a + b == a;
    } else {
      assert (a + b)[..|a + b| - 1] == a + b[..|b| - 1];
      LastColonOf(a, b[..|b| - 1]);
    }
  }

  lemma LeadEndsInColon(head: seq<string>, gap: bool, tail: seq<string>)
    ensures Lead(head, gap, tail) != "" && Lead(head, gap, tail)[|Lead(head, gap, tail)| - 1] == ':'
  {
  }

  lemma DecimalText(s: string)
    requires IsDecimal(s)
    ensures Lower(s) == s && '.' !in s && ':' !in s
  {
  }

  /** Decimal digits survive lower-casing, and their dotted join holds dots but no colon. */
  lemma DottedText(octets: seq<string>)
    requires |octets| == 4 && forall i :: 0 <= i < 4 ==> IsDecimal(octets[i])
    ensures var text := Join(octets, "."); Lower(text) == text && '.' in text && ':' !in text
    ensures Split(Join(octets, "."), '.') == octets
  {
    forall i | 0 <= i < 4 ensures Lower(octets[i]) == octets[i] && '.' !in octets[i] && ':' !in octets[i] {
      DecimalText(octets[i]);
    }
    LowerJoin(octets, ".");
    assert LowerAll(octets) == octets && Lower(".") == ".";
    SplitOfJoin(octets, '.');
    DotInJoin(octets);
    NoColonInJoin(octets);
  }

  lemma DotInJoin(parts: seq<string>)
    requires |parts| > 1
    ensures '.' in Join(parts, ".")
  {
    assert Join(parts, ".")[|parts[0]|] == '.';
  }

  lemma HalvesOfQuad(a: nat, b: nat, c: nat, d: nat)
    requires a < 0x100 && b < 0x100 && c < 0x100 && d < 0x100
    ensures var v := a * 0x100_0000 + b * 0x1_0000 + c * 0x100 + d;
      v / 0x1_0000 % 0x1_0000 == a * 0x100 + b && v % 0x1_0000 == c * 0x100 + d
  {
    var hi, lo := a * 0x100 + b, c * 0x100 + d;
    assert a * 0x100_0000 + b * 0x1_0000 + c * 0x100 + d == hi * 0x1_0000 + lo;
  }

  lemma DottedValue(host: Host, octets: seq<string>)
    requires IsDotted(host, octets)
    ensures var parsed := ParseIpv4(host, Join(octets, "."));
      parsed.Some? && [parsed.value / 0x1_0000 % 0x1_0000, parsed.value % 0x1_0000] == DottedWords(host, octets)
  {
    hide Join, Split;
    DottedText(octets);
    HalvesOfQuad(host.number(octets[0]).value, host.number(octets[1]).value, host.number(octets[2]).value,
                 host.number(octets[3]).value);
  }

  lemma {:induction false} NoColonInJoin(parts: seq<string>)
    requires forall i :: 0 <= i < |parts| ==> ':' !in parts[i]
    ensures ':' !in Join(parts, ".")
  {
    if |parts| > 1 {
      NoColonInJoin(parts[1..]);
    }
  }

  lemma {:induction false} NoDotInJoin(parts: seq<string>)
    requires AreGroups(parts)
    ensures '.' !in Join(parts, ":")
  {
    if parts != [] {
      NoDotInHex(parts[0]);
      if |parts| > 1 {
        NoDotInJoin(parts[1..]);
      }
    }
  }

  lemma NoDotInHex(s: string)
    requires IsHex(s)
    ensures '.' !in s
  {
    assert Json.HexValue('.').None?;
  }

  lemma {:induction false} LowerGroups(parts: seq<string>)
    requires AreGroups(parts)
    ensures AreGroups(LowerAll(parts)) && GroupValues(LowerAll(parts)) == GroupValues(parts)
  {
    if parts != [] {
      LowerHex(parts[0]);
      LowerGroups(parts[1..]);
      assert LowerAll(parts) == [Lower(parts[0])] + LowerAll(parts[1..]);
    }
  }

  lemma LowerRender(head: seq<string>, gap: bool, tail: seq<string>)
    ensures Lower(RenderParts(head, gap, tail)) == RenderParts(LowerAll(head), gap, LowerAll(tail))
  {
    assert Lower(":") == ":" && Lower("::") == "::";
    if gap {
      LowerJoin(head, ":");
      LowerJoin(tail, ":");
      LowerConcat(Join(head, ":"), "::" + Join(tail, ":"));
      LowerConcat("::", Join(tail, ":"));
    } else {
      LowerJoin(head + tail, ":");
      assert LowerAll(head + tail) == LowerAll(head) + LowerAll(tail);
    }
  }

  /** The rendered literal is everything up to its last colon, then the dotted text. */
  lemma DottedSplits(host: Host, f: Form)
    requires ValidForm(host, f) && f.dotted.Some?
    ensures var lead, dotted := Lead(LowerAll(f.head), f.gap, LowerAll(f.tail)), Join(f.dotted.value, ".");
      var text := Lower(Render(f));
      && '.' in text && LastColon(text) == |lead| - 1
      && text[..LastColon(text) + 1] == lead && text[LastColon(text) + 1..] == dotted
  {
    var dotted := Join(f.dotted.value, ".");
    DottedText(f.dotted.value);
    LowerRender(f.head, f.gap, f.tail + [dotted]);
    assert LowerAll(f.tail + [dotted]) == LowerAll(f.tail) + [dotted];
    var head, tail := LowerAll(f.head), LowerAll(f.tail);
    RenderLead(head, f.gap, tail, [dotted]);
    LeadEndsInColon(head, f.gap, tail);
    LastColonOf(Lead(head, f.gap, tail), dotted);
  }

  lemma CanonicalLead(host: Host, f: Form)
    requires ValidForm(host, f) && f.dotted.Some?
    ensures var groups := DottedGroups(host, f.dotted);
      CanonicalText(host, f) == Lead(LowerAll(f.head), f.gap, LowerAll(f.tail)) + (groups[0] + (":" + groups[1]))
  {
    var groups := DottedGroups(host, f.dotted);
    RenderLead(LowerAll(f.head), f.gap, LowerAll(f.tail), groups);
    JoinCons(groups[0], [groups[1]], ":");
    assert groups == [groups[0]] + [groups[1]];
  }

  /** The dotted tail becomes two groups before the literal is expanded. */
  lemma DottedIsRewritten(host: Host, f: Form)
    requires ValidForm(host, f) && f.dotted.Some?
    ensures Canonicalize(host, Lower(Render(f))) == Some(CanonicalText(host, f))
  {
    DottedSplits(host, f);
    DottedValue(host, f.dotted.value);
    CanonicalLead(host, f);
  }

  lemma PlainIsKept(host: Host, f: Form)
    requires ValidForm(host, f) && f.dotted.None?
    ensures Canonicalize(host, Lower(Render(f))) == Some(CanonicalText(host, f))
  {
    var head, tail := LowerAll(f.head), LowerAll(f.tail);
    LowerGroups(f.head);
    LowerGroups(f.tail);
    assert f.tail + [] == f.tail && tail + [] == tail;
    LowerRender(f.head, f.gap, f.tail);
    NoDotInRender(head, f.gap, tail);
  }

  lemma NoDotInRender(head: seq<string>, gap: bool, tail: seq<string>)
    requires AreGroups(head) && AreGroups(tail)
    ensures '.' !in RenderParts(head, gap, tail)
  {
    if gap {
      NoDotInJoin(head);
      NoDotInJoin(tail);
    } else {
      GroupsConcat(head, tail);
      NoDotInJoin(head + tail);
    }
  }

  lemma DottedGroupsDenote(host: Host, dotted: Option<seq<string>>)
    requires dotted.Some? ==> IsDotted(host, dotted.value)
    ensures AreGroups(DottedGroups(host, dotted))
    ensures GroupValues(DottedGroups(host, dotted)) == if dotted.Some? then DottedWords(host, dotted.value) else []
  {
    if dotted.Some? {
      var words := DottedWords(host, dotted.value);
      HexTextValue(words[0]);
      HexTextValue(words[1]);
      var groups := DottedGroups(host, dotted);
      assert groups[1..] == [groups[1]] && groups[1..][1..] == [];
      assert GroupValues(groups) == [words[0]] + GroupValues(groups[1..]);
    }
  }

  lemma CanonicalParsed(host: Host, f: Form)
    requires ValidForm(host, f) && host.isIp6(CanonicalText(host, f))
    ensures ParsePlain(host, CanonicalText(host, f)) == Some(FormWords(host, f))
  {
    var tail := LowerAll(f.tail) + DottedGroups(host, f.dotted);
    CanonicalWords(host, f);
    ParsePlainRendered(host, LowerAll(f.head), f.gap, tail);
  }

  lemma CanonicalWords(host: Host, f: Form)
    requires ValidForm(host, f)
    ensures var head, tail := LowerAll(f.head), LowerAll(f.tail) + DottedGroups(host, f.dotted);
      && AreGroups(head) && AreGroups(tail) && |head| + |tail| == Count(f)
      && GroupValues(head) + ZeroWords(8 - Count(f)) + GroupValues(tail) == FormWords(host, f)
  {
    var groups := DottedGroups(host, f.dotted);
    LowerGroups(f.head);
    LowerGroups(f.tail);
    DottedGroupsDenote(host, f.dotted);
    GroupsConcat(LowerAll(f.tail), groups);
    Assoc(GroupValues(f.head) + ZeroWords(8 - Count(f)), GroupValues(f.tail), GroupValues(groups));
  }

  /** Every textual form of an address is read as exactly the words it denotes, provided the host
      recognises its canonical text as an IPv6 literal. */
  lemma ParseReadsEveryForm(host: Host, f: Form)
    requires ValidForm(host, f) && host.isIp6(CanonicalText(host, f))
    ensures ParseIpv6(host, Render(f)) == Some(FormWords(host, f))
  {
    if f.dotted.Some? {
      DottedIsRewritten(host, f);
    } else {
      PlainIsKept(host, f);
    }
    CanonicalParsed(host, f);
  }

  // ----- rules -----

  /** A rule as parseCidr makes it: eight words, or a network with no bit below its prefix. */
  predicate ValidRule(rule: Rule) {
    match rule
    case V4(network, prefix) =>
      prefix <= 32 && network < 0x1_0000_0000 && BitAnd(network, Ipv4Mask(prefix)) == network
    case V6(words, prefix) => prefix <= 128 && IsAddress(words)
  }

  function ParseCidr(host: Host, rule: string): (r: Option<Rule>)
    ensures r.Some? ==> ValidRule(r.value)
  {
    var text := Trim(rule);
    if text == "" then None
    else
      var slash := IndexOf(text, '/');
      var ip := NormalizeRemoteIp(if slash == -1 then text else text[..slash]);
      match (ParseIpv4(host, ip), ParseIpv6(host, ip))
      case (Some(v4), _) =>
        var prefix := if slash == -1 then Some(32) else host.number(text[slash + 1..]);
        if prefix.None? || !(0 <= prefix.value <= 32) then None
        else
          MaskTwice(v4, prefix.value);
          Some(V4(BitAnd(v4, Ipv4Mask(prefix.value)), prefix.value))
      case (None, Some(v6)) =>
        var prefix := if slash == -1 then Some(128) else host.number(text[slash + 1..]);
        if prefix.None? || !(0 <= prefix.value <= 128) then None
        else
          ParsedIsAddress(host, ip);
          Some(V6(v6, prefix.value))
      case _ => None
  }

  /** The rules among the first n entries, in order. */
  function RulesAmong(host: Host, entries: seq<string>, n: nat): seq<Rule>
    requires n <= |entries|
  {
    if n == 0 then []
    else
      var parsed := ParseCidr(host, entries[n - 1]);
      RulesAmong(host, entries, n - 1) + if parsed.Some? then [parsed.value] else []
  }

  lemma {:induction false} RulesAreParsed(host: Host, entries: seq<string>, n: nat)
    requires n <= |entries|
    ensures forall r :: r in RulesAmong(host, entries, n) <==>
      exists i :: 0 <= i < n && ParseCidr(host, entries[i]) == Some(r)
    ensures forall r :: r in RulesAmong(host, entries, n) ==> ValidRule(r)
  {
    hide ParseCidr;
    if n > 0 {
      RulesAreParsed(host, entries, n - 1);
      AcceptedIsValid(host, entries[n - 1]);
      var before, now := RulesAmong(host, entries, n - 1), RulesAmong(host, entries, n);
      forall r ensures r in now <==> exists i :: 0 <= i < n && ParseCidr(host, entries[i]) == Some(r) {
        assert r in now <==> r in before || ParseCidr(host, entries[n - 1]) == Some(r);
      }
    }
  }

  lemma AcceptedIsValid(host: Host, entry: string)
    ensures ParseCidr(host, entry).Some? ==> ValidRule(ParseCidr(host, entry).value)
  {
  }

  /** Parse a list of rules; unreadable entries are dropped, the others keep their order. */
  method CompileCidrList(host: Host, entries: seq<string>) returns (rules: seq<Rule>)
    ensures rules == RulesAmong(host, entries, |entries|)
    ensures forall r :: r in rules <==> exists i :: 0 <= i < |entries| && ParseCidr(host, entries[i]) == Some(r)
    ensures forall r :: r in rules ==> ValidRule(r)
  {
    hide ParseCidr;
    rules := [];
    for i := 0 to |entries|
      invariant rules == RulesAmong(host, entries, i)
    {
      var parsed := ParseCidr(host, entries[i]);
      if parsed.Some? {
        rules := rules + [parsed.value];
      }
    }
    RulesAreParsed(host, entries, |entries|);
  }

  /** What a match means: the address and the rule have the same quotient by the size of the block.
      A text that reads as IPv4 is never compared with IPv6 rules. */
  ghost predicate Covers(host: Host, rule: Rule, ip: string)
    requires ValidRule(rule)
  {
    match rule
    case V4(network, prefix) =>
      var v4 := ParseIpv4(host, ip);
      v4.Some? && v4.value / Pow2(32 - prefix) == network / Pow2(32 - prefix)
    case V6(words, prefix) =>
      var v6 := ParseIpv6(host, ip);
      ParseIpv4(host, ip).None? && v6.Some? && Value(v6.value) / Pow2(128 - prefix) == Value(words) / Pow2(128 - prefix)
  }

  /** Does one rule let the address in? */
  method RuleAllows(host: Host, rule: Rule, ip: string) returns (r: bool)
    requires ValidRule(rule)
    ensures r <==> Covers(host, rule, ip)
  {
    hide ParseIpv4, ParseIpv6, Ipv4Mask, BitAnd, Value;
    var v4 := ParseIpv4(host, ip);
    match rule
    case V4(network, prefix) =>
      if v4.None? {
        return false;
      }
      Ipv4MaskMatches(v4.value, network, prefix);
      return BitAnd(v4.value, Ipv4Mask(prefix)) == network;
    case V6(words, prefix) =>
      var v6 := if v4.None? then ParseIpv6(host, ip) else None;
      if v6.None? {
        return false;
      }
      ParsedIsAddress(host, ip);
      r := Ipv6Matches(v6.value, words, prefix);
  }

  /** An empty list allows everyone, an empty address no one, loopback always; otherwise some rule must cover. */
  method IpAllowed(host: Host, address: string, rules: seq<Rule>) returns (r: bool)
    requires forall rule :: rule in rules ==> ValidRule(rule)
    ensures var ip := NormalizeRemoteIp(address);
      r <==>
        rules == []
        || (ip != "" && (host.isLoopback(ip) || exists rule :: rule in rules && Covers(host, rule, ip)))
  {
    if |rules| == 0 {
      return true;
    }
    var ip := NormalizeRemoteIp(address);
    if ip == "" {
      return false;
    }
    if host.isLoopback(ip) {
      return true;
    }
    for i := 0 to |rules|
      invariant forall rule :: rule in rules[..i] ==> !Covers(host, rule, ip)
    {
      assert rules[..i + 1] == rules[..i] + [rules[i]];
      var allows := RuleAllows(host, rules[i], ip);
      if allows {
        return true;
      }
    }
    assert rules[..|rules|] == rules;
    return false;
  }
}
