/** What an allowlist means, entry by entry: the addresses a written entry lets in, and so those a whole list does. */
module Allowlist {
  import opened Text
  import opened Cidr
  import opened IpText

  // ----- one address against another -----

  /** Both texts are addresses of one family, and lie in the same block of that prefix. */
  ghost predicate SameBlock(host: Host, a: string, prefix: int, ip: string) {
    match (ParseIpv4(host, a), ParseIpv4(host, ip))
    case (Some(v), Some(w)) => 0 <= prefix <= 32 && v / Pow2(32 - prefix) == w / Pow2(32 - prefix)
    case (None, None) =>
      var v, w := ParseIpv6(host, a), ParseIpv6(host, ip);
      v.Some? && w.Some? && 0 <= prefix <= 128
      && Value(v.value) / Pow2(128 - prefix) == Value(w.value) / Pow2(128 - prefix)
    case _ => false
  }

  /** Both are the same address. */
  ghost predicate SameAddress(host: Host, a: string, ip: string) {
    match (ParseIpv4(host, a), ParseIpv4(host, ip))
    case (Some(v), Some(w)) => v == w
    case (None, None) =>
      var v, w := ParseIpv6(host, a), ParseIpv6(host, ip);
      v.Some? && w.Some? && Value(v.value) == Value(w.value)
    case _ => false
  }

  // ----- what is written -----

  /** The entry is an address and nothing else, blanks around it apart. */
  predicate WritesAddress(entry: string, address: string) {
    Trim(entry) == address && address != "" && '/' !in address
  }

  /** The entry is an address, a slash and the text of a prefix. */
  predicate WritesBlock(entry: string, address: string, prefix: string) {
    Trim(entry) == address + (['/'] + prefix) && '/' !in address
  }

  predicate IsAddressText(host: Host, a: string) {
    ParseIpv4(host, a).Some? || ParseIpv6(host, a).Some?
  }

  /** How many bits a prefix can have for this address. */
  function Width(host: Host, a: string): nat {
    if ParseIpv4(host, a).Some? then 32 else 128
  }

  /** The entry can be read. */
  ghost predicate Reads(host: Host, entry: string) {
    (exists address :: WritesAddress(entry, address) && IsAddressText(host, NormalizeRemoteIp(address)))
    || exists address, prefix :: WritesBlock(entry, address, prefix)
         && IsAddressText(host, NormalizeRemoteIp(address)) && host.number(prefix).Some?
         && 0 <= host.number(prefix).value <= Width(host, NormalizeRemoteIp(address))
  }

  /** The entry lets the address in: it is the address written, or lies in the block written. */
  ghost predicate Lists(host: Host, entry: string, ip: string) {
    (exists address :: WritesAddress(entry, address) && SameAddress(host, NormalizeRemoteIp(address), ip))
    || exists address, prefix :: WritesBlock(entry, address, prefix) && host.number(prefix).Some?
         && SameBlock(host, NormalizeRemoteIp(address), host.number(prefix).value, ip)
  }

  /** An entry is written in one way only. */
  lemma OneWriting(entry: string, address: string, prefix: string)
    ensures WritesBlock(entry, address, prefix) ==>
      IndexOf(Trim(entry), '/') == |address| && Trim(entry)[..|address|] == address
      && Trim(entry)[|address| + 1..] == prefix
    ensures WritesAddress(entry, address) ==> IndexOf(Trim(entry), '/') == -1
  {
    hide Trim, IndexOf, Before;
    if WritesBlock(entry, address, prefix) {
      BeforeFirst(address, prefix, '/');
      var text := Trim(entry);
      assert text[..|address|] == address && text[|address| + 1..] == prefix;
    }
  }

  /** The text as it is cut at its first slash. */
  lemma Cuts(entry: string) returns (address: string, prefix: Option<string>)
    ensures var text, slash := Trim(entry), IndexOf(Trim(entry), '/');
      && (slash == -1 ==> address == text && prefix.None?)
      && (slash >= 0 ==> address == text[..slash] && prefix == Some(text[slash + 1..]))
    ensures prefix.Some? ==> WritesBlock(entry, address, prefix.value)
    ensures prefix.None? && address != "" ==> WritesAddress(entry, address)
  {
    hide Trim;
    var text, slash := Trim(entry), IndexOf(Trim(entry), '/');
    if slash == -1 {
      address, prefix := text, None;
    } else {
      address, prefix := text[..slash], Some(text[slash + 1..]);
      assert text == address + (['/'] + prefix.value);
    }
  }

  // ----- the rule made of an entry -----

  /** An IPv4 rule covers exactly the block of the address it was made of, although it keeps the masked one. */
  lemma MaskedBlock(v: nat, prefix: nat, w: nat)
    requires v < 0x1_0000_0000 && w < 0x1_0000_0000 && prefix <= 32
    ensures var network := BitAnd(v, Ipv4Mask(prefix));
      w / Pow2(32 - prefix) == network / Pow2(32 - prefix) <==> v / Pow2(32 - prefix) == w / Pow2(32 - prefix)
  {
    hide BitAnd, Ipv4Mask;
    MaskTwice(v, prefix);
    Ipv4MaskMatches(BitAnd(v, Ipv4Mask(prefix)), v, prefix);
  }

  /** The rule made of this address and prefix, if any, covers exactly the block. */
  ghost predicate RuleOf(host: Host, entry: string, a: string, prefix: Option<int>) {
    var rule := ParseCidr(host, entry);
    && (rule.Some? <==> IsAddressText(host, a) && prefix.Some? && 0 <= prefix.value <= Width(host, a))
    && (rule.Some? ==> forall ip :: Covers(host, rule.value, ip) <==> SameBlock(host, a, prefix.value, ip))
  }

  lemma AddressRule(host: Host, entry: string, address: string)
    requires WritesAddress(entry, address)
    ensures var a := NormalizeRemoteIp(address);
      RuleOf(host, entry, a, Some(if ParseIpv4(host, a).Some? then 32 else 128))
  {
    OneWriting(entry, address, "");
    RuleFrom(host, entry, NormalizeRemoteIp(address), Some(if ParseIpv4(host, NormalizeRemoteIp(address)).Some? then 32
                                                           else 128));
  }

  lemma BlockRule(host: Host, entry: string, address: string, prefix: string)
    requires WritesBlock(entry, address, prefix)
    ensures RuleOf(host, entry, NormalizeRemoteIp(address), host.number(prefix))
  {
    OneWriting(entry, address, prefix);
    RuleFrom(host, entry, NormalizeRemoteIp(address), host.number(prefix));
  }

  lemma RuleFrom(host: Host, entry: string, a: string, prefix: Option<int>)
    requires var text, slash := Trim(entry), IndexOf(Trim(entry), '/');
      && text != "" && a == NormalizeRemoteIp(if slash == -1 then text else text[..slash])
      && prefix == if slash >= 0 then host.number(text[slash + 1..])
                   else Some(if ParseIpv4(host, a).Some? then 32 else 128)
    ensures RuleOf(host, entry, a, prefix)
  {
    hide Trim, IndexOf, NormalizeRemoteIp, ParseIpv4, ParseIpv6, BitAnd, Ipv4Mask, Value, Pow2;
    var rule := ParseCidr(host, entry);
    if rule.Some? {
      forall ip ensures Covers(host, rule.value, ip) <==> SameBlock(host, a, prefix.value, ip) {
        var v, w := ParseIpv4(host, a), ParseIpv4(host, ip);
        if v.Some? && w.Some? {
          MaskedBlock(v.value, prefix.value, w.value);
        }
      }
    }
  }

  lemma WholePrefix(host: Host, a: string, ip: string)
    ensures SameBlock(host, a, if ParseIpv4(host, a).Some? then 32 else 128, ip) <==> SameAddress(host, a, ip)
  {
    hide ParseIpv4, ParseIpv6, Value;
    assert Pow2(0) == 1;
  }

  /** What an entry with a slash, and one without, reads and lists. */
  lemma BlockMeans(host: Host, entry: string, address: string, prefix: string)
    requires WritesBlock(entry, address, prefix)
    ensures var a, n := NormalizeRemoteIp(address), host.number(prefix);
      && (Reads(host, entry) <==> IsAddressText(host, a) && n.Some? && 0 <= n.value <= Width(host, a))
      && forall ip :: Lists(host, entry, ip) <==> n.Some? && SameBlock(host, a, n.value, ip)
  {
    hide Trim, IndexOf, NormalizeRemoteIp, SameBlock, SameAddress, IsAddressText, Width;
    OneWriting(entry, address, prefix);
    forall other, text ensures WritesBlock(entry, other, text) ==> other == address && text == prefix
      ensures !WritesAddress(entry, other)
    {
      OneWriting(entry, other, text);
    }
  }

  lemma AddressMeans(host: Host, entry: string, address: string)
    requires WritesAddress(entry, address)
    ensures var a := NormalizeRemoteIp(address);
      && (Reads(host, entry) <==> IsAddressText(host, a))
      && forall ip :: Lists(host, entry, ip) <==> SameAddress(host, a, ip)
  {
    hide Trim, IndexOf, NormalizeRemoteIp, SameBlock, SameAddress, IsAddressText, Width;
    OneWriting(entry, address, "");
    forall other, text ensures !WritesBlock(entry, other, text) {
      OneWriting(entry, other, text);
    }
  }

  lemma BlankMeans(host: Host, entry: string)
    requires Trim(entry) == ""
    ensures !Reads(host, entry) && ParseCidr(host, entry).None? && forall ip :: !Lists(host, entry, ip)
  {
    hide Trim, NormalizeRemoteIp, SameBlock, SameAddress, IsAddressText, Width;
    forall address, prefix ensures !WritesBlock(entry, address, prefix) {
      assert |address + (['/'] + prefix)| > 0;
    }
  }

  /** An entry makes a rule exactly when it can be read, and the rule covers exactly the addresses the entry lets
      in. */
  lemma EntryMeans(host: Host, entry: string)
    ensures ParseCidr(host, entry).Some? <==> Reads(host, entry)
    ensures ParseCidr(host, entry).Some? ==>
      forall ip :: Covers(host, ParseCidr(host, entry).value, ip) <==> Lists(host, entry, ip)
    ensures ParseCidr(host, entry).None? ==> forall ip :: !Lists(host, entry, ip)
  {
    var address, prefix := Cuts(entry);
    var a := NormalizeRemoteIp(address);
    hide Trim, NormalizeRemoteIp, ParseCidr, Covers, ParseIpv4, ParseIpv6, Reads, Lists, Value, Pow2, IndexOf;
    if prefix.Some? {
      BlockRule(host, entry, address, prefix.value);
      BlockMeans(host, entry, address, prefix.value);
    } else if address != "" {
      AddressRule(host, entry, address);
      AddressMeans(host, entry, address);
      forall ip ensures SameBlock(host, a, if ParseIpv4(host, a).Some? then 32 else 128, ip) <==>
        SameAddress(host, a, ip) {
        WholePrefix(host, a, ip);
      }
      hide SameBlock, SameAddress;
    } else {
      BlankMeans(host, entry);
    }
    forall ip, n: int ensures SameBlock(host, a, n, ip) ==> IsAddressText(host, a) && 0 <= n <= Width(host, a)
      ensures SameAddress(host, a, ip) ==> IsAddressText(host, a)
    {
      OnlyReadable(host, a, n, ip);
    }
  }

  lemma OnlyReadable(host: Host, a: string, n: int, ip: string)
    ensures SameBlock(host, a, n, ip) ==> IsAddressText(host, a) && 0 <= n <= Width(host, a)
    ensures SameAddress(host, a, ip) ==> IsAddressText(host, a)
  {
    hide ParseIpv4, ParseIpv6, Value, Pow2;
  }

  // ----- addresses as they are written -----

  /** The IPv4-mapped prefix is taken off, brackets are, and anything else stays as it is but for blanks around. */
  lemma MappedIsStripped(text: string, rest: string)
    requires Trim(text) == "::ffff:" + rest
    ensures NormalizeRemoteIp(text) == rest
  {
    hide Trim;
    assert "::ffff:" <= Trim(text) && Trim(text)[7..] == rest;
  }

  lemma BracketsAreStripped(text: string, inner: string)
    requires Trim(text) == "[" + (inner + "]")
    ensures NormalizeRemoteIp(text) == inner
  {
    hide Trim;
    var raw := Trim(text);
    assert raw[1..] == inner + "]" && (inner + "]")[..|inner|] == inner;
    assert "::ffff:"[0] != raw[0];
  }

  lemma OthersStay(text: string)
    requires var raw := Trim(text); raw == "" || (raw[0] != '[' && raw[|raw| - 1] != ']' && !("::ffff:" <= raw))
    ensures NormalizeRemoteIp(text) == Trim(text)
  {
    hide Trim;
  }

  /** The number four decimal octets denote. */
  function QuadValue(host: Host, octets: seq<string>): nat
    requires IsDotted(host, octets)
  {
    ((host.number(octets[0]).value * 256 + host.number(octets[1]).value) * 256 + host.number(octets[2]).value) * 256
    + host.number(octets[3]).value
  }

  lemma QuadIsRead(host: Host, octets: seq<string>)
    requires IsDotted(host, octets)
    ensures ParseIpv4(host, Join(octets, ".")) == Some(QuadValue(host, octets))
  {
    hide Join, Split;
    DottedText(octets);
  }

  predicate IsDigitOrDot(c: char) {
    '0' <= c <= '9' || c == '.'
  }

  lemma {:induction false} QuadText(parts: seq<string>)
    requires parts != [] && forall i :: 0 <= i < |parts| ==> IsDecimal(parts[i])
    ensures var text := Join(parts, ".");
      text != "" && '0' <= text[0] <= '9' && '0' <= text[|text| - 1] <= '9' && forall c :: c in text ==> IsDigitOrDot(c)
  {
    if |parts| > 1 {
      QuadText(parts[1..]);
      var rest := Join(parts[1..], ".");
      assert Join(parts, ".") == parts[0] + ("." + rest);
      assert (parts[0] + ("." + rest))[|parts[0]| + 1..] == rest;
    }
  }

  lemma TightTrim(s: string)
    requires s != "" && !IsSpace(s[0]) && !IsSpace(s[|s| - 1])
    ensures Trim(s) == s
  {
  }

  /** A dotted entry lists exactly that address. */
  lemma QuadEntry(host: Host, octets: seq<string>, ip: string)
    requires IsDotted(host, octets)
    ensures Lists(host, Join(octets, "."), ip) <==> ParseIpv4(host, ip) == Some(QuadValue(host, octets))
  {
    hide Join, ParseIpv4, ParseIpv6, Value, Trim;
    var text := Join(octets, ".");
    QuadText(octets);
    TightTrim(text);
    OthersStay(text);
    QuadIsRead(host, octets);
    AddressMeans(host, text, text);
  }

  /** With a prefix, exactly the addresses of its block. */
  lemma QuadBlockEntry(host: Host, octets: seq<string>, prefix: string, ip: string)
    requires IsDotted(host, octets) && IsDecimal(prefix) && host.number(prefix).Some?
    ensures var p, v := host.number(prefix).value, ParseIpv4(host, ip);
      Lists(host, Join(octets, ".") + (['/'] + prefix), ip)
      <==> 0 <= p <= 32 && v.Some? && v.value / Pow2(32 - p) == QuadValue(host, octets) / Pow2(32 - p)
  {
    hide Join, ParseIpv4, ParseIpv6, Value, Trim, Pow2;
    var text := Join(octets, ".");
    var entry := text + (['/'] + prefix);
    QuadText(octets);
    assert entry[0] == text[0] && entry[|entry| - 1] == prefix[|prefix| - 1];
    TightTrim(entry);
    TightTrim(text);
    OthersStay(text);
    QuadIsRead(host, octets);
    BlockMeans(host, entry, text, prefix);
  }

  // ----- the whole list -----

  /** The closure the listener is given: the list compiled once, each address tried against it. An address is let in
      when no entry can be read, or when it is a loopback one, or when some entry lists it; the empty text never is
      while there are rules. */
  method Allows(host: Host, entries: seq<string>, address: string) returns (r: bool)
    ensures var ip := NormalizeRemoteIp(address);
      r <==> (forall e :: e in entries ==> !Reads(host, e))
             || (ip != "" && (host.isLoopback(ip) || exists e :: e in entries && Lists(host, e, ip)))
  {
    hide ParseCidr, Covers, Reads, Lists, NormalizeRemoteIp;
    var rules := CompileCidrList(host, entries);
    r := IpAllowed(host, address, rules);
    ListMeans(host, entries, rules, NormalizeRemoteIp(address));
  }

  /** A compiled list is empty when no entry can be read, and covers what some entry lists. */
  lemma ListMeans(host: Host, entries: seq<string>, rules: seq<Rule>, ip: string)
    requires forall r :: r in rules <==> exists i :: 0 <= i < |entries| && ParseCidr(host, entries[i]) == Some(r)
    requires forall r :: r in rules ==> ValidRule(r)
    ensures rules == [] <==> forall e :: e in entries ==> !Reads(host, e)
    ensures (exists r :: r in rules && Covers(host, r, ip)) <==> exists e :: e in entries && Lists(host, e, ip)
  {
    hide ParseCidr, Covers, Reads, Lists, ValidRule;
    forall i | 0 <= i < |entries|
      ensures ParseCidr(host, entries[i]).Some? <==> Reads(host, entries[i])
      ensures Lists(host, entries[i], ip) ==>
        ParseCidr(host, entries[i]).Some? && ParseCidr(host, entries[i]).value in rules
        && Covers(host, ParseCidr(host, entries[i]).value, ip)
    {
      EntryMeans(host, entries[i]);
      if ParseCidr(host, entries[i]).Some? {
        assert ParseCidr(host, entries[i]).value in rules;
      }
    }
    if rules != [] {
      var i :| 0 <= i < |entries| && ParseCidr(host, entries[i]) == Some(rules[0]);
      assert entries[i] in entries && Reads(host, entries[i]);
    }
    if e :| e in entries && Reads(host, e) {
      var i :| 0 <= i < |entries| && entries[i] == e;
      assert ParseCidr(host, entries[i]).value in rules;
    }
    if r :| r in rules && Covers(host, r, ip) {
      var i :| 0 <= i < |entries| && ParseCidr(host, entries[i]) == Some(r);
      EntryMeans(host, entries[i]);
      assert entries[i] in entries;
    }
  }
}
