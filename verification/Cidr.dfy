/** The masking arithmetic of the CIDR matcher, against one big integer per address. */
module Cidr {

  function Pow2(n: nat): (p: nat)
    ensures p > 0
  {
    if n == 0 then 1 else 2 * Pow2(n - 1)
  }

  /** The & operator on non-negative integers, bit by bit. */
  function BitAnd(a: nat, b: nat): nat {
    if a == 0 || b == 0 then 0 else 2 * BitAnd(a / 2, b / 2) + (if a % 2 == 1 && b % 2 == 1 then 1 else 0)
  }

  function Shl(x: nat, n: nat): nat {
    if n == 0 then x else 2 * Shl(x, n - 1)
  }

  function Shr(x: nat, n: nat): nat {
    if n == 0 then x else Shr(x / 2, n - 1)
  }

  /** The last n bits. */
  function Low(x: nat, n: nat): nat {
    if n == 0 then 0 else 2 * Low(x / 2, n - 1) + x % 2
  }

  /** (x << n) >>> 0: only the low five bits of the count are used, and 32 bits are kept. */
  function Shl32(x: nat, n: nat): nat {
    Shl(x, n % 32) % 0x1_0000_0000
  }

  // ----- shifts -----

  lemma {:induction false} SplitBits(x: nat, n: nat)
    ensures x == Shl(Shr(x, n), n) + Low(x, n) && Low(x, n) < Pow2(n)
  {
    if n > 0 {
      SplitBits(x / 2, n - 1);
    }
  }

  lemma {:induction false} ShrAdd(x: nat, a: nat, b: nat)
    ensures Shr(x, a + b) == Shr(Shr(x, a), b)
  {
    if a > 0 {
      ShrAdd(x / 2, a - 1, b);
    }
  }

  lemma {:induction false} ShlAdd(x: nat, a: nat, b: nat)
    ensures Shl(x, a + b) == Shl(Shl(x, a), b)
  {
    if b > 0 {
      ShlAdd(x, a, b - 1);
    }
  }

  /** Shifting back part of the way. */
  lemma {:induction false} ShrOfShl(v: nat, r: nat, a: nat, b: nat)
    ensures Shr(Shl(v, a + b) + r, b) == Shl(v, a) + Shr(r, b)
  {
    if b > 0 {
      assert (Shl(v, a + b) + r) / 2 == Shl(v, a + b - 1) + r / 2;
      ShrOfShl(v, r / 2, a, b - 1);
    }
  }

  lemma {:induction false} ShrSmall(x: nat, n: nat, k: nat)
    requires x < Pow2(n + k)
    ensures Shr(x, k) < Pow2(n)
  {
    if k > 0 {
      ShrSmall(x / 2, n, k - 1);
    }
  }

  lemma {:induction false} LowSmall(x: nat, n: nat)
    requires x < Pow2(n)
    ensures Low(x, n) == x
  {
    if n > 0 {
      LowSmall(x / 2, n - 1);
    }
  }

  lemma {:induction false} LowOfShl(x: nat, k: nat, n: nat)
    ensures Low(Shl(x, k), n + k) == Shl(Low(x, n), k)
  {
    if k > 0 {
      LowOfShl(x, k - 1, n);
    }
  }

  lemma {:induction false} LowOnes(n: nat, m: nat)
    requires n <= m
    ensures Low(Pow2(m) - 1, n) == Pow2(n) - 1
  {
    if n > 0 {
      LowOnes(n - 1, m - 1);
      var p := Pow2(m - 1);
      assert (2 * p - 1) / 2 == p - 1 && (2 * p - 1) % 2 == 1;
    }
  }

  lemma {:induction false} ShlInjective(x: nat, y: nat, n: nat)
    requires Shl(x, n) == Shl(y, n)
    ensures x == y
  {
    if n > 0 {
      ShlInjective(x, y, n - 1);
    }
  }

  lemma Pow2At(n: nat)
    ensures Pow2(8) == 0x100 && Pow2(16) == 0x1_0000 && Pow2(32) == 0x1_0000_0000
  {
    assert Pow2(4) == 0x10;
    assert Pow2(8) == 0x10 * Pow2(4);
    assert Pow2(12) == 0x10 * Pow2(8);
    assert Pow2(16) == 0x10 * Pow2(12);
    assert Pow2(20) == 0x10 * Pow2(16);
    assert Pow2(24) == 0x10 * Pow2(20);
    assert Pow2(28) == 0x10 * Pow2(24);
    assert Pow2(32) == 0x10 * Pow2(28);
  }

  // ----- shifts are division and remainder by powers of two -----

  lemma {:induction false} ShlIsTimes(x: nat, n: nat)
    ensures Shl(x, n) == x * Pow2(n)
  {
    if n > 0 {
      ShlIsTimes(x, n - 1);
      Rotate(x, Pow2(n - 1));
    }
  }

  lemma Rotate(x: int, p: int)
    ensures 2 * (x * p) == x * (2 * p)
  {
  }

  lemma {:induction false} TimesGrows(k: nat, d: nat)
    ensures k == 0 || k * d >= d
  {
    if k > 1 {
      TimesGrows(k - 1, d);
    }
  }

  lemma NoMultiple(k: int, d: int, t: int)
    requires d > 0 && k * d == t && -d < t < d
    ensures k == 0
  {
    TimesGrows(if k >= 0 then k else -k, d);
    assert -k * d == -(k * d);
  }

  lemma Fundamental(x: int, d: int)
    requires d > 0
    ensures x == (x / d) * d + x % d && 0 <= x % d < d
  {
  }

  lemma Difference(a: int, b: int, d: int)
    ensures (a - b) * d == a * d - b * d
  {
  }

  lemma DivIs(x: int, d: int, q: int, r: int)
    requires d > 0 && x == q * d + r && 0 <= r < d
    ensures x / d == q && x % d == r
  {
    Fundamental(x, d);
    Difference(x / d, q, d);
    NoMultiple(x / d - q, d, r - x % d);
  }

  lemma ShiftsDivide(x: nat, n: nat)
    ensures Shr(x, n) == x / Pow2(n) && Low(x, n) == x % Pow2(n)
  {
    SplitBits(x, n);
    ShlIsTimes(Shr(x, n), n);
    DivIs(x, Pow2(n), Shr(x, n), Low(x, n));
  }

  // ----- masks -----

  lemma {:induction false} AndOnes(w: nat, n: nat)
    ensures BitAnd(w, Pow2(n) - 1) == Low(w, n)
  {
    if n > 0 {
      assert (Pow2(n) - 1) / 2 == Pow2(n - 1) - 1;
      AndOnes(w / 2, n - 1);
      if w == 0 {
        LowSmall(0, n);
      }
    }
  }

  /** A mask of n ones above k zeros selects bits k to k + n - 1. */
  lemma {:induction false} AndMask(w: nat, n: nat, k: nat)
    ensures BitAnd(w, Shl(Pow2(n) - 1, k)) == Shl(Low(Shr(w, k), n), k)
  {
    if k == 0 {
      AndOnes(w, n);
    } else {
      AndMask(w / 2, n, k - 1);
      if w == 0 || Shl(Pow2(n) - 1, k) == 0 {
        assert BitAnd(w / 2, Shl(Pow2(n) - 1, k - 1)) == 0;
      }
    }
  }

  /** Two n+k-bit numbers agree under that mask exactly when they agree from bit k up. */
  lemma MaskedEqual(a: nat, b: nat, n: nat, k: nat)
    requires a < Pow2(n + k) && b < Pow2(n + k)
    ensures BitAnd(a, Shl(Pow2(n) - 1, k)) == BitAnd(b, Shl(Pow2(n) - 1, k)) <==> Shr(a, k) == Shr(b, k)
  {
    AndMask(a, n, k);
    AndMask(b, n, k);
    ShrSmall(a, n, k);
    ShrSmall(b, n, k);
    LowSmall(Shr(a, k), n);
    LowSmall(Shr(b, k), n);
    if Shl(Shr(a, k), k) == Shl(Shr(b, k), k) {
      ShlInjective(Shr(a, k), Shr(b, k), k);
    }
  }

  // ----- IPv6 -----

  predicate IsAddress(words: seq<nat>) {
    |words| == 8 && forall i :: 0 <= i < 8 ==> words[i] < 0x1_0000
  }

  /** The words as one integer, most significant first. */
  function Value(words: seq<nat>): nat {
    if words == [] then 0 else Value(words[..|words| - 1]) * 0x1_0000 + words[|words| - 1]
  }

  /** The leading `prefix` bits of the 128-bit address. */
  function Top(words: seq<nat>, prefix: nat): nat
    requires prefix <= 128
  {
    Shr(Value(words), 128 - prefix)
  }

  lemma ValueShl(words: seq<nat>)
    requires words != []
    ensures Value(words) == Shl(Value(words[..|words| - 1]), 16) + words[|words| - 1]
  {
    Pow2At(16);
    ShlIsTimes(Value(words[..|words| - 1]), 16);
  }

  lemma {:induction false} ValueConcat(a: seq<nat>, b: seq<nat>)
    ensures Value(a + b) == Shl(Value(a), 16 * |b|) + Value(b)
  {
    if b == [] {
      assert a + b == a;
    } else {
      var n := |b| - 1;
      assert (a + b)[..|a + b| - 1] == a + b[..n];
      ValueConcat(a, b[..n]);
      ValueShl(a + b);
      ValueShl(b);
      ShlAdd(Value(a), 16 * n, 16);
      ShlSum(Shl(Value(a), 16 * n), Value(b[..n]), 16);
    }
  }

  lemma {:induction false} ShlSum(x: nat, y: nat, n: nat)
    ensures Shl(x + y, n) == Shl(x, n) + Shl(y, n)
  {
    if n > 0 {
      ShlSum(x, y, n - 1);
    }
  }

  lemma {:induction false} ShlBelow(x: nat, m: nat, n: nat)
    requires x < Pow2(m)
    ensures Shl(x, n) + Pow2(n) <= Pow2(m + n)
  {
    if n > 0 {
      ShlBelow(x, m, n - 1);
    }
  }

  lemma {:induction false} ValueBound(words: seq<nat>)
    requires forall i :: 0 <= i < |words| ==> words[i] < 0x1_0000
    ensures Value(words) < Pow2(16 * |words|)
  {
    if words != [] {
      var n := |words| - 1;
      ValueBound(words[..n]);
      Pow2At(16);
      ValueShl(words);
      ShlBelow(Value(words[..n]), 16 * n, 16);
    }
  }

  /** Dropping a tail of words and then some bits of the last word kept. */
  lemma TopInsideWord(words: seq<nat>, i: nat, take: nat)
    requires IsAddress(words) && i < 8 && take <= 16
    ensures Top(words, 16 * i + take) == Shl(Value(words[..i]), take) + Shr(words[i], 16 - take)
  {
    var head, w, tail := words[..i], words[i], words[i + 1..];
    var n := 16 * |tail|;
    assert words == (head + [w]) + tail;
    ValueConcat(head + [w], tail);
    assert (head + [w])[..|head|] == head;
    ValueShl(head + [w]);
    ValueBound(tail);
    ShrAdd(Value(words), n, 16 - take);
    ShrOfShl(Value(head + [w]), Value(tail), 0, n);
    ShrSmall(Value(tail), 0, n);
    ShrOfShl(Value(head), w, take, 16 - take);
  }

  lemma SameParts(a: nat, x: nat, b: nat, y: nat, n: nat)
    requires x < Pow2(n) && y < Pow2(n) && Shl(a, n) + x == Shl(b, n) + y
    ensures a == b && x == y
  {
    ShrOfShl(a, x, 0, n);
    ShrOfShl(b, y, 0, n);
    ShrSmall(x, 0, n);
    ShrSmall(y, 0, n);
  }

  /** One round of the loop decides the next `take` bits. */
  lemma TopStep(words: seq<nat>, network: seq<nat>, i: nat, take: nat, rest: nat)
    requires IsAddress(words) && IsAddress(network) && i < 8 && take + rest == 16
    ensures Top(words, 16 * i + take) == Top(network, 16 * i + take)
      <==> Top(words, 16 * i) == Top(network, 16 * i) && Shr(words[i], rest) == Shr(network[i], rest)
  {
    TopInsideWord(words, i, take);
    TopInsideWord(network, i, take);
    TopAtWord(words, i);
    TopAtWord(network, i);
    Pow2At(16);
    ShrSmall(words[i], take, rest);
    ShrSmall(network[i], take, rest);
    var a, b, x, y := Value(words[..i]), Value(network[..i]), Shr(words[i], rest), Shr(network[i], rest);
    if Shl(a, take) + x == Shl(b, take) + y {
      SameParts(a, x, b, y, take);
    }
  }

  lemma TopAtWord(words: seq<nat>, i: nat)
    requires IsAddress(words) && i < 8
    ensures Top(words, 16 * i) == Value(words[..i])
  {
    TopInsideWord(words, i, 0);
    Pow2At(16);
    ShrSmall(words[i], 0, 16);
  }

  lemma TopShorter(words: seq<nat>, long: nat, short: nat)
    requires short <= long <= 128
    ensures Top(words, short) == Shr(Top(words, long), long - short)
  {
    ShrAdd(Value(words), 128 - long, long - short);
  }

  /** All ones shifted inside their width. */
  lemma OnesShifted(width: nat, k: nat)
    requires k <= width
    ensures Low(Shl(Pow2(width) - 1, k), width) == Shl(Pow2(width - k) - 1, k)
  {
    LowOfShl(Pow2(width) - 1, k, width - k);
    LowOnes(width - k, width);
  }

  lemma ShlBound(x: nat, m: nat, k: nat, n: nat)
    requires x < Pow2(m) && m + k <= n
    ensures Shl(x, k) < Pow2(n)
  {
    ShlBelow(x, m, k);
    Pow2Monotone(m + k, n);
  }

  lemma Shl32Fits(x: nat, k: nat)
    requires k < 32 && Shl(x, k) < 0x1_0000_0000
    ensures Shl32(x, k) == Shl(x, k)
  {
    assert k % 32 == k;
  }

  /** The mask of the loop body has `take` ones on top of sixteen bits. */
  lemma WordMask(ones: nat, width: nat, take: nat)
    requires width == 16 && ones == Pow2(width) - 1 && 0 < take <= 16
    ensures BitAnd(Shl32(ones, 16 - take), ones) == Shl(Pow2(take) - 1, 16 - take)
  {
    var k := width - take;
    ShlBound(ones, width, k, 32);
    Pow2At(32);
    Shl32Fits(ones, k);
    AndOnes(Shl(ones, k), width);
    OnesShifted(width, k);
  }

  lemma {:induction false} Pow2Monotone(a: nat, b: nat)
    requires a <= b
    ensures Pow2(a) <= Pow2(b)
    decreases b
  {
    if a < b {
      Pow2Monotone(a, b - 1);
    }
  }

  /** The loop over the words: decides equality of the leading `prefix` bits, sixteen at a time. */
  method CompareWords(words: seq<nat>, network: seq<nat>, prefix: nat) returns (r: bool)
    requires IsAddress(words) && IsAddress(network) && prefix <= 128
    ensures r <==> Top(words, prefix) == Top(network, prefix)
  {
    hide Shl32, BitAnd, Top;
    StartEqual(words, network);
    var bits: int := prefix;
    var ones := 0xffff;
    for i := 0 to 8
      invariant ones == 0xffff
      invariant bits == if prefix <= 16 * i then 0 else prefix - 16 * i
      invariant Top(words, prefix - bits) == Top(network, prefix - bits)
    {
      if bits <= 0 {
        return true;
      }
      var take := if 16 <= bits then 16 else bits;
      var mask := if take == 0 then 0 else BitAnd(Shl32(ones, 16 - take), ones);
      assert prefix - bits == 16 * i;
      RoundDecides(words, network, i, take, ones, mask, prefix);
      if BitAnd(words[i], mask) != BitAnd(network[i], mask) {
        return false;
      }
      bits := bits - take;
    }
    return true;
  }

  /** An IPv6 match is equality of the 128-bit integers' quotients by 2^(128 - prefix). */
  method Ipv6Matches(words: seq<nat>, network: seq<nat>, prefix: nat) returns (r: bool)
    requires IsAddress(words) && IsAddress(network) && prefix <= 128
    ensures r <==> Value(words) / Pow2(128 - prefix) == Value(network) / Pow2(128 - prefix)
  {
    TopIsQuotient(words, prefix);
    TopIsQuotient(network, prefix);
    r := CompareWords(words, network, prefix);
  }

  lemma TopIsQuotient(words: seq<nat>, prefix: nat)
    requires prefix <= 128
    ensures Top(words, prefix) == Value(words) / Pow2(128 - prefix)
  {
    ShiftsDivide(Value(words), 128 - prefix);
  }

  lemma StartEqual(words: seq<nat>, network: seq<nat>)
    requires IsAddress(words) && IsAddress(network)
    ensures Top(words, 0) == Top(network, 0)
  {
    ValueBound(words);
    ValueBound(network);
    ShrSmall(Value(words), 0, 128);
    ShrSmall(Value(network), 0, 128);
  }

  lemma RoundDecides(words: seq<nat>, network: seq<nat>, i: nat, take: nat, ones: nat, mask: nat, prefix: nat)
    requires IsAddress(words) && IsAddress(network) && i < 8 && 0 < take <= 16 && 16 * i + take <= prefix <= 128
    requires ones == 0xffff && mask == BitAnd(Shl32(ones, 16 - take), ones) &&
      Top(words, 16 * i) == Top(network, 16 * i)
    ensures BitAnd(words[i], mask) == BitAnd(network[i], mask) <==>
      Top(words, 16 * i + take) == Top(network, 16 * i + take)
    ensures BitAnd(words[i], mask) != BitAnd(network[i], mask) ==> Top(words, prefix) != Top(network, prefix)
  {
    WordsMasked(words[i], network[i], take, 16 - take, ones, mask);
    TopStep(words, network, i, take, 16 - take);
    TopShorter(words, prefix, 16 * i + take);
    TopShorter(network, prefix, 16 * i + take);
  }

  lemma WordsMasked(v: nat, w: nat, take: nat, rest: nat, ones: nat, mask: nat)
    requires v < 0x1_0000 && w < 0x1_0000 && 0 < take && take + rest == 16
    requires ones == 0xffff && mask == BitAnd(Shl32(ones, rest), ones)
    ensures BitAnd(v, mask) == BitAnd(w, mask) <==> Shr(v, rest) == Shr(w, rest)
  {
    hide BitAnd, Shl32, Shl, Shr, Low;
    Pow2At(16);
    WordMask(ones, 16, take);
    MaskedEqual(v, w, take, rest);
  }

  /** A match at a prefix is a match at every shorter prefix. */
  lemma ShorterPrefixMatches(words: seq<nat>, network: seq<nat>, long: nat, short: nat)
    requires short <= long <= 128
    requires Value(words) / Pow2(128 - long) == Value(network) / Pow2(128 - long)
    ensures Value(words) / Pow2(128 - short) == Value(network) / Pow2(128 - short)
  {
    TopIsQuotient(words, long);
    TopIsQuotient(network, long);
    TopIsQuotient(words, short);
    TopIsQuotient(network, short);
    TopShorter(words, long, short);
    TopShorter(network, long, short);
  }

  // ----- IPv4 -----

  /** The mask of the IPv4 path; a shift by 32 would be a shift by 0, hence the first case. */
  function Ipv4Mask(prefix: nat): nat
    requires prefix <= 32
  {
    if prefix == 0 then 0 else Shl32(0xffff_ffff, 32 - prefix)
  }

  lemma Ones32Shifted(ones: nat, k: nat)
    requires ones == Pow2(32) - 1 && k < 32
    ensures Shl32(ones, k) == Shl(Pow2(32 - k) - 1, k)
  {
    hide Shl, Shr, Low;
    Pow2At(32);
    ShiftsDivide(Shl(ones, k), 32);
    OnesShifted(32, k);
  }

  lemma Ipv4MaskBits(prefix: nat)
    requires prefix <= 32
    ensures Ipv4Mask(prefix) == Shl(Pow2(prefix) - 1, 32 - prefix)
  {
    Pow2At(32);
    if prefix == 0 {
      ShlIsTimes(0, 32);
    } else {
      Ones32Shifted(0xffff_ffff, 32 - prefix);
    }
  }

  /** The test `(address & mask) === (rule & mask)` compares the leading `prefix` bits, for 0 and 32 too. */
  lemma Ipv4MaskMatches(address: nat, rule: nat, prefix: nat)
    requires address < 0x1_0000_0000 && rule < 0x1_0000_0000 && prefix <= 32
    ensures BitAnd(address, Ipv4Mask(prefix)) == BitAnd(rule, Ipv4Mask(prefix))
      <==> address / Pow2(32 - prefix) == rule / Pow2(32 - prefix)
  {
    Pow2At(32);
    Ipv4MaskBits(prefix);
    MaskedEqual(address, rule, prefix, 32 - prefix);
    ShiftsDivide(address, 32 - prefix);
    ShiftsDivide(rule, 32 - prefix);
  }

  lemma Ipv4ShorterPrefixMatches(address: nat, rule: nat, long: nat, short: nat)
    requires short <= long <= 32 && address / Pow2(32 - long) == rule / Pow2(32 - long)
    ensures address / Pow2(32 - short) == rule / Pow2(32 - short)
  {
    ShiftsDivide(address, 32 - long);
    ShiftsDivide(rule, 32 - long);
    ShiftsDivide(address, 32 - short);
    ShiftsDivide(rule, 32 - short);
    ShrAdd(address, 32 - long, long - short);
    ShrAdd(rule, 32 - long, long - short);
  }

  /** Masking is idempotent, so a rule's stored network is its own masked value. */
  lemma MaskTwice(rule: nat, prefix: nat)
    requires rule < 0x1_0000_0000 && prefix <= 32
    ensures var network := BitAnd(rule, Ipv4Mask(prefix));
      network < 0x1_0000_0000 && BitAnd(network, Ipv4Mask(prefix)) == network
  {
    hide Ipv4Mask, BitAnd, Shr, Low;
    var k := 32 - prefix;
    Pow2At(32);
    Ipv4MaskBits(prefix);
    AndMask(rule, prefix, k);
    ShrSmall(rule, prefix, k);
    var q := Shr(rule, k);
    LowSmall(q, prefix);
    ShlBelow(q, prefix, k);
    AndMask(Shl(q, k), prefix, k);
    ShrOfShl(q, 0, 0, k);
    ShrZero(k);
  }

  lemma {:induction false} ShrZero(k: nat)
    ensures Shr(0, k) == 0
  {
    if k > 0 {
      ShrZero(k - 1);
    }
  }
}
