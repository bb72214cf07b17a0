/** The walk over an unpacked tar archive for its first regular file, and the archives it reads
    (ustar Interchange Format of POSIX.1: 512-byte headers, octal sizes, data padded to whole blocks). */
module TarWalk {
  import opened Text

  type Byte = b: nat | b < 256

  datatype Result = File(bytes: seq<Byte>) | Corrupt | NoFile

  const BLOCK: nat := 512

  // ----- the size field -----

  function Latin1(bytes: seq<Byte>): (s: string)
    ensures |s| == |bytes| && forall i :: 0 <= i < |s| ==> s[i] == bytes[i] as char
  {
    seq(|bytes|, i requires 0 <= i < |bytes| => bytes[i] as char)
  }

  predicate IsOctal(c: char) {
    '0' <= c <= '7'
  }

  /** The longest run of octal digits at the front. */
  function OctalPrefix(s: string): (d: string)
    ensures d <= s && forall i :: 0 <= i < |d| ==> IsOctal(d[i])
  {
    if s != [] && IsOctal(s[0]) then [s[0]] + OctalPrefix(s[1..]) else []
  }

  function Digit(c: char): nat
    requires IsOctal(c)
  {
    c as int - '0' as int
  }

  function OctalValue(d: string): nat
    requires forall i :: 0 <= i < |d| ==> IsOctal(d[i])
  {
    if d == [] then 0 else 8 * OctalValue(d[..|d| - 1]) + Digit(d[|d| - 1])
  }

  /** parseInt with radix eight on trimmed text; None is NaN. */
  function ParseOctal(s: string): Option<int> {
    var signed := s != [] && (s[0] == '-' || s[0] == '+');
    var digits := OctalPrefix(if signed then s[1..] else s);
    if digits == [] then None
    else if signed && s[0] == '-' then Some(0 - OctalValue(digits))
    else Some(OctalValue(digits))
  }

  /** Text up to the first NUL, trimmed, read as octal. */
  function ParseSize(field: seq<Byte>): Option<int> {
    ParseOctal(Trim(Before(Latin1(field), '\0')))
  }

  // ----- the walk -----

  function Padded(size: nat): (p: nat)
    ensures size <= p < size + BLOCK && p % BLOCK == 0
  {
    (size + (BLOCK - 1)) / BLOCK * BLOCK
  }

  function SizeAt(tar: seq<Byte>, offset: nat): Option<int>
    requires offset + BLOCK <= |tar|
  {
    ParseSize(tar[offset + 124..offset + 136])
  }

  predicate Ended(tar: seq<Byte>, offset: nat) {
    offset + BLOCK > |tar| || tar[offset] == 0
  }

  /** The header states a size, and that much data is there. */
  predicate Readable(tar: seq<Byte>, offset: nat) {
    && !Ended(tar, offset)
    && SizeAt(tar, offset).Some?
    && 0 <= SizeAt(tar, offset).value <= |tar| - offset - BLOCK
  }

  predicate Regular(tar: seq<Byte>, offset: nat)
    requires Readable(tar, offset)
  {
    tar[offset + 156] == 0 || tar[offset + 156] == 48
  }

  function Data(tar: seq<Byte>, offset: nat): seq<Byte>
    requires Readable(tar, offset)
  {
    tar[offset + BLOCK..offset + BLOCK + SizeAt(tar, offset).value]
  }

  function Next(tar: seq<Byte>, offset: nat): nat
    requires Readable(tar, offset)
  {
    offset + BLOCK + Padded(SizeAt(tar, offset).value)
  }

  /** The header offsets the walk visits: from zero, over entries that are no regular file. */
  ghost predicate Chain(tar: seq<Byte>, offsets: seq<nat>) {
    && offsets != [] && offsets[0] == 0
    && (forall k :: 0 <= k < |offsets| - 1 ==>
      Readable(tar, offsets[k]) && !Regular(tar, offsets[k]) && offsets[k + 1] == Next(tar, offsets[k]))
  }

  /** What a walk that has arrived at `offset` and stops there must answer. */
  ghost predicate StopsWith(tar: seq<Byte>, offset: nat, r: Result) {
    match r
    case File(bytes) => Readable(tar, offset) && Regular(tar, offset) && bytes == Data(tar, offset)
    case Corrupt => !Ended(tar, offset) && !Readable(tar, offset)
    case NoFile => Ended(tar, offset)
  }

  lemma StartOfChain(tar: seq<Byte>)
    ensures Chain(tar, [0])
  {
  }

  lemma ChainGrows(tar: seq<Byte>, offsets: seq<nat>)
    requires Chain(tar, offsets)
    requires Readable(tar, offsets[|offsets| - 1]) && !Regular(tar, offsets[|offsets| - 1])
    ensures Chain(tar, offsets + [Next(tar, offsets[|offsets| - 1])])
  {
    hide ParseSize, Padded;
  }

  /** The loop. Every index it forms is inside the archive, and it ends because the offset grows. */
  method FirstFile(tar: seq<Byte>) returns (r: Result)
    ensures exists offsets :: Chain(tar, offsets) && StopsWith(tar, offsets[|offsets| - 1], r)
  {
    hide ParseSize, Chain;
    assert Chain(tar, [0]) by { StartOfChain(tar); }
    var offset := 0;
    ghost var offsets: seq<nat> := [0];
    while offset + BLOCK <= |tar|
      invariant offsets != [] && Chain(tar, offsets) && offsets[|offsets| - 1] == offset
      decreases |tar| - offset
    {
      if tar[offset] == 0 {
        break;
      }
      var size := ParseSize(tar[offset + 124..offset + 136]);
      if size == None || size.value < 0 || offset + BLOCK + size.value > |tar| {
        return Corrupt;
      }
      var kind := tar[offset + 156];
      offset := offset + BLOCK;
      if kind == 0 || kind == 48 {
        return File(tar[offset..offset + size.value]);
      }
      ChainGrows(tar, offsets);
      offset := offset + Padded(size.value);
      offsets := offsets + [offset];
    }
    return NoFile;
  }

  /** Two walks visit the same offsets, so the answer is determined. */
  lemma {:induction false} ChainsAgree(tar: seq<Byte>, a: seq<nat>, b: seq<nat>, k: nat)
    requires Chain(tar, a) && Chain(tar, b) && k < |a| && k < |b|
    ensures a[k] == b[k]
  {
    if k > 0 {
      ChainsAgree(tar, a, b, k - 1);
      assert a[k - 1 + 1] == Next(tar, a[k - 1]) && b[k - 1 + 1] == Next(tar, b[k - 1]);
    }
  }

  lemma OneAnswer(tar: seq<Byte>, a: seq<nat>, ra: Result, b: seq<nat>, rb: Result)
    requires Chain(tar, a) && StopsWith(tar, a[|a| - 1], ra)
    requires Chain(tar, b) && StopsWith(tar, b[|b| - 1], rb)
    ensures a == b && ra == rb
  {
    hide ParseSize, Padded;
    if |a| < |b| {
      ChainsAgree(tar, a, b, |a| - 1);
      assert false;
    }
    if |b| < |a| {
      ChainsAgree(tar, a, b, |b| - 1);
      assert false;
    }
    forall k | 0 <= k < |a| ensures a[k] == b[k] {
      ChainsAgree(tar, a, b, k);
    }
  }

  // ----- well-formed archives -----

  /** One entry: the header's bytes around the size field and the type flag, then data and padding. */
  datatype Entry = Entry(name: seq<Byte>, size: seq<Byte>, times: seq<Byte>, kind: Byte, rest: seq<Byte>,
                         data: seq<Byte>, padding: seq<Byte>)

  /** The field writes `n` in octal: leading spaces, digits, then nothing, a space or a NUL. */
  ghost predicate Denotes(field: seq<Byte>, n: nat) {
    exists spaces: nat, digits: string ::
      WritesOctal(Latin1(field), spaces, digits) && OctalValue(digits) == n
  }

  ghost predicate WritesOctal(s: string, spaces: nat, digits: string) {
    var end := spaces + |digits|;
    && digits != [] && (forall i :: 0 <= i < |digits| ==> IsOctal(digits[i]))
    && end <= |s|
    && (forall i :: 0 <= i < spaces ==> s[i] == ' ')
    && s[spaces..end] == digits
    && (end < |s| ==> s[end] == ' ' || s[end] == '\0')
  }

  ghost predicate WellFormed(e: Entry) {
    && |e.name| == 124 && e.name[0] != 0
    && |e.size| == 12 && Denotes(e.size, |e.data|)
    && |e.times| == 20 && |e.rest| == 355
    && |e.data| + |e.padding| == Padded(|e.data|)
  }

  function Bytes(e: Entry): seq<Byte> {
    e.name + e.size + e.times + [e.kind] + e.rest + e.data + e.padding
  }

  function Archive(entries: seq<Entry>): seq<Byte> {
    if entries == [] then [] else Bytes(entries[0]) + Archive(entries[1..])
  }

  predicate IsRegular(e: Entry) {
    e.kind == 0 || e.kind == 48
  }

  // ----- reading back what was written -----

  lemma {:induction false} TrimStartSpaces(s: string, n: nat)
    requires n < |s| && (forall i :: 0 <= i < n ==> s[i] == ' ') && !IsSpace(s[n])
    ensures TrimStart(s) == s[n..]
  {
    if n > 0 {
      TrimStartSpaces(s[1..], n - 1);
      assert s[1..][n - 1..] == s[n..];
    }
  }

  /** Trimming at the end stops at the last character that is no space. */
  lemma {:induction false} TrimEndKeeps(d: string, x: string)
    requires d != [] && !IsSpace(d[|d| - 1])
    ensures TrimEnd(d + x) == d + TrimEnd(x)
    ensures TrimEnd(x) <= x
  {
    if x == [] {
      assert d + x == d;
    } else if IsSpace(x[|x| - 1]) {
      assert (d + x)[..|d + x| - 1] == d + x[..|x| - 1];
      TrimEndKeeps(d, x[..|x| - 1]);
    }
  }

  lemma {:induction false} PrefixOfDigits(d: string, x: string)
    requires forall i :: 0 <= i < |d| ==> IsOctal(d[i])
    requires x == [] || !IsOctal(x[0])
    ensures OctalPrefix(d + x) == d
  {
    if d == [] {
      assert d + x == x;
    } else {
      PrefixOfDigits(d[1..], x);
      assert (d + x)[1..] == d[1..] + x;
    }
  }

  lemma ReadsDigits(digits: string, tail: string)
    requires digits != [] && forall i :: 0 <= i < |digits| ==> IsOctal(digits[i])
    requires tail == [] || tail[0] == ' '
    ensures ParseOctal(TrimEnd(digits + tail)) == Some(OctalValue(digits))
  {
    TrimEndKeeps(digits, tail);
    PrefixOfDigits(digits, TrimEnd(tail));
    assert (digits + TrimEnd(tail))[0] == digits[0];
  }

  lemma SpellingRead(s: string, spaces: nat, digits: string)
    requires WritesOctal(s, spaces, digits)
    ensures ParseOctal(Trim(Before(s, '\0'))) == Some(OctalValue(digits))
  {
    hide ParseOctal, OctalValue;
    var end := spaces + |digits|;
    assert '\0' !in s[..end] by {
      forall i | 0 <= i < end ensures s[..end][i] != '\0' {
        if i >= spaces { assert s[i] == s[spaces..end][i - spaces]; }
      }
    }
    BeforeConcat(s[..end], s[end..], '\0');
    assert s[..end] + s[end..] == s;
    var text := Before(s, '\0');
    var tail := Before(s[end..], '\0');
    assert text == s[..end] + tail;
    assert text[spaces] == s[spaces..end][0];
    TrimStartSpaces(text, spaces);
    assert text[spaces..] == digits + tail;
    ReadsDigits(digits, tail);
  }

  /** Every spelling of a size is read as that size. */
  lemma SizeReadBack(field: seq<Byte>, n: nat)
    requires Denotes(field, n)
    ensures ParseSize(field) == Some(n)
  {
    hide ParseOctal, OctalValue;
    var spaces: nat, digits: string :| WritesOctal(Latin1(field), spaces, digits) && OctalValue(digits) == n;
    SpellingRead(Latin1(field), spaces, digits);
  }

  function Pow8(n: nat): (p: nat)
    ensures p > 0
  {
    if n == 0 then 1 else 8 * Pow8(n - 1)
  }

  /** The zero-filled octal number of `width` digits. */
  function Octal(n: nat, width: nat): (d: seq<Byte>)
    ensures |d| == width && forall i :: 0 <= i < width ==> 48 <= d[i] <= 55
  {
    if width == 0 then [] else Octal(n / 8, width - 1) + [48 + n % 8]
  }

  lemma {:induction false} OctalRoundTrip(n: nat, width: nat)
    requires n < Pow8(width)
    ensures OctalValue(Latin1(Octal(n, width))) == n
  {
    if width > 0 {
      OctalRoundTrip(n / 8, width - 1);
      var d := Latin1(Octal(n, width));
      assert d[..width - 1] == Latin1(Octal(n / 8, width - 1));
    }
  }

  /** What tar writers put in the field: zero-filled digits and a NUL. It is one of the spellings. */
  lemma StandardField(n: nat)
    requires n < Pow8(11)
    ensures Denotes(Octal(n, 11) + [0], n)
  {
    var width := 11;
    var digits := Latin1(Octal(n, width));
    OctalRoundTrip(n, width);
    var s := Latin1(Octal(n, width) + [0]);
    assert s[0..0 + width] == digits;
    assert WritesOctal(s, 0, digits);
  }

  lemma EntryAt(pre: seq<Byte>, e: Entry, post: seq<Byte>)
    requires WellFormed(e)
    ensures var tar := pre + (Bytes(e) + post);
      Readable(tar, |pre|) && Data(tar, |pre|) == e.data && Next(tar, |pre|) == |pre + Bytes(e)|
      && Regular(tar, |pre|) == IsRegular(e)
  {
    hide ParseSize, Denotes;
    var tar := pre + (Bytes(e) + post);
    var o := |pre|;
    assert tar[o] == e.name[0];
    assert tar[o + 124..o + 136] == e.size;
    assert tar[o + 156] == e.kind;
    assert tar[o + 512..o + 512 + |e.data|] == e.data;
    SizeReadBack(e.size, |e.data|);
  }

  /** Walking over leading entries that are no regular file. */
  lemma {:induction false} WalkOver(entries: seq<Entry>, post: seq<Byte>, n: nat) returns (offsets: seq<nat>)
    requires n <= |entries| && forall e :: e in entries ==> WellFormed(e)
    requires forall e :: e in entries[..n] ==> !IsRegular(e)
    ensures Chain(Archive(entries) + post, offsets)
    ensures offsets[|offsets| - 1] == |Archive(entries[..n])|
  {
    hide WellFormed, Bytes, Readable, Regular, Data, Next;
    if n == 0 {
      offsets := [0];
    } else {
      var before := WalkOver(entries, post, n - 1);
      assert entries[..n - 1] == entries[..n][..n - 1];
      var e := entries[n - 1];
      SplitArchive(entries, n - 1, post);
      EntryAt(Archive(entries[..n - 1]), e, Archive(entries[n..]) + post);
      SplitArchive(entries[..n], n - 1, []);
      assert entries[..n][n - 1 + 1..] == [];
      assert e == entries[..n][n - 1] && e in entries[..n];
      offsets := before + [|Archive(entries[..n])|];
    }
  }

  lemma {:induction false} SplitArchive(entries: seq<Entry>, n: nat, post: seq<Byte>)
    requires n < |entries|
    ensures Archive(entries) + post
         == Archive(entries[..n]) + (Bytes(entries[n]) + (Archive(entries[n + 1..]) + post))
  {
    if n == 0 {
      assert entries[0 + 1..] == entries[1..];
    } else {
      hide Bytes;
      SplitArchive(entries[1..], n - 1, post);
      assert entries[1..][..n - 1] == entries[..n][1..];
      assert entries[1..][n - 1 + 1..] == entries[n + 1..];
      var inner := Bytes(entries[n]) + (Archive(entries[n + 1..]) + post);
      Assoc(Bytes(entries[0]), Archive(entries[1..]), post);
      Assoc(Bytes(entries[0]), Archive(entries[..n][1..]), inner);
    }
  }

  ghost predicate FirstRegularIs(entries: seq<Entry>, n: nat) {
    n < |entries| && IsRegular(entries[n]) && forall e :: e in entries[..n] ==> !IsRegular(e)
  }

  /** On every well-formed archive, whatever follows it, the answer is the first regular entry's data. */
  lemma BuiltArchiveRead(entries: seq<Entry>, post: seq<Byte>, n: nat, offsets: seq<nat>, r: Result)
    requires forall e :: e in entries ==> WellFormed(e)
    requires FirstRegularIs(entries, n)
    requires Chain(Archive(entries) + post, offsets)
    requires StopsWith(Archive(entries) + post, offsets[|offsets| - 1], r)
    ensures r == File(entries[n].data)
  {
    var walked := WalkOver(entries, post, n);
    SplitArchive(entries, n, post);
    EntryAt(Archive(entries[..n]), entries[n], Archive(entries[n + 1..]) + post);
    OneAnswer(Archive(entries) + post, offsets, r, walked, File(entries[n].data));
  }

  /** With no regular entry and a proper end, the answer is that there is none. */
  lemma NoRegularEntry(entries: seq<Entry>, post: seq<Byte>, offsets: seq<nat>, r: Result)
    requires forall e :: e in entries ==> WellFormed(e) && !IsRegular(e)
    requires |post| < BLOCK || post[0] == 0
    requires Chain(Archive(entries) + post, offsets)
    requires StopsWith(Archive(entries) + post, offsets[|offsets| - 1], r)
    ensures r == NoFile
  {
    assert entries[..|entries|] == entries;
    var walked := WalkOver(entries, post, |entries|);
    assert Ended(Archive(entries) + post, |Archive(entries)|);
    OneAnswer(Archive(entries) + post, offsets, r, walked, NoFile);
  }
}
