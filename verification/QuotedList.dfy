/** Two scanners for comma lists with quoted strings: the splitter behind the cache's
    directive parser and the no-transform test of the compressor, written separately. */
module QuotedList {
  import opened Text

  /** Where a scanner stands: outside quotes, inside, or just after a backslash inside. */
  datatype State = Plain | Quoted | Escaped

  function Advance(st: State, c: char): State {
    match st
    case Escaped => Quoted
    case Quoted => if c == '\\' then Escaped else if c == '"' then Plain else Quoted
    case Plain => if c == '"' then Quoted else Plain
  }

  function After(st: State, text: string): State
    decreases |text|
  {
    if text == [] then st else After(Advance(st, text[0]), text[1..])
  }

  /** Quotes closed and no dangling escape. */
  predicate Closed(text: string) {
    After(Plain, text) == Plain
  }

  /** Some comma of the text is read outside quotes. */
  predicate HasTopComma(st: State, text: string)
    decreases |text|
  {
    text != [] && ((st == Plain && text[0] == ',') || HasTopComma(Advance(st, text[0]), text[1..]))
  }

  function Prefixed(head: string, parts: seq<string>): (r: seq<string>)
    requires parts != []
    ensures r != []
  {
    [head + parts[0]] + parts[1..]
  }

  /** The text cut at its top-level commas. */
  function Cut(st: State, text: string): (r: seq<string>)
    ensures r != []
    decreases |text|
  {
    if text == [] then [""]
    else if st == Plain && text[0] == ',' then [""] + Cut(Plain, text[1..])
    else Prefixed([text[0]], Cut(Advance(st, text[0]), text[1..]))
  }

  /** The defining properties of such a cut: nothing lost, no top-level comma left inside a
      part, and every part but the last closes its own quotes, so no cut falls inside one. */
  ghost predicate IsCut(text: string, parts: seq<string>) {
    && parts != [] && Join(parts, ",") == text
    && (forall p :: p in parts ==> !HasTopComma(Plain, p))
    && forall i :: 0 <= i < |parts| - 1 ==> Closed(parts[i])
  }

  datatype Directive = Directive(name: string, value: Option<string>)

  function NameOf(part: string): string {
    Lower(Trim(Before(part, '=')))
  }

  predicate IsLineEnd(c: char) {
    c == '\n' || c == '\r' || c == '\U{2028}' || c == '\U{2029}'
  }

  /** Drop one pair of enclosing quotes, as the pattern ^"(.*)"$ does. */
  function Unquote(s: string): string {
    if |s| >= 2 && s[0] == '"' && s[|s| - 1] == '"' && (forall i :: 0 <= i < |s| ==> !IsLineEnd(s[i]))
    then s[1..|s| - 1] else s
  }

  function Parse(part: string): Directive {
    var equal := IndexOf(part, '=');
    Directive(NameOf(part), if equal < 0 then None else Some(Unquote(Trim(part[equal + 1..]))))
  }

  /** The directives among the parts; blank parts are not directives. */
  function ParseAll(parts: seq<string>): seq<Directive> {
    if parts == [] then []
    else (if Trim(parts[0]) == "" then [] else [Parse(parts[0])]) + ParseAll(parts[1..])
  }

  function DirectivesOf(values: seq<string>): Option<seq<Directive>> {
    var raw := Join(values, ",");
    if Closed(raw) then Some(ParseAll(Cut(Plain, raw))) else None
  }

  // ----- the cut is what IsCut says, and nothing else is -----

  lemma {:induction false} AfterConcat(st: State, a: string, b: string)
    ensures After(st, a + b) == After(After(st, a), b)
    decreases |a|
  {
    if a == [] {
      assert a + b == b;
    } else {
      assert (a + b)[1..] == a[1..] + b;
      AfterConcat(Advance(st, a[0]), a[1..], b);
    }
  }

  lemma PrefixTwice(a: string, b: string, parts: seq<string>)
    requires parts != []
    ensures Prefixed(a, Prefixed(b, parts)) == Prefixed(a + b, parts)
  {
    Assoc(a, b, parts[0]);
  }

  lemma PrefixNothing(parts: seq<string>)
    requires parts != []
    ensures Prefixed("", parts) == parts
  {
    assert "" + parts[0] == parts[0];
  }

  /** A prefix without top-level comma is glued to the first part of the rest. */
  lemma {:induction false} CutPrefix(st: State, a: string, b: string)
    requires !HasTopComma(st, a)
    ensures Cut(st, a + b) == Prefixed(a, Cut(After(st, a), b))
    decreases |a|
  {
    if a == [] {
      assert a + b == b;
      PrefixNothing(Cut(st, b));
    } else {
      assert (a + b)[1..] == a[1..] + b && [a[0]] + a[1..] == a;
      CutPrefix(Advance(st, a[0]), a[1..], b);
      PrefixTwice([a[0]], a[1..], Cut(After(st, a), b));
    }
  }

  /** Cutting loses nothing: joining the parts with commas gives the text back. */
  lemma {:induction false} CutLossless(st: State, text: string)
    ensures Join(Cut(st, text), ",") == text
    decreases |text|
  {
    if text != [] {
      var c := text[0];
      assert [c] + text[1..] == text;
      if st == Plain && c == ',' {
        CutLossless(Plain, text[1..]);
        JoinCons("", Cut(Plain, text[1..]), ",");
        assert "" + ("," + text[1..]) == text;
      } else {
        var rest := Cut(Advance(st, c), text[1..]);
        CutLossless(Advance(st, c), text[1..]);
        assert [rest[0]] + rest[1..] == rest;
        JoinCons(rest[0], rest[1..], ",");
        JoinCons([c] + rest[0], rest[1..], ",");
        if rest[1..] != [] {
          Assoc([c], rest[0], "," + Join(rest[1..], ","));
        }
      }
    }
  }

  /** Parts after the first start outside quotes; the first one starts where the scan did. */
  ghost predicate AtTopLevel(st: State, text: string, parts: seq<string>)
    requires parts != []
  {
    && !HasTopComma(st, parts[0]) && (forall i :: 0 < i < |parts| ==> !HasTopComma(Plain, parts[i]))
    && (|parts| > 1 ==> After(st, parts[0]) == Plain) && (forall i :: 0 < i < |parts| - 1 ==> Closed(parts[i]))
    && After(st, text) == After(if |parts| == 1 then st else Plain, parts[|parts| - 1])
  }

  lemma TopLevelChar(st: State, c: char, text: string, rest: seq<string>)
    requires rest != [] && AtTopLevel(Advance(st, c), text, rest) && !(st == Plain && c == ',')
    ensures AtTopLevel(st, [c] + text, Prefixed([c], rest))
  {
    var parts := Prefixed([c], rest);
    assert parts[0][1..] == rest[0] && ([c] + text)[1..] == text;
    assert forall i :: 0 < i < |parts| ==> parts[i] == rest[i];
  }

  lemma TopLevelComma(text: string, rest: seq<string>)
    requires rest != [] && AtTopLevel(Plain, text, rest)
    ensures AtTopLevel(Plain, "," + text, [""] + rest)
  {
    var parts := [""] + rest;
    assert ("," + text)[1..] == text;
    assert forall i :: 0 < i < |parts| ==> parts[i] == rest[i - 1];
  }

  lemma {:induction false} CutAtTopLevel(st: State, text: string)
    ensures AtTopLevel(st, text, Cut(st, text))
    decreases |text|
  {
    if text != [] {
      var c := text[0];
      assert [c] + text[1..] == text;
      if st == Plain && c == ',' {
        CutAtTopLevel(Plain, text[1..]);
        TopLevelComma(text[1..], Cut(Plain, text[1..]));
      } else {
        CutAtTopLevel(Advance(st, c), text[1..]);
        TopLevelChar(st, c, text[1..], Cut(Advance(st, c), text[1..]));
      }
    }
  }

  lemma CutIsCut(text: string)
    ensures IsCut(text, Cut(Plain, text))
    ensures After(Plain, text) == After(Plain, Cut(Plain, text)[|Cut(Plain, text)| - 1])
  {
    CutLossless(Plain, text);
    CutAtTopLevel(Plain, text);
  }

  /** The properties leave no choice: any list with them is the cut. */
  lemma {:induction false} CutUnique(text: string, parts: seq<string>)
    requires IsCut(text, parts)
    ensures parts == Cut(Plain, text)
    decreases |parts|
  {
    CutPrefix(Plain, parts[0], "");
    assert parts[0] + "" == parts[0];
    if |parts| == 1 {
      assert Prefixed(parts[0], [""]) == parts;
    } else {
      var rest := Join(parts[1..], ",");
      assert forall i :: 0 <= i < |parts[1..]| ==> parts[1..][i] == parts[i + 1];
      CutUnique(rest, parts[1..]);
      CutPrefix(Plain, parts[0], "," + rest);
      assert ("," + rest)[1..] == rest;
      assert Cut(Plain, "," + rest) == [""] + parts[1..];
      assert Prefixed(parts[0], [""] + parts[1..]) == parts;
    }
  }

  // ----- the two scanners -----

  /** The state the two flags of the loops stand for. */
  predicate Flags(st: State, quoted: bool, escaped: bool) {
    quoted == (st != Plain) && escaped == (st == Escaped)
  }

  /** Invariant of both scans before `index`: the finished parts, the open one, and what is to come. */
  ghost predicate Scanned(raw: string, parts: seq<string>, start: nat, index: nat, st: State) {
    && start <= index <= |raw| && After(Plain, raw) == After(st, raw[index..])
    && Cut(Plain, raw) == parts + Prefixed(raw[start..index], Cut(st, raw[index..]))
  }

  lemma ScanStart(raw: string)
    ensures Scanned(raw, [], 0, 0, Plain)
  {
    assert raw[0..] == raw;
    PrefixNothing(Cut(Plain, raw));
  }

  lemma ScanCharacter(raw: string, parts: seq<string>, start: nat, index: nat, st: State)
    requires index < |raw| && Scanned(raw, parts, start, index, st)
    requires !(st == Plain && raw[index] == ',')
    ensures Scanned(raw, parts, start, index + 1, Advance(st, raw[index]))
  {
    assert raw[index..][1..] == raw[index + 1..];
    PrefixTwice(raw[start..index], [raw[index]], Cut(Advance(st, raw[index]), raw[index + 1..]));
    assert raw[start..index] + [raw[index]] == raw[start..index + 1];
  }

  lemma ScanComma(raw: string, parts: seq<string>, start: nat, index: nat)
    requires index < |raw| && Scanned(raw, parts, start, index, Plain) && raw[index] == ','
    ensures Scanned(raw, parts + [raw[start..index]], index + 1, index + 1, Plain)
  {
    assert raw[index..][1..] == raw[index + 1..];
    var part, rest := raw[start..index], Cut(Plain, raw[index + 1..]);
    assert part + "" == part;
    assert Prefixed(part, [""] + rest) == [part] + rest;
    Assoc(parts, [part], rest);
    assert raw[index + 1..index + 1] == "";
    PrefixNothing(rest);
  }

  lemma ScanEnd(raw: string, parts: seq<string>, start: nat, st: State)
    requires Scanned(raw, parts, start, |raw|, st)
    ensures Cut(Plain, raw) == parts + [raw[start..]] && After(Plain, raw) == st
  {
    assert raw[|raw|..] == "" && raw[start..|raw|] == raw[start..];
    assert Cut(st, raw[|raw|..]) == [""];
    assert raw[start..] + "" == raw[start..];
  }

  /** directives(): undefined on open quotes, else the directives of the cut. */
  method Directives(values: seq<string>) returns (r: Option<seq<Directive>>)
    ensures r == DirectivesOf(values)
  {
    var raw := Join(values, ",");
    var parts: seq<string> := [];
    var start, quoted, escaped := 0, false, false;
    ghost var st := Plain;
    ScanStart(raw);
    for index := 0 to |raw|
      invariant start <= index && Flags(st, quoted, escaped) && Scanned(raw, parts, start, index, st)
    {
      var c := raw[index];
      if escaped {
        escaped := false;
      } else if quoted && c == '\\' {
        escaped := true;
      } else if c == '"' {
        quoted := !quoted;
      } else if c == ',' && !quoted {
        ScanComma(raw, parts, start, index);
        parts := parts + [raw[start..index]];
        start := index + 1;
        continue;
      }
      ScanCharacter(raw, parts, start, index, st);
      st := Advance(st, c);
    }
    ScanEnd(raw, parts, start, st);
    if quoted || escaped {
      return None;
    }
    parts := parts + [raw[start..]];
    return Some(ParseAll(parts));
  }

  /** Some part, other than a last one that ends in a dangling escape, is named no-transform. */
  ghost predicate NamesNoTransform(text: string) {
    var parts := Cut(Plain, text);
    exists i :: 0 <= i < |parts| && NameOf(parts[i]) == "no-transform"
      && (i < |parts| - 1 || After(Plain, text) != Escaped)
  }

  /** hasNoTransform() on the joined header rows; the round past the last character is written out. */
  method HasNoTransform(raw: string) returns (found: bool)
    ensures found <==> NamesNoTransform(raw)
  {
    hide Scanned, Cut, After, Prefixed, NameOf, NamesNoTransform;
    var start, quoted, escaped := 0, false, false;
    ghost var st := Plain;
    ghost var parts: seq<string> := [];
    ScanStart(raw);
    for index := 0 to |raw|
      invariant start <= index && Flags(st, quoted, escaped) && Scanned(raw, parts, start, index, st)
      invariant forall i :: 0 <= i < |parts| ==> NameOf(parts[i]) != "no-transform"
    {
      var c := raw[index];
      if escaped {
        escaped := false;
      } else if quoted && c == '\\' {
        escaped := true;
      } else if c == '"' {
        quoted := !quoted;
      } else if c == ',' && !quoted {
        ScanComma(raw, parts, start, index);
        if NameOf(raw[start..index]) == "no-transform" {
          FoundInScan(raw, parts, raw[start..index], index + 1);
          return true;
        }
        parts := parts + [raw[start..index]];
        start := index + 1;
        continue;
      }
      ScanCharacter(raw, parts, start, index, st);
      st := Advance(st, c);
    }
    ScanEnd(raw, parts, start, st);
    LastPartDecides(raw, parts, raw[start..], st);
    if escaped {
      return false;
    }
    return NameOf(raw[start..]) == "no-transform";
  }

  lemma FoundInScan(raw: string, parts: seq<string>, part: string, index: nat)
    requires Scanned(raw, parts + [part], index, index, Plain) && NameOf(part) == "no-transform"
    ensures NamesNoTransform(raw)
  {
    hide NameOf;
    var rest := Prefixed(raw[index..index], Cut(Plain, raw[index..]));
    assert Cut(Plain, raw) == parts + [part] + rest;
    FoundAt(raw, parts, part, rest);
  }

  /** With no find so far, the text past the last comma decides. */
  lemma LastPartDecides(raw: string, parts: seq<string>, last: string, st: State)
    requires Cut(Plain, raw) == parts + [last] && After(Plain, raw) == st
    requires forall i :: 0 <= i < |parts| ==> NameOf(parts[i]) != "no-transform"
    ensures NamesNoTransform(raw) <==> st != Escaped && NameOf(last) == "no-transform"
  {
    hide NameOf, Cut, After;
    assert Cut(Plain, raw)[|parts|] == last;
  }

  lemma FoundAt(raw: string, parts: seq<string>, part: string, rest: seq<string>)
    requires Cut(Plain, raw) == parts + [part] + rest && NameOf(part) == "no-transform"
    requires rest != [] || After(Plain, raw) != Escaped
    ensures NamesNoTransform(raw)
  {
    assert Cut(Plain, raw)[|parts|] == part;
  }

  ghost predicate AllSpace(s: string) {
    forall c :: c in s ==> IsSpace(c)
  }

  lemma {:induction false} BlankEnd(s: string)
    requires |TrimEnd(s)| == 0
    ensures AllSpace(s)
  {
    if |s| > 0 {
      BlankEnd(s[..|s| - 1]);
      assert s == s[..|s| - 1] + [s[|s| - 1]];
    }
  }

  lemma {:induction false} BlankStart(s: string)
    requires AllSpace(TrimStart(s))
    ensures AllSpace(s)
  {
    if |s| > 0 && IsSpace(s[0]) {
      BlankStart(s[1..]);
      assert s == [s[0]] + s[1..];
    }
  }

  lemma {:induction false} SpacesTrimAway(s: string)
    requires AllSpace(s)
    ensures |TrimStart(s)| == 0
  {
    if |s| > 0 {
      SpacesTrimAway(s[1..]);
    }
  }

  /** A part the splitter skips as blank has the empty name. */
  lemma TrimmedBlank(part: string)
    requires Trim(part) == ""
    ensures NameOf(part) == ""
  {
    BlankEnd(TrimStart(part));
    BlankStart(part);
    SpacesTrimAway(Before(part, '='));
  }

  lemma {:induction false} ParseAllNames(parts: seq<string>, name: string)
    requires name != ""
    ensures (exists d :: d in ParseAll(parts) && d.name == name) <==> (exists p :: p in parts && NameOf(p) == name)
  {
    if parts != [] {
      ParseAllNames(parts[1..], name);
      if Trim(parts[0]) == "" {
        TrimmedBlank(parts[0]);
        assert ParseAll(parts) == ParseAll(parts[1..]);
        assert forall p :: p in parts <==> p == parts[0] || p in parts[1..];
      } else {
        assert ParseAll(parts) == [Parse(parts[0])] + ParseAll(parts[1..]);
        assert forall d :: d in ParseAll(parts) <==> d == Parse(parts[0]) || d in ParseAll(parts[1..]);
        assert forall p :: p in parts <==> p == parts[0] || p in parts[1..];
      }
    }
  }

  /** On closed text the two scanners agree about no-transform. */
  lemma ScannersAgree(text: string)
    requires Closed(text)
    ensures NamesNoTransform(text) <==> (exists d :: d in ParseAll(Cut(Plain, text)) && d.name == "no-transform")
  {
    ParseAllNames(Cut(Plain, text), "no-transform");
  }

  lemma {:induction false} PlainText(text: string)
    requires ',' !in text && '"' !in text
    ensures !HasTopComma(Plain, text) && After(Plain, text) == Plain
  {
    if text != [] {
      PlainText(text[1..]);
    }
  }

  /** Text without white space at its ends. */
  predicate Tight(s: string) {
    s != "" && !IsSpace(s[0]) && !IsSpace(s[|s| - 1])
  }

  lemma {:induction false} TrimEndKeepsFirst(s: string)
    requires s != "" && !IsSpace(s[0])
    ensures TrimEnd(s) != ""
  {
    if IsSpace(s[|s| - 1]) {
      TrimEndKeepsFirst(s[..|s| - 1]);
    }
  }

  /** One directive with an unquoted value is read as its name and value. */
  lemma PlainDirective(name: string, value: string)
    requires Tight(name) && Tight(value) && '=' !in name
    requires ',' !in name && ',' !in value && '"' !in name && '"' !in value
    ensures DirectivesOf([name + (['='] + value)]) == Some([Directive(Lower(name), Some(value))])
  {
    var text := name + (['='] + value);
    BeforeFirst(name, value, '=');
    ParsePlain(text, name, value);
    assert text[0] == name[0];
    TrimEndKeepsFirst(text);
    assert ',' !in text && '"' !in text;
    PlainText(text);
    SingleDirective(text);
  }

  lemma ParsePlain(text: string, name: string, value: string)
    requires Tight(name) && Tight(value) && '"' !in value
    requires text == name + (['='] + value) && Before(text, '=') == name && IndexOf(text, '=') == |name|
    ensures Parse(text) == Directive(Lower(name), Some(value))
  {
    hide IndexOf, Before, Lower;
    assert text[|name| + 1..] == value;
    assert value[0] in value;
  }

  lemma SingleDirective(text: string)
    requires !HasTopComma(Plain, text) && Closed(text) && Trim(text) != ""
    ensures DirectivesOf([text]) == Some([Parse(text)])
  {
    hide Cut, After, Trim, Parse, HasTopComma;
    assert Join([text], ",") == text;
    CutUnique(text, [text]);
    assert ParseAll([]) == [];
    assert [text][1..] == [];
    assert ParseAll([text]) == [Parse(text)];
  }

  // ----- a header written directive by directive -----

  /** A directive as servers write it, after some blanks: alone, with a token, or with a quoted string. */
  datatype Written =
    | Bare(blanks: string, name: string)
    | WithToken(blanks: string, name: string, value: string)
    | WithString(blanks: string, name: string, value: string)

  function Spell(w: Written): string {
    w.blanks + match w
               case Bare(_, name) => name
               case WithToken(_, name, value) => name + ("=" + value)
               case WithString(_, name, value) => name + ("=" + ("\"" + (value + "\"")))
  }

  predicate PlainWord(s: string) {
    Tight(s) && forall c :: c in s ==> c != '=' && c != ',' && c != '"'
  }

  /** What a quoted string may hold here: anything but quotes, backslashes and line ends; commas too. */
  predicate StringText(s: string) {
    forall c :: c in s ==> c != '"' && c != '\\' && !IsLineEnd(c)
  }

  predicate WellWritten(w: Written) {
    && (forall c :: c in w.blanks ==> c == ' ') && PlainWord(w.name)
    && (w.WithToken? ==> PlainWord(w.value)) && (w.WithString? ==> StringText(w.value))
  }

  function Meaning(w: Written): Directive {
    Directive(Lower(w.name), if w.Bare? then None else Some(w.value))
  }

  lemma {:induction false} BlanksTrim(blanks: string, s: string)
    requires (forall c :: c in blanks ==> c == ' ') && Tight(s)
    ensures Trim(blanks + s) == s
  {
    if blanks == [] {
      assert blanks + s == s;
    } else {
      assert blanks[0] in blanks && (blanks + s)[1..] == blanks[1..] + s;
      forall c | c in blanks[1..] ensures c == ' ' {
        assert c in blanks;
      }
      BlanksTrim(blanks[1..], s);
    }
  }

  /** A quoted string is passed over from one quote to the other. */
  lemma {:induction false} StringPassed(s: string)
    requires StringText(s)
    ensures !HasTopComma(Quoted, s) && After(Quoted, s) == Quoted
  {
    if s != [] {
      assert s[0] in s;
      StringPassed(s[1..]);
    }
  }

  lemma {:induction false} TopCommaConcat(st: State, a: string, b: string)
    ensures HasTopComma(st, a + b) <==> HasTopComma(st, a) || HasTopComma(After(st, a), b)
    decreases |a|
  {
    if a == [] {
      assert a + b == b;
    } else {
      assert (a + b)[1..] == a[1..] + b;
      TopCommaConcat(Advance(st, a[0]), a[1..], b);
    }
  }

  /** The part has no comma at top level, and closes its quotes. */
  predicate WholePart(s: string) {
    !HasTopComma(Plain, s) && Closed(s)
  }

  lemma SpelledIsWhole(w: Written)
    requires WellWritten(w)
    ensures WholePart(Spell(w))
  {
    PlainText(w.blanks);
    PlainText(w.name);
    if w.Bare? {
      Wholes(w.blanks, w.name);
    } else {
      PlainText("=");
      var tail := Spell(w)[|w.blanks| + |w.name| + 1..];
      if w.WithToken? {
        PlainText(w.value);
        assert tail == w.value;
      } else {
        StringPassed(w.value);
        QuotesClose(w.value);
        assert tail == "\"" + (w.value + "\"");
      }
      Wholes("=", tail);
      Wholes(w.name, "=" + tail);
      Wholes(w.blanks, w.name + ("=" + tail));
      assert Spell(w) == w.blanks + (w.name + ("=" + tail));
    }
  }

  lemma Wholes(a: string, b: string)
    requires WholePart(a) && WholePart(b)
    ensures WholePart(a + b)
  {
    TopCommaConcat(Plain, a, b);
    AfterConcat(Plain, a, b);
  }

  lemma QuotesClose(value: string)
    requires !HasTopComma(Quoted, value) && After(Quoted, value) == Quoted
    ensures WholePart("\"" + (value + "\""))
  {
    TopCommaConcat(Quoted, value, "\"");
    AfterConcat(Quoted, value, "\"");
    var s := "\"" + (value + "\"");
    assert s[1..] == value + "\"";
    assert "\""[1..] == "";
    assert HasTopComma(Quoted, "\"") == HasTopComma(Plain, "");
    assert After(Quoted, "\"") == After(Plain, "");
  }

  lemma SpelledIsRead(w: Written)
    requires WellWritten(w)
    ensures Parse(Spell(w)) == Meaning(w) && Trim(Spell(w)) != ""
  {
    var text, head := Spell(w), w.blanks + w.name;
    BlanksTrim(w.blanks, w.name);
    if w.Bare? {
      BareIsRead(head, w.name);
    } else if w.WithToken? {
      assert text == head + (['='] + w.value);
      NotBlank(w.blanks, w.name, "=" + w.value);
      BlanksTrim("", w.value);
      assert "" + w.value == w.value && w.value[0] in w.value;
      ValueIsRead(head, w.name, w.value, w.value);
    } else {
      var quoted := "\"" + (w.value + "\"");
      assert text == head + (['='] + quoted);
      NotBlank(w.blanks, w.name, "=" + quoted);
      QuotedValue(w.value);
      ValueIsRead(head, w.name, quoted, w.value);
    }
  }

  lemma BareIsRead(head: string, name: string)
    requires '=' !in head && Trim(head) == name
    ensures Parse(head) == Directive(Lower(name), None)
  {
    BeforeConcat(head, [], '=');
    assert head + [] == head;
    hide Trim, Lower;
  }

  lemma ValueIsRead(head: string, name: string, tail: string, value: string)
    requires '=' !in head && Trim(head) == name && Unquote(Trim(tail)) == value
    ensures Parse(head + (['='] + tail)) == Directive(Lower(name), Some(value))
  {
    hide Trim, Lower, Unquote;
    var text := head + (['='] + tail);
    BeforeFirst(head, tail, '=');
    assert text[|head| + 1..] == tail;
  }

  lemma NotBlank(blanks: string, name: string, rest: string)
    requires Tight(name)
    ensures Trim(blanks + (name + rest)) != ""
  {
    var text := blanks + (name + rest);
    assert text[|blanks|] == name[0];
    if Trim(text) == "" {
      BlankEnd(TrimStart(text));
      BlankStart(text);
    }
  }

  lemma QuotedValue(value: string)
    requires StringText(value)
    ensures Unquote(Trim("\"" + (value + "\""))) == value
  {
    var s := "\"" + (value + "\"");
    assert s[0] == '"' && s[|s| - 1] == '"';
    assert Trim(s) == s by { BlanksTrim("", s); assert "" + s == s; }
    assert s[1..|s| - 1] == value;
    assert forall i :: 0 < i < |s| - 1 ==> s[i] == value[i - 1];
  }

  function SpellAll(ws: seq<Written>): (r: seq<string>)
    ensures |r| == |ws| && forall i :: 0 <= i < |ws| ==> r[i] == Spell(ws[i])
  {
    seq(|ws|, i requires 0 <= i < |ws| => Spell(ws[i]))
  }

  function Meanings(ws: seq<Written>): (r: seq<Directive>)
    ensures |r| == |ws| && forall i :: 0 <= i < |ws| ==> r[i] == Meaning(ws[i])
  {
    seq(|ws|, i requires 0 <= i < |ws| => Meaning(ws[i]))
  }

  lemma {:induction false} AllRead(ws: seq<Written>)
    requires forall w :: w in ws ==> WellWritten(w)
    ensures ParseAll(SpellAll(ws)) == Meanings(ws)
  {
    if ws != [] {
      hide Parse, Spell, Meaning, WellWritten, Trim;
      AllRead(ws[1..]);
      SpelledIsRead(ws[0]);
      assert SpellAll(ws)[1..] == SpellAll(ws[1..]);
      assert Meanings(ws) == [Meaning(ws[0])] + Meanings(ws[1..]);
    }
  }

  /** Parts that are whole make a closed text. */
  lemma {:induction false} WholesClose(parts: seq<string>)
    requires parts != [] && forall p :: p in parts ==> WholePart(p)
    ensures Closed(Join(parts, ","))
  {
    assert WholePart(parts[0]);
    if |parts| > 1 {
      WholesClose(parts[1..]);
      var rest := Join(parts[1..], ",");
      AfterConcat(Plain, parts[0], "," + rest);
      assert ("," + rest)[1..] == rest;
    }
  }

  /** A header written as well-formed directives, commas inside quotes or not, is read as exactly those. */
  lemma DirectivesRoundTrip(ws: seq<Written>)
    requires ws != [] && forall w :: w in ws ==> WellWritten(w)
    ensures DirectivesOf([Join(SpellAll(ws), ",")]) == Some(Meanings(ws))
  {
    hide Spell, WellWritten, Cut, ParseAll;
    var parts := SpellAll(ws);
    var text := Join(parts, ",");
    forall i | 0 <= i < |parts| ensures WholePart(parts[i]) {
      SpelledIsWhole(ws[i]);
    }
    WholesClose(parts);
    hide Closed, HasTopComma, Join;
    assert forall p :: p in parts ==> WholePart(p);
    assert IsCut(text, parts);
    CutUnique(text, parts);
    AllRead(ws);
    JoinCons(text, [], ",");
    assert [text] + [] == [text];
  }

  lemma NoDirectives()
    ensures DirectivesOf([]) == Some([])
  {
    var none: seq<string> := [];
    var parts := Cut(Plain, Join(none, ","));
    assert Join(none, ",") == "" && parts == [""];
    assert Trim("") == "";
    assert parts[1..] == none && ParseAll(none) == [];
    assert ParseAll(parts) == [];
  }
}
