/** The security event log: one line an event, one earlier generation kept, and two readers.
    Contents are bytes, written as characters; what a line means is a parameter of the readers. */
module AuditLog {
  import opened Text

  // ----- reading -----

  /** The event a line holds under the reader's filter, or none for a malformed or filtered line. */
  type Reader<!V> = string -> Option<V>

  function Collect<V>(lines: seq<string>, read: Reader<V>): seq<V> {
    if lines == [] then []
    else
      var before := Collect(lines[..|lines| - 1], read);
      var line := lines[|lines| - 1];
      if Trim(line) == "" || read(line) == None then before else before + [read(line).value]
  }

  method ParseLines<V>(text: string, read: Reader<V>) returns (events: seq<V>)
    ensures events == Collect(Split(text, '\n'), read)
  {
    events := [];
    var lines := Split(text, '\n');
    for i := 0 to |lines|
      invariant events == Collect(lines[..i], read)
    {
      assert lines[..i + 1][..i] == lines[..i];
      if Trim(lines[i]) == "" {
        continue;
      }
      var parsed := read(lines[i]);
      if parsed.Some? {
        events := events + [parsed.value];
      }
    }
    assert lines[..|lines|] == lines;
  }

  /** JavaScript's slice with one argument, which may be negative. */
  function SliceFrom<T>(s: seq<T>, start: int): seq<T> {
    if start < 0 then s[if |s| + start < 0 then 0 else |s| + start..]
    else s[if start > |s| then |s| else start..]
  }

  /** The whole lines among the last `window` bytes. */
  function WholeLines(content: string, window: nat): string {
    if |content| <= window then content
    else
      var text := content[|content| - window..];
      var first := IndexOf(text, '\n');
      if first == -1 then "" else text[first + 1..]
  }

  /** Every event of the file, oldest first; a file that cannot be read has none. */
  function AllEvents<V>(file: Option<string>, read: Reader<V>): seq<V> {
    if file.None? then [] else Collect(Split(file.value, '\n'), read)
  }

  function WindowEvents<V>(file: Option<string>, window: nat, read: Reader<V>): seq<V> {
    if file.None? then [] else Collect(Split(WholeLines(file.value, window), '\n'), read)
  }

  /** The tail reader. `file` is None when the path is unset or any file operation throws. */
  method ReadTail<V>(file: Option<string>, window: nat, limit: int, read: Reader<V>) returns (events: seq<V>)
    requires window > 0
    ensures events == SliceFrom(WindowEvents(file, window, read), -limit)
  {
    EmptyText(read);
    if file.None? {
      return [];
    }
    var size := |file.value|;
    if size == 0 {
      return [];
    }
    var readSize := if size < window then size else window;
    var text := file.value[size - readSize..];
    if size > readSize {
      var firstNewline := IndexOf(text, '\n');
      if firstNewline == -1 {
        return [];
      }
      text := text[firstNewline + 1..];
    }
    var parsed := ParseLines(text, read);
    return SliceFrom(parsed, -limit);
  }

  ghost predicate SuffixOf<T>(s: seq<T>, t: seq<T>) {
    |s| <= |t| && s == t[|t| - |s|..]
  }

  function Newest<T>(s: seq<T>, n: nat): seq<T> {
    if |s| <= n then s else s[|s| - n..]
  }

  lemma EmptyText<V>(read: Reader<V>)
    ensures Split("", '\n') == [""] && Collect([""], read) == []
  {
    assert [""][..0] == [];
    assert Trim("") == "";
  }

  lemma {:induction false} CollectConcat<V>(a: seq<string>, b: seq<string>, read: Reader<V>)
    ensures Collect(a + b, read) == Collect(a, read) + Collect(b, read)
  {
    if b == [] {
      assert a + b == a;
    } else {
      CollectConcat(a, b[..|b| - 1], read);
      assert (a + b)[..|a + b| - 1] == a + b[..|b| - 1];
    }
  }

  lemma CutAt(s: string, cut: nat, text: string, i: nat, c: char)
    requires cut <= |s| && text == s[cut..] && i < |text| && text[i] == c
    ensures s == (s[..cut] + text[..i]) + ([c] + text[i + 1..])
  {
    assert text == text[..i] + ([c] + text[i + 1..]);
    Assoc(s[..cut], text[..i], [c] + text[i + 1..]);
  }

  lemma WindowText(content: string, window: nat)
    ensures |content| <= window ==> WholeLines(content, window) == content
    ensures |content| > window ==>
      var text := content[|content| - window..];
      var first := IndexOf(text, '\n');
      && (first == -1 ==> WholeLines(content, window) == "")
      && (first >= 0 ==> text[first] == '\n' && WholeLines(content, window) == text[first + 1..])
  {
  }

  /** The window's whole lines are the last lines of the file, unless it holds none. */
  lemma WholeLinesEnd(content: string, window: nat) returns (before: string)
    ensures var kept := WholeLines(content, window);
      kept == "" || kept == content || content == before + (['\n'] + kept)
  {
    hide WholeLines, IndexOf;
    before := "";
    WindowText(content, window);
    if |content| > window {
      var text := content[|content| - window..];
      var first := IndexOf(text, '\n');
      if first >= 0 {
        CutAt(content, |content| - window, text, first, '\n');
        before := content[..|content| - window] + text[..first];
      }
    }
  }

  /** Cutting at a line break loses only earlier events. */
  lemma WindowIsSuffix<V>(file: Option<string>, window: nat, read: Reader<V>)
    ensures SuffixOf(WindowEvents(file, window, read), AllEvents(file, read))
  {
    hide WholeLines, Collect;
    EmptyText(read);
    if file.Some? {
      var content := file.value;
      var kept := WholeLines(content, window);
      var before := WholeLinesEnd(content, window);
      if kept != "" && kept != content {
        SplitConcat(before, kept, '\n');
        CollectConcat(Split(before, '\n'), Split(kept, '\n'), read);
      }
    }
  }

  /** Readable lines come out one by one, in order. */
  lemma {:induction false} ReadableLinesCollected<V>(lines: seq<string>, read: Reader<V>)
    requires forall l :: l in lines ==> Trim(l) != "" && read(l).Some?
    ensures |Collect(lines, read)| == |lines|
    ensures forall i :: 0 <= i < |lines| ==> Some(Collect(lines, read)[i]) == read(lines[i])
  {
    hide Trim;
    if lines != [] {
      var init := lines[..|lines| - 1];
      assert forall l :: l in init ==> l in lines;
      ReadableLinesCollected(init, read);
    }
  }

  lemma FirstBreak(head: string, kept: string)
    ensures 0 <= IndexOf(head + (['\n'] + kept), '\n') <= |head|
  {
    var text := head + (['\n'] + kept);
    var first := IndexOf(text, '\n');
    assert text[|head|] == '\n' && text[|head|] in text;
    forall m | 0 <= m < first ensures text[m] != '\n' {
      assert text[..first][m] == text[m];
    }
  }

  lemma AfterBreak(head: string, kept: string, first: nat)
    requires first <= |head|
    ensures var rest := (head + (['\n'] + kept))[first + 1..];
      rest == if first == |head| then kept else head[first + 1..] + (['\n'] + kept)
  {
  }

  lemma WholeLinesKeep(before: string, kept: string, window: nat) returns (rest: string)
    requires |kept| < window
    ensures var lines := WholeLines(before + (['\n'] + kept), window);
      lines == kept || lines == rest + (['\n'] + kept)
  {
    hide IndexOf;
    var content := before + (['\n'] + kept);
    rest := before;
    if |content| > window {
      var head := before[|content| - window..];
      assert content[|content| - window..] == head + (['\n'] + kept);
      FirstBreak(head, kept);
      var first := IndexOf(head + (['\n'] + kept), '\n');
      AfterBreak(head, kept, first);
      rest := if first < |head| then head[first + 1..] else "";
    }
  }

  /** Lines that lie in the window with the break before them are all kept. */
  lemma WindowKeeps<V>(before: string, kept: string, window: nat, read: Reader<V>)
    requires |kept| < window
    ensures var content := before + (['\n'] + kept);
      SuffixOf(Collect(Split(kept, '\n'), read), WindowEvents(Some(content), window, read))
  {
    hide Collect, WholeLines;
    var rest := WholeLinesKeep(before, kept, window);
    KeptEvents(rest, kept, read);
  }

  lemma KeptEvents<V>(before: string, kept: string, read: Reader<V>)
    ensures SuffixOf(Collect(Split(kept, '\n'), read), Collect(Split(before + (['\n'] + kept), '\n'), read))
  {
    hide Collect;
    SplitConcat(before, kept, '\n');
    CollectConcat(Split(before, '\n'), Split(kept, '\n'), read);
  }

  lemma SliceOfSuffix<T>(s: seq<T>, t: seq<T>, start: int)
    requires SuffixOf(s, t)
    ensures SuffixOf(SliceFrom(s, start), t)
  {
  }

  /** Whatever the limit, the tail reader shows an unbroken run of the newest events the full reader shows. */
  lemma TailIsSuffix<V>(file: Option<string>, window: nat, limit: int, read: Reader<V>)
    ensures SuffixOf(SliceFrom(WindowEvents(file, window, read), -limit), AllEvents(file, read))
  {
    hide WindowEvents, AllEvents;
    WindowIsSuffix(file, window, read);
    SliceOfSuffix(WindowEvents(file, window, read), AllEvents(file, read), -limit);
  }

  /** It shows the newest `limit` events exactly when the window holds that many, or holds them all;
      a limit of zero instead shows all the window holds, since slice(-0) cuts nothing. */
  lemma TailIsNewest<V>(file: Option<string>, window: nat, limit: int, read: Reader<V>)
    requires limit >= 0
    ensures var shown := SliceFrom(WindowEvents(file, window, read), -limit);
      var all := AllEvents(file, read);
      var held := |WindowEvents(file, window, read)|;
      shown == Newest(all, limit) <==> if limit == 0 then held == 0 else held >= limit || held == |all|
  {
    WindowIsSuffix(file, window, read);
  }

  /** When the whole file fits the window. */
  lemma FittingFile<V>(content: string, window: nat, limit: int, read: Reader<V>)
    requires limit >= 0 && |content| <= window
    ensures var all := AllEvents(Some(content), read);
      SliceFrom(WindowEvents(Some(content), window, read), -limit) == Newest(all, limit) <==> limit > 0 || all == []
  {
    TailIsNewest(Some(content), window, limit, read);
  }

  // ----- writing -----

  /** The two generations on disk, as the pieces appended to them. A missing file is an empty one. */
  datatype Files = Files(previous: seq<string>, current: seq<string>)

  /** What the file system does to one queued write; `written` counts the bytes the append gets down. */
  datatype Outcome = Outcome(mkdirOk: bool, statOk: bool, rmOk: bool, renameOk: bool, written: nat)

  function Size(pieces: seq<string>): nat {
    if pieces == [] then 0 else Size(pieces[..|pieces| - 1]) + |pieces[|pieces| - 1]|
  }

  function Appended(pieces: seq<string>, line: string, written: nat): seq<string> {
    if written >= |line| then pieces + [line]
    else if written == 0 then pieces
    else pieces + [line[..written]]
  }

  function AfterRecord(f: Files, maxBytes: nat, line: string, o: Outcome): Files {
    var due := o.statOk && Size(f.current) >= maxBytes;
    if !o.mkdirOk || (due && !o.rmOk) then f
    else if due && !o.renameOk then f.(previous := [])
    else
      var g := if due then Files(f.current, []) else f;
      g.(current := Appended(g.current, line, o.written))
  }

  class Log {
    const maxBytes: nat
    var previous: seq<string>
    var current: seq<string>

    ghost function Disk(): Files
      reads this
    {
      Files(previous, current)
    }

    constructor (maxBytes: nat, previous: seq<string>, current: seq<string>)
      ensures this.maxBytes == maxBytes && Disk() == Files(previous, current)
    {
      this.maxBytes, this.previous, this.current := maxBytes, previous, current;
    }

    /** One queued write. A failing step ends it with a warning. */
    method Record(line: string, o: Outcome) returns (warned: bool)
      modifies this
      ensures Disk() == AfterRecord(old(Disk()), maxBytes, line, o)
      ensures !warned <==> o.mkdirOk && o.written >= |line|
                           && (o.statOk && Size(old(current)) >= maxBytes ==> o.rmOk && o.renameOk)
    {
      if !o.mkdirOk {
        return true;
      }
      var size := if o.statOk then Size(current) else 0;
      if o.statOk && size >= maxBytes {
        if !o.rmOk {
          return true;
        }
        previous := [];
        if !o.renameOk {
          return true;
        }
        previous, current := current, [];
      }
      current := Appended(current, line, o.written);
      warned := o.written < |line|;
    }
  }

  predicate Clean(o: Outcome, line: string) {
    o.mkdirOk && o.statOk && o.rmOk && o.renameOk && o.written >= |line|
  }

  datatype Write = Write(line: string, outcome: Outcome)

  function Run(start: Files, maxBytes: nat, writes: seq<Write>): Files {
    if writes == [] then start
    else
      var last := writes[|writes| - 1];
      AfterRecord(Run(start, maxBytes, writes[..|writes| - 1]), maxBytes, last.line, last.outcome)
  }

  /** All that was ever handed to the log, the contents it started from included. */
  function Recorded(start: Files, writes: seq<Write>): seq<string> {
    if writes == [] then start.previous + start.current
    else Recorded(start, writes[..|writes| - 1]) + [writes[|writes| - 1].line]
  }

  function OnDisk(f: Files): seq<string> {
    f.previous + f.current
  }

  ghost predicate AllClean(writes: seq<Write>) {
    forall w :: w in writes ==> Clean(w.outcome, w.line)
  }

  lemma SuffixExtends<T>(s: seq<T>, t: seq<T>, x: T)
    requires SuffixOf(s, t)
    ensures SuffixOf(s + [x], t + [x])
  {
  }

  lemma CleanStep(f: Files, maxBytes: nat, line: string, o: Outcome)
    requires Clean(o, line)
    ensures var g := AfterRecord(f, maxBytes, line, o);
      OnDisk(g) == (if Size(f.current) >= maxBytes then f.current else OnDisk(f)) + [line]
  {
  }

  /** Without write errors the two generations together are an unbroken run of the newest lines, none lost
      between them: the previous generation ends where the current one begins. */
  lemma {:induction false} NewestLinesKept(start: Files, maxBytes: nat, writes: seq<Write>)
    requires AllClean(writes)
    ensures SuffixOf(OnDisk(Run(start, maxBytes, writes)), Recorded(start, writes))
  {
    if writes != [] {
      var last := writes[|writes| - 1];
      var f := Run(start, maxBytes, writes[..|writes| - 1]);
      NewestLinesKept(start, maxBytes, writes[..|writes| - 1]);
      CleanStep(f, maxBytes, last.line, last.outcome);
      var base := if Size(f.current) >= maxBytes then f.current else OnDisk(f);
      assert SuffixOf(base, Recorded(start, writes[..|writes| - 1]));
      SuffixExtends(base, Recorded(start, writes[..|writes| - 1]), last.line);
    }
  }

  /** And it is as long a run as the cap allows: nothing recorded has been dropped at all, or the generation before
      the current one alone holds the cap's worth of bytes; the last line is there in any case. */
  lemma {:induction false} NewestStay(start: Files, maxBytes: nat, writes: seq<Write>)
    requires AllClean(writes)
    ensures var f := Run(start, maxBytes, writes);
      && (OnDisk(f) == Recorded(start, writes) || Size(f.previous) >= maxBytes)
      && (writes != [] ==> f.current != [] && f.current[|f.current| - 1] == writes[|writes| - 1].line)
  {
    if writes != [] {
      hide Size;
      NewestStay(start, maxBytes, writes[..|writes| - 1]);
    }
  }

  // ----- under failures -----

  /** `kept` comes from `all` by leaving pieces out and cutting others short, never by reordering. */
  ghost predicate Thinned(kept: seq<string>, all: seq<string>)
    decreases |all|
  {
    if kept == [] then true
    else if all == [] then false
    else
      || Thinned(kept, all[..|all| - 1])
      || (kept[|kept| - 1] <= all[|all| - 1] && Thinned(kept[..|kept| - 1], all[..|all| - 1]))
  }

  lemma {:induction false} ThinnedSelf(s: seq<string>)
    ensures Thinned(s, s)
  {
    if s != [] {
      ThinnedSelf(s[..|s| - 1]);
    }
  }

  lemma {:induction false} ThinnedTail(kept: seq<string>, all: seq<string>, n: nat)
    requires n <= |kept| && Thinned(kept, all)
    ensures Thinned(kept[n..], all)
    decreases |all|
  {
    if n < |kept| {
      var most := all[..|all| - 1];
      if Thinned(kept, most) {
        ThinnedTail(kept, most, n);
      } else {
        ThinnedTail(kept[..|kept| - 1], most, n);
        assert kept[..|kept| - 1][n..] == kept[n..][..|kept[n..]| - 1];
      }
    }
  }

  lemma ThinnedMore(kept: seq<string>, all: seq<string>, line: string)
    requires Thinned(kept, all)
    ensures Thinned(kept, all + [line])
  {
    assert (all + [line])[..|all + [line]| - 1] == all;
  }

  lemma ThinnedAppend(kept: seq<string>, all: seq<string>, line: string, written: nat)
    requires Thinned(kept, all)
    ensures Thinned(Appended(kept, line, written), all + [line])
  {
    ThinnedMore(kept, all, line);
    var grown := Appended(kept, line, written);
    if grown != kept {
      assert grown[..|grown| - 1] == kept;
      assert (all + [line])[..|all + [line]| - 1] == all;
      assert grown[|grown| - 1] <= line;
    }
  }

  lemma AppendedLater(a: seq<string>, b: seq<string>, line: string, written: nat)
    ensures a + Appended(b, line, written) == Appended(a + b, line, written)
  {
  }

  lemma ThinnedStep(f: Files, maxBytes: nat, line: string, o: Outcome, all: seq<string>)
    requires Thinned(OnDisk(f), all)
    ensures Thinned(OnDisk(AfterRecord(f, maxBytes, line, o)), all + [line])
  {
    hide Thinned, Appended, Size;
    ThinnedTail(OnDisk(f), all, |f.previous|);
    assert OnDisk(f)[|f.previous|..] == f.current;
    assert [] + f.current == f.current && f.current + [] == f.current;
    ThinnedMore(OnDisk(f), all, line);
    ThinnedMore(f.current, all, line);
    ThinnedAppend(OnDisk(f), all, line, o.written);
    ThinnedAppend(f.current, all, line, o.written);
    AppendedLater(f.previous, f.current, line, o.written);
    AppendedLater(f.current, [], line, o.written);
  }

  /** Whatever fails and whenever, nothing on disk is invented, repeated or out of order. */
  lemma {:induction false} NothingInvented(start: Files, maxBytes: nat, writes: seq<Write>)
    ensures Thinned(OnDisk(Run(start, maxBytes, writes)), Recorded(start, writes))
  {
    if writes == [] {
      ThinnedSelf(OnDisk(start));
    } else {
      var last := writes[|writes| - 1];
      var f := Run(start, maxBytes, writes[..|writes| - 1]);
      NothingInvented(start, maxBytes, writes[..|writes| - 1]);
      ThinnedStep(f, maxBytes, last.line, last.outcome, Recorded(start, writes[..|writes| - 1]));
    }
  }

  // ----- size -----

  ghost predicate Bounded(f: Files, maxBytes: nat, longest: nat) {
    Size(f.current) < maxBytes + longest && Size(f.previous) < maxBytes + longest
  }

  /** While the size can be read and rotation works, neither generation outgrows the cap by a line. */
  lemma {:induction false} GenerationsBounded(start: Files, maxBytes: nat, longest: nat, writes: seq<Write>)
    requires maxBytes > 0 && Bounded(start, maxBytes, longest)
    requires forall w :: w in writes ==> |w.line| <= longest && w.outcome.statOk
    ensures Bounded(Run(start, maxBytes, writes), maxBytes, longest)
  {
    if writes != [] {
      GenerationsBounded(start, maxBytes, longest, writes[..|writes| - 1]);
      var last := writes[|writes| - 1];
      var f := Run(start, maxBytes, writes[..|writes| - 1]);
      SizeAppended(f.current, last.line, last.outcome.written);
      SizeAppended([], last.line, last.outcome.written);
    }
  }

  lemma SizeAppended(pieces: seq<string>, line: string, written: nat)
    ensures Size(Appended(pieces, line, written)) <= Size(pieces) + |line|
  {
    var grown := Appended(pieces, line, written);
    if grown != pieces {
      assert grown[..|grown| - 1] == pieces;
    }
  }

  // ----- writing, then reading -----

  function Content(pieces: seq<string>): string {
    if pieces == [] then "" else Content(pieces[..|pieces| - 1]) + pieces[|pieces| - 1]
  }

  function Line(body: string): string {
    body + "\n"
  }

  function Lines(bodies: seq<string>): (r: seq<string>)
    ensures |r| == |bodies| && forall i :: 0 <= i < |bodies| ==> r[i] == Line(bodies[i])
  {
    seq(|bodies|, i requires 0 <= i < |bodies| => Line(bodies[i]))
  }

  /** An event's text has no line break in it: JSON escapes them. */
  ghost predicate OneLine(bodies: seq<string>) {
    forall b :: b in bodies ==> '\n' !in b
  }

  /** Splitting what whole lines add up to gives their texts, and one empty part at the end. */
  lemma {:induction false} SplitContent(bodies: seq<string>)
    requires OneLine(bodies)
    ensures Split(Content(Lines(bodies)), '\n') == bodies + [""]
  {
    if bodies != [] {
      var most, body := bodies[..|bodies| - 1], bodies[|bodies| - 1];
      SplitContent(most);
      assert Lines(bodies)[..|bodies| - 1] == Lines(most);
      SplitNone(body, '\n');
      SplitConcat(body, "", '\n');
      assert body + (['\n'] + "") == Line(body);
      AppendLine(Content(Lines(most)), body, most);
      assert most + [body] == bodies;
    }
  }

  /** Appending a whole line after whole lines. */
  lemma AppendLine(s: string, body: string, parts: seq<string>)
    requires Split(s, '\n') == parts + [""] && Split(Line(body), '\n') == [body] + [""]
    ensures Split(s + Line(body), '\n') == (parts + [body]) + [""]
    decreases |s|
  {
    EndsWithBreak(s, parts);
    if s == [] {
      assert s + Line(body) == Line(body);
    } else {
      var head := s[..|s| - 1];
      assert s == head + (['\n'] + "");
      SplitConcat(head, "", '\n');
      assert Split(head, '\n') == parts by {
        assert (Split(head, '\n') + [""])[..|parts|] == (parts + [""])[..|parts|];
      }
      assert s + Line(body) == head + (['\n'] + Line(body));
      SplitConcat(head, Line(body), '\n');
    }
  }

  lemma EndsWithBreak(s: string, parts: seq<string>)
    requires Split(s, '\n') == parts + [""]
    ensures if s == "" then parts == [] else s[|s| - 1] == '\n'
  {
    if s == "" {
      assert |parts + [""]| == 1;
    } else {
      JoinOfSplit(s, '\n');
      if s[|s| - 1] != '\n' {
        LastPart(s);
        assert false;
      }
    }
  }

  /** The last part of a text that does not end in a break is not empty. */
  lemma {:induction false} LastPart(s: string)
    requires s != "" && s[|s| - 1] != '\n'
    ensures var parts := Split(s, '\n'); parts[|parts| - 1] != ""
  {
    if |s| > 1 {
      LastPart(s[1..]);
    }
  }

  lemma LinesOfNewest(bodies: seq<string>, pieces: seq<string>)
    requires SuffixOf(pieces, Lines(bodies))
    ensures |pieces| <= |bodies| && pieces == Lines(bodies[|bodies| - |pieces|..])
  {
  }

  lemma EventsOfLines<V>(bodies: seq<string>, pieces: seq<string>, read: Reader<V>)
    requires OneLine(bodies) && SuffixOf(pieces, Lines(bodies))
    ensures SuffixOf(AllEvents(Some(Content(pieces)), read), Collect(bodies, read))
  {
    hide Content, Collect, Split, Lines;
    LinesOfNewest(bodies, pieces);
    var n := |bodies| - |pieces|;
    var newest := bodies[n..];
    SplitContent(newest);
    CollectConcat(bodies[..n], newest, read);
    assert bodies[..n] + newest == bodies;
    CollectConcat(newest, [""], read);
    EmptyText(read);
  }

  /** From empty files and without write errors, a reader of the current file sees an unbroken run of the
      newest recorded events, and so does the tail reader whatever its window and limit. */
  lemma ReadersShowNewest<V>(maxBytes: nat, writes: seq<Write>, bodies: seq<string>,
                             window: nat, limit: int, read: Reader<V>)
    requires AllClean(writes) && OneLine(bodies) && Recorded(Files([], []), writes) == Lines(bodies)
    ensures var file := Some(Content(Run(Files([], []), maxBytes, writes).current));
      SuffixOf(AllEvents(file, read), Collect(bodies, read))
      && SuffixOf(SliceFrom(WindowEvents(file, window, read), -limit), Collect(bodies, read))
  {
    hide Run, Collect, Content, WindowEvents;
    var f := Run(Files([], []), maxBytes, writes);
    NewestLinesKept(Files([], []), maxBytes, writes);
    assert SuffixOf(f.current, OnDisk(f));
    EventsOfLines(bodies, f.current, read);
    TailIsSuffix(Some(Content(f.current)), window, limit, read);
  }
}
