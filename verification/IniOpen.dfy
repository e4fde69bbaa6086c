/** ini_open (src/config/ini.c:36-72), and what a document is after it has been written and opened again. */
module IniOpen {
  import opened Options
  import opened Text
  import opened CStrings
  import opened IniFormat
  import opened IniDialect
  import opened IniRoundTrip
  import opened IniStore
  import opened LineReader
  import opened LineFile

  const FIRST_LEN: nat := 256

  // The lines that reading the text yields, loaded one after the other
  function Opened(text: string): Option<Doc> {
    match LoadLines(ReadAll(text, FIRST_LEN))
    case None => None
    case Some(st) => Some(st.doc)
  }

  lemma {:induction false} RejectedStaysRejected(a: seq<string>, b: seq<string>)
    requires LoadLines(a) == None
    ensures LoadLines(a + b) == None
  {
    if b == [] {
      assert a + b == a;
    } else {
      var init := b[..|b| - 1];
      RejectedStaysRejected(a, init);
      assert (a + b)[..|a + b| - 1] == a + init;
    }
  }

  datatype Progress = AtEnd | Accepted | Refused

  lemma ReadAllOnce(lines: seq<string>, rest: string, len: nat)
    requires 2 <= len && rest != ""
    ensures var (taken, grown) := Taken(rest, len);
      lines + ReadAll(rest, len) == (lines + [LineRead(rest, len)]) + ReadAll(rest[taken..], grown)
  {
  }

  // Where the loop stands: the lines so far are loaded, and the rest of the file yields the others.
  ghost predicate OnTrack(r: Progress, content: string, rest: string, len: nat, lines: seq<string>, st: Load)
    requires 2 <= len
  {
    match r
    case AtEnd => lines == ReadAll(content, FIRST_LEN) && LoadLines(lines) == Some(st)
    case Accepted => lines + ReadAll(rest, len) == ReadAll(content, FIRST_LEN) && LoadLines(lines) == Some(st)
    case Refused => Opened(content) == None
  }

  lemma StaysOnTrack(r: Progress, content: string, rest: string, len: nat, lines: seq<string>, st: Load, next: Load)
    requires 2 <= len && rest != "" && OnTrack(Accepted, content, rest, len, lines, st)
    requires r == Accepted ==> LoadLines(lines + [LineRead(rest, len)]) == Some(next)
    requires r == Refused ==> LoadLines(lines + [LineRead(rest, len)]) == None
    requires r != AtEnd
    ensures var (taken, grown) := Taken(rest, len);
      OnTrack(r, content, rest[taken..], grown, lines + [LineRead(rest, len)], next)
  {
    ReadAllOnce(lines, rest, len);
    if r == Refused {
      var (taken, grown) := Taken(rest, len);
      RejectedStaysRejected(lines + [LineRead(rest, len)], ReadAll(rest[taken..], grown));
    }
  }

  lemma EndsOnTrack(content: string, len: nat, lines: seq<string>, st: Load)
    requires 2 <= len && OnTrack(Accepted, content, "", len, lines, st)
    ensures OnTrack(AtEnd, content, "", len, lines, st)
  {
    assert lines + [] == lines;
  }

  // The second half of the round: the line in the buffer is analysed there.
  method TakeLine(file: IniFile, buf: array<char>, section: SectionEntry?, ghost content: string, ghost rest: string,
                  ghost len: nat, ghost lines: seq<string>, ghost at: Option<nat>)
    returns (r: Progress, next: SectionEntry?, ghost newLines: seq<string>, ghost nextAt: Option<nat>)
    requires file.Valid() && file.IsAt(section, at) && buf !in file.Repr
    requires 2 <= len && rest != "" && Holds(buf, 0, LineRead(rest, len))
    requires OnTrack(Accepted, content, rest, len, lines, Load(file.doc, at))
    modifies buf, file.Repr
    ensures file.Valid() && forall o :: o in file.Repr ==> o in old(file.Repr) || fresh(o)
    ensures file.IsAt(next, nextAt) && r != AtEnd
    ensures var (taken, grown) := Taken(rest, len);
      OnTrack(r, content, rest[taken..], grown, newLines, Load(file.doc, nextAt))
  {
    ghost var line, st := LineRead(rest, len), Load(file.doc, at);
    LoadOneMore(lines, line);
    var ok;
    ok, next, nextAt := file.AnalyseLine(buf, line, section, at);
    r := if ok then Accepted else Refused;
    newLines := lines + [line];
    StaysOnTrack(r, content, rest, len, lines, st, Load(file.doc, nextAt));
  }

  // One round of the loop: a line is read into the buffer and analysed there.
  method NextLine(fp: TextFile, file: IniFile, buf: array<char>, len: nat, section: SectionEntry?,
                  ghost lines: seq<string>, ghost at: Option<nat>)
    returns (r: Progress, newBuf: array<char>, newLen: nat, next: SectionEntry?, ghost newLines: seq<string>,
             ghost nextAt: Option<nat>)
    requires fp.Valid() && file.Valid() && file.IsAt(section, at) && fp !in file.Repr && buf !in file.Repr
    requires 2 <= len <= buf.Length
    requires OnTrack(Accepted, fp.content, fp.Rest(), len, lines, Load(file.doc, at))
    modifies fp`pos, buf, file.Repr
    ensures fp.Valid() && file.Valid() && forall o :: o in file.Repr ==> o in old(file.Repr) || fresh(o)
    ensures (newBuf == buf || fresh(newBuf)) && newBuf !in file.Repr && len <= newLen <= newBuf.Length
    ensures file.IsAt(next, nextAt)
    ensures OnTrack(r, fp.content, fp.Rest(), newLen, newLines, Load(file.doc, nextAt))
    ensures r == Accepted ==> fp.pos > old(fp.pos)
  {
    next, nextAt, newLines := section, at, lines;
    ghost var rest := fp.Rest();
    var more;
    more, newBuf, newLen := ReadBufLine(fp, buf, len);
    if !more {
      EndsOnTrack(fp.content, len, lines, Load(file.doc, at));
      r := AtEnd;
    } else {
      assert fp.Rest() == rest[Taken(rest, len).0..];
      r, next, newLines, nextAt := TakeLine(file, newBuf, section, fp.content, rest, len, lines, at);
    }
  }

  // The loop of ini_open over the file, into a document that is empty at first
  method LoadFile(fp: TextFile, file: IniFile, buf: array<char>) returns (ok: bool)
    requires fp.Valid() && fp.pos == 0 && file.Valid() && file.doc == []
    requires fp !in file.Repr && buf !in file.Repr && FIRST_LEN == buf.Length
    modifies fp, file.Repr, buf
    ensures file.Valid() && forall o :: o in file.Repr ==> o in old(file.Repr) || fresh(o)
    ensures Opened(fp.content) == if ok then Some(file.doc) else None
  {
    var line, len := buf, FIRST_LEN;
    var section: SectionEntry?;
    section := null;
    ghost var lines: seq<string>, at: Option<nat> := [], None;
    var r := Accepted;
    StartsOnTrack(fp.content, fp.Rest());
    while r == Accepted
      invariant fp.Valid() && file.Valid() && file.IsAt(section, at)
      invariant line == buf || fresh(line)
      invariant forall o :: o in file.Repr ==> o in old(file.Repr) || fresh(o)
      invariant fp !in file.Repr && line !in file.Repr && FIRST_LEN <= len <= line.Length
      invariant OnTrack(r, fp.content, fp.Rest(), len, lines, Load(file.doc, at))
      decreases r == Accepted, |fp.content| - fp.pos
    {
      r, line, len, section, lines, at := NextLine(fp, file, line, len, section, lines, at);
    }
    ok := r == AtEnd;
  }

  lemma StartsOnTrack(content: string, rest: string)
    requires rest == content
    ensures OnTrack(Accepted, content, rest, FIRST_LEN, [], EMPTY)
  {
    assert [] + ReadAll(content, FIRST_LEN) == ReadAll(content, FIRST_LEN);
  }

  // A file whose text is refused gives no document; the others give the document that their lines load.
  method Open(content: string) returns (f: IniFile?)
    requires NulFree(content)
    ensures f == null <==> Opened(content) == None
    ensures f != null ==> fresh(f) && f.Valid() && fresh(f.Repr) && Opened(content) == Some(f.doc)
  {
    var fp := new TextFile(content);
    var file := new IniFile();
    var buf := new char[FIRST_LEN];
    var ok := LoadFile(fp, file, buf);
    f := if ok then file else null;
  }

  // ---------- short lines ----------

  // No line of the text is longer than m.
  predicate LinesWithin(lines: seq<string>, m: nat) {
    forall i :: 0 <= i < |lines| ==> |lines[i]| <= m
  }

  // No line of the document prints longer than m.
  predicate LineWithin(l: DocLine, m: nat) {
    match l
    case Section(n, lines) => |n| + 2 <= m && forall i :: 0 <= i < |lines| ==> |KeyText(lines[i])| <= m
    case TopComment(t) => |t| + 1 <= m
    case TopBlank => true
  }

  predicate DocWithin(doc: Doc, m: nat) {
    forall i :: 0 <= i < |doc| ==> LineWithin(doc[i], m)
  }

  lemma {:induction false} PrintedWithin(doc: Doc, m: nat)
    requires DocWithin(doc, m)
    ensures LinesWithin(DocTexts(doc), m)
  {
    if doc != [] {
      var init, last := doc[..|doc| - 1], doc[|doc| - 1];
      PrintedWithin(init, m);
      assert LineWithin(last, m);
      assert LinesWithin(LineTexts(last), m);
    }
  }

  // What a line says prints no longer than the line.
  lemma ReadingIsShort(line: string)
    ensures match Classify(line)
      case ReadsSection(n) => |n| + 2 <= |line|
      case ReadsComment(t) => |t| + 1 <= |line|
      case ReadsKey(k, v) => |k| + 1 + |v| <= |line|
      case _ => true
  {
  }

  lemma PutWithin(doc: Doc, i: nat, k: string, v: string, m: nat)
    requires DocWithin(doc, m) && i < |doc| && doc[i].Section? && |k| + 1 + |v| <= m
    ensures DocWithin(WithLines(doc, i, PutKey(doc[i].lines, k, v)), m)
  {
    assert LineWithin(doc[i], m);
    assert LineWithin(Section(doc[i].name, PutKey(doc[i].lines, k, v)), m);
  }

  lemma StepWithin(st: Load, line: string, m: nat)
    requires st.Valid() && DocWithin(st.doc, m) && |line| <= m
    ensures var r := Step(st, line); r.Some? ==> DocWithin(r.value.doc, m)
  {
    ReadingIsShort(line);
    match Classify(line)
    case ReadsBlank => AddLineWithin(st, TopBlank, Blank, m);
    case ReadsComment(t) => AddLineWithin(st, TopComment(t), Comment(t), m);
    case ReadsSection(n) =>
    case ReadsKey(k, v) =>
      if st.current.Some? {
        PutWithin(st.doc, st.current.value, k, v, m);
      }
    case Rejected =>
  }

  lemma AddLineWithin(st: Load, top: DocLine, inner: KeyLine, m: nat)
    requires st.Valid() && DocWithin(st.doc, m) && LineWithin(top, m) && |KeyText(inner)| <= m
    ensures DocWithin(AddLine(st, top, inner).doc, m)
  {
    match st.current
    case None =>
    case Some(i) =>
      assert LineWithin(st.doc[i], m);
      assert LineWithin(Section(st.doc[i].name, st.doc[i].lines + [inner]), m);
  }

  lemma {:induction false} LoadWithin(lines: seq<string>, m: nat)
    requires LinesWithin(lines, m)
    ensures var r := LoadLines(lines); r.Some? ==> DocWithin(r.value.doc, m)
  {
    if lines != [] {
      var init := lines[..|lines| - 1];
      LoadWithin(init, m);
      if LoadLines(init).Some? {
        StepWithin(LoadLines(init).value, lines[|lines| - 1], m);
      }
    }
  }

  // ---------- opening what was opened, and what was written ----------

  // Opening a file is parsing its text when every line fits the buffer.
  lemma OpenIsParse(text: string)
    requires AllFit(text, FIRST_LEN)
    ensures Opened(text) == Parse(text)
  {
    ReadAllIsSplitIff(text, FIRST_LEN);
  }

  // How many lines a line of a document prints
  function LineSize(l: DocLine): nat {
    if l.Section? then 1 + |l.lines| else 1
  }

  lemma LineSizeIsPrinted(l: DocLine)
    ensures |LineTexts(l)| == LineSize(l)
  {
  }

  // How many lines the first k of them print
  function SizeTo(doc: Doc, k: nat): nat
    requires k <= |doc|
  {
    if k == 0 then 0 else SizeTo(doc, k - 1) + LineSize(doc[k - 1])
  }

  function Size(doc: Doc): nat {
    SizeTo(doc, |doc|)
  }

  lemma TextsOneMore(doc: Doc, k: nat)
    requires 0 < k <= |doc|
    ensures |DocTexts(doc[..k])| == |DocTexts(doc[..k - 1])| + |LineTexts(doc[k - 1])|
  {
    assert doc[..k][..k - 1] == doc[..k - 1];
  }

  lemma {:induction false} SizeIsPrinted(doc: Doc, k: nat)
    requires k <= |doc|
    ensures |DocTexts(doc[..k])| == SizeTo(doc, k)
  {
    if k > 0 {
      SizeIsPrinted(doc, k - 1);
      LineSizeIsPrinted(doc[k - 1]);
      TextsOneMore(doc, k);
    }
  }

  lemma {:induction false} SizeOfPrefix(doc: Doc, d: Doc, k: nat)
    requires k <= |doc| && k <= |d| && forall i :: 0 <= i < k ==> doc[i] == d[i]
    ensures SizeTo(doc, k) == SizeTo(d, k)
  {
    if k > 0 {
      SizeOfPrefix(doc, d, k - 1);
    }
  }

  lemma SizeOneMore(doc: Doc, l: DocLine)
    ensures Size(doc + [l]) == Size(doc) + LineSize(l)
  {
    SizeOfPrefix(doc, doc + [l], |doc|);
  }

  lemma {:induction false} SizeToWithLines(doc: Doc, i: nat, lines: seq<KeyLine>, k: nat)
    requires i < |doc| && doc[i].Section? && k <= |doc|
    ensures SizeTo(WithLines(doc, i, lines), k)
         == SizeTo(doc, k) + if i < k then |lines| - |doc[i].lines| else 0
  {
    if k > 0 {
      SizeToWithLines(doc, i, lines, k - 1);
    }
  }

  lemma SizeWithLines(doc: Doc, i: nat, lines: seq<KeyLine>)
    requires i < |doc| && doc[i].Section?
    ensures Size(WithLines(doc, i, lines)) == Size(doc) - |doc[i].lines| + |lines|
  {
    SizeToWithLines(doc, i, lines, |doc|);
  }

  lemma KeyAddsOne(doc: Doc, i: nat, k: string, v: string)
    requires i < |doc| && doc[i].Section?
    ensures Size(WithLines(doc, i, PutKey(doc[i].lines, k, v))) <= Size(doc) + 1
  {
    SizeWithLines(doc, i, PutKey(doc[i].lines, k, v));
  }

  lemma SectionAddsOne(doc: Doc, name: string)
    ensures Size(WithSection(doc, name)) <= Size(doc) + 1
  {
    SizeOneMore(doc, Section(name, []));
  }

  // A line of text adds at most one line to the document.
  lemma StepAddsOne(st: Load, line: string)
    requires st.Valid()
    ensures var r := Step(st, line); r.Some? ==> Size(r.value.doc) <= Size(st.doc) + 1
  {
    match Classify(line)
    case ReadsBlank => AddLineAddsOne(st, TopBlank, Blank);
    case ReadsComment(t) => AddLineAddsOne(st, TopComment(t), Comment(t));
    case ReadsSection(n) => SectionAddsOne(st.doc, n);
    case ReadsKey(k, v) =>
      if st.current.Some? {
        var i := st.current.value;
        KeyAddsOne(st.doc, i, k, v);
      }
    case Rejected =>
  }

  lemma AddLineAddsOne(st: Load, top: DocLine, inner: KeyLine)
    requires st.Valid() && !top.Section?
    ensures Size(AddLine(st, top, inner).doc) == Size(st.doc) + 1
  {
    match st.current
    case None => SizeOneMore(st.doc, top);
    case Some(i) => SizeWithLines(st.doc, i, st.doc[i].lines + [inner]);
  }

  lemma {:induction false} LoadAddsNoMore(lines: seq<string>)
    ensures var r := LoadLines(lines); r.Some? ==> Size(r.value.doc) <= |lines|
  {
    if lines != [] {
      var init := lines[..|lines| - 1];
      LoadAddsNoMore(init);
      if LoadLines(init).Some? {
        StepAddsOne(LoadLines(init).value, lines[|lines| - 1]);
      }
    }
  }

  lemma SplitOfPrinted(doc: Doc)
    requires WellFormed(doc)
    ensures SplitLines(Print(doc)) == DocTexts(doc)
  {
    forall i | 0 <= i < |DocTexts(doc)|
      ensures '\n' !in DocTexts(doc)[i]
    {
      PrintedLinesHaveNoNewline(doc, i);
    }
    SplitOfUnlines(DocTexts(doc));
  }

  // In numbers: a text whose lines have at most 255 characters is parsed as it is, and a line of 256 characters is
  // merged with the one behind it.
  lemma ShortTextOpens(text: string)
    requires forall i :: 0 <= i < |SplitLines(text)| ==> |SplitLines(text)[i]| <= 255
    ensures Opened(text) == Parse(text)
  {
    ShortLinesFit(text, FIRST_LEN);
    OpenIsParse(text);
  }

  lemma OpenMergesLongLine(t: string, b: string)
    requires |t| == 255 && '\n' !in t && b != "" && '\n' !in b
    ensures Opened(";" + t + "\n" + b + "\n") == Some([TopComment(t + "\n" + b)])
  {
    var line, merged := ";" + t, t + "\n" + b;
    LongLineIsMerged(line, b);
    Assoc(";" + t, "\n", b);
    Assoc(";", t, "\n" + b);
    Assoc(t, "\n", b);
    CommentLine("", merged);
    assert "" + ";" + merged == ";" + merged;
    OpensToComment(line + "\n" + b + "\n", ";" + merged, merged);
  }

  lemma OpensToComment(text: string, line: string, t: string)
    requires ReadAll(text, FIRST_LEN) == [line] && Classify(line) == ReadsComment(t)
    ensures Opened(text) == Some([TopComment(t)])
  {
    LoadOneMore([], line);
    assert [] + [line] == [line];
    assert LoadLines([]) == Some(EMPTY);
    assert EMPTY.doc + [TopComment(t)] == [TopComment(t)];
  }

  // The documents that survive writing and opening: as far as the printed lines fit, exactly the well-formed ones;
  // and of the well-formed ones exactly those whose printed lines fit, since otherwise fewer lines are read than the
  // document has.
  lemma ReopensIff(doc: Doc)
    ensures AllFit(Print(doc), FIRST_LEN) ==> (Opened(Print(doc)) == Some(doc) <==> WellFormed(doc))
    ensures WellFormed(doc) ==> (Opened(Print(doc)) == Some(doc) <==> AllFit(Print(doc), FIRST_LEN))
  {
    RoundTripIffWellFormed(doc);
    if AllFit(Print(doc), FIRST_LEN) {
      OpenIsParse(Print(doc));
    } else if WellFormed(doc) {
      SplitOfPrinted(doc);
      SizeIsPrinted(doc, |doc|);
      assert doc[..|doc|] == doc;
      ReadsFewer(Print(doc), FIRST_LEN);
      LoadAddsNoMore(ReadAll(Print(doc), FIRST_LEN));
    }
  }

  // Opening, writing and opening again gives the same document if and only if the lines that are written fit.
  lemma ReopenIsStableIff(text: string)
    requires AllFit(text, FIRST_LEN) && Opened(text).Some?
    ensures WellFormed(Opened(text).value)
    ensures Opened(Print(Opened(text).value)) == Opened(text) <==> AllFit(Print(Opened(text).value), FIRST_LEN)
  {
    OpenIsParse(text);
    ParsedIsWellFormed(text);
    ReopensIff(Opened(text).value);
  }

  lemma ShortDocFits(doc: Doc)
    requires WellFormed(doc) && DocWithin(doc, FIRST_LEN - 1)
    ensures AllFit(Print(doc), FIRST_LEN)
  {
    PrintedWithin(doc, FIRST_LEN - 1);
    SplitOfPrinted(doc);
    ShortLinesFit(Print(doc), FIRST_LEN);
  }

  // Lines that are no longer than the first buffer takes stay so, and fit: nothing has to be known of the document.
  lemma ShortLinesStayShort(text: string)
    requires LinesWithin(SplitLines(text), FIRST_LEN - 1) && Opened(text).Some?
    ensures WellFormed(Opened(text).value) && DocWithin(Opened(text).value, FIRST_LEN - 1)
    ensures Opened(Print(Opened(text).value)) == Opened(text)
  {
    ShortLinesFit(text, FIRST_LEN);
    OpenIsParse(text);
    ParsedIsWellFormed(text);
    LoadWithin(SplitLines(text), FIRST_LEN - 1);
    ShortDocFits(Opened(text).value);
    ReopensIff(Opened(text).value);
  }
}
