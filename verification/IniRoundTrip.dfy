/** Printing and parsing undo each other on exactly the well-formed documents, and parsing yields only those. */
module IniRoundTrip {
  import opened Options
  import opened Text
  import opened IniFormat

  // ---------- one line ----------

  lemma ScanStopsAt(s: string, n: nat, stop: Stop)
    requires n <= |s| && (n < |s| ==> Stops(s[n], stop))
    requires forall i :: 0 <= i < n ==> !Stops(s[i], stop)
    ensures Scan(s, stop) == n
  {
  }

  lemma NoBlanksToSkip(s: string)
    requires s == "" || !IsBlank(s[0])
    ensures SkipBlanks(s) == s
  {
  }

  lemma HeaderReadsBack(s: string, n: string)
    requires LegalSectionName(n) && |s| == |n| + 1 && s[..|n|] == n && s[|n|] == ']'
    ensures ReadHeader(s) == ReadsSection(n)
  {
    forall i | 0 <= i < |n|
      ensures !Stops(s[i], NameEnd)
    {
      assert s[i] == n[i];
    }
    ScanStopsAt(s, |n|, NameEnd);
  }

  lemma ClassifyHeader(n: string)
    requires LegalSectionName(n)
    ensures Classify("[" + n + "]") == ReadsSection(n)
  {
    var s, rest := "[" + n + "]", n + "]";
    assert s[0] == '[' && s[1..] == rest;
    HeaderReadsBack(rest, n);
    NoBlanksToSkip(s);
  }

  lemma AssignmentReadsBack(s: string, k: string, v: string)
    requires LegalKey(k) && LegalValue(v)
    requires |k| < |s| && s[..|k|] == k && s[|k|] == '=' && s[|k| + 1..] == v
    ensures ReadAssignment(s) == ReadsKey(k, v)
  {
    forall i | 0 <= i < |k|
      ensures !Stops(s[i], KeyEnd)
    {
      assert s[i] == k[i];
    }
    ScanStopsAt(s, |k|, KeyEnd);
    NoBlanksToSkip(v);
  }

  lemma ClassifyAssignment(k: string, v: string)
    requires LegalKey(k) && LegalValue(v)
    ensures Classify(k + "=" + v) == ReadsKey(k, v)
  {
    var s := k + "=" + v;
    assert s[0] == k[0] && !Stops(s[0], KeyEnd) && !Stops(s[0], NameEnd);
    assert s[..|k|] == k && s[|k|] == '=' && s[|k| + 1..] == v;
    AssignmentReadsBack(s, k, v);
    NoBlanksToSkip(s);
  }

  function ReadingOf(l: KeyLine): Reading {
    match l
    case Key(n, v) => ReadsKey(n, v)
    case Comment(t) => ReadsComment(t)
    case Blank => ReadsBlank
  }

  lemma ClassifyKeyText(l: KeyLine)
    requires LegalKeyLine(l)
    ensures Classify(KeyText(l)) == ReadingOf(l)
  {
    match l
    case Key(n, v) => ClassifyAssignment(n, v);
    case Comment(t) =>
      NoBlanksToSkip(";" + t);
      assert (";" + t)[1..] == t;
    case Blank =>
  }

  predicate LegalReading(r: Reading) {
    match r
    case ReadsSection(n) => LegalSectionName(n)
    case ReadsComment(t) => '\n' !in t
    case ReadsKey(k, v) => LegalKey(k) && LegalValue(v)
    case _ => true
  }

  lemma PartHasNoNewline(s: string, i: nat, j: nat)
    requires '\n' !in s && i <= j <= |s|
    ensures '\n' !in s[i..j]
  {
  }

  lemma HeaderIsLegal(s: string)
    requires '\n' !in s
    ensures LegalReading(ReadHeader(s))
  {
    PartHasNoNewline(s, 0, Scan(s, NameEnd));
  }

  lemma ValueIsLegal(s: string, i: nat)
    requires '\n' !in s && i <= |s|
    ensures LegalValue(SkipBlanks(s[i..]))
  {
    PartHasNoNewline(s, i, |s|);
    PartHasNoNewline(s[i..], LeadingBlanks(s[i..]), |s[i..]|);
  }

  lemma KeyIsLegal(s: string)
    requires s != "" && '\n' !in s && !IsBlank(s[0]) && !Stops(s[0], NameEnd)
    ensures LegalKey(s[..Scan(s, KeyEnd)])
  {
    PartHasNoNewline(s, 0, Scan(s, KeyEnd));
    assert !Stops(s[0], KeyEnd);
  }

  lemma AssignmentIsLegal(s: string)
    requires s != "" && '\n' !in s && !IsBlank(s[0]) && !Stops(s[0], NameEnd)
    ensures LegalReading(ReadAssignment(s))
  {
    var n := Scan(s, KeyEnd);
    KeyIsLegal(s);
    if n < |s| {
      ValueIsLegal(s, n + 1);
    }
    if n + 1 < |s| {
      ValueIsLegal(s, n + 2);
    }
  }

  lemma ClassifyIsLegal(line: string)
    requires '\n' !in line
    ensures LegalReading(Classify(line))
  {
    var s := SkipBlanks(line);
    PartHasNoNewline(line, LeadingBlanks(line), |line|);
    if s != "" {
      PartHasNoNewline(s, 1, |s|);
      HeaderIsLegal(s[1..]);
      if !Stops(s[0], NameEnd) {
        AssignmentIsLegal(s);
      }
    }
  }

  // ---------- one step ----------

  // What every prefix of a load keeps: the document is well formed, and lines go to the top level only before the
  // first section.
  predicate Sound(st: Load) {
    && st.Valid()
    && WellFormed(st.doc)
    && (st.current.None? ==> forall i :: 0 <= i < |st.doc| ==> !st.doc[i].Section?)
  }

  lemma FindKeyIs(lines: seq<KeyLine>, name: string, i: nat)
    requires i <= |lines| && (i < |lines| ==> IsKey(lines[i], name))
    requires forall j :: 0 <= j < i ==> !IsKey(lines[j], name)
    ensures FindKey(lines, name) == i
  {
  }

  lemma FindSectionIs(doc: Doc, name: string, i: nat)
    requires i <= |doc| && (i < |doc| ==> IsSection(doc[i], name))
    requires forall j :: 0 <= j < i ==> !IsSection(doc[j], name)
    ensures FindSection(doc, name) == i
  {
  }

  lemma AppendKeyLine(lines: seq<KeyLine>, l: KeyLine)
    requires UniqueKeys(lines)
    requires l.Key? ==> FindKey(lines, l.name) == |lines|
    ensures UniqueKeys(lines + [l])
  {
    var r := lines + [l];
    forall i | 0 <= i < |r| && r[i].Key?
      ensures FindKey(r, r[i].name) == i
    {
      if i < |lines| {
        assert FindKey(lines, lines[i].name) == i;
      }
      FindKeyIs(r, r[i].name, i);
    }
  }

  lemma PutKeyKeepsUnique(lines: seq<KeyLine>, k: string, v: string)
    requires UniqueKeys(lines)
    ensures UniqueKeys(PutKey(lines, k, v))
  {
    var n := FindKey(lines, k);
    if n == |lines| {
      AppendKeyLine(lines, Key(k, v));
    } else {
      var r := PutKey(lines, k, v);
      forall i | 0 <= i < |r| && r[i].Key?
        ensures FindKey(r, r[i].name) == i
      {
        assert FindKey(lines, lines[i].name) == i;
        FindKeyIs(r, r[i].name, i);
      }
    }
  }

  lemma WithLinesKeepsWellFormed(doc: Doc, i: nat, lines: seq<KeyLine>)
    requires WellFormed(doc) && i < |doc| && doc[i].Section?
    requires LegalDocLine(Section(doc[i].name, lines))
    ensures WellFormed(WithLines(doc, i, lines))
  {
    var d := WithLines(doc, i, lines);
    forall j | 0 <= j < |d| && d[j].Section?
      ensures FindSection(d, d[j].name) == j
    {
      assert FindSection(doc, doc[j].name) == j;
      FindSectionIs(d, d[j].name, j);
    }
    assert forall j :: 0 <= j < |d| ==> d[j].Section? == doc[j].Section?;
  }

  lemma AppendKeepsFirsts(doc: Doc, l: DocLine)
    requires forall i :: 0 <= i < |doc| && doc[i].Section? ==> FindSection(doc, doc[i].name) == i
    requires l.Section? ==> FindSection(doc, l.name) == |doc|
    ensures var d := doc + [l]; forall i :: 0 <= i < |d| && d[i].Section? ==> FindSection(d, d[i].name) == i
  {
    var d := doc + [l];
    forall j | 0 <= j < |d| && d[j].Section?
      ensures FindSection(d, d[j].name) == j
    {
      if j < |doc| {
        assert FindSection(doc, doc[j].name) == j;
      }
      FindSectionIs(d, d[j].name, j);
    }
  }

  lemma AppendKeepsWellFormed(doc: Doc, l: DocLine)
    requires WellFormed(doc) && LegalDocLine(l)
    requires l.Section? ==> FindSection(doc, l.name) == |doc|
    requires !l.Section? ==> doc == [] || !doc[|doc| - 1].Section?
    ensures WellFormed(doc + [l])
  {
    AppendKeepsFirsts(doc, l);
    var d := doc + [l];
    forall i | 0 <= i < |d|
      ensures LegalDocLine(d[i]) && (0 < i && d[i - 1].Section? ==> d[i].Section?)
    {
      if i < |doc| {
        assert d[i] == doc[i];
      }
    }
  }

  lemma WithSectionKeepsWellFormed(doc: Doc, name: string)
    requires WellFormed(doc) && LegalSectionName(name)
    ensures WellFormed(WithSection(doc, name))
  {
    if FindSection(doc, name) == |doc| {
      AppendKeepsWellFormed(doc, Section(name, []));
    }
  }

  lemma AddLineIsSound(st: Load, top: DocLine, inner: KeyLine)
    requires Sound(st) && LegalDocLine(top) && !top.Section? && LegalKeyLine(inner) && !inner.Key?
    ensures Sound(AddLine(st, top, inner))
  {
    match st.current
    case None => AppendKeepsWellFormed(st.doc, top);
    case Some(i) =>
      AppendKeyLine(st.doc[i].lines, inner);
      WithLinesKeepsWellFormed(st.doc, i, st.doc[i].lines + [inner]);
  }

  lemma StepIsSound(st: Load, line: string)
    requires Sound(st) && '\n' !in line
    ensures var r := Step(st, line); r.Some? ==> Sound(r.value)
  {
    ClassifyIsLegal(line);
    match Classify(line)
    case ReadsBlank => AddLineIsSound(st, TopBlank, Blank);
    case ReadsComment(t) => AddLineIsSound(st, TopComment(t), Comment(t));
    case ReadsSection(n) => WithSectionKeepsWellFormed(st.doc, n);
    case ReadsKey(k, v) =>
      if st.current.Some? {
        var i := st.current.value;
        assert LegalDocLine(st.doc[i]);
        PutKeyKeepsUnique(st.doc[i].lines, k, v);
        WithLinesKeepsWellFormed(st.doc, i, PutKey(st.doc[i].lines, k, v));
      }
    case Rejected =>
  }

  lemma {:induction false} LoadIsSound(lines: seq<string>)
    requires forall i :: 0 <= i < |lines| ==> '\n' !in lines[i]
    ensures var r := LoadLines(lines); r.Some? ==> Sound(r.value)
  {
    if lines != [] {
      var init := lines[..|lines| - 1];
      LoadIsSound(init);
      if LoadLines(init).Some? {
        StepIsSound(LoadLines(init).value, lines[|lines| - 1]);
      }
    }
  }

  // Whatever text is accepted, the document it gives is well formed.
  lemma ParsedIsWellFormed(text: string)
    ensures Parse(text).Some? ==> WellFormed(Parse(text).value)
  {
    forall i | 0 <= i < |SplitLines(text)|
      ensures '\n' !in SplitLines(text)[i]
    {
      SplitHasNoNewline(text, i);
    }
    LoadIsSound(SplitLines(text));
  }

  // ---------- printed text loads back ----------

  lemma LoadOneMore(lines: seq<string>, line: string)
    requires LoadLines(lines).Some?
    ensures LoadLines(lines + [line]) == Step(LoadLines(lines).value, line)
  {
    assert (lines + [line])[..|lines|] == lines;
  }

  lemma PrefixIsUnique(lines: seq<KeyLine>, n: nat)
    requires UniqueKeys(lines) && n <= |lines|
    ensures UniqueKeys(lines[..n])
    ensures n < |lines| && lines[n].Key? ==> FindKey(lines[..n], lines[n].name) == n
  {
    var init := lines[..n];
    forall i | 0 <= i < n && init[i].Key?
      ensures FindKey(init, init[i].name) == i
    {
      assert FindKey(lines, lines[i].name) == i;
      FindKeyIs(init, init[i].name, i);
    }
    if n < |lines| && lines[n].Key? {
      assert FindKey(lines, lines[n].name) == n;
      FindKeyIs(init, lines[n].name, n);
    }
  }

  lemma AbsorbAppends(st: Load, l: KeyLine)
    requires st.Valid() && st.current.Some?
    requires l.Key? ==> FindKey(st.doc[st.current.value].lines, l.name) == |st.doc[st.current.value].lines|
    ensures Absorb(st, ReadingOf(l))
         == Some(st.(doc := WithLines(st.doc, st.current.value, st.doc[st.current.value].lines + [l])))
  {
  }

  // A printed line read inside a section that does not know its key is appended to the section.
  lemma KeyTextAppends(doc: Doc, name: string, lines: seq<KeyLine>, l: KeyLine)
    requires LegalKeyLine(l) && (l.Key? ==> FindKey(lines, l.name) == |lines|)
    ensures Step(Load(doc + [Section(name, lines)], Some(|doc|)), KeyText(l))
         == Some(Load(doc + [Section(name, lines + [l])], Some(|doc|)))
  {
    ClassifyKeyText(l);
    AbsorbAppends(Load(doc + [Section(name, lines)], Some(|doc|)), l);
    assert (doc + [Section(name, lines)])[|doc| := Section(name, lines + [l])] == doc + [Section(name, lines + [l])];
  }

  lemma OneMoreText(before: seq<string>, name: string, lines: seq<KeyLine>, l: KeyLine)
    ensures before + LineTexts(Section(name, lines + [l]))
         == (before + LineTexts(Section(name, lines))) + [KeyText(l)]
  {
    assert KeyTexts(lines + [l]) == KeyTexts(lines) + [KeyText(l)];
  }

  // A new section loads line by line after its header.
  lemma {:induction false} SectionLoads(before: seq<string>, doc: Doc, name: string, lines: seq<KeyLine>)
    requires LoadLines(before).Some? && LoadLines(before).value.doc == doc
    requires FindSection(doc, name) == |doc| && LegalDocLine(Section(name, lines))
    ensures LoadLines(before + LineTexts(Section(name, lines)))
         == Some(Load(doc + [Section(name, lines)], Some(|doc|)))
    decreases |lines|
  {
    if lines == [] {
      ClassifyHeader(name);
      LoadOneMore(before, "[" + name + "]");
      assert KeyTexts([]) == [];
      assert LineTexts(Section(name, [])) == ["[" + name + "]"];
    } else {
      var n := |lines| - 1;
      var init, last := lines[..n], lines[n];
      assert lines == init + [last];
      PrefixIsUnique(lines, n);
      SectionLoads(before, doc, name, init);
      OneMoreText(before, name, init, last);
      LoadOneMore(before + LineTexts(Section(name, init)), KeyText(last));
      KeyTextAppends(doc, name, init, last);
    }
  }

  lemma PrefixIsWellFormed(doc: Doc, n: nat)
    requires WellFormed(doc) && n <= |doc|
    ensures WellFormed(doc[..n])
  {
    var d := doc[..n];
    forall j | 0 <= j < n && d[j].Section?
      ensures FindSection(d, d[j].name) == j
    {
      assert FindSection(doc, doc[j].name) == j;
      FindSectionIs(d, d[j].name, j);
    }
  }

  lemma {:induction false} NoSectionBeforeTopLine(doc: Doc)
    requires WellFormed(doc) && doc != [] && !doc[|doc| - 1].Section?
    ensures forall i :: 0 <= i < |doc| ==> !doc[i].Section?
  {
    if |doc| > 1 {
      var init := doc[..|doc| - 1];
      PrefixIsWellFormed(doc, |doc| - 1);
      NoSectionBeforeTopLine(init);
      assert forall i :: 0 <= i < |init| ==> init[i] == doc[i];
    }
  }

  // Where the lines after the printed form of doc would go
  function LastSection(doc: Doc): Option<nat> {
    if doc != [] && doc[|doc| - 1].Section? then Some(|doc| - 1) else None
  }

  lemma {:induction false} PrintedLoads(doc: Doc)
    requires WellFormed(doc)
    ensures LoadLines(DocTexts(doc)) == Some(Load(doc, LastSection(doc)))
  {
    if doc != [] {
      var n := |doc| - 1;
      var init, last := doc[..n], doc[n];
      PrefixIsWellFormed(doc, n);
      PrintedLoads(init);
      assert LegalDocLine(last) && init + [last] == doc;
      match last {
        case Section(name, lines) =>
          assert FindSection(doc, name) == n;
          FindSectionIs(init, name, n);
          SectionLoads(DocTexts(init), init, name, lines);
        case TopComment(t) =>
          NoSectionBeforeTopLine(doc);
          LoadOneMore(DocTexts(init), ";" + t);
          ClassifyKeyText(Comment(t));
        case TopBlank =>
          NoSectionBeforeTopLine(doc);
          LoadOneMore(DocTexts(init), "");
          ClassifyKeyText(Blank);
      }
    }
  }

  lemma {:induction false} PrintedLinesHaveNoNewline(doc: Doc, i: nat)
    requires WellFormed(doc) && i < |DocTexts(doc)|
    ensures '\n' !in DocTexts(doc)[i]
  {
    var n := |doc| - 1;
    var init := DocTexts(doc[..n]);
    if i < |init| {
      PrefixIsWellFormed(doc, n);
      PrintedLinesHaveNoNewline(doc[..n], i);
    } else {
      assert LegalDocLine(doc[n]);
      var texts := LineTexts(doc[n]);
      assert DocTexts(doc)[i] == texts[i - |init|];
      if doc[n].Section? && i > |init| {
        assert LegalKeyLine(doc[n].lines[i - |init| - 1]);
      }
    }
  }

  // Format completeness: the documents that survive printing and parsing are exactly the well-formed ones.
  lemma RoundTripIffWellFormed(doc: Doc)
    ensures Parse(Print(doc)) == Some(doc) <==> WellFormed(doc)
  {
    if WellFormed(doc) {
      forall i | 0 <= i < |DocTexts(doc)|
        ensures '\n' !in DocTexts(doc)[i]
      {
        PrintedLinesHaveNoNewline(doc, i);
      }
      SplitOfUnlines(DocTexts(doc));
      PrintedLoads(doc);
    }
    ParsedIsWellFormed(Print(doc));
  }

  // Normalisation is stable: printing what was read and reading it again changes nothing.
  lemma NormalisationIsStable(text: string)
    requires Parse(text).Some?
    ensures Parse(Print(Parse(text).value)) == Parse(text)
  {
    ParsedIsWellFormed(text);
    RoundTripIffWellFormed(Parse(text).value);
  }
}
