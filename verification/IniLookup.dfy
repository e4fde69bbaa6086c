/** What a loaded document answers, told from the lines of the text alone, and what an update changes. */
module IniLookup {
  import opened Options
  import opened Seqs
  import opened Text
  import opened IniFormat
  import opened IniRoundTrip

  // ---------- the text's own answer ----------

  // The section name of the last header among the lines
  function CurrentName(lines: seq<string>): Option<string> {
    if lines == [] then None
    else
      match Classify(lines[|lines| - 1])
      case ReadsSection(n) => Some(n)
      case _ => CurrentName(lines[..|lines| - 1])
  }

  // The value of the last line that assigns the key while its section is the current one
  function LastAssigned(lines: seq<string>, section: string, key: string): Option<string> {
    if lines == [] then None
    else
      var init := lines[..|lines| - 1];
      match Classify(lines[|lines| - 1])
      case ReadsKey(k, v) =>
        if k == key && CurrentName(init) == Some(section) then Some(v) else LastAssigned(init, section, key)
      case _ => LastAssigned(init, section, key)
  }

  // A line is acceptable after some lines: it reads as something, and a key has a section to go to.
  predicate Acceptable(before: seq<string>, line: string) {
    match Classify(line)
    case Rejected => false
    case ReadsKey(_, _) => CurrentName(before).Some?
    case _ => true
  }

  predicate AllAcceptable(lines: seq<string>) {
    lines == [] || (AllAcceptable(lines[..|lines| - 1]) && Acceptable(lines[..|lines| - 1], lines[|lines| - 1]))
  }

  // ---------- lookups after one change of the document ----------

  lemma LookupAfterWithLines(doc: Doc, i: nat, lines: seq<KeyLine>, section: string, key: string)
    requires i < |doc| && doc[i].Section? && FindSection(doc, doc[i].name) == i
    ensures Lookup(WithLines(doc, i, lines), section, key)
         == if section == doc[i].name then LookupKey(lines, key) else Lookup(doc, section, key)
  {
    var j := FindSection(doc, section);
    FindSectionIs(WithLines(doc, i, lines), section, j);
  }

  lemma LookupKeyAfterPut(lines: seq<KeyLine>, k: string, v: string, key: string)
    ensures LookupKey(PutKey(lines, k, v), key) == if key == k then Some(v) else LookupKey(lines, key)
  {
    var r := PutKey(lines, k, v);
    var i := FindKey(lines, key);
    if key != k && i == |lines| {
      FindKeyIs(r, key, |r|);
    } else {
      FindKeyIs(r, key, i);
    }
  }

  lemma LookupKeyAfterAppend(lines: seq<KeyLine>, l: KeyLine, key: string)
    requires !l.Key?
    ensures LookupKey(lines + [l], key) == LookupKey(lines, key)
  {
    var i := FindKey(lines, key);
    FindKeyIs(lines + [l], key, if i == |lines| then i + 1 else i);
  }

  lemma LookupAfterAppend(doc: Doc, l: DocLine, section: string, key: string)
    requires l.Section? ==> l.lines == []
    ensures Lookup(doc + [l], section, key) == Lookup(doc, section, key)
  {
    var i := FindSection(doc, section);
    FindSectionIs(doc + [l], section, if i == |doc| && !IsSection(l, section) then i + 1 else i);
  }

  lemma LookupAfterWithSection(doc: Doc, name: string, section: string, key: string)
    ensures Lookup(WithSection(doc, name), section, key) == Lookup(doc, section, key)
  {
    if FindSection(doc, name) == |doc| {
      LookupAfterAppend(doc, Section(name, []), section, key);
    }
  }

  // ---------- the index agrees with the text ----------

  // Repeated sections have been merged: every section is the one that a lookup of its name finds.
  predicate Merged(doc: Doc) {
    forall i :: 0 <= i < |doc| && doc[i].Section? ==> FindSection(doc, doc[i].name) == i
  }

  lemma FoundWhereItIs(doc: Doc, i: nat)
    requires Merged(doc) && i < |doc| && doc[i].Section?
    ensures FindSection(doc, doc[i].name) == i
  {
  }

  lemma WithLinesKeepsMerged(doc: Doc, i: nat, lines: seq<KeyLine>)
    requires Merged(doc) && i < |doc| && doc[i].Section?
    ensures Merged(WithLines(doc, i, lines))
  {
    var d := WithLines(doc, i, lines);
    forall j | 0 <= j < |d| && d[j].Section?
      ensures FindSection(d, d[j].name) == j
    {
      assert FindSection(doc, doc[j].name) == j;
      FindSectionIs(d, d[j].name, j);
    }
  }

  lemma StepKeepsMerged(st: Load, line: string)
    requires st.Valid() && Merged(st.doc)
    ensures var r := Step(st, line); r.Some? ==> Merged(r.value.doc)
  {
    match Classify(line)
    case ReadsSection(n) =>
      if FindSection(st.doc, n) == |st.doc| {
        AppendKeepsFirsts(st.doc, Section(n, []));
      }
    case ReadsKey(k, v) =>
      if st.current.Some? {
        WithLinesKeepsMerged(st.doc, st.current.value, PutKey(st.doc[st.current.value].lines, k, v));
      }
    case ReadsBlank => AddLineKeepsMerged(st, TopBlank, Blank);
    case ReadsComment(t) => AddLineKeepsMerged(st, TopComment(t), Comment(t));
    case Rejected =>
  }

  lemma AddLineKeepsMerged(st: Load, top: DocLine, inner: KeyLine)
    requires st.Valid() && Merged(st.doc) && !top.Section?
    ensures Merged(AddLine(st, top, inner).doc)
  {
    match st.current
    case None => AppendKeepsFirsts(st.doc, top);
    case Some(i) => WithLinesKeepsMerged(st.doc, i, st.doc[i].lines + [inner]);
  }

  lemma WithSectionFinds(doc: Doc, name: string)
    ensures FindSection(WithSection(doc, name), name) == FindSection(doc, name)
    ensures IsSection(WithSection(doc, name)[FindSection(doc, name)], name)
  {
    FindSectionIs(WithSection(doc, name), name, FindSection(doc, name));
  }

  // The name of the section that a load stands in
  function StandsIn(st: Load): Option<string>
    requires st.Valid()
  {
    match st.current
    case None => None
    case Some(i) => Some(st.doc[i].name)
  }

  lemma AddLineKeepsLookups(st: Load, top: DocLine, inner: KeyLine, section: string, key: string)
    requires st.Valid() && Merged(st.doc) && !top.Section? && !inner.Key?
    ensures Lookup(AddLine(st, top, inner).doc, section, key) == Lookup(st.doc, section, key)
    ensures StandsIn(AddLine(st, top, inner)) == StandsIn(st)
  {
    match st.current
    case None => LookupAfterAppend(st.doc, top, section, key);
    case Some(i) =>
      FoundWhereItIs(st.doc, i);
      LookupAfterWithLines(st.doc, i, st.doc[i].lines + [inner], section, key);
      LookupKeyAfterAppend(st.doc[i].lines, inner, key);
  }

  lemma KeyStepLookup(st: Load, k: string, v: string, section: string, key: string)
    requires st.Valid() && Merged(st.doc) && st.current.Some?
    ensures var i := st.current.value;
      Lookup(WithLines(st.doc, i, PutKey(st.doc[i].lines, k, v)), section, key)
      == if section == st.doc[i].name && key == k then Some(v) else Lookup(st.doc, section, key)
  {
    var i := st.current.value;
    FoundWhereItIs(st.doc, i);
    LookupAfterWithLines(st.doc, i, PutKey(st.doc[i].lines, k, v), section, key);
    LookupKeyAfterPut(st.doc[i].lines, k, v, key);
  }

  // What one line does to where the load stands and to the answer for one key
  lemma StepAnswers(st: Load, line: string, section: string, key: string)
    requires st.Valid() && Merged(st.doc)
    ensures var c, r := Classify(line), Step(st, line);
      && (r.None? <==> c == Rejected || (c.ReadsKey? && StandsIn(st).None?))
      && (r.Some? ==> StandsIn(r.value) == if c.ReadsSection? then Some(c.name) else StandsIn(st))
      && (r.Some? ==>
            Lookup(r.value.doc, section, key)
            == if c.ReadsKey? && c.key == key && StandsIn(st) == Some(section) then Some(c.value)
               else Lookup(st.doc, section, key))
  {
    match Classify(line)
    case ReadsBlank => AddLineKeepsLookups(st, TopBlank, Blank, section, key);
    case ReadsComment(t) => AddLineKeepsLookups(st, TopComment(t), Comment(t), section, key);
    case ReadsSection(name) =>
      LookupAfterWithSection(st.doc, name, section, key);
      WithSectionFinds(st.doc, name);
    case ReadsKey(k, v) =>
      if st.current.Some? {
        KeyStepLookup(st, k, v, section, key);
      }
    case Rejected =>
  }

  // Loading succeeds exactly when every line is acceptable where it stands, and then every lookup answers with the
  // value of the last line that assigns the key in that section, or with nothing when there is no such line.
  lemma {:induction false} LookupIsLastAssigned(lines: seq<string>, section: string, key: string)
    ensures LoadLines(lines).Some? <==> AllAcceptable(lines)
    ensures LoadLines(lines).Some? ==>
      Lookup(LoadLines(lines).value.doc, section, key) == LastAssigned(lines, section, key)
    ensures LoadLines(lines).Some? ==> StandsIn(LoadLines(lines).value) == CurrentName(lines)
    ensures LoadLines(lines).Some? ==> Merged(LoadLines(lines).value.doc)
  {
    if lines != [] {
      var n := |lines| - 1;
      var init, line := lines[..n], lines[n];
      LookupIsLastAssigned(init, section, key);
      if LoadLines(init).Some? {
        StepAnswers(LoadLines(init).value, line, section, key);
        StepKeepsMerged(LoadLines(init).value, line);
      }
    }
  }

  // ---------- updates ----------

  // Setting a value changes the answer for that key only.
  lemma SetThenLookup(doc: Doc, section: string, key: string, value: string, s: string, k: string)
    ensures Lookup(SetValue(doc, section, key, value), s, k)
         == if s == section && k == key then Some(value) else Lookup(doc, s, k)
  {
    var d, i := WithSection(doc, section), FindSection(doc, section);
    WithSectionFinds(doc, section);
    LookupAfterWithLines(d, i, PutKey(d[i].lines, key, value), s, k);
    LookupKeyAfterPut(d[i].lines, key, value, k);
    LookupAfterWithSection(doc, section, s, k);
  }

  // Every line of a section keeps its place, and only the line of the key may change; at most one key is added, at
  // the end, and comments and blanks are never touched.
  ghost predicate KeysFramed(before: seq<KeyLine>, after: seq<KeyLine>, key: string, value: string) {
    && |before| <= |after| <= |before| + 1
    && (forall i :: 0 <= i < |before| ==>
          after[i] == before[i] || (IsKey(before[i], key) && after[i] == Key(key, value)))
    && (|after| > |before| ==>
          && after[|before|] == Key(key, value)
          && forall i :: 0 <= i < |before| ==> !IsKey(before[i], key))
  }

  ghost predicate DocFramed(before: Doc, after: Doc, section: string, key: string, value: string) {
    && |before| <= |after| <= |before| + 1
    && (forall i :: 0 <= i < |before| ==>
          || after[i] == before[i]
          || (IsSection(before[i], section) && IsSection(after[i], section)
              && KeysFramed(before[i].lines, after[i].lines, key, value)))
    && (|after| > |before| ==>
          && after[|before|] == Section(section, [Key(key, value)])
          && forall i :: 0 <= i < |before| ==> !IsSection(before[i], section))
    && (forall i, j :: 0 <= i < j < |before| && after[i] != before[i] ==> after[j] == before[j])
  }

  lemma SetIsFramed(doc: Doc, section: string, key: string, value: string)
    ensures DocFramed(doc, SetValue(doc, section, key, value), section, key, value)
  {
    var d, i := WithSection(doc, section), FindSection(doc, section);
    assert KeysFramed(d[i].lines, PutKey(d[i].lines, key, value), key, value);
  }

  // The last writer wins, whatever the earlier one wrote.
  lemma SetTwice(doc: Doc, section: string, key: string, v: string, w: string)
    ensures SetValue(SetValue(doc, section, key, v), section, key, w) == SetValue(doc, section, key, w)
  {
    var d, i := WithSection(doc, section), FindSection(doc, section);
    var d1 := SetValue(doc, section, key, v);
    FindSectionIs(d1, section, i);
    var lines := d[i].lines;
    var k := FindKey(lines, key);
    FindKeyIs(PutKey(lines, key, v), key, k);
    assert d1[i].lines == PutKey(lines, key, v);
    assert PutKey(PutKey(lines, key, v), key, w) == PutKey(lines, key, w);
  }

  // An update keeps a document well formed exactly when the three strings are legal in a file.
  lemma SetIsWellFormedIff(doc: Doc, section: string, key: string, value: string)
    requires WellFormed(doc)
    ensures WellFormed(SetValue(doc, section, key, value))
       <==> LegalSectionName(section) && LegalKey(key) && LegalValue(value)
  {
    var d, i := WithSection(doc, section), FindSection(doc, section);
    var r := SetValue(doc, section, key, value);
    var lines := PutKey(d[i].lines, key, value);
    assert r[i] == Section(section, lines);
    var k := FindKey(d[i].lines, key);
    assert lines[k] == Key(key, value);
    if LegalSectionName(section) && LegalKey(key) && LegalValue(value) {
      WithSectionKeepsWellFormed(doc, section);
      assert LegalDocLine(d[i]);
      PutKeyKeepsUnique(d[i].lines, key, value);
      WithLinesKeepsWellFormed(d, i, lines);
    } else {
      assert !LegalDocLine(r[i]) || !LegalKeyLine(lines[k]);
    }
  }

  // The same lines in the same places; only the values of keys may differ.
  predicate SameKeyLine(a: KeyLine, b: KeyLine) {
    a == b || (a.Key? && b.Key? && a.name == b.name)
  }

  predicate SameDocLine(a: DocLine, b: DocLine) {
    || a == b
    || (a.Section? && b.Section? && a.name == b.name && |a.lines| == |b.lines|
        && forall i :: 0 <= i < |a.lines| ==> SameKeyLine(a.lines[i], b.lines[i]))
  }

  predicate SameLayout(doc: Doc, r: Doc) {
    |doc| == |r| && forall i :: 0 <= i < |doc| ==> SameDocLine(doc[i], r[i])
  }

  // Setting a key that is there changes values only.
  lemma SetKeepsLayout(doc: Doc, section: string, key: string, value: string)
    requires Lookup(doc, section, key).Some?
    ensures SameLayout(doc, SetValue(doc, section, key, value))
  {
  }

  lemma LayoutIsTransitive(a: Doc, b: Doc, c: Doc)
    requires SameLayout(a, b) && SameLayout(b, c)
    ensures SameLayout(a, c)
  {
    forall i | 0 <= i < |a|
      ensures SameDocLine(a[i], c[i])
    {
      assert SameDocLine(a[i], b[i]) && SameDocLine(b[i], c[i]);
      if a[i].Section? {
        forall j | 0 <= j < |a[i].lines|
          ensures SameKeyLine(a[i].lines[j], c[i].lines[j])
        {
          assert SameKeyLine(a[i].lines[j], b[i].lines[j]) && SameKeyLine(b[i].lines[j], c[i].lines[j]);
        }
      }
    }
  }

  lemma LookupIsLegal(doc: Doc, section: string, key: string)
    requires WellFormed(doc) && Lookup(doc, section, key).Some?
    ensures LegalValue(Lookup(doc, section, key).value)
  {
    var i := FindSection(doc, section);
    assert LegalDocLine(doc[i]);
    assert LegalKeyLine(doc[i].lines[FindKey(doc[i].lines, key)]);
  }

  ghost predicate AnswersAreLegal(doc: Doc) {
    forall s, k :: Lookup(doc, s, k).Some? ==> LegalValue(Lookup(doc, s, k).value)
  }

  lemma SameSection(doc: Doc, r: Doc, i: nat)
    requires WellFormed(doc) && SameLayout(doc, r) && i < |doc| && doc[i].Section?
    ensures SameDocLine(doc[i], r[i]) && FindSection(r, r[i].name) == i
  {
    assert SameDocLine(doc[i], r[i]);
    forall j | 0 <= j < i
      ensures !IsSection(r[j], r[i].name)
    {
      assert SameDocLine(doc[j], r[j]);
      assert FindSection(doc, doc[i].name) == i;
    }
    FindSectionIs(r, r[i].name, i);
  }

  lemma SameKey(a: DocLine, b: DocLine, j: nat)
    requires LegalDocLine(a) && SameDocLine(a, b) && a.Section? && j < |a.lines| && a.lines[j].Key?
    ensures b.lines[j].Key? && LegalKey(b.lines[j].name) && FindKey(b.lines, b.lines[j].name) == j
  {
    assert SameKeyLine(a.lines[j], b.lines[j]);
    assert LegalKeyLine(a.lines[j]);
    forall m | 0 <= m < j
      ensures !IsKey(b.lines[m], b.lines[j].name)
    {
      assert SameKeyLine(a.lines[m], b.lines[m]);
      assert FindKey(a.lines, a.lines[j].name) == j;
    }
    FindKeyIs(b.lines, b.lines[j].name, j);
  }

  lemma SameSectionIsLegal(doc: Doc, r: Doc, i: nat)
    requires WellFormed(doc) && SameLayout(doc, r) && AnswersAreLegal(r) && i < |doc| && doc[i].Section?
    ensures LegalDocLine(r[i])
  {
    SameSection(doc, r, i);
    var a, b := doc[i], r[i];
    assert LegalDocLine(a);
    forall j | 0 <= j < |b.lines|
      ensures LegalKeyLine(b.lines[j])
      ensures b.lines[j].Key? ==> FindKey(b.lines, b.lines[j].name) == j
    {
      assert SameKeyLine(a.lines[j], b.lines[j]);
      assert LegalKeyLine(a.lines[j]);
      if b.lines[j].Key? {
        SameKey(a, b, j);
        assert Lookup(r, b.name, b.lines[j].name) == Some(b.lines[j].value);
      }
    }
  }

  // With the layout of a well-formed document, a document is well formed if and only if all its answers are legal.
  lemma LayoutIsWellFormedIff(doc: Doc, r: Doc)
    requires WellFormed(doc) && SameLayout(doc, r)
    ensures WellFormed(r) <==> AnswersAreLegal(r)
  {
    if WellFormed(r) {
      forall s, k | Lookup(r, s, k).Some?
        ensures LegalValue(Lookup(r, s, k).value)
      {
        LookupIsLegal(r, s, k);
      }
    }
    if AnswersAreLegal(r) {
      forall i | 0 <= i < |r|
        ensures LegalDocLine(r[i]) && (r[i].Section? ==> FindSection(r, r[i].name) == i)
        ensures 0 < i && r[i - 1].Section? ==> r[i].Section?
      {
        assert SameDocLine(doc[i], r[i]) && LegalDocLine(doc[i]);
        assert 0 < i ==> SameDocLine(doc[i - 1], r[i - 1]);
        if r[i].Section? {
          SameSection(doc, r, i);
          SameSectionIsLegal(doc, r, i);
        }
      }
    }
  }

  lemma DropUndoesPut(lines: seq<KeyLine>, key: string, value: string)
    requires FindKey(lines, key) == |lines|
    ensures var r := PutKey(lines, key, value); FindKey(r, key) == |lines| && Without(r, |lines|) == lines
  {
    FindKeyIs(PutKey(lines, key, value), key, |lines|);
  }

  // Removing a key that an update has just added to a known section gives back the document as it was.
  lemma RemoveUndoesSet(doc: Doc, section: string, key: string, value: string)
    requires FindSection(doc, section) < |doc| && Lookup(doc, section, key) == None
    ensures RemoveKey(SetValue(doc, section, key, value), section, key) == doc
  {
    var i := FindSection(doc, section);
    var lines := doc[i].lines;
    var r := SetValue(doc, section, key, value);
    assert r == doc[i := Section(section, PutKey(lines, key, value))];
    DropUndoesPut(lines, key, value);
    FindSectionIs(r, section, i);
    assert r[i := Section(section, lines)] == doc;
  }

  // Removing a key takes its line out and leaves all others as they are, in order.
  lemma RemoveIsFramed(doc: Doc, section: string, key: string)
    ensures var i, r := FindSection(doc, section), RemoveKey(doc, section, key);
      && |r| == |doc|
      && (forall j :: 0 <= j < |doc| && j != i ==> r[j] == doc[j])
      && (i < |doc| ==>
            var lines, k := doc[i].lines, FindKey(doc[i].lines, key);
            r[i] == Section(section, if k < |lines| then lines[..k] + lines[k + 1..] else lines))
  {
    var i := FindSection(doc, section);
    if i < |doc| && FindKey(doc[i].lines, key) < |doc[i].lines| {
      var lines, k := doc[i].lines, FindKey(doc[i].lines, key);
      assert Without(lines, k) == lines[..k] + lines[k + 1..];
    }
  }

  lemma OneLineForEachKey(lines: seq<KeyLine>, key: string, i: nat)
    requires UniqueKeys(lines) && i < |lines| && IsKey(lines[i], key)
    ensures i == FindKey(lines, key)
  {
  }

  lemma RemovedKeyIsGone(lines: seq<KeyLine>, key: string)
    requires UniqueKeys(lines) && FindKey(lines, key) < |lines|
    ensures LookupKey(Without(lines, FindKey(lines, key)), key) == None
  {
    var n := FindKey(lines, key);
    var rest := Without(lines, n);
    var t := FindKey(rest, key);
    if t < |rest| {
      OneLineForEachKey(lines, key, if t < n then t else t + 1);
    }
  }

  lemma OtherKeyStays(lines: seq<KeyLine>, n: nat, k: string)
    requires n < |lines| && !IsKey(lines[n], k)
    ensures LookupKey(Without(lines, n), k) == LookupKey(lines, k)
  {
    var m := FindKey(lines, k);
    var rest, t := Without(lines, n), if m > n then m - 1 else m;
    forall j | 0 <= j < t
      ensures !IsKey(rest[j], k)
    {
      var o := if j < n then j else j + 1;
      assert !IsKey(lines[o], k);
    }
    assert t < |rest| ==> rest[t] == lines[m];
    FindKeyIs(rest, k, t);
  }

  // In a well-formed document a removed key is gone and every other answer stays.
  lemma RemoveThenLookup(doc: Doc, section: string, key: string, s: string, k: string)
    requires WellFormed(doc)
    ensures Lookup(RemoveKey(doc, section, key), s, k) == if s == section && k == key then None else Lookup(doc, s, k)
  {
    var i := FindSection(doc, section);
    if i < |doc| && FindKey(doc[i].lines, key) < |doc[i].lines| {
      var lines, n := doc[i].lines, FindKey(doc[i].lines, key);
      assert LegalDocLine(doc[i]);
      LookupAfterWithLines(doc, i, Without(lines, n), s, k);
      if k == key {
        RemovedKeyIsGone(lines, key);
      } else {
        OtherKeyStays(lines, n, k);
      }
    }
  }
}
