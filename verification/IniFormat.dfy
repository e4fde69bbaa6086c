/** The dialect of src/config/ini.c on values: documents, one line of text, loading, printing, lookup and update. */
module IniFormat {
  import opened Options
  import opened Seqs
  import opened Text

  // A line inside a section, and a line of the whole document
  datatype KeyLine = Key(name: string, value: string) | Comment(text: string) | Blank
  datatype DocLine = Section(name: string, lines: seq<KeyLine>) | TopComment(note: string) | TopBlank

  type Doc = seq<DocLine>

  // ---------- lookup and update (src/config/ini.c:74-158, 397-472) ----------

  predicate IsKey(l: KeyLine, name: string) {
    l.Key? && l.name == name
  }

  predicate IsSection(l: DocLine, name: string) {
    l.Section? && l.name == name
  }

  function FindKeyFrom(lines: seq<KeyLine>, name: string, from: nat): (i: nat)
    requires from <= |lines|
    ensures from <= i <= |lines|
    ensures forall j :: from <= j < i ==> !IsKey(lines[j], name)
    ensures i < |lines| ==> IsKey(lines[i], name)
    decreases |lines| - from
  {
    if from == |lines| || IsKey(lines[from], name) then from else FindKeyFrom(lines, name, from + 1)
  }

  // The first line for that key, or |lines|
  function FindKey(lines: seq<KeyLine>, name: string): (i: nat)
    ensures i <= |lines|
    ensures forall j :: 0 <= j < i ==> !IsKey(lines[j], name)
    ensures i < |lines| ==> IsKey(lines[i], name)
  {
    FindKeyFrom(lines, name, 0)
  }

  function FindSectionFrom(doc: Doc, name: string, from: nat): (i: nat)
    requires from <= |doc|
    ensures from <= i <= |doc|
    ensures forall j :: from <= j < i ==> !IsSection(doc[j], name)
    ensures i < |doc| ==> IsSection(doc[i], name)
    decreases |doc| - from
  {
    if from == |doc| || IsSection(doc[from], name) then from else FindSectionFrom(doc, name, from + 1)
  }

  // The first section of that name, or |doc|
  function FindSection(doc: Doc, name: string): (i: nat)
    ensures i <= |doc|
    ensures forall j :: 0 <= j < i ==> !IsSection(doc[j], name)
    ensures i < |doc| ==> IsSection(doc[i], name)
  {
    FindSectionFrom(doc, name, 0)
  }

  function LookupKey(lines: seq<KeyLine>, key: string): Option<string> {
    var i := FindKey(lines, key);
    if i < |lines| then Some(lines[i].value) else None
  }

  function Lookup(doc: Doc, section: string, key: string): Option<string> {
    var i := FindSection(doc, section);
    if i < |doc| then LookupKey(doc[i].lines, key) else None
  }

  function WithSection(doc: Doc, name: string): Doc {
    if FindSection(doc, name) < |doc| then doc else doc + [Section(name, [])]
  }

  function PutKey(lines: seq<KeyLine>, key: string, value: string): seq<KeyLine> {
    var i := FindKey(lines, key);
    if i < |lines| then lines[i := Key(key, value)] else lines + [Key(key, value)]
  }

  function WithLines(doc: Doc, i: nat, lines: seq<KeyLine>): Doc
    requires i < |doc| && doc[i].Section?
  {
    doc[i := Section(doc[i].name, lines)]
  }

  function SetValue(doc: Doc, section: string, key: string, value: string): Doc {
    var d, i := WithSection(doc, section), FindSection(doc, section);
    WithLines(d, i, PutKey(d[i].lines, key, value))
  }

  function RemoveKey(doc: Doc, section: string, key: string): Doc {
    var i := FindSection(doc, section);
    if i == |doc| then doc
    else
      var k := FindKey(doc[i].lines, key);
      if k == |doc[i].lines| then doc
      else WithLines(doc, i, Without(doc[i].lines, k))
  }

  // ---------- loading (src/config/ini.c:295-395) ----------

  // What one line says
  datatype Reading =
    | ReadsBlank
    | ReadsSection(name: string)
    | ReadsComment(text: string)
    | ReadsKey(key: string, value: string)
    | Rejected

  // The rest of a line after its '['; what follows the ']' is dropped.
  function ReadHeader(s: string): Reading {
    var n := Scan(s, NameEnd);
    if n < |s| && s[n] == ']' then ReadsSection(s[..n]) else Rejected
  }

  // The blank that ends a key is overwritten before the second skip starts, so exactly one is allowed there.
  function ReadAssignment(s: string): Reading {
    var n := Scan(s, KeyEnd);
    if n == |s| then Rejected
    else if s[n] == '=' then ReadsKey(s[..n], SkipBlanks(s[n + 1..]))
    else if n + 1 < |s| && s[n + 1] == '=' then ReadsKey(s[..n], SkipBlanks(s[n + 2..]))
    else Rejected
  }

  function Classify(line: string): Reading {
    var s := SkipBlanks(line);
    if s == "" then ReadsBlank
    else if s[0] == '[' then ReadHeader(s[1..])
    else if s[0] == ';' then ReadsComment(s[1..])
    else if s[0] == '=' || s[0] == ']' then Rejected
    else ReadAssignment(s)
  }

  // The document read so far and the section that the next keys belong to
  datatype Load = Load(doc: Doc, current: Option<nat>) {
    predicate Valid() {
      current.Some? ==> current.value < |doc| && doc[current.value].Section?
    }
  }

  const EMPTY: Load := Load([], None)

  function AddLine(st: Load, top: DocLine, inner: KeyLine): (r: Load)
    requires st.Valid()
    ensures r.Valid()
  {
    match st.current
    case None => st.(doc := st.doc + [top])
    case Some(i) => st.(doc := WithLines(st.doc, i, st.doc[i].lines + [inner]))
  }

  function Absorb(st: Load, reading: Reading): (r: Option<Load>)
    requires st.Valid()
    ensures r.Some? ==> r.value.Valid()
  {
    match reading
    case ReadsBlank => Some(AddLine(st, TopBlank, Blank))
    case ReadsComment(t) => Some(AddLine(st, TopComment(t), Comment(t)))
    case ReadsSection(n) => Some(Load(WithSection(st.doc, n), Some(FindSection(st.doc, n))))
    case ReadsKey(k, v) =>
      (match st.current
       case None => None
       case Some(i) => Some(st.(doc := WithLines(st.doc, i, PutKey(st.doc[i].lines, k, v)))))
    case Rejected => None
  }

  function Step(st: Load, line: string): (r: Option<Load>)
    requires st.Valid()
    ensures r.Some? ==> r.value.Valid()
  {
    Absorb(st, Classify(line))
  }

  function LoadLines(lines: seq<string>): (r: Option<Load>)
    ensures r.Some? ==> r.value.Valid()
  {
    if lines == [] then Some(EMPTY)
    else
      match LoadLines(lines[..|lines| - 1])
      case None => None
      case Some(st) => Step(st, lines[|lines| - 1])
  }

  function Parse(text: string): Option<Doc> {
    match LoadLines(SplitLines(text))
    case None => None
    case Some(st) => Some(st.doc)
  }

  // ---------- printing (src/config/ini.c:160-233) ----------

  function KeyText(l: KeyLine): string {
    match l
    case Key(n, v) => n + "=" + v
    case Comment(t) => ";" + t
    case Blank => ""
  }

  function KeyTexts(lines: seq<KeyLine>): (r: seq<string>)
    ensures |r| == |lines|
    ensures forall i :: 0 <= i < |lines| ==> r[i] == KeyText(lines[i])
  {
    seq(|lines|, i requires 0 <= i < |lines| => KeyText(lines[i]))
  }

  function LineTexts(l: DocLine): seq<string> {
    match l
    case Section(n, lines) => ["[" + n + "]"] + KeyTexts(lines)
    case TopComment(t) => [";" + t]
    case TopBlank => [""]
  }

  function DocTexts(doc: Doc): seq<string> {
    if doc == [] then [] else DocTexts(doc[..|doc| - 1]) + LineTexts(doc[|doc| - 1])
  }

  function Print(doc: Doc): string {
    Unlines(DocTexts(doc))
  }

  // ---------- well-formed documents ----------

  predicate LegalSectionName(n: string) {
    '\n' !in n && forall i :: 0 <= i < |n| ==> !Stops(n[i], NameEnd)
  }

  predicate LegalKey(k: string) {
    && k != "" && !Stops(k[0], NameEnd)
    && '\n' !in k
    && forall i :: 0 <= i < |k| ==> !Stops(k[i], KeyEnd)
  }

  predicate LegalValue(v: string) {
    '\n' !in v && (v == "" || !IsBlank(v[0]))
  }

  predicate LegalKeyLine(l: KeyLine) {
    match l
    case Key(n, v) => LegalKey(n) && LegalValue(v)
    case Comment(t) => '\n' !in t
    case Blank => true
  }

  // Every key line is the one that a lookup of its name finds.
  predicate UniqueKeys(lines: seq<KeyLine>) {
    forall i :: 0 <= i < |lines| && lines[i].Key? ==> FindKey(lines, lines[i].name) == i
  }

  predicate LegalDocLine(l: DocLine) {
    match l
    case Section(n, lines) =>
      && LegalSectionName(n)
      && UniqueKeys(lines)
      && forall i :: 0 <= i < |lines| ==> LegalKeyLine(lines[i])
    case TopComment(t) => '\n' !in t
    case TopBlank => true
  }

  predicate WellFormed(doc: Doc) {
    && (forall i :: 0 <= i < |doc| ==> LegalDocLine(doc[i]))
    && (forall i :: 0 <= i < |doc| && doc[i].Section? ==> FindSection(doc, doc[i].name) == i)
    && (forall i :: 0 < i < |doc| && doc[i - 1].Section? ==> doc[i].Section?)
  }
}
