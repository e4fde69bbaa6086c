/** The dialect of src/config/ini.c told by the characters of a line (295-395) and of a printed document (160-233):
    every form that a line can have and what it says, and what each line of a document prints. */
module IniDialect {
  import opened Options
  import opened Text
  import opened IniFormat

  // ---------- what a line says ----------

  predicate Blanks(b: string) {
    forall i :: 0 <= i < |b| ==> b[i] == ' ' || b[i] == '\t'
  }

  predicate NoBlankFirst(s: string) {
    s == "" || (s[0] != ' ' && s[0] != '\t')
  }

  // What may stand before the end of a key's name, and in a section's name
  predicate KeyName(k: string) {
    && k != "" && k[0] != ';' && k[0] != '[' && k[0] != ']'
    && forall i :: 0 <= i < |k| ==> k[i] != ' ' && k[i] != '\t' && k[i] != '='
  }

  predicate HeaderName(n: string) {
    forall i :: 0 <= i < |n| ==> n[i] != ']' && n[i] != ';' && n[i] != '[' && n[i] != '='
  }

  lemma BlanksAreSkipped(b: string, s: string)
    requires Blanks(b) && NoBlankFirst(s)
    ensures SkipBlanks(b + s) == s
  {
    var t := b + s;
    assert forall i :: 0 <= i < |b| ==> t[i] == b[i];
    assert s != "" ==> t[|b|] == s[0];
    LeadingBlanksEnd(t, |b|);
  }

  lemma LeadingBlanksEnd(s: string, n: nat)
    requires n <= |s| && Blanks(s[..n]) && NoBlankFirst(s[n..])
    ensures LeadingBlanks(s) == n
  {
    assert forall i :: 0 <= i < n ==> s[..n][i] == s[i];
  }

  // ---------- strings in parts ----------

  lemma FourParts(a: string, b: string, c: string, d: string)
    ensures a + b + c + d == a + (b + (c + d))
  {
    Assoc(a + b, c, d);
    Assoc(a, b, c + d);
  }

  lemma SixParts(a: string, b: string, c: string, d: string, e: string, f: string)
    ensures a + b + c + d + e + f == a + (b + (c + d + (e + f)))
  {
    Assoc(a + b + c + d, e, f);
    Assoc(a + b, c, d);
    Assoc(a + b, c + d, e + f);
    Assoc(a, b, c + d + (e + f));
  }

  lemma CutAround(s: string, i: nat)
    requires i < |s|
    ensures s == s[..i] + [s[i]] + s[i + 1..]
  {
  }

  lemma BlankLine(b: string)
    requires Blanks(b)
    ensures Classify(b) == ReadsBlank
  {
    BlanksAreSkipped(b, "");
    assert b + "" == b;
  }

  lemma CommentLine(b: string, t: string)
    requires Blanks(b)
    ensures Classify(b + ";" + t) == ReadsComment(t)
  {
    var s := ";" + t;
    BlanksAreSkipped(b, s);
    assert b + ";" + t == b + s && s[1..] == t;
  }

  lemma ScanEnds(s: string, n: nat, stop: Stop)
    requires n <= |s| && (n < |s| ==> Stops(s[n], stop))
    requires forall i :: 0 <= i < n ==> !Stops(s[i], stop)
    ensures Scan(s, stop) == n
  {
  }

  // ---------- headers ----------

  lemma HeaderScan(n: string, tail: string)
    requires HeaderName(n) && (tail == "" || tail[0] == ']' || tail[0] == ';' || tail[0] == '[' || tail[0] == '=')
    ensures Scan(n + tail, NameEnd) == |n| && (n + tail)[..|n|] == n
    ensures tail != "" ==> (n + tail)[|n|] == tail[0]
  {
    var s := n + tail;
    assert forall i :: 0 <= i < |n| ==> s[i] == n[i];
    ScanEnds(s, |n|, NameEnd);
  }

  lemma BracketLine(b: string, s: string)
    requires Blanks(b)
    ensures Classify(b + "[" + s) == ReadHeader(s)
  {
    var line := "[" + s;
    BlanksAreSkipped(b, line);
    assert b + "[" + s == b + line && line[1..] == s;
  }

  // What follows the bracket is dropped.
  lemma HeaderLine(b: string, n: string, rest: string)
    requires Blanks(b) && HeaderName(n)
    ensures Classify(b + "[" + n + "]" + rest) == ReadsSection(n)
  {
    var tail := "]" + rest;
    HeaderScan(n, tail);
    BracketLine(b, n + tail);
    Assoc(b + "[" + n, "]", rest);
    Assoc(b + "[", n, tail);
  }

  lemma OpenHeaderLine(b: string, n: string)
    requires Blanks(b) && HeaderName(n)
    ensures Classify(b + "[" + n) == Rejected
  {
    HeaderScan(n, "");
    BracketLine(b, n);
    assert n + "" == n;
  }

  lemma BadHeaderLine(b: string, n: string, c: char, rest: string)
    requires Blanks(b) && HeaderName(n) && (c == ';' || c == '[' || c == '=')
    ensures Classify(b + "[" + n + [c] + rest) == Rejected
  {
    var tail := [c] + rest;
    HeaderScan(n, tail);
    BracketLine(b, n + tail);
    Assoc(b + "[" + n, [c], rest);
    Assoc(b + "[", n, tail);
  }

  // ---------- keys ----------

  lemma KeyScan(k: string, tail: string)
    requires KeyName(k) && (tail == "" || tail[0] == ' ' || tail[0] == '\t' || tail[0] == '=')
    ensures Scan(k + tail, KeyEnd) == |k| && (k + tail)[..|k|] == k && (k + tail)[|k|..] == tail
    ensures forall i :: 0 <= i < |tail| ==> (k + tail)[|k| + i] == tail[i]
  {
    var s := k + tail;
    assert forall i :: 0 <= i < |k| ==> s[i] == k[i];
    ScanEnds(s, |k|, KeyEnd);
  }

  lemma NameLine(b: string, k: string, tail: string)
    requires Blanks(b) && KeyName(k)
    ensures Classify(b + (k + tail)) == ReadAssignment(k + tail)
  {
    var s := k + tail;
    assert s[0] == k[0];
    BlanksAreSkipped(b, s);
  }

  lemma ReadsAt(s: string, n: nat, e: nat, w: string, v: string)
    requires n == Scan(s, KeyEnd) && (e == n || e == n + 1) && e < |s| && s[e] == '='
    requires e == n + 1 ==> s[n] != '='
    requires s[e + 1..] == w + v && Blanks(w) && NoBlankFirst(v)
    ensures ReadAssignment(s) == ReadsKey(s[..n], v)
  {
    BlanksAreSkipped(w, v);
  }

  lemma PartsAt(k: string, c: string, rest: string)
    ensures var s := k + (c + "=" + rest);
      && s[|k| + |c|] == '=' && s[|k| + |c| + 1..] == rest
      && (c != "" ==> s[|k|] == c[0])
  {
  }

  lemma AssignmentReads(k: string, c: string, w: string, v: string)
    requires KeyName(k) && (c == "" || c == " " || c == "\t") && Blanks(w) && NoBlankFirst(v)
    ensures ReadAssignment(k + (c + "=" + (w + v))) == ReadsKey(k, v)
  {
    KeyScan(k, c + "=" + (w + v));
    PartsAt(k, c, w + v);
    ReadsAt(k + (c + "=" + (w + v)), |k|, |k| + |c|, w, v);
  }

  // At most one blank may stand before the equals sign, any number behind it.
  lemma KeyLine(b: string, k: string, c: string, w: string, v: string)
    requires Blanks(b) && KeyName(k) && (c == "" || c == " " || c == "\t") && Blanks(w) && NoBlankFirst(v)
    ensures Classify(b + k + c + "=" + w + v) == ReadsKey(k, v)
  {
    AssignmentReads(k, c, w, v);
    NameLine(b, k, c + "=" + (w + v));
    SixParts(b, k, c, "=", w, v);
  }

  // A blank behind the name and then anything but an equals sign, two blanks before it among others
  lemma BlankThenOtherLine(b: string, k: string, c: char, d: char, rest: string)
    requires Blanks(b) && KeyName(k) && (c == ' ' || c == '\t') && d != '='
    ensures Classify(b + k + [c] + [d] + rest) == Rejected
  {
    var tail := [c] + [d] + rest;
    KeyScan(k, tail);
    NameLine(b, k, tail);
    Assoc(b + k, [c], [d]);
    Assoc(b + k, [c] + [d], rest);
    Assoc(b, k, tail);
  }

  lemma NoEqualsLine(b: string, k: string, c: string)
    requires Blanks(b) && KeyName(k) && (c == "" || c == " " || c == "\t")
    ensures Classify(b + k + c) == Rejected
  {
    KeyScan(k, c);
    NameLine(b, k, c);
    assert b + k + c == b + (k + c);
  }

  lemma NoNameLine(b: string, c: char, rest: string)
    requires Blanks(b) && (c == '=' || c == ']')
    ensures Classify(b + [c] + rest) == Rejected
  {
    var s := [c] + rest;
    BlanksAreSkipped(b, s);
    assert b + [c] + rest == b + s;
  }

  // ---------- the accepted lines are those ----------

  ghost predicate IsCommentLine(line: string, t: string) {
    exists b :: Blanks(b) && line == b + ";" + t
  }

  ghost predicate IsHeaderLine(line: string, n: string) {
    HeaderName(n) && exists b, rest :: Blanks(b) && line == b + "[" + n + "]" + rest
  }

  ghost predicate IsKeyLine(line: string, k: string, v: string) {
    && KeyName(k) && NoBlankFirst(v)
    && exists b, c, w :: Blanks(b) && (c == "" || c == " " || c == "\t") && Blanks(w) && line == b + k + c + "=" + w + v
  }

  lemma LeadingPart(line: string) returns (b: string, s: string)
    ensures line == b + s && Blanks(b) && NoBlankFirst(s) && s == SkipBlanks(line)
  {
    var n := LeadingBlanks(line);
    b, s := line[..n], line[n..];
  }

  lemma EqualsApart(s: string, n: nat, e: nat)
    requires n <= e <= n + 1 && e < |s| && s[e] == '='
    ensures s == s[..n] + s[n..e] + "=" + s[e + 1..]
    ensures e == n ==> s[n..e] == ""
    ensures e == n + 1 ==> s[n..e] == [s[n]]
  {
    CutAround(s, e);
    assert s[..e] == s[..n] + s[n..e] && [s[e]] == "=";
  }

  lemma AssignmentForm(s: string) returns (k: string, c: string, w: string, v: string)
    requires ReadAssignment(s).ReadsKey?
    ensures ReadAssignment(s) == ReadsKey(k, v) && s == k + c + "=" + w + v
    ensures (c == "" || c == " " || c == "\t") && Blanks(w) && NoBlankFirst(v)
    ensures forall i :: 0 <= i < |k| ==> k[i] != ' ' && k[i] != '\t' && k[i] != '='
  {
    var n := Scan(s, KeyEnd);
    var e := if s[n] == '=' then n else n + 1;
    k, c := s[..n], s[n..e];
    w, v := LeadingPart(s[e + 1..]);
    EqualsApart(s, n, e);
    Assoc(k + c + "=", w, v);
  }

  lemma KeyLineForm(line: string, k: string, v: string)
    requires Classify(line) == ReadsKey(k, v)
    ensures IsKeyLine(line, k, v)
  {
    var b, s := LeadingPart(line);
    var key, c, w, value := AssignmentForm(s);
    assert s[0] != ';' && s[0] != '[' && s[0] != ']' && s[0] != '=';
    NameComesFirst(s, key, c, w, value);
    FiveAfter(b, key, c, w, value);
  }

  lemma NameComesFirst(s: string, k: string, c: string, w: string, v: string)
    requires s == k + c + "=" + w + v && s[0] != '=' && NoBlankFirst(s) && (c == "" || c == " " || c == "\t")
    ensures k != "" && k[0] == s[0]
  {
  }

  lemma FiveAfter(b: string, k: string, c: string, w: string, v: string)
    ensures b + (k + c + "=" + w + v) == b + k + c + "=" + w + v
  {
    SixParts(b, k, c, "=", w, v);
    Assoc(k + c + "=", w, v);
    Assoc(k, c, "=");
    Assoc(k, c + "=", w + v);
  }

  lemma HeaderForm(s: string, n: string) returns (rest: string)
    requires ReadHeader(s) == ReadsSection(n)
    ensures s == n + "]" + rest && HeaderName(n)
  {
    CutAround(s, |n|);
    rest := s[|n| + 1..];
    assert [s[|n|]] == "]";
  }

  lemma HeaderLineForm(line: string, n: string)
    requires Classify(line) == ReadsSection(n)
    ensures IsHeaderLine(line, n)
  {
    var b, s := LeadingPart(line);
    CutAround(s, 0);
    assert s[..0] == "" && [s[0]] == "[";
    var rest := HeaderForm(s[1..], n);
    BracketApart(b, n, rest);
  }

  lemma BracketApart(b: string, n: string, rest: string)
    ensures b + ("" + "[" + (n + "]" + rest)) == b + "[" + n + "]" + rest
  {
    Assoc(b, "[", n + "]" + rest);
    Assoc(b + "[", n, "]");
    Assoc(b + "[", n + "]", rest);
  }

  lemma CommentLineForm(line: string, t: string)
    requires Classify(line) == ReadsComment(t)
    ensures IsCommentLine(line, t)
  {
    var b, s := LeadingPart(line);
    assert s == ";" + t;
    assert line == b + ";" + t;
  }

  // What every line says, told by its characters. A line of none of these forms is rejected.
  lemma LineSaysIff(line: string, t: string, n: string, k: string, v: string)
    ensures Classify(line) == ReadsBlank <==> Blanks(line)
    ensures Classify(line) == ReadsComment(t) <==> IsCommentLine(line, t)
    ensures Classify(line) == ReadsSection(n) <==> IsHeaderLine(line, n)
    ensures Classify(line) == ReadsKey(k, v) <==> IsKeyLine(line, k, v)
  {
    if Blanks(line) {
      BlankLine(line);
    }
    if Classify(line) == ReadsComment(t) {
      CommentLineForm(line, t);
    }
    if IsCommentLine(line, t) {
      var b :| Blanks(b) && line == b + ";" + t;
      CommentLine(b, t);
    }
    if Classify(line) == ReadsSection(n) {
      HeaderLineForm(line, n);
    }
    if IsHeaderLine(line, n) {
      var b, rest :| Blanks(b) && line == b + "[" + n + "]" + rest;
      HeaderLine(b, n, rest);
    }
    if Classify(line) == ReadsKey(k, v) {
      KeyLineForm(line, k, v);
    }
    if IsKeyLine(line, k, v) {
      var b, c, w :| Blanks(b) && (c == "" || c == " " || c == "\t") && Blanks(w) && line == b + k + c + "=" + w + v;
      KeyLine(b, k, c, w, v);
    }
  }

  // ---------- what a document prints ----------

  lemma PrintOneLine(doc: Doc, l: DocLine)
    ensures Print(doc + [l]) == Print(doc) + Unlines(LineTexts(l))
  {
    assert (doc + [l])[..|doc|] == doc;
    UnlinesOfConcat(DocTexts(doc), LineTexts(l));
  }

  // Nothing for the empty document; a header, a comment or an empty line for each line at the top
  lemma PrintTop(doc: Doc, n: string, t: string)
    ensures Print([]) == ""
    ensures Print(doc + [Section(n, [])]) == Print(doc) + "[" + n + "]\n"
    ensures Print(doc + [TopComment(t)]) == Print(doc) + ";" + t + "\n"
    ensures Print(doc + [TopBlank]) == Print(doc) + "\n"
  {
    PrintHeader(doc, n);
    PrintOneLine(doc, TopComment(t));
    PrintOneLine(doc, TopBlank);
    UnlinesOfOne(";" + t);
    UnlinesOfOne("");
    FourParts(Print(doc), ";", t, "\n");
    Assoc(";", t, "\n");
    assert "" + "\n" == "\n";
  }

  lemma PrintHeader(doc: Doc, n: string)
    ensures Print(doc + [Section(n, [])]) == Print(doc) + "[" + n + "]\n"
  {
    PrintOneLine(doc, Section(n, []));
    assert KeyTexts([]) == [] && LineTexts(Section(n, [])) == ["[" + n + "]"];
    UnlinesOfOne("[" + n + "]");
    FourParts(Print(doc), "[", n, "]\n");
    FourParts("[", n, "]", "\n");
    assert "]" + "\n" == "]\n";
    Assoc("[" + n, "]", "\n");
    Assoc("[", n, "]\n");
  }

  lemma PrintInside(doc: Doc, n: string, lines: seq<KeyLine>, l: KeyLine)
    ensures Print(doc + [Section(n, lines + [l])]) == Print(doc + [Section(n, lines)]) + KeyText(l) + "\n"
  {
    PrintOneLine(doc, Section(n, lines + [l]));
    PrintOneLine(doc, Section(n, lines));
    OneMoreInside(n, lines, l);
    UnlinesOneMore(LineTexts(Section(n, lines)), KeyText(l));
    var a, b, c := Print(doc), Unlines(LineTexts(Section(n, lines))), KeyText(l);
    Assoc(a, b + c, "\n");
    Assoc(a, b, c);
  }

  lemma OneMoreInside(n: string, lines: seq<KeyLine>, l: KeyLine)
    ensures LineTexts(Section(n, lines + [l])) == LineTexts(Section(n, lines)) + [KeyText(l)]
  {
    assert KeyTexts(lines + [l]) == KeyTexts(lines) + [KeyText(l)];
  }

  // And one line for each line of a section, in order
  lemma PrintInSection(doc: Doc, n: string, lines: seq<KeyLine>, k: string, v: string, t: string)
    ensures var before := Print(doc + [Section(n, lines)]);
      && Print(doc + [Section(n, lines + [Key(k, v)])]) == before + k + "=" + v + "\n"
      && Print(doc + [Section(n, lines + [Comment(t)])]) == before + ";" + t + "\n"
      && Print(doc + [Section(n, lines + [Blank])]) == before + "\n"
  {
    var before := Print(doc + [Section(n, lines)]);
    PrintInside(doc, n, lines, Key(k, v));
    PrintInside(doc, n, lines, Comment(t));
    PrintInside(doc, n, lines, Blank);
    Assoc(before, k + "=", v);
    Assoc(before, k, "=");
    Assoc(before, ";", t);
    assert before + "" == before;
  }
}
