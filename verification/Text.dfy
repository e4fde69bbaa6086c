/** Strings as the C code sees them: blanks, first-match scans, and lines of a text. */
module Text {

  predicate IsBlank(c: char) {
    c == ' ' || c == '\t'
  }

  // What a scan looks for: the end of a line, the end of a section name, the end of a key name
  datatype Stop = Newline | NameEnd | KeyEnd

  predicate Stops(c: char, stop: Stop) {
    match stop
    case Newline => c == '\n'
    case NameEnd => c == ']' || c == ';' || c == '[' || c == '='
    case KeyEnd => c == ' ' || c == '\t' || c == '='
  }

  // The first position of s from i on at which the scan stops, or |s|
  function ScanFrom(s: string, i: nat, stop: Stop): (n: nat)
    requires i <= |s|
    ensures i <= n <= |s|
    ensures forall j :: i <= j < n ==> !Stops(s[j], stop)
    ensures n < |s| ==> Stops(s[n], stop)
    decreases |s| - i
  {
    if i == |s| || Stops(s[i], stop) then i else ScanFrom(s, i + 1, stop)
  }

  function Scan(s: string, stop: Stop): (n: nat)
    ensures n <= |s|
    ensures forall j :: 0 <= j < n ==> !Stops(s[j], stop)
    ensures n < |s| ==> Stops(s[n], stop)
  {
    ScanFrom(s, 0, stop)
  }

  function LeadingBlanksFrom(s: string, i: nat): (n: nat)
    requires i <= |s|
    ensures i <= n <= |s|
    ensures forall j :: i <= j < n ==> IsBlank(s[j])
    ensures n < |s| ==> !IsBlank(s[n])
    decreases |s| - i
  {
    if i == |s| || !IsBlank(s[i]) then i else LeadingBlanksFrom(s, i + 1)
  }

  // The number of leading blanks of s
  function LeadingBlanks(s: string): (n: nat)
    ensures n <= |s|
    ensures forall i :: 0 <= i < n ==> IsBlank(s[i])
    ensures n < |s| ==> !IsBlank(s[n])
  {
    LeadingBlanksFrom(s, 0)
  }

  // What jump_space leaves of s (src/config/ini.c:285-293, src/server/cmdline.c:352-360)
  function SkipBlanks(s: string): string {
    s[LeadingBlanks(s)..]
  }

  // The newline split of a text. A last line without a newline counts, an empty rest after the last newline does not.
  function SplitLines(text: string): seq<string> {
    if text == "" then []
    else
      var n := Scan(text, Newline);
      [text[..n]] + SplitLines(text[if n < |text| then n + 1 else n..])
  }

  // Each line followed by a newline
  function Unlines(lines: seq<string>): string {
    if lines == [] then ""
    else Unlines(lines[..|lines| - 1]) + lines[|lines| - 1] + "\n"
  }

  lemma UnlinesOfOne(line: string)
    ensures Unlines([line]) == line + "\n"
  {
    assert [line][..0] == [];
    assert Unlines([line]) == Unlines([]) + line + "\n";
  }

  lemma UnlinesOneMore(lines: seq<string>, line: string)
    ensures Unlines(lines + [line]) == Unlines(lines) + line + "\n"
  {
    assert (lines + [line])[..|lines|] == lines;
  }

  lemma Assoc(a: string, b: string, c: string)
    ensures (a + b) + c == a + (b + c)
  {
  }

  lemma Regroup(a: string, b: string, c: string, d: string)
    ensures a + (b + c + d) == (a + b) + c + d
  {
  }

  lemma {:induction false} UnlinesOfConcat(a: seq<string>, b: seq<string>)
    ensures Unlines(a + b) == Unlines(a) + Unlines(b)
  {
    if b == [] {
      assert a + b == a;
    } else {
      var init, last := b[..|b| - 1], b[|b| - 1];
      UnlinesOfConcat(a, init);
      UnlinesOneMore(a + init, last);
      assert (a + init) + [last] == a + b;
      assert Unlines(b) == Unlines(init) + last + "\n";
      Regroup(Unlines(a), Unlines(init), last, "\n");
    }
  }

  lemma UnlinesFirst(lines: seq<string>)
    requires lines != []
    ensures Unlines(lines) == lines[0] + "\n" + Unlines(lines[1..])
  {
    assert lines == [lines[0]] + lines[1..];
    UnlinesOfConcat([lines[0]], lines[1..]);
    UnlinesOfOne(lines[0]);
  }

  lemma {:induction false} SplitOfUnlines(lines: seq<string>)
    requires forall i :: 0 <= i < |lines| ==> '\n' !in lines[i]
    ensures SplitLines(Unlines(lines)) == lines
  {
    if lines != [] {
      UnlinesFirst(lines);
      var text := Unlines(lines);
      var n := |lines[0]|;
      assert text[..n] == lines[0] && text[n] == '\n';
      assert Scan(text, Newline) == n by {
        assert forall i :: 0 <= i < n ==> text[i] == lines[0][i] && lines[0][i] in lines[0];
      }
      assert text[n + 1..] == Unlines(lines[1..]);
      SplitOfUnlines(lines[1..]);
    }
  }

  predicate OneLiners(lines: seq<string>) {
    forall i :: 0 <= i < |lines| ==> '\n' !in lines[i]
  }

  lemma FirstOneLiner(lines: seq<string>)
    requires OneLiners(lines) && lines != []
    ensures '\n' !in lines[0] && OneLiners(lines[1..])
  {
  }

  lemma Prepended(lines: seq<string>, last: string)
    requires lines != []
    ensures [lines[0]] + (lines[1..] + [last]) == lines + [last]
  {
    assert lines == [lines[0]] + lines[1..];
  }

  // A last line without a newline counts as well.
  lemma {:induction false} SplitOfUnlinesAndLast(lines: seq<string>, last: string)
    requires OneLiners(lines) && last != "" && '\n' !in last
    ensures SplitLines(Unlines(lines) + last) == lines + [last]
  {
    if lines == [] {
      assert Unlines(lines) + last == last;
      SplitLastLine(last);
    } else {
      FirstOneLiner(lines);
      FirstAndRest(lines, last);
      SplitOfUnlinesAndLast(lines[1..], last);
      SplitOneLine(lines[0], Unlines(lines[1..]) + last);
      Prepended(lines, last);
    }
  }

  lemma FirstAndRest(lines: seq<string>, last: string)
    requires lines != []
    ensures Unlines(lines) + last == lines[0] + "\n" + (Unlines(lines[1..]) + last)
  {
    UnlinesFirst(lines);
    Assoc(lines[0] + "\n", Unlines(lines[1..]), last);
  }

  lemma SplitLastLine(last: string)
    requires last != "" && '\n' !in last
    ensures SplitLines(last) == [last]
  {
    assert Scan(last, Newline) == |last|;
    assert last[..|last|] == last && last[|last|..] == "";
  }

  lemma SplitOneLine(line: string, rest: string)
    requires '\n' !in line
    ensures SplitLines(line + "\n" + rest) == [line] + SplitLines(rest)
  {
    var text, n := line + "\n" + rest, |line|;
    assert text[n] == '\n' && text[..n] == line && text[n + 1..] == rest;
    assert Scan(text, Newline) == n by {
      assert forall i :: 0 <= i < n ==> text[i] == line[i] && line[i] in line;
    }
  }

  lemma {:induction false} SplitHasNoNewline(text: string, i: nat)
    requires i < |SplitLines(text)|
    ensures '\n' !in SplitLines(text)[i]
  {
    if i > 0 {
      var n := Scan(text, Newline);
      SplitHasNoNewline(text[if n < |text| then n + 1 else n..], i - 1);
    }
  }
}
