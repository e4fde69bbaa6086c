/** The part of analyse_line that cuts a line into pieces (src/config/ini.c:295-394): pointers move through the buffer
    and terminators are written where a name ends. */
module LineCutting {
  import opened Text
  import opened CStrings
  import opened IniFormat

  // The section branch, with p after the '['
  method CutHeader(line: array<char>, p: nat, ghost s: string) returns (ok: bool, name: string)
    requires Holds(line, p, s)
    modifies line
    ensures ReadHeader(s) == if ok then ReadsSection(name) else Rejected
  {
    var n := 0;
    while line[p + n] != ']'
      modifies {}
      invariant 0 <= n <= |s|
      invariant forall i :: 0 <= i < n ==> !Stops(s[i], NameEnd)
      invariant n < |s| ==> line[p + n] == s[n]
      decreases |s| - n
    {
      if line[p + n] == '\0' || line[p + n] == ';' || line[p + n] == '[' || line[p + n] == '=' {
        return false, "";
      }
      n := n + 1;
    }
    line[p + n] := '\0';
    name := CopyOut(line, p, s[..n]);
    ok := true;
  }

  // The end of the key name, or ok == false when the string ends first
  method FindKeyEnd(line: array<char>, p: nat, ghost s: string) returns (ok: bool, n: nat)
    requires Holds(line, p, s)
    ensures n == Scan(s, KeyEnd) && (ok <==> n < |s|)
  {
    n := 0;
    while line[p + n] != ' ' && line[p + n] != '\t' && line[p + n] != '='
      invariant 0 <= n <= |s|
      invariant forall i :: 0 <= i < n ==> !Stops(s[i], KeyEnd)
      invariant n < |s| ==> line[p + n] == s[n]
      decreases |s| - n
    {
      if line[p + n] == '\0' {
        return false, n;
      }
      n := n + 1;
    }
    ok := true;
  }

  // Over the '=': the position after it, once the name at p has been terminated
  method StepOverEquals(line: array<char>, p: nat, ghost s: string, n: nat) returns (ok: bool, end: nat)
    requires Holds(line, p, s) && n < |s| && Stops(s[n], KeyEnd)
    modifies line
    ensures Holds(line, p, s[..n])
    ensures ok <==> s[n] == '=' || (n + 1 < |s| && s[n + 1] == '=')
    ensures ok ==> end == p + n + if s[n] == '=' then 1 else 2
    ensures ok ==> Holds(line, end, s[end - p..])
  {
    end := p + n;
    assert line[p + n] == s[n];
    assert n + 1 < |s| ==> line[p + (n + 1)] == s[n + 1];
    if line[end] != '=' {
      line[end] := '\0';
      // the terminator just written stops this skip at once
      end := JumpSpace(line, end, "");
      end := end + 1;
      if line[end] != '=' {
        return false, end;
      }
      line[end] := '\0';
    } else {
      line[end] := '\0';
    }
    end := end + 1;
    ok := true;
  }

  // The key branch, with p on the first character of the key
  method CutAssignment(line: array<char>, p: nat, ghost s: string) returns (ok: bool, key: string, value: string)
    requires Holds(line, p, s)
    modifies line
    ensures ReadAssignment(s) == if ok then ReadsKey(key, value) else Rejected
  {
    key, value := "", "";
    var n, end;
    ok, n := FindKeyEnd(line, p, s);
    if !ok {
      return;
    }
    ok, end := StepOverEquals(line, p, s, n);
    if !ok {
      return;
    }
    ghost var rest := s[end - p..];
    end := JumpSpace(line, end, rest);
    key := CopyOut(line, p, s[..n]);
    value := CopyOut(line, end, SkipBlanks(rest));
  }

  // The whole line: what it says. A key line is rejected unread while no section is open.
  method CutLine(line: array<char>, ghost text: string, sectionOpen: bool) returns (r: Reading)
    requires Holds(line, 0, text)
    modifies line
    ensures r == if Classify(text).ReadsKey? && !sectionOpen then Rejected else Classify(text)
  {
    var p := JumpSpace(line, 0, text);
    ghost var s := SkipBlanks(text);
    if line[p] == '\0' {
      r := ReadsBlank;
    } else if line[p] == '[' {
      var ok, name := CutHeader(line, p + 1, s[1..]);
      r := if ok then ReadsSection(name) else Rejected;
    } else if line[p] == ';' {
      var note := CopyOut(line, p + 1, s[1..]);
      r := ReadsComment(note);
    } else if line[p] != '=' && line[p] != ']' && sectionOpen {
      var ok, key, value := CutAssignment(line, p, s);
      r := if ok then ReadsKey(key, value) else Rejected;
    } else {
      r := Rejected;
    }
  }
}
