/** A file that is read forward, and read_buf_line on it (src/config/ini.c:247-283). */
module LineFile {
  import opened Text
  import opened CStrings
  import opened LineReader

  class TextFile {
    const content: string
    var pos: nat

    ghost predicate Valid()
      reads this
    {
      pos <= |content| && NulFree(content)
    }

    ghost function Rest(): string
      requires Valid()
      reads this
    {
      content[pos..]
    }

    constructor (content: string)
      requires NulFree(content)
      ensures Valid() && this.content == content && pos == 0
    {
      this.content := content;
      pos := 0;
    }

    // fgets into buf at position at: at most n - 1 characters, up to and including the first newline. At the end of
    // the file nothing is stored.
    method Gets(buf: array<char>, at: nat, n: nat) returns (ok: bool)
      requires Valid() && 2 <= n && at + n <= buf.Length
      modifies this`pos, buf
      ensures Valid() && (ok <==> old(Rest()) != "")
      ensures !ok ==> pos == old(pos) && buf[..] == old(buf[..])
      ensures ok ==> var c := Chunk(old(Rest()), n - 1);
        && pos == old(pos) + c
        && Holds(buf, at, old(Rest())[..c])
        && forall i :: 0 <= i < at ==> buf[i] == old(buf[i])
    {
      if pos == |content| {
        return false;
      }
      ghost var start, rest := pos, Rest();
      var k := 0;
      while k < n - 1 && pos < |content| && (k == 0 || content[pos - 1] != '\n')
        invariant 0 <= k <= n - 1 && pos == start + k <= |content|
        invariant forall i :: 0 <= i < k ==> buf[at + i] == rest[i]
        invariant forall i :: 0 <= i < k - 1 ==> rest[i] != '\n'
        invariant forall i :: 0 <= i < at ==> buf[i] == old(buf[i])
      {
        buf[at + k] := content[pos];
        k := k + 1;
        pos := pos + 1;
      }
      buf[at + k] := '\0';
      ok := true;
    }
  }

  // Two pieces side by side are one string.
  lemma Joined(buf: array<char>, s: string, t: string)
    requires Holds(buf, |s|, t) && NulFree(s) && forall i :: 0 <= i < |s| ==> buf[i] == s[i]
    ensures Holds(buf, 0, s + t)
  {
    forall i | 0 <= i < |s + t|
      ensures buf[0 + i] == (s + t)[i] && (s + t)[i] != '\0'
    {
      if i >= |s| {
        assert buf[|s| + (i - |s|)] == t[i - |s|];
      }
    }
    assert buf[|s| + |t|] == '\0';
  }

  lemma ExtendOnce(rest: string, got: nat, p: nat, len: nat)
    requires p < got <= |rest| && 2 <= len && rest[p] != '\n'
    ensures got == |rest| ==> Extend(rest, got, p, len) == (got, 2 * len)
    ensures got < |rest| ==>
      var c := Chunk(rest[got..], len - 1);
      && Extend(rest, got, p, len) == Extend(rest, got + c, got, 2 * len)
      && (rest[got] == '\n' ==> c == 1)
  {
    if got < |rest| && rest[got] == '\n' {
      assert rest[got..][0] == '\n';
      assert Scan(rest[got..], Newline) == 0;
    }
  }

  lemma SlicesJoin(rest: string, got: nat, c: nat)
    requires got + c <= |rest|
    ensures rest[..got] + rest[got..][..c] == rest[..got + c]
  {
  }

  // One round of the loop: len doubles, a buffer of twice the new len takes the old content, and the next chunk is
  // read behind it.
  method ReadBehind(fp: TextFile, buf: array<char>, len: nat, ghost rest: string, ghost got: nat)
    returns (more: bool, line: array<char>, newLen: nat, at: nat)
    requires fp.Valid() && 2 <= len && got <= |rest| && got < len
    requires fp.Rest() == rest[got..] && Holds(buf, 0, rest[..got])
    modifies fp`pos
    ensures fp.Valid() && fresh(line) && newLen == 2 * len && line.Length == 2 * newLen && at == got
    ensures more <==> got < |rest|
    ensures !more ==> fp.pos == old(fp.pos) && Holds(line, 0, rest[..got])
    ensures more ==> var c := Chunk(rest[got..], len - 1);
      fp.pos == old(fp.pos) + c && Holds(line, 0, rest[..got + c])
  {
    newLen := len * 2;
    line := new char[newLen * 2];
    StrCpy(line, buf, rest[..got]);
    at := StrLen(line, 0, rest[..got]);
    assert forall i :: 0 <= i < got ==> line[0 + i] == rest[..got][i] && rest[..got][i] != '\0';
    more := fp.Gets(line, at, newLen / 2);
    if more {
      ghost var c := Chunk(rest[got..], len - 1);
      Joined(line, rest[..got], rest[got..][..c]);
      SlicesJoin(rest, got, c);
    } else {
      assert forall i :: 0 <= i <= got ==> line[..][i] == line[i];
    }
  }

  // The same, told by what the whole loop reads
  method ReadMore(fp: TextFile, buf: array<char>, len: nat, ghost rest: string, ghost got: nat, ghost p: nat)
    returns (more: bool, line: array<char>, newLen: nat, at: nat, ghost now: nat)
    requires fp.Valid() && 2 <= len && p < got <= |rest| && got < len && rest[p] != '\n'
    requires fp.Rest() == rest[got..] && Holds(buf, 0, rest[..got])
    modifies fp`pos
    ensures fp.Valid() && fresh(line) && newLen == 2 * len && line.Length == 2 * newLen && at == got
    ensures got <= now <= |rest| && now < newLen && fp.pos == old(fp.pos) + now - got
    ensures Holds(line, 0, rest[..now])
    ensures more ==> got < now && (rest[got] == '\n' ==> now == got + 1)
    ensures more ==> Extend(rest, got, p, len) == Extend(rest, now, got, newLen)
    ensures !more ==> got == now && Extend(rest, got, p, len) == (got, newLen)
  {
    ExtendOnce(rest, got, p, len);
    more, line, newLen, at := ReadBehind(fp, buf, len, rest, got);
    now := if more then got + Chunk(rest[got..], len - 1) else got;
  }

  // The loop will have read total characters and grown the buffer to that length; p is where the newline is looked for.
  ghost predicate Reading(rest: string, got: nat, p: nat, len: nat, more: bool, total: (nat, nat)) {
    && p < got <= |rest| && 2 <= len
    && (rest[p] == '\n' ==> p == got - 1)
    && if more then total == Extend(rest, got, p, len) else p == got - 1 && total == (got, len)
  }

  lemma EndOfLine(rest: string, got: nat, p: nat, len: nat, more: bool, total: (nat, nat))
    requires Reading(rest, got, p, len, more, total) && (more ==> rest[p] == '\n')
    ensures p == got - 1 && total == (got, len)
  {
  }

  // The string in the buffer always stays below len, and len within the buffer's memory.
  method ReadBufLine(fp: TextFile, buf: array<char>, len: nat)
    returns (ok: bool, line: array<char>, newLen: nat)
    requires fp.Valid() && 2 <= len && len <= buf.Length
    modifies fp`pos, buf
    ensures fp.Valid() && (ok <==> old(fp.Rest()) != "") && len <= newLen <= line.Length
    ensures line == buf || fresh(line)
    ensures !ok ==> fp.pos == old(fp.pos)
    ensures ok ==> var (taken, grown) := Taken(old(fp.Rest()), len);
      fp.pos == old(fp.pos) + taken && newLen == grown && Holds(line, 0, LineRead(old(fp.Rest()), len))
  {
    ghost var rest, start := fp.Rest(), fp.pos;
    line, newLen := buf, len;
    ok := fp.Gets(line, 0, len);
    if !ok {
      return;
    }
    ghost var got, total := Chunk(rest, len - 1), Taken(rest, len);
    var n := StrLen(line, 0, rest[..got]);
    var p := n - 1;
    var more := true;
    while more && line[p] != '\n'
      invariant 0 <= p < got <= |rest| && got < newLen <= line.Length && len <= newLen
      invariant fp.pos == start + got <= |fp.content|
      invariant line == buf || fresh(line)
      invariant Holds(line, 0, rest[..got])
      invariant Reading(rest, got, p, newLen, more, total)
      decreases more, |rest| - got
    {
      assert line[0 + p] == rest[..got][p];
      var at;
      ghost var now;
      more, line, newLen, at, now := ReadMore(fp, line, newLen, rest, got, p);
      p := if more then at else at - 1;
      got := now;
    }
    assert line[0 + p] == rest[..got][p];
    EndOfLine(rest, got, p, newLen, more, total);
    CutAt(line, rest, got, p);
  }

  // The final newline, if there is one, becomes the terminator.
  method CutAt(line: array<char>, ghost rest: string, ghost got: nat, p: nat)
    requires 0 < got <= |rest| && p == got - 1 && Holds(line, 0, rest[..got]) && line[p] == rest[p]
    modifies line
    ensures Holds(line, 0, Chomp(rest[..got]))
  {
    if line[p] == '\n' {
      line[p] := '\0';
    }
  }
}
