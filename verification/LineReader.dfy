/** read_buf_line of src/config/ini.c: one line through a buffer that doubles when a line does not fit. */
module LineReader {
  import opened Text
  import opened CStrings

  // ---------- what is read, on values ----------

  // How many characters fgets takes from the rest of a file when it may take cap of them
  function Chunk(rest: string, cap: nat): (c: nat)
    ensures c <= |rest| && c <= cap
    ensures rest != "" && cap > 0 ==> c > 0
  {
    var n := Scan(rest, Newline);
    if n < |rest| && n < cap then n + 1 else if cap < |rest| then cap else |rest|
  }

  // After got characters, the last chunk starting at p: how many are taken in all, and the length the buffer gets.
  // After the first chunk only the character at p decides whether the line is complete.
  function Extend(rest: string, got: nat, p: nat, len: nat): (r: (nat, nat))
    requires p < got <= |rest| && 2 <= len
    ensures got <= r.0 <= |rest| && len <= r.1
    decreases |rest| - got
  {
    if rest[p] == '\n' then (got, len)
    else if got == |rest| then (got, 2 * len)
    else Extend(rest, got + Chunk(rest[got..], len - 1), got, 2 * len)
  }

  function Taken(rest: string, len: nat): (r: (nat, nat))
    requires rest != "" && 2 <= len
    ensures 0 < r.0 <= |rest| && len <= r.1
  {
    var c := Chunk(rest, len - 1);
    Extend(rest, c, c - 1, len)
  }

  function Chomp(s: string): string {
    if s != "" && s[|s| - 1] == '\n' then s[..|s| - 1] else s
  }

  function LineRead(rest: string, len: nat): string
    requires rest != "" && 2 <= len
  {
    Chomp(rest[..Taken(rest, len).0])
  }

  // Where the first line ends, its newline included
  function LineEnd(rest: string): (e: nat)
    ensures e <= |rest|
  {
    var n := Scan(rest, Newline);
    if n < |rest| then n + 1 else n
  }

  // Every line that successive calls return
  function ReadAll(rest: string, len: nat): seq<string>
    requires 2 <= len
    decreases |rest|
  {
    if rest == "" then []
    else
      var (taken, grown) := Taken(rest, len);
      [LineRead(rest, len)] + ReadAll(rest[taken..], grown)
  }

  // ---------- when it is one line ----------

  // A chunk starts at position n, when chunks start at got and the buffer has length len there.
  predicate ChunkStartsAt(n: nat, got: nat, len: nat)
    requires 2 <= len
    decreases if n > got then n - got else 0
  {
    n == got || (n > got && ChunkStartsAt(n, got + len - 1, 2 * len))
  }

  // A line of n characters fits the buffer, or its newline happens to start a chunk.
  predicate LineFits(n: nat, len: nat)
    requires 2 <= len
  {
    n <= len - 1 || ChunkStartsAt(n, len - 1, len)
  }

  // The length of the buffer after such a line: the buffer doubles until a chunk starts with the newline.
  function GrownFrom(n: nat, got: nat, len: nat): (r: nat)
    requires 2 <= len
    ensures len <= r
    decreases if n > got then n - got else 0
  {
    if n <= got then 2 * len else GrownFrom(n, got + len - 1, 2 * len)
  }

  function GrownBy(n: nat, len: nat): (r: nat)
    requires 2 <= len
    ensures len <= r
  {
    if n < len - 1 then len else GrownFrom(n, len - 1, len)
  }

  // Every line but the last fits the buffer as the lines before have left it; with the last one reading ends anyway.
  predicate LinesFit(lines: seq<string>, len: nat)
    requires 2 <= len
  {
    |lines| <= 1 || (LineFits(|lines[0]|, len) && LinesFit(lines[1..], GrownBy(|lines[0]|, len)))
  }

  predicate AllFit(text: string, len: nat)
    requires 2 <= len
  {
    LinesFit(SplitLines(text), len)
  }

  predicate FirstFits(rest: string, len: nat)
    requires 2 <= len
  {
    LineFits(Scan(rest, Newline), len) || LineEnd(rest) == |rest|
  }

  // Before the newline is reached, chunks are full.
  lemma ChunkIs(rest: string, got: nat, n: nat, cap: nat)
    requires n == Scan(rest, Newline) && got <= n && got < |rest| && 0 < cap
    ensures Chunk(rest[got..], cap) == if n < |rest| && n < got + cap then n + 1 - got
                                       else if got + cap < |rest| then cap else |rest| - got
  {
    var tail := rest[got..];
    assert forall i :: 0 <= i < n - got ==> tail[i] == rest[got + i];
    assert n < |rest| ==> tail[n - got] == '\n';
    assert Scan(tail, Newline) == n - got;
  }

  lemma NotANewline(rest: string, p: nat)
    requires p < Scan(rest, Newline)
    ensures rest[p] != '\n'
  {
    assert !Stops(rest[p], Newline);
  }

  // The chunk that starts at got holds the newline at n, which is not its first character: reading goes on.
  lemma ReadsPast(rest: string, got: nat, len: nat, n: nat)
    requires n == Scan(rest, Newline) && got < n && n + 1 <= |rest| && 2 <= len
    ensures Extend(rest, n + 1, got, len).0 == n + 1 <==> n + 1 == |rest|
  {
    NotANewline(rest, got);
  }

  // The read from a chunk boundary at or before the newline ends with the line under exactly these conditions.
  predicate EndsWithLineIff(rest: string, got: nat, p: nat, len: nat)
    requires p < got <= |rest| && 2 <= len
  {
    var r, e := Extend(rest, got, p, len).0, LineEnd(rest);
    r >= e && (r == e <==> ChunkStartsAt(Scan(rest, Newline), got, len) || e == |rest|)
  }

  lemma NextChunkHasNewline(rest: string, got: nat, p: nat, len: nat, n: nat)
    requires n == Scan(rest, Newline) && p < got <= n < |rest| && n < got + len - 1 && 2 <= len
    ensures EndsWithLineIff(rest, got, p, len)
  {
    NotANewline(rest, p);
    ChunkIs(rest, got, n, len - 1);
    assert Extend(rest, got, p, len) == Extend(rest, n + 1, got, 2 * len);
    NotAChunkStart(n, got, len);
    if got < n {
      ReadsPast(rest, got, 2 * len, n);
    }
  }

  // With no newline before the very end, reading goes on to the end.
  lemma {:induction false} ExtendToEnd(rest: string, got: nat, p: nat, len: nat)
    requires p < got <= |rest| && 2 <= len && forall i :: p <= i < |rest| - 1 ==> rest[i] != '\n'
    ensures Extend(rest, got, p, len).0 == |rest|
    decreases |rest| - got
  {
    if rest[p] != '\n' && got < |rest| {
      ExtendToEnd(rest, got + Chunk(rest[got..], len - 1), got, 2 * len);
    }
  }

  // A full chunk before the newline leads to the next boundary.
  lemma FullChunk(rest: string, got: nat, p: nat, len: nat, n: nat)
    requires n == Scan(rest, Newline) && p < got && 2 <= len && got + len - 1 <= n < |rest|
    requires EndsWithLineIff(rest, got + len - 1, got, 2 * len)
    ensures EndsWithLineIff(rest, got, p, len)
  {
    NotANewline(rest, p);
    ChunkIs(rest, got, n, len - 1);
    assert Extend(rest, got, p, len) == Extend(rest, got + len - 1, got, 2 * len);
    ChunkStartsLater(n, got, len);
  }

  lemma {:induction false} ExtendEndsWithLineIff(rest: string, got: nat, p: nat, len: nat, n: nat)
    requires n == Scan(rest, Newline) && p < got <= |rest| && got <= n && 2 <= len
    ensures EndsWithLineIff(rest, got, p, len)
    decreases |rest| - got
  {
    if n == |rest| {
      forall i | p <= i < |rest|
        ensures rest[i] != '\n'
      {
        NotANewline(rest, i);
      }
      ExtendToEnd(rest, got, p, len);
    } else if n < got + len - 1 {
      NextChunkHasNewline(rest, got, p, len, n);
    } else {
      ExtendEndsWithLineIff(rest, got + len - 1, got, 2 * len, n);
      FullChunk(rest, got, p, len, n);
    }
  }

  lemma NotAChunkStart(n: nat, got: nat, len: nat)
    requires 2 <= len && got <= n < got + len - 1
    ensures ChunkStartsAt(n, got, len) <==> n == got
  {
    assert !ChunkStartsAt(n, got + len - 1, 2 * len);
  }

  lemma ChunkStartsLater(n: nat, got: nat, len: nat)
    requires 2 <= len && got + len - 1 <= n
    ensures ChunkStartsAt(n, got, len) <==> ChunkStartsAt(n, got + len - 1, 2 * len)
  {
  }

  lemma TakenIff(rest: string, len: nat)
    requires rest != "" && 2 <= len
    ensures var taken, e := Taken(rest, len).0, LineEnd(rest);
      taken >= e && (taken == e <==> FirstFits(rest, len))
  {
    var n := Scan(rest, Newline);
    var c := Chunk(rest, len - 1);
    ChunkIs(rest, 0, n, len - 1);
    assert rest[0..] == rest;
    if c <= n {
      ExtendEndsWithLineIff(rest, c, c - 1, len, n);
      assert c == len - 1 || LineEnd(rest) == |rest|;
      if n == len - 1 {
        assert ChunkStartsAt(n, c, len);
      }
    } else {
      assert c == LineEnd(rest) && rest[c - 1] == '\n';
    }
  }

  // A call returns exactly the first line of what is left, and takes its newline, if and only if the line fits.
  lemma ReadsOneLineIff(rest: string, len: nat)
    requires rest != "" && 2 <= len
    ensures Taken(rest, len).0 == LineEnd(rest) <==> FirstFits(rest, len)
    ensures FirstFits(rest, len) ==> LineRead(rest, len) == rest[..Scan(rest, Newline)]
    ensures !FirstFits(rest, len) ==> '\n' in LineRead(rest, len)
  {
    TakenIff(rest, len);
    var n, taken := Scan(rest, Newline), Taken(rest, len).0;
    var all := rest[..taken];
    if FirstFits(rest, len) {
      if n < |rest| {
        assert all[n] == '\n' && all[..n] == rest[..n];
      } else {
        assert all == rest == rest[..n];
        if n > 0 {
          NotANewline(rest, n - 1);
        }
      }
    } else {
      assert LineRead(rest, len)[n] == all[n] == '\n';
    }
  }

  lemma {:induction false} ExtendGrows(rest: string, got: nat, p: nat, len: nat, n: nat)
    requires n == Scan(rest, Newline) && p < got <= n < |rest| && 2 <= len && ChunkStartsAt(n, got, len)
    ensures Extend(rest, got, p, len) == (n + 1, GrownFrom(n, got, len))
    decreases n - got
  {
    NotANewline(rest, p);
    ChunkIs(rest, got, n, len - 1);
    if got < n {
      ExtendGrows(rest, got + len - 1, got, 2 * len, n);
    }
  }

  // What a line that fits leaves behind
  lemma TakenGrows(rest: string, len: nat)
    requires rest != "" && 2 <= len && LineEnd(rest) < |rest| && LineFits(Scan(rest, Newline), len)
    ensures Taken(rest, len) == (LineEnd(rest), GrownBy(Scan(rest, Newline), len))
  {
    var n := Scan(rest, Newline);
    assert rest[0..] == rest;
    ChunkIs(rest, 0, n, len - 1);
    if n >= len - 1 {
      assert ChunkStartsAt(n, len - 1, len);
      ExtendGrows(rest, len - 1, len - 2, len, n);
    }
  }

  lemma SplitFirst(rest: string)
    requires rest != ""
    ensures var n, tail := Scan(rest, Newline), SplitLines(rest[LineEnd(rest)..]);
      && SplitLines(rest) == [rest[..n]] + tail && SplitLines(rest)[1..] == tail && |SplitLines(rest)| == 1 + |tail|
      && (LineEnd(rest) < |rest| <==> tail != [])
  {
  }

  // Successive calls return the newline split of the file if and only if all its lines fit.
  lemma {:induction false} ReadAllIsSplitIff(rest: string, len: nat)
    requires 2 <= len
    ensures ReadAll(rest, len) == SplitLines(rest) <==> AllFit(rest, len)
    decreases |rest|
  {
    if rest != "" {
      var n := Scan(rest, Newline);
      var (taken, grown) := Taken(rest, len);
      ReadsOneLineIff(rest, len);
      SplitFirst(rest);
      var tail := ReadAll(rest[taken..], grown);
      assert ReadAll(rest, len) == [LineRead(rest, len)] + tail;
      if FirstFits(rest, len) {
        ReadAllIsSplitIff(rest[taken..], grown);
        assert ([rest[..n]] + tail)[1..] == tail;
        if LineEnd(rest) < |rest| {
          TakenGrows(rest, len);
        }
      } else {
        assert SplitLines(rest)[0] == rest[..n] && '\n' !in rest[..n];
        assert ReadAll(rest, len)[0] == LineRead(rest, len);
      }
    }
  }

  // ---------- how many lines are read ----------

  // Reading stops only behind a newline or at the end.
  lemma {:induction false} ExtendEndsLine(rest: string, got: nat, p: nat, len: nat)
    requires p < got <= |rest| && 2 <= len && (rest[p] == '\n' ==> got == p + 1)
    ensures var r := Extend(rest, got, p, len).0; r == |rest| || rest[r - 1] == '\n'
    decreases |rest| - got
  {
    if rest[p] != '\n' && got < |rest| {
      if rest[got] == '\n' {
        assert rest[got..][0] == '\n';
        assert Scan(rest[got..], Newline) == 0;
      }
      ExtendEndsLine(rest, got + Chunk(rest[got..], len - 1), got, 2 * len);
    }
  }

  lemma TakenEndsLine(rest: string, len: nat)
    requires rest != "" && 2 <= len
    ensures var r := Taken(rest, len).0; r == |rest| || rest[r - 1] == '\n'
  {
    var c := Chunk(rest, len - 1);
    ExtendEndsLine(rest, c, c - 1, len);
  }

  lemma OneAndTheRest(s: string)
    requires s != ""
    ensures |SplitLines(s)| == 1 + |SplitLines(s[LineEnd(s)..])|
  {
  }

  // How many lines there are from position i on, told without cutting the text
  function NextStart(s: string, i: nat): (e: nat)
    requires i < |s|
    ensures i < e <= |s|
  {
    var n := ScanFrom(s, i, Newline);
    if n < |s| then n + 1 else n
  }

  function LinesFrom(s: string, i: nat): nat
    requires i <= |s|
    decreases |s| - i
  {
    if i == |s| then 0 else 1 + LinesFrom(s, NextStart(s, i))
  }

  lemma {:induction false} ScanFromIs(s: string, i: nat, j: nat)
    requires i <= j <= |s|
    ensures ScanFrom(s, j, Newline) == i + ScanFrom(s[i..], j - i, Newline)
    decreases |s| - j
  {
    if j < |s| {
      assert s[i..][j - i] == s[j];
      ScanFromIs(s, i, j + 1);
    }
  }

  lemma SuffixOfSuffix(s: string, i: nat, e: nat)
    requires i <= e <= |s|
    ensures s[i..][e - i..] == s[e..]
  {
  }

  lemma RestOfRest(s: string, i: nat)
    requires i < |s|
    ensures s[i..][LineEnd(s[i..])..] == s[NextStart(s, i)..]
  {
    ScanFromIs(s, i, i);
    SuffixOfSuffix(s, i, NextStart(s, i));
  }

  lemma {:induction false} LinesFromIs(s: string, i: nat)
    requires i <= |s|
    ensures |SplitLines(s[i..])| == LinesFrom(s, i)
    decreases |s| - i
  {
    if i < |s| {
      OneAndTheRest(s[i..]);
      RestOfRest(s, i);
      LinesFromIs(s, NextStart(s, i));
    }
  }

  // What comes behind a newline, or behind everything, has fewer lines.
  lemma {:induction false} FewerFrom(s: string, i: nat, t: nat)
    requires i < t <= |s| && (t == |s| || s[t - 1] == '\n')
    ensures LinesFrom(s, t) < LinesFrom(s, i)
    decreases |s| - i
  {
    assert t <= ScanFrom(s, i, Newline) ==> !Stops(s[t - 1], Newline);
    if NextStart(s, i) < t {
      FewerFrom(s, NextStart(s, i), t);
    }
  }

  lemma FewerBehind(s: string, e: nat, t: nat)
    requires e < t <= |s| && (t == |s| || s[t - 1] == '\n')
    ensures |SplitLines(s[t..])| < |SplitLines(s[e..])|
  {
    LinesFromIs(s, e);
    LinesFromIs(s, t);
    FewerFrom(s, e, t);
  }

  lemma SwallowsALine(rest: string, len: nat)
    requires rest != "" && 2 <= len && !FirstFits(rest, len)
    ensures |SplitLines(rest[Taken(rest, len).0..])| < |SplitLines(rest[LineEnd(rest)..])|
  {
    TakenIff(rest, len);
    TakenEndsLine(rest, len);
    FewerBehind(rest, LineEnd(rest), Taken(rest, len).0);
  }

  // No more lines are read than there are, and fewer when one of them does not fit.
  lemma {:induction false} ReadsFewer(rest: string, len: nat)
    requires 2 <= len
    ensures |ReadAll(rest, len)| <= |SplitLines(rest)|
    ensures !AllFit(rest, len) ==> |ReadAll(rest, len)| < |SplitLines(rest)|
    decreases |rest|
  {
    if rest != "" {
      var (taken, grown) := Taken(rest, len);
      ReadsFewer(rest[taken..], grown);
      OneAndTheRest(rest);
      if !FirstFits(rest, len) {
        SwallowsALine(rest, len);
      } else {
        TakenIff(rest, len);
        if LineEnd(rest) < |rest| {
          TakenGrows(rest, len);
        }
      }
    }
  }

  lemma {:induction false} ShortFit(lines: seq<string>, len: nat)
    requires 2 <= len && forall i :: 0 <= i < |lines| ==> |lines[i]| <= len - 1
    ensures LinesFit(lines, len)
  {
    if |lines| > 1 {
      ShortFit(lines[1..], GrownBy(|lines[0]|, len));
    }
  }

  // In particular, lines shorter than the first buffer are always read one by one.
  lemma ShortLinesFit(text: string, len: nat)
    requires 2 <= len
    requires forall i :: 0 <= i < |SplitLines(text)| ==> |SplitLines(text)[i]| <= len - 1
    ensures AllFit(text, len)
  {
    ShortFit(SplitLines(text), len);
  }

  // With the first buffer of 256 characters: from 255 on, a line below 2044 characters fits if and only if a chunk
  // starts with its newline, at 255, 510 or 1021, and then the buffer has doubled once, twice or three times.
  lemma FirstBoundaries(n: nat)
    requires 255 <= n < 2044
    ensures LineFits(n, 256) <==> n == 255 || n == 510 || n == 1021
    ensures GrownBy(255, 256) == 512 && GrownBy(510, 256) == 1024 && GrownBy(1021, 256) == 2048
  {
    assert ChunkStartsAt(n, 255, 256) <==> n == 255 || ChunkStartsAt(n, 510, 512);
    assert ChunkStartsAt(n, 510, 512) <==> n == 510 || (n > 510 && ChunkStartsAt(n, 1021, 1024));
    assert ChunkStartsAt(n, 1021, 1024) <==> n == 1021 || (n > 1021 && ChunkStartsAt(n, 2044, 2048));
    assert GrownFrom(1021, 255, 256) == GrownFrom(1021, 510, 512) == GrownFrom(1021, 1021, 1024);
    assert GrownFrom(510, 255, 256) == GrownFrom(510, 510, 512);
  }

  // Other lines before another line do not fit: the two come back as one.
  lemma LongLineIsMerged(a: string, b: string)
    requires 256 <= |a| < 510 && '\n' !in a && b != "" && '\n' !in b
    ensures var text := a + "\n" + b + "\n";
      SplitLines(text) == [a, b] && ReadAll(text, 256) == [a + "\n" + b]
  {
    var text := a + "\n" + b + "\n";
    UnlinesOfOne(a);
    UnlinesOneMore([a], b);
    assert [a] + [b] == [a, b] && Unlines([a, b]) == text;
    SplitOfUnlines([a, b]);
    LongLineTaken(a, b, text);
    assert text[..|text|] == text && Chomp(text) == a + "\n" + b;
    assert text[|text|..] == "";
  }

  lemma TwoNewlines(a: string, b: string, text: string)
    requires '\n' !in a && '\n' !in b && text == a + "\n" + b + "\n"
    ensures |text| == |a| + |b| + 2 && Scan(text, Newline) == |a|
    ensures forall i :: 0 <= i < |text| - 1 && i != |a| ==> text[i] != '\n'
  {
    var n := |a|;
    forall i | 0 <= i < |text| - 1 && i != n
      ensures text[i] != '\n'
    {
      assert i < n ==> text[i] == a[i] && a[i] in a;
      assert i > n ==> text[i] == b[i - n - 1] && b[i - n - 1] in b;
    }
    assert text[n] == '\n';
  }

  lemma LongLineTaken(a: string, b: string, text: string)
    requires 256 <= |a| < 510 && '\n' !in a && b != "" && '\n' !in b && text == a + "\n" + b + "\n"
    ensures Taken(text, 256).0 == |text|
  {
    var n := |a|;
    TwoNewlines(a, b, text);
    assert text[0..] == text;
    ChunkIs(text, 0, n, 255);
    ChunkIs(text, 255, n, 255);
    assert Extend(text, 255, 254, 256) == Extend(text, n + 1, 255, 512);
    var c := Chunk(text[n + 1..], 511);
    assert Extend(text, n + 1, 255, 512) == Extend(text, n + 1 + c, n + 1, 1024);
    ExtendToEnd(text, n + 1 + c, n + 1, 1024);
  }
}
