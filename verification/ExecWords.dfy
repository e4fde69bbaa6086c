/** How exec_command of src/server/game-server.c splits the server's command line in place (217-263). */
module ExecWords {
  import opened CStrings
  import opened CommandWords

  // ---------- the two passes on values ----------

  // The counting pass counts the unquoted spaces.
  predicate SpaceAt(s: string, i: nat) {
    i < |s| && s[i] == ' ' && !Odd(s, i)
  }

  // The splitting pass does not look at the character behind a split, be it a space, a quote or the terminator.
  predicate Skipped(s: string, i: nat)
    requires i <= |s|
    decreases i, 0
  {
    0 < i && SplitsAt(s, i - 1)
  }

  // The quote flag of the splitting pass when it comes to position i
  predicate Flag(s: string, i: nat)
    requires i <= |s|
    decreases i, 0
  {
    if i == 0 then false else if Skipped(s, i - 1) then Flag(s, i - 1) else Flag(s, i - 1) != IsQuote(s[i - 1])
  }

  // The splitting pass writes a terminator at position i.
  predicate SplitsAt(s: string, i: nat)
    decreases i, 1
  {
    i < |s| && s[i] == ' ' && !Skipped(s, i) && !Flag(s, i)
  }

  datatype Pass = Counting | Splitting {
    predicate Takes(s: string, i: nat) {
      if this == Counting then SpaceAt(s, i) else SplitsAt(s, i)
    }
  }

  // The positions from i on that a pass counts or splits at
  function TakenFrom(s: string, i: nat, pass: Pass): (r: seq<nat>)
    requires i <= |s|
    ensures forall k :: 0 <= k < |r| ==> i <= r[k] < |s|
    decreases |s| - i
  {
    if i == |s| then []
    else if pass.Takes(s, i) then [i] + TakenFrom(s, i + 1, pass)
    else TakenFrom(s, i + 1, pass)
  }

  function Spaces(s: string): seq<nat> {
    TakenFrom(s, 0, Counting)
  }

  function Splits(s: string): seq<nat> {
    TakenFrom(s, 0, Splitting)
  }

  lemma {:induction false} TakenAscend(s: string, i: nat, pass: Pass, j: nat, k: nat)
    requires i <= |s| && j < k < |TakenFrom(s, i, pass)|
    ensures TakenFrom(s, i, pass)[j] < TakenFrom(s, i, pass)[k]
    decreases |s| - i
  {
    if !pass.Takes(s, i) {
      TakenAscend(s, i + 1, pass, j, k);
    } else if j > 0 {
      TakenAscend(s, i + 1, pass, j - 1, k - 1);
    }
  }

  lemma {:induction false} TakenIsTaken(s: string, i: nat, pass: Pass, k: nat)
    requires i <= |s| && k < |TakenFrom(s, i, pass)|
    ensures pass.Takes(s, TakenFrom(s, i, pass)[k])
    decreases |s| - i
  {
    if pass.Takes(s, i) {
      if k > 0 {
        TakenIsTaken(s, i + 1, pass, k - 1);
      }
    } else {
      TakenIsTaken(s, i + 1, pass, k);
    }
  }

  lemma {:induction false} TakenIsListed(s: string, i: nat, pass: Pass, p: nat) returns (k: nat)
    requires i <= p < |s| && pass.Takes(s, p)
    ensures k < |TakenFrom(s, i, pass)| && TakenFrom(s, i, pass)[k] == p
    decreases p - i
  {
    if i == p {
      k := 0;
    } else {
      k := TakenIsListed(s, i + 1, pass, p);
      if pass.Takes(s, i) {
        k := k + 1;
      }
    }
  }

  // ---------- when the passes take the same positions ----------

  predicate NoSpaceFrom(s: string, i: nat) {
    forall k :: i <= k < |s| ==> s[k] != ' '
  }

  // An unquoted space is followed by something that may be skipped: not the end, not a space, and a quote only when no
  // space of any kind comes after it.
  predicate CleanAt(s: string, i: nat) {
    i + 1 < |s| && s[i + 1] != ' ' && (IsQuote(s[i + 1]) ==> NoSpaceFrom(s, i + 2))
  }

  predicate Clean(s: string) {
    forall k :: 0 <= k < |s| && SpaceAt(s, k) ==> CleanAt(s, k)
  }

  // The passes see position i alike.
  predicate AlikeAt(s: string, i: nat) {
    SplitsAt(s, i) == SpaceAt(s, i)
  }

  predicate Alike(s: string) {
    forall i :: 0 <= i < |s| ==> AlikeAt(s, i)
  }

  lemma {:induction false} AlikeIff(s: string, i: nat)
    requires i <= |s|
    ensures TakenFrom(s, i, Splitting) == TakenFrom(s, i, Counting) <==> forall k :: i <= k < |s| ==> AlikeAt(s, k)
    decreases |s| - i
  {
    if i < |s| {
      AlikeIff(s, i + 1);
      var a, b := TakenFrom(s, i + 1, Splitting), TakenFrom(s, i + 1, Counting);
      if SplitsAt(s, i) && SpaceAt(s, i) {
        assert ([i] + a)[1..] == a && ([i] + b)[1..] == b;
      } else if SplitsAt(s, i) {
        assert ([i] + a)[0] == i && !AlikeAt(s, i);
        assert b != [] ==> b[0] != i;
      } else if SpaceAt(s, i) {
        assert ([i] + b)[0] == i && !AlikeAt(s, i);
        assert a != [] ==> a[0] != i;
      }
    }
  }

  // On a clean command the flags agree as long as there is a space to come.
  lemma {:induction false} CleanFlags(s: string, i: nat)
    requires i <= |s| && Clean(s)
    ensures Flag(s, i) == Odd(s, i) || NoSpaceFrom(s, i)
    ensures Skipped(s, i) ==> i < |s| && SpaceAt(s, i - 1)
  {
    if i > 0 {
      CleanFlags(s, i - 1);
      if Skipped(s, i) {
        assert SplitsAt(s, i - 1) && s[i - 1] == ' ';
        assert CleanAt(s, i - 1);
      }
      if Skipped(s, i - 1) {
        assert SpaceAt(s, i - 2) && CleanAt(s, i - 2);
      }
    }
  }

  lemma CleanIsAlike(s: string, i: nat)
    requires i < |s| && Clean(s)
    ensures AlikeAt(s, i)
  {
    CleanFlags(s, i);
    if Skipped(s, i) {
      assert CleanAt(s, i - 1);
    }
    if s[i] == ' ' {
      assert !NoSpaceFrom(s, i);
    }
  }

  // Behind a skipped quote the flags differ, so the next space of any kind tells the passes apart.
  lemma {:induction false} FlagsDiffer(s: string, i: nat, j: nat)
    requires 0 < i <= j <= |s| && Flag(s, i) != Odd(s, i) && !Skipped(s, i) && Alike(s)
    ensures Flag(s, j) != Odd(s, j) && !Skipped(s, j)
    ensures forall k :: i <= k < j ==> s[k] != ' '
    decreases j
  {
    if i < j {
      FlagsDiffer(s, i, j - 1);
      assert AlikeAt(s, j - 1);
    }
  }

  lemma AlikeIsClean(s: string, k: nat)
    requires Alike(s) && !Skipped(s, |s|) && SpaceAt(s, k)
    ensures CleanAt(s, k)
  {
    assert AlikeAt(s, k) && Skipped(s, k + 1);
    assert !Flag(s, k + 1) && !Odd(s, k + 1);
    assert AlikeAt(s, k + 1);
    if IsQuote(s[k + 1]) {
      assert Flag(s, k + 2) != Odd(s, k + 2) && !Skipped(s, k + 2);
      FlagsDiffer(s, k + 2, |s|);
    }
  }

  // The splitting pass stays inside the command and splits exactly at the counted spaces if and only if the command
  // is clean.
  lemma SplitsAtSpacesIff(s: string)
    ensures !Skipped(s, |s|) && Splits(s) == Spaces(s) <==> Clean(s)
  {
    AlikeIff(s, 0);
    if Clean(s) {
      CleanFlags(s, |s|);
      forall i | 0 <= i < |s|
        ensures AlikeAt(s, i)
      {
        CleanIsAlike(s, i);
      }
    }
    if !Skipped(s, |s|) && Splits(s) == Spaces(s) {
      assert Alike(s);
      forall k | 0 <= k < |s| && SpaceAt(s, k)
        ensures CleanAt(s, k)
      {
        AlikeIsClean(s, k);
      }
    }
  }

  // ---------- when the counted arguments have room for the stored ones ----------

  // The splitting pass stays inside the command and inside the vector that has been counted for it.
  predicate Fits(s: string) {
    !Skipped(s, |s|) && |Splits(s)| <= |Spaces(s)|
  }

  lemma CleanFits(s: string)
    requires Clean(s)
    ensures Fits(s) && Splits(s) == Spaces(s)
  {
    SplitsAtSpacesIff(s);
  }

  // How many spaces stand right before position i
  function SpacesBefore(s: string, i: nat): nat
    requires i <= |s|
  {
    if i == 0 || s[i - 1] != ' ' then 0 else 1 + SpacesBefore(s, i - 1)
  }

  // An odd number of spaces stands right before position i: with a pass that takes them, it is skipped.
  predicate BehindOddRun(s: string, i: nat)
    requires i <= |s|
  {
    SpacesBefore(s, i) % 2 == 1
  }

  // The pass takes the spaces with that parity for unquoted: those outside quotes, or those inside.
  predicate Reads(s: string, i: nat, inside: bool)
    requires i <= |s|
  {
    && (Flag(s, i) <==> Odd(s, i) != inside)
    && (Skipped(s, i) <==> Odd(s, i) == inside && BehindOddRun(s, i))
  }

  // A quote that such a pass skips, so that it reads the other way round from there on
  predicate HiddenQuote(s: string, q: nat, inside: bool) {
    q < |s| && IsQuote(s[q]) && Odd(s, q) == inside && BehindOddRun(s, q)
  }

  predicate NoneHidden(s: string, i: nat, j: nat, inside: bool) {
    forall q :: i <= q < j ==> !HiddenQuote(s, q, inside)
  }

  lemma ReadsFirst(s: string)
    ensures Reads(s, 0, false)
  {
  }

  lemma ReadsOn(s: string, i: nat, inside: bool)
    requires i < |s| && Reads(s, i, inside)
    ensures Reads(s, i + 1, if HiddenQuote(s, i, inside) then !inside else inside)
  {
    assert Skipped(s, i + 1) <==> s[i] == ' ' && !Skipped(s, i) && !Flag(s, i);
  }

  lemma {:induction false} ReadsUpTo(s: string, i: nat, j: nat, inside: bool)
    requires i <= j <= |s| && Reads(s, i, inside) && NoneHidden(s, i, j, inside)
    ensures Reads(s, j, inside)
    decreases j - i
  {
    if i < j {
      ReadsUpTo(s, i, j - 1, inside);
      ReadsOn(s, j - 1, inside);
    }
  }

  // Which way the pass reads when it comes to position i: every hidden quote turns it round.
  predicate ReadsInside(s: string, i: nat)
    requires i <= |s|
  {
    i > 0 && ReadsInside(s, i - 1) != HiddenQuote(s, i - 1, ReadsInside(s, i - 1))
  }

  // For every command: the splits are the first, third, ... of every run of spaces that are outside quotes, or inside
  // them while the pass reads the other way round; and it runs over the end behind an odd run of such spaces.
  lemma {:induction false} SplitsWhere(s: string, i: nat)
    requires i <= |s|
    ensures Reads(s, i, ReadsInside(s, i))
    ensures SplitsAt(s, i) <==> i < |s| && s[i] == ' ' && Odd(s, i) == ReadsInside(s, i) && !BehindOddRun(s, i)
    ensures Skipped(s, i) <==> Odd(s, i) == ReadsInside(s, i) && BehindOddRun(s, i)
  {
    if i > 0 {
      SplitsWhere(s, i - 1);
      ReadsOn(s, i - 1, ReadsInside(s, i - 1));
    }
  }

  // The spaces between i and j with that parity, and of those the first, third, ... of every run
  function SpacesIn(s: string, i: nat, j: nat, inside: bool): nat
    requires i <= j <= |s|
    decreases j - i
  {
    if i == j then 0 else (if s[i] == ' ' && Odd(s, i) == inside then 1 else 0) + SpacesIn(s, i + 1, j, inside)
  }

  function HeadsIn(s: string, i: nat, j: nat, inside: bool): nat
    requires i <= j <= |s|
    decreases j - i
  {
    if i == j then 0
    else (if s[i] == ' ' && Odd(s, i) == inside && !BehindOddRun(s, i) then 1 else 0) + HeadsIn(s, i + 1, j, inside)
  }

  lemma {:induction false} TakenIn(s: string, i: nat, j: nat, inside: bool)
    requires i <= j <= |s| && Reads(s, i, inside) && NoneHidden(s, i, j, inside)
    ensures |TakenFrom(s, i, Splitting)| == HeadsIn(s, i, j, inside) + |TakenFrom(s, j, Splitting)|
    ensures |TakenFrom(s, i, Counting)| == SpacesIn(s, i, j, false) + |TakenFrom(s, j, Counting)|
    decreases j - i
  {
    if i < j {
      ReadsOn(s, i, inside);
      TakenIn(s, i + 1, j, inside);
    }
  }

  lemma {:induction false} HeadsAreSpaces(s: string, i: nat, j: nat, inside: bool)
    requires i <= j <= |s|
    ensures HeadsIn(s, i, j, inside) <= SpacesIn(s, i, j, inside)
    decreases j - i
  {
    if i < j {
      HeadsAreSpaces(s, i + 1, j, inside);
    }
  }

  // The heads from i on that are outside quotes, or inside them while the pass reads the other way round
  function HeadsRead(s: string, i: nat): nat
    requires i <= |s|
    decreases |s| - i
  {
    if i == |s| then 0
    else
      (if s[i] == ' ' && Odd(s, i) == ReadsInside(s, i) && !BehindOddRun(s, i) then 1 else 0) + HeadsRead(s, i + 1)
  }

  lemma {:induction false} TakenFromIs(s: string, i: nat)
    requires i <= |s|
    ensures |TakenFrom(s, i, Splitting)| == HeadsRead(s, i)
    ensures |TakenFrom(s, i, Counting)| == SpacesIn(s, i, |s|, false)
    decreases |s| - i
  {
    if i < |s| {
      SplitsWhere(s, i);
      TakenFromIs(s, i + 1);
    }
  }

  // For every command, however often the pass turns round: it stays inside the command and the counted vector if and
  // only if no odd run of the spaces it reads ends the command, and their runs have no more heads than there are
  // unquoted spaces.
  lemma FitsIff(s: string)
    ensures Fits(s) <==>
      && !(Odd(s, |s|) == ReadsInside(s, |s|) && BehindOddRun(s, |s|))
      && HeadsRead(s, 0) <= SpacesIn(s, 0, |s|, false)
  {
    SplitsWhere(s, |s|);
    TakenFromIs(s, 0);
  }

  // Without a hidden quote the counted vector always has room, and the pass stays inside the command if and only if the
  // command does not end in an odd number of unquoted spaces.
  lemma {:induction false} PlainFitsIff(s: string)
    requires NoneHidden(s, 0, |s|, false)
    ensures Fits(s) <==> Odd(s, |s|) || !BehindOddRun(s, |s|)
  {
    ReadsFirst(s);
    ReadsUpTo(s, 0, |s|, false);
    PlainHasRoom(s);
  }

  lemma PlainHasRoom(s: string)
    requires NoneHidden(s, 0, |s|, false)
    ensures |Splits(s)| <= |Spaces(s)|
  {
    ReadsFirst(s);
    TakenIn(s, 0, |s|, false);
    HeadsAreSpaces(s, 0, |s|, false);
  }

  // q is the first quote right behind an odd number of unquoted spaces, and behind q none stands right behind an odd
  // number of quoted spaces.
  predicate OneHiddenQuote(s: string, q: nat) {
    && HiddenQuote(s, q, false)
    && NoneHidden(s, 0, q, false)
    && NoneHidden(s, q + 1, |s|, true)
  }

  // Then the pass stays inside the command if and only if that does not end in an odd number of quoted spaces, and the
  // vector has room if and only if the unquoted spaces are at least as many as the heads outside quotes before q and
  // inside quotes behind it.
  lemma HiddenQuoteFitsIff(s: string, q: nat)
    requires OneHiddenQuote(s, q)
    ensures Skipped(s, |s|) <==> Odd(s, |s|) && BehindOddRun(s, |s|)
    ensures |Splits(s)| <= |Spaces(s)| <==>
      HeadsIn(s, 0, q, false) + HeadsIn(s, q + 1, |s|, true) <= SpacesIn(s, 0, |s|, false)
  {
    ReadsFirst(s);
    ReadsUpTo(s, 0, q, false);
    ReadsOn(s, q, false);
    ReadsUpTo(s, q + 1, |s|, true);
    TakenIn(s, 0, q, false);
    TakenIn(s, q + 1, |s|, true);
    SpacesInTwo(s, 0, q, |s|, false);
    assert !SplitsAt(s, q) && !SpaceAt(s, q);
  }

  lemma {:induction false} SpacesInTwo(s: string, i: nat, j: nat, k: nat, inside: bool)
    requires i <= j <= k <= |s|
    ensures SpacesIn(s, i, k, inside) == SpacesIn(s, i, j, inside) + SpacesIn(s, j, k, inside)
    decreases j - i
  {
    if i < j {
      SpacesInTwo(s, i + 1, j, k, inside);
    }
  }

  // No two spaces stand side by side, none at the end, and no quoted one right before a quote.
  predicate LoneSpaces(s: string) {
    forall i :: 0 <= i < |s| && s[i] == ' ' ==>
      i + 1 < |s| && s[i + 1] != ' ' && (Odd(s, i) ==> !IsQuote(s[i + 1]))
  }

  lemma LoneRun(s: string, i: nat)
    requires LoneSpaces(s) && i <= |s|
    ensures BehindOddRun(s, i) <==> i > 0 && s[i - 1] == ' '
    ensures BehindOddRun(s, i) ==> i < |s| && s[i] != ' '
  {
    if i > 0 && s[i - 1] == ' ' {
      assert i > 1 ==> s[i - 2] != ' ';
      assert SpacesBefore(s, i - 1) == 0;
    }
  }

  lemma {:induction false} LoneHeads(s: string, i: nat, j: nat, inside: bool)
    requires LoneSpaces(s) && i <= j <= |s|
    ensures HeadsIn(s, i, j, inside) == SpacesIn(s, i, j, inside)
    decreases j - i
  {
    if i < j {
      LoneRun(s, i);
      LoneHeads(s, i + 1, j, inside);
    }
  }

  lemma LoneHidesOne(s: string, q: nat)
    requires LoneSpaces(s) && HiddenQuote(s, q, false) && NoneHidden(s, 0, q, false)
    ensures OneHiddenQuote(s, q)
  {
    forall j | q < j < |s|
      ensures !HiddenQuote(s, j, true)
    {
      LoneRun(s, j);
    }
  }

  // In the common case of lone spaces: with the first quote right behind an unquoted space at q, the pass stays inside
  // the command, and the vector has room if and only if behind q no more spaces are quoted than unquoted.
  lemma LoneFitsIff(s: string, q: nat)
    requires LoneSpaces(s) && HiddenQuote(s, q, false) && NoneHidden(s, 0, q, false)
    ensures !Skipped(s, |s|)
    ensures Fits(s) <==> SpacesIn(s, q + 1, |s|, true) <= SpacesIn(s, q + 1, |s|, false)
  {
    LoneHidesOne(s, q);
    HiddenQuoteFitsIff(s, q);
    LoneRun(s, |s|);
    LoneHeads(s, 0, q, false);
    LoneHeads(s, q + 1, |s|, true);
    SpacesInTwo(s, 0, q, |s|, false);
  }

  // ---------- the pieces ----------

  function StartOf(splits: seq<nat>, k: nat): nat
    requires k <= |splits|
  {
    if k == 0 then 0 else splits[k - 1] + 1
  }

  function EndOf(s: string, splits: seq<nat>, k: nat): nat
    requires k <= |splits|
  {
    if k < |splits| then splits[k] else |s|
  }

  lemma PieceIsASlice(s: string, k: nat)
    requires k <= |Splits(s)|
    ensures StartOf(Splits(s), k) <= EndOf(s, Splits(s), k) <= |s|
  {
    if 0 < k < |Splits(s)| {
      TakenAscend(s, 0, Splitting, k - 1, k);
    }
  }

  // The argument between two splits, quotes included
  function Piece(s: string, k: nat): string
    requires k <= |Splits(s)|
  {
    PieceIsASlice(s, k);
    s[StartOf(Splits(s), k)..EndOf(s, Splits(s), k)]
  }

  // The first k + 1 pieces with single spaces between them
  function JoinedTo(s: string, k: nat): string
    requires k <= |Splits(s)|
  {
    if k == 0 then Piece(s, 0) else JoinedTo(s, k - 1) + " " + Piece(s, k)
  }

  lemma SpaceRejoined(s: string, a: nat, b: nat)
    requires a < b <= |s| && s[a] == ' '
    ensures s[..a] + " " + s[a + 1..b] == s[..b]
  {
  }

  // Joining the pieces with single spaces gives the command back, up to the end of the last piece taken.
  lemma {:induction false} JoinGivesCommand(s: string, k: nat)
    requires k <= |Splits(s)|
    ensures JoinedTo(s, k) == s[..EndOf(s, Splits(s), k)]
  {
    if k > 0 {
      JoinGivesCommand(s, k - 1);
      TakenIsTaken(s, 0, Splitting, k - 1);
      PieceIsASlice(s, k);
      SpaceRejoined(s, Splits(s)[k - 1], EndOf(s, Splits(s), k));
    }
  }

  lemma PiecesMakeCommand(s: string)
    ensures JoinedTo(s, |Splits(s)|) == s
  {
    JoinGivesCommand(s, |Splits(s)|);
  }

  lemma NoSplitInPiece(s: string, k: nat, i: nat)
    requires k <= |Splits(s)| && StartOf(Splits(s), k) <= i < EndOf(s, Splits(s), k)
    ensures i < |s| && !SplitsAt(s, i)
  {
    PieceIsASlice(s, k);
    if SplitsAt(s, i) {
      var m := TakenIsListed(s, 0, Splitting, i);
      if m + 1 < k {
        TakenAscend(s, 0, Splitting, m, k - 1);
      } else if k < m {
        TakenAscend(s, 0, Splitting, k, m);
      }
    }
  }

  // On a clean command no piece holds an unquoted space.
  lemma NoSpaceInPiece(s: string, k: nat, i: nat)
    requires Clean(s) && k <= |Splits(s)| && StartOf(Splits(s), k) <= i < EndOf(s, Splits(s), k)
    ensures i < |s| && !SpaceAt(s, i)
  {
    NoSplitInPiece(s, k, i);
    CleanIsAlike(s, i);
  }

  // ---------- plain commands ----------

  // No quotes, and no space at the end or before another one
  predicate NoQuotes(s: string) {
    forall i :: 0 <= i < |s| ==> s[i] != '\'' && s[i] != '\"'
  }

  predicate SingleSpaced(s: string) {
    forall i :: 0 <= i < |s| && s[i] == ' ' ==> i + 1 < |s| && s[i + 1] != ' '
  }

  lemma {:induction false} NeverOdd(s: string, i: nat)
    requires NoQuotes(s) && i <= |s|
    ensures !Odd(s, i)
  {
    if i > 0 {
      NeverOdd(s, i - 1);
    }
  }

  lemma UnquotedIsClean(s: string)
    requires NoQuotes(s) && SingleSpaced(s)
    ensures Clean(s)
  {
    forall k | 0 <= k < |s| && SpaceAt(s, k)
      ensures CleanAt(s, k)
    {
      assert s[k] == ' ';
    }
  }

  lemma UnquotedPieces(s: string, k: nat)
    requires NoQuotes(s) && SingleSpaced(s) && k <= |Splits(s)|
    ensures ' ' !in Piece(s, k)
  {
    UnquotedIsClean(s);
    PieceIsASlice(s, k);
    var a, b := StartOf(Splits(s), k), EndOf(s, Splits(s), k);
    forall i | 0 <= i < b - a
      ensures s[a..b][i] != ' '
    {
      NoSpaceInPiece(s, k, a + i);
      NeverOdd(s, a + i);
    }
  }

  // Words with single spaces between them
  function Joined(words: seq<string>): string
    requires words != []
  {
    if |words| == 1 then words[0] else Joined(words[..|words| - 1]) + " " + words[|words| - 1]
  }

  predicate IsWord(w: string) {
    w != "" && forall i :: 0 <= i < |w| ==> w[i] != ' ' && w[i] != '\'' && w[i] != '\"'
  }

  predicate AllWords(words: seq<string>) {
    forall k :: 0 <= k < |words| ==> IsWord(words[k])
  }

  lemma WordBehind(s: string, w: string)
    requires s != "" && s[|s| - 1] != ' ' && NoQuotes(s) && SingleSpaced(s) && IsWord(w)
    ensures var t := s + " " + w; t != "" && t[|t| - 1] != ' ' && NoQuotes(t) && SingleSpaced(t)
  {
  }

  lemma {:induction false} JoinedIsPlain(words: seq<string>)
    requires words != [] && AllWords(words)
    ensures var s := Joined(words); s != "" && s[|s| - 1] != ' ' && NoQuotes(s) && SingleSpaced(s)
    decreases |words|
  {
    var n := |words| - 1;
    assert IsWord(words[n]);
    if n > 0 {
      JoinedIsPlain(words[..n]);
      WordBehind(Joined(words[..n]), words[n]);
    }
  }

  predicate Spaceless(words: seq<string>) {
    forall k :: 0 <= k < |words| ==> ' ' !in words[k]
  }

  lemma NoSpaceBehind(x: string, u: string)
    requires ' ' !in u
    ensures var s := x + " " + u;
      && s[|x|] == ' ' && s[..|x|] == x && s[|x| + 1..] == u
      && forall i :: |x| < i < |s| ==> s[i] != ' '
  {
    var s := x + " " + u;
    assert forall i :: |x| < i < |s| ==> s[i] == u[i - |x| - 1];
  }

  lemma LastWord(x: string, u: string, y: string, v: string)
    requires x + " " + u == y + " " + v && ' ' !in u && ' ' !in v
    ensures x == y && u == v
  {
    NoSpaceBehind(x, u);
    NoSpaceBehind(y, v);
  }

  lemma JoinedHasSpaceIff(words: seq<string>)
    requires words != [] && Spaceless(words)
    ensures ' ' in Joined(words) <==> |words| > 1
  {
    if |words| > 1 {
      var init := Joined(words[..|words| - 1]);
      assert Joined(words)[|init|] == ' ';
    }
  }

  // Words without spaces can be told from what they join to.
  lemma {:induction false} JoinedOnce(a: seq<string>, b: seq<string>)
    requires a != [] && b != [] && Spaceless(a) && Spaceless(b) && Joined(a) == Joined(b)
    ensures a == b
    decreases |a|
  {
    JoinedHasSpaceIff(a);
    JoinedHasSpaceIff(b);
    var m, n := |a| - 1, |b| - 1;
    if m > 0 {
      LastWord(Joined(a[..m]), a[m], Joined(b[..n]), b[n]);
      JoinedOnce(a[..m], b[..n]);
      assert a == a[..m] + [a[m]] && b == b[..n] + [b[n]];
    }
  }

  function Pieces(s: string): (r: seq<string>)
    ensures |r| == |Splits(s)| + 1
    ensures forall k :: 0 <= k < |r| ==> r[k] == Piece(s, k)
  {
    seq(|Splits(s)| + 1, k requires 0 <= k <= |Splits(s)| => Piece(s, k))
  }

  lemma PrefixOfPieces(s: string, k: nat)
    requires k <= |Splits(s)|
    ensures var p := Pieces(s)[..k + 1]; p[k] == Piece(s, k) && p[..k] == Pieces(s)[..k]
  {
  }

  lemma {:induction false} PiecesJoin(s: string, k: nat)
    requires k <= |Splits(s)|
    ensures Joined(Pieces(s)[..k + 1]) == JoinedTo(s, k)
  {
    PrefixOfPieces(s, k);
    if k > 0 {
      PiecesJoin(s, k - 1);
    }
  }

  // A command of plain words, such as: java -Xms1024M -Xmx1024M -jar minecraft_server.jar nogui. The pieces are the
  // words.
  lemma WordsComeBack(words: seq<string>)
    requires words != [] && AllWords(words)
    ensures var s := Joined(words); Clean(s) && Pieces(s) == words
  {
    var s := Joined(words);
    JoinedIsPlain(words);
    UnquotedIsClean(s);
    forall k | 0 <= k < |Pieces(s)|
      ensures ' ' !in Pieces(s)[k]
    {
      UnquotedPieces(s, k);
    }
    PiecesJoin(s, |Splits(s)|);
    assert Pieces(s)[..|Splits(s)| + 1] == Pieces(s);
    PiecesMakeCommand(s);
    forall k | 0 <= k < |words|
      ensures ' ' !in words[k]
    {
      assert IsWord(words[k]);
    }
    JoinedOnce(Pieces(s), words);
  }

  // ---------- the two passes on a buffer ----------

  // The counting pass
  method CountSpaces(buf: array<char>, ghost s: string) returns (argNum: nat)
    requires Holds(buf, 0, s)
    ensures argNum == |Spaces(s)| + 1
  {
    argNum := 1;
    var quoteFlag, p := false, 0;
    while buf[0 + p] != '\0'
      invariant p <= |s| && quoteFlag == Odd(s, p)
      invariant p < |s| ==> buf[0 + p] == s[p]
      invariant argNum + |TakenFrom(s, p, Counting)| == |Spaces(s)| + 1
      decreases |s| - p
    {
      if buf[p] == '\"' || buf[p] == '\'' {
        quoteFlag := !quoteFlag;
      } else if buf[p] == ' ' && !quoteFlag {
        argNum := argNum + 1;
      }
      p := p + 1;
    }
  }

  // The buffer after the splitting pass has come to p: a terminator at every split before p
  ghost predicate SplitUpTo(buf: array<char>, s: string, p: nat)
    reads buf
  {
    && |s| < buf.Length && buf[|s|] == '\0'
    && forall i :: 0 <= i < |s| ==> buf[i] == if i < p && SplitsAt(s, i) then '\0' else s[i]
  }

  lemma BufferHoldsPiece(buf: array<char>, s: string, k: nat)
    requires SplitUpTo(buf, s, |s|) && NulFree(s) && k <= |Splits(s)|
    ensures Holds(buf, StartOf(Splits(s), k), Piece(s, k))
  {
    var splits := Splits(s);
    var a, b := StartOf(splits, k), EndOf(s, splits, k);
    PieceIsASlice(s, k);
    if k < |splits| {
      TakenIsTaken(s, 0, Splitting, k);
    }
    forall i | 0 <= i < b - a
      ensures buf[a + i] == s[a..b][i] && s[a..b][i] != '\0'
    {
      NoSplitInPiece(s, k, a + i);
    }
  }

  // Where the splitting pass stands: n arguments are stored, the scan is at p with the flag q.
  ghost predicate StandsAt(buf: array<char>, args: array<int>, s: string, n: nat, p: nat, q: bool)
    reads buf, args
  {
    && p <= |s| && 1 <= n <= |Splits(s)| + 1 < args.Length
    && SplitUpTo(buf, s, p)
    && Splits(s)[n - 1..] == TakenFrom(s, p, Splitting)
    && !Skipped(s, p) && q == Flag(s, p)
    && forall j :: 0 <= j < n ==> args[j] == StartOf(Splits(s), j)
  }

  // A character that is not an unquoted space changes the flag at most.
  lemma PassOver(buf: array<char>, args: array<int>, s: string, n: nat, p: nat, q: bool)
    requires StandsAt(buf, args, s, n, p, q) && p < |s| && (s[p] != ' ' || q)
    ensures StandsAt(buf, args, s, n, p + 1, if IsQuote(s[p]) then !q else q)
  {
  }

  lemma NextSplit(s: string, n: nat, p: nat)
    requires 1 <= n <= |Splits(s)| + 1 && p <= |s| && SplitsAt(s, p)
    requires Splits(s)[n - 1..] == TakenFrom(s, p, Splitting)
    ensures n <= |Splits(s)| && Splits(s)[n - 1] == p && Splits(s)[n..] == TakenFrom(s, p + 1, Splitting)
  {
    var rest := Splits(s)[n - 1..];
    assert rest[0] == p && rest[1..] == TakenFrom(s, p + 1, Splitting);
    assert Splits(s)[n..] == rest[1..];
  }

  // The splitting branch: the space becomes a terminator, and the next argument starts behind it.
  method CutAt(buf: array<char>, ghost s: string, args: array<int>, n: nat, p: nat) returns (next: nat)
    requires StandsAt(buf, args, s, n, p, false) && p < |s| && s[p] == ' ' && !Skipped(s, |s|)
    modifies buf, args
    ensures next == p + 1 && StandsAt(buf, args, s, n + 1, p + 2, false)
  {
    NextSplit(s, n, p);
    assert Skipped(s, p + 1) && p + 1 < |s|;
    buf[p] := '\0';
    next := p + 1;
    args[n] := next;
    assert !SplitsAt(s, p + 1) && Flag(s, p + 2) == Flag(s, p + 1) == Flag(s, p);
    assert SplitUpTo(buf, s, p + 2);
  }

  // A copied command is ready to be split.
  lemma ReadyToSplit(buf: array<char>, args: array<int>, s: string)
    requires Holds(buf, 0, s) && |Splits(s)| + 1 < args.Length && args[0] == 0
    ensures StandsAt(buf, args, s, 1, 0, false)
  {
    forall i | 0 <= i < |s|
      ensures buf[i] == s[i]
    {
      assert buf[0 + i] == s[i];
    }
    assert buf[0 + |s|] == '\0';
  }

  // At the end of the command all arguments are stored.
  lemma AllStored(buf: array<char>, args: array<int>, s: string, n: nat, q: bool)
    requires StandsAt(buf, args, s, n, |s|, q) && NulFree(s)
    ensures n == |Splits(s)| + 1
    ensures forall k :: 0 <= k < n ==> args[k] >= 0 && Holds(buf, args[k], Piece(s, k))
  {
    assert Splits(s)[n - 1..] == [];
    forall k | 0 <= k < n
      ensures args[k] >= 0 && Holds(buf, args[k], Piece(s, k))
    {
      BufferHoldsPiece(buf, s, k);
    }
  }

  // The character at p, as the loop tests it
  lemma CharHere(buf: array<char>, args: array<int>, s: string, n: nat, p: nat, q: bool)
    requires StandsAt(buf, args, s, n, p, q) && NulFree(s)
    ensures p < buf.Length && (buf[p] != '\0' <==> p < |s|)
    ensures p < |s| ==> buf[p] == s[p]
  {
  }

  // The body of the splitting loop
  method SplitOne(buf: array<char>, ghost s: string, args: array<int>, n: nat, p: nat, quoteFlag: bool)
    returns (m: nat, next: nat, flag: bool)
    requires StandsAt(buf, args, s, n, p, quoteFlag) && NulFree(s) && p < |s| && !Skipped(s, |s|)
    modifies buf, args
    ensures StandsAt(buf, args, s, m, next, flag) && p < next
  {
    CharHere(buf, args, s, n, p, quoteFlag);
    m, next, flag := n, p, quoteFlag;
    if buf[p] == '\"' || buf[p] == '\'' {
      PassOver(buf, args, s, n, p, quoteFlag);
      flag := !quoteFlag;
    } else if buf[p] == ' ' && !quoteFlag {
      next := CutAt(buf, s, args, n, p);
      m := n + 1;
    } else {
      PassOver(buf, args, s, n, p, quoteFlag);
    }
    next := next + 1;
  }

  // The splitting pass, in place, into a vector that has room for what it stores
  method SplitInPlace(buf: array<char>, ghost s: string, args: array<int>) returns (n: nat)
    requires Holds(buf, 0, s) && !Skipped(s, |s|)
    requires |Splits(s)| + 1 < args.Length
    modifies buf, args
    ensures n == |Splits(s)| + 1 && args[n] == -1
    ensures forall k :: 0 <= k < n ==> args[k] >= 0 && Holds(buf, args[k], Piece(s, k))
  {
    args[0] := 0;
    ReadyToSplit(buf, args, s);
    n := 1;
    var quoteFlag, p := false, 0;
    while buf[p] != '\0'
      invariant StandsAt(buf, args, s, n, p, quoteFlag)
      decreases |s| - p
    {
      CharHere(buf, args, s, n, p, quoteFlag);
      n, p, quoteFlag := SplitOne(buf, s, args, n, p, quoteFlag);
    }
    CharHere(buf, args, s, n, p, quoteFlag);
    AllStored(buf, args, s, n, quoteFlag);
    args[n] := -1;
  }

  // exec_command up to the argument vector: the command is copied, its arguments are counted, then it is split. On
  // every command that fits, the stored arguments are followed by the terminator; on a clean one the vector is full.
  method SplitCommand(cmd: array<char>, ghost s: string) returns (buf: array<char>, args: array<int>, n: nat)
    requires Holds(cmd, 0, s) && Fits(s)
    ensures args.Length == |Spaces(s)| + 2 && n == |Splits(s)| + 1 < args.Length && args[n] == -1
    ensures forall k :: 0 <= k < n ==> args[k] >= 0 && Holds(buf, args[k], Piece(s, k))
    ensures Clean(s) ==> n + 1 == args.Length
  {
    if Clean(s) {
      CleanFits(s);
    }
    var len := StrLen(cmd, 0, s);
    buf := new char[len + 1];
    StrCpy(buf, cmd, s);
    var argNum := CountSpaces(buf, s);
    args := new int[argNum + 1];
    n := SplitInPlace(buf, s, args);
  }

  // ---------- commands on which the passes disagree ----------

  ghost predicate Plain(s: string, i: nat, j: nat) {
    j <= |s| && forall k :: i <= k < j ==> s[k] != ' ' && !IsQuote(s[k])
  }

  // Plain characters change nothing in either pass.
  lemma {:induction false} PlainRun(s: string, i: nat, j: nat)
    requires i <= j && Plain(s, i, j) && !Skipped(s, i)
    ensures !Skipped(s, j) && Flag(s, j) == Flag(s, i) && Odd(s, j) == Odd(s, i)
    ensures TakenFrom(s, i, Splitting) == TakenFrom(s, j, Splitting)
    ensures TakenFrom(s, i, Counting) == TakenFrom(s, j, Counting)
    decreases j - i
  {
    if i < j {
      PlainRun(s, i + 1, j);
    }
  }

  // Behind a split the next character is passed over whatever it is; only the counting pass sees a quote there.
  lemma SplitAndSkip(s: string, i: nat)
    requires i + 1 < |s| && SplitsAt(s, i) && s[i + 1] != ' '
    ensures !Skipped(s, i + 2) && !Flag(s, i + 2) && Odd(s, i + 2) == (Odd(s, i) != IsQuote(s[i + 1]))
    ensures TakenFrom(s, i, Splitting) == [i] + TakenFrom(s, i + 2, Splitting)
    ensures TakenFrom(s, i, Counting) == (if Odd(s, i) then [] else [i]) + TakenFrom(s, i + 2, Counting)
  {
    assert !SplitsAt(s, i + 1) && !SpaceAt(s, i + 1);
    assert Flag(s, i + 2) == Flag(s, i + 1) == Flag(s, i);
  }

  // The pass comes to i with its flag off and splits at the next space.
  lemma NextPart(s: string, i: nat, j: nat)
    requires i <= j && Plain(s, i, j) && !Skipped(s, i) && !Flag(s, i)
    requires j + 1 < |s| && s[j] == ' ' && s[j + 1] != ' '
    ensures !Skipped(s, j + 2) && !Flag(s, j + 2) && Odd(s, j + 2) == (Odd(s, i) != IsQuote(s[j + 1]))
    ensures TakenFrom(s, i, Splitting) == [j] + TakenFrom(s, j + 2, Splitting)
    ensures TakenFrom(s, i, Counting) == (if Odd(s, i) then [] else [j]) + TakenFrom(s, j + 2, Counting)
  {
    PlainRun(s, i, j);
    SplitAndSkip(s, j);
  }

  // It comes to i with its flag off although the quotes before are odd, and the quote and the space that follow are
  // the last ones: the space is missed.
  lemma LastPart(s: string, i: nat, c: nat)
    requires i <= c && Plain(s, i, c) && !Skipped(s, i) && !Flag(s, i) && Odd(s, i)
    requires c + 1 < |s| && IsQuote(s[c]) && s[c + 1] == ' ' && Plain(s, c + 2, |s|)
    ensures TakenFrom(s, i, Splitting) == [] && TakenFrom(s, i, Counting) == [c + 1] && !Skipped(s, |s|)
  {
    PlainRun(s, i, c);
    assert !SplitsAt(s, c) && Flag(s, c + 1) && !Odd(s, c + 1) && !Skipped(s, c + 1);
    assert !SplitsAt(s, c + 1) && SpaceAt(s, c + 1);
    assert Flag(s, c + 2) && !Odd(s, c + 2) && !Skipped(s, c + 2);
    PlainRun(s, c + 2, |s|);
    assert TakenFrom(s, c + 1, Counting) == [c + 1] + [];
  }

  // The quoted argument goes from a + 1 to c, and b is the space in it.
  lemma QuotedPartIsCut(s: string, i: nat, a: nat, b: nat, c: nat)
    requires i <= a && a + 2 <= b && b + 2 <= c && c + 1 < |s|
    requires s[a] == ' ' && IsQuote(s[a + 1]) && s[b] == ' ' && IsQuote(s[c]) && s[c + 1] == ' '
    requires Plain(s, i, a) && Plain(s, a + 2, b) && Plain(s, b + 1, c) && Plain(s, c + 2, |s|)
    requires !Skipped(s, i) && !Flag(s, i) && !Odd(s, i)
    ensures TakenFrom(s, i, Splitting) == [a, b] && TakenFrom(s, i, Counting) == [a, c + 1] && !Skipped(s, |s|)
  {
    NextPart(s, i, a);
    NextPart(s, a + 2, b);
    LastPart(s, b + 2, c);
  }

  lemma {:induction false} ThirdsDiffer(s: string, w: nat, a: nat, b: nat, c: nat)
    requires Splits(s) == [w, a, b] && Spaces(s) == [w, a, c] && b != c && !Skipped(s, |s|)
    ensures Fits(s) && !Clean(s)
  {
    SplitsAtSpacesIff(s);
    assert Splits(s)[2] != Spaces(s)[2];
  }

  // Two words, a quoted argument of two words, and a word, as in: java -jar "my server.jar" nogui. The quoted argument
  // is cut at its space, and the space behind it is missed, so as many arguments are stored as counted, but not those.
  lemma ServerCommandIsCut(s: string, w: nat, a: nat, b: nat, c: nat)
    requires w + 2 <= a && a + 2 <= b && b + 2 <= c && c + 1 < |s|
    requires s[w] == s[a] == ' ' && s[a + 1] == '\"' && s[b] == ' ' && s[c] == '\"' && s[c + 1] == ' '
    requires Plain(s, 0, w) && Plain(s, w + 1, a) && Plain(s, a + 2, b) && Plain(s, b + 1, c) && Plain(s, c + 2, |s|)
    ensures Splits(s) == [w, a, b] && Spaces(s) == [w, a, c + 1] && Fits(s) && !Clean(s)
  {
    NextPart(s, 0, w);
    QuotedPartIsCut(s, w + 2, a, b, c);
    ThirdsDiffer(s, w, a, b, c + 1);
  }

  // The last space of a quoted argument that ends the command
  lemma LastQuoted(s: string, i: nat, c: nat, d: nat)
    requires i <= c && c + 2 <= d && d + 1 == |s| && s[c] == ' ' && s[d] == '\"'
    requires Plain(s, i, c) && Plain(s, c + 1, d) && !Skipped(s, i) && !Flag(s, i) && Odd(s, i)
    ensures TakenFrom(s, i, Splitting) == [c] && TakenFrom(s, i, Counting) == []
  {
    NextPart(s, i, c);
    PlainRun(s, c + 2, d);
    assert TakenFrom(s, d, Splitting) == [] && TakenFrom(s, d, Counting) == [];
  }

  // A word, then a quoted argument of three words: two arguments are counted and four are stored.
  lemma ThreeQuotedWordsDoNotFit(s: string, a: nat, b: nat, c: nat, d: nat)
    requires a + 2 <= b && b + 2 <= c && c + 2 <= d && d + 1 == |s|
    requires s[a] == ' ' && s[a + 1] == '\"' && s[b] == ' ' && s[c] == ' ' && s[d] == '\"'
    requires Plain(s, 0, a) && Plain(s, a + 2, b) && Plain(s, b + 1, c) && Plain(s, c + 1, d)
    ensures Splits(s) == [a, b, c] && Spaces(s) == [a] && !Fits(s)
  {
    NextPart(s, 0, a);
    NextPart(s, a + 2, b);
    LastQuoted(s, b + 2, c, d);
    assert TakenFrom(s, a + 2, Splitting) == [b, c] && TakenFrom(s, a + 2, Counting) == [];
  }

  // A word, then one with a part between quotes of either kind that holds a space, as in: run name="my server". The
  // space between the quotes does not split.
  lemma QuotedSpaceStays(s: string, a: nat, o: nat, b: nat)
    requires a + 2 <= o < b && b + 1 < |s| && s[a] == ' ' && s[b] == ' '
    requires s[o] == s[|s| - 1] == '\'' || s[o] == s[|s| - 1] == '\"'
    requires Plain(s, 0, a) && Plain(s, a + 1, o) && Plain(s, o + 1, b) && Plain(s, b + 1, |s| - 1)
    ensures Splits(s) == Spaces(s) == [a] && Clean(s)
  {
    NextPart(s, 0, a);
    PlainRun(s, a + 2, o);
    QuotedTail(s, o, b);
    SplitsAtSpacesIff(s);
  }

  lemma QuotedTail(s: string, o: nat, b: nat)
    requires o < b && b + 1 < |s| && s[b] == ' ' && IsQuote(s[o]) && IsQuote(s[|s| - 1])
    requires Plain(s, o + 1, b) && Plain(s, b + 1, |s| - 1)
    requires !Skipped(s, o) && !Flag(s, o) && !Odd(s, o)
    ensures TakenFrom(s, o, Splitting) == [] && TakenFrom(s, o, Counting) == [] && !Skipped(s, |s|)
  {
    var n := |s| - 1;
    assert !SplitsAt(s, o) && !SpaceAt(s, o) && Flag(s, o + 1) && Odd(s, o + 1) && !Skipped(s, o + 1);
    PlainRun(s, o + 1, b);
    assert !SplitsAt(s, b) && !SpaceAt(s, b) && Flag(s, b + 1) && Odd(s, b + 1) && !Skipped(s, b + 1);
    PlainRun(s, b + 1, n);
    assert !SplitsAt(s, n) && !SpaceAt(s, n);
    assert TakenFrom(s, n, Splitting) == [] && TakenFrom(s, n, Counting) == [];
  }

  // A space at the end of a word makes the pass run over the end of the command.
  lemma SpaceAtEndOverruns(s: string)
    requires s != "" && s[|s| - 1] == ' ' && Plain(s, 0, |s| - 1)
    ensures Skipped(s, |s|) && !Fits(s)
  {
    PlainRun(s, 0, |s| - 1);
    assert SplitsAt(s, |s| - 1);
  }
}
