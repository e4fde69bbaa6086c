/** How analyse_command of src/server/cmdline.c counts and splits a command line, on values. */
module CommandWords {
  import opened Text

  predicate IsQuote(c: char) {
    c == '\'' || c == '\"'
  }

  // The counting pass from position i on, with the quote flag q
  function CountFrom(s: string, i: nat, q: bool): (n: nat)
    requires i <= |s|
    decreases |s| - i
  {
    if i == |s| then 1
    else if IsQuote(s[i]) then CountFrom(s, i + 1, !q)
    else if IsBlank(s[i]) && !q then
      var j := LeadingBlanksFrom(s, i + 1);
      if j == |s| then 1 else 1 + CountFrom(s, j, q)
    else CountFrom(s, i + 1, q)
  }

  // The filling pass from position i on, with the quote flag q and the argument that is being collected
  function SplitFrom(s: string, i: nat, q: bool, cur: string): (args: seq<string>)
    requires i <= |s|
    ensures |args| == CountFrom(s, i, q)
    decreases |s| - i
  {
    if i == |s| then [cur]
    else if IsQuote(s[i]) then SplitFrom(s, i + 1, !q, cur)
    else if IsBlank(s[i]) && !q then
      var j := LeadingBlanksFrom(s, i + 1);
      if j == |s| then [cur] else [cur] + SplitFrom(s, j, q, "")
    else SplitFrom(s, i + 1, q, cur + [s[i]])
  }

  // Whether an odd number of quotes comes before position i
  function Odd(s: string, i: nat): bool
    requires i <= |s|
  {
    if i == 0 then false else Odd(s, i - 1) != IsQuote(s[i - 1])
  }

  // The quote flag is not reset between the passes, and only the counting pass skips leading blanks.
  function Counted(s: string): nat {
    CountFrom(s, LeadingBlanks(s), false)
  }

  function Filled(s: string): seq<string> {
    SplitFrom(s, 0, Odd(s, |s|), "")
  }

  predicate AllBlank(s: string) {
    LeadingBlanks(s) == |s|
  }

  // ---------- when the passes agree ----------

  // A run of blanks starts at i between two arguments: something that is not blank comes before and after it.
  predicate GapAt(s: string, i: nat)
    requires i < |s|
  {
    IsBlank(s[i]) && 0 < i && !IsBlank(s[i - 1]) && LeadingBlanksFrom(s, i) < |s|
  }

  // The number of such runs from position i on that are inside quotes, or outside
  function Gaps(s: string, i: nat, inside: bool): nat
    requires i <= |s|
    decreases |s| - i
  {
    if i == |s| then 0
    else (if GapAt(s, i) && Odd(s, i) == inside then 1 else 0) + Gaps(s, i + 1, inside)
  }

  lemma {:induction false} RunHasOneParity(s: string, i: nat, j: nat)
    requires i <= j <= |s| && forall k :: i <= k < j ==> IsBlank(s[k])
    ensures Odd(s, j) == Odd(s, i)
    decreases j - i
  {
    if i < j {
      RunHasOneParity(s, i, j - 1);
    }
  }

  lemma {:induction false} NoGapInRun(s: string, i: nat, j: nat, inside: bool)
    requires 0 < i <= j <= |s| && IsBlank(s[i - 1]) && forall k :: i <= k < j ==> IsBlank(s[k])
    ensures Gaps(s, i, inside) == Gaps(s, j, inside)
    decreases j - i
  {
    if i < j {
      NoGapInRun(s, i + 1, j, inside);
    }
  }

  lemma {:induction false} NoGapAtEnd(s: string, i: nat, inside: bool)
    requires i <= |s| && LeadingBlanksFrom(s, i) == |s|
    ensures Gaps(s, i, inside) == 0
    decreases |s| - i
  {
    if i < |s| {
      NoGapAtEnd(s, i + 1, inside);
    }
  }

  lemma BlanksGoOn(s: string, i: nat)
    requires i < |s| && IsBlank(s[i])
    ensures LeadingBlanksFrom(s, i) == LeadingBlanksFrom(s, i + 1)
  {
  }

  // A pass counts one argument more than there are runs of blanks that it takes for unquoted.
  lemma {:induction false} CountIsGaps(s: string, i: nat, q: bool)
    requires i <= |s|
    requires i == |s| || !IsBlank(s[i]) || q || (0 < i && !IsBlank(s[i - 1]))
    ensures CountFrom(s, i, q) == 1 + Gaps(s, i, Odd(s, i) != q)
    decreases |s| - i
  {
    if i < |s| {
      var base := Odd(s, i) != q;
      if IsBlank(s[i]) && !q {
        var j := LeadingBlanksFrom(s, i + 1);
        BlanksGoOn(s, i);
        if j == |s| {
          NoGapAtEnd(s, i, base);
        } else {
          RunHasOneParity(s, i, j);
          NoGapInRun(s, i + 1, j, base);
          CountIsGaps(s, j, q);
        }
      } else if IsQuote(s[i]) {
        CountIsGaps(s, i + 1, !q);
      } else {
        CountIsGaps(s, i + 1, q);
      }
    }
  }

  lemma {:induction false} NoGapInFront(s: string, i: nat, inside: bool)
    requires i <= LeadingBlanks(s)
    ensures Gaps(s, i, inside) == Gaps(s, LeadingBlanks(s), inside)
    decreases LeadingBlanks(s) - i
  {
    if i < LeadingBlanks(s) {
      NoGapInFront(s, i + 1, inside);
    }
  }

  // How many arguments the two passes see: a leading blank in front of even quotes makes one more in the filling pass,
  // and with odd quotes that pass takes the gaps inside quotes for those outside.
  lemma CountsAreGaps(s: string)
    requires !AllBlank(s)
    ensures Counted(s) == 1 + Gaps(s, 0, false)
    ensures |Filled(s)| == if Odd(s, |s|) then 1 + Gaps(s, 0, true)
                           else if IsBlank(s[0]) then 1 + Counted(s) else Counted(s)
  {
    var n := LeadingBlanks(s);
    RunHasOneParity(s, 0, n);
    CountIsGaps(s, n, false);
    NoGapInFront(s, 0, false);
    if Odd(s, |s|) {
      CountIsGaps(s, 0, true);
    } else if n > 0 {
      BlanksGoOn(s, 0);
    }
  }

  predicate EvenlyGapped(s: string)
    requires s != ""
  {
    if Odd(s, |s|) then Gaps(s, 0, true) == Gaps(s, 0, false) else !IsBlank(s[0])
  }

  // For a command that is not blank, the filling pass yields exactly the counted number of arguments if and only if:
  // with an even number of quotes, the command does not start with a blank; with an odd number, as many gaps lie
  // inside quotes as outside.
  lemma PassesAgreeIff(s: string)
    requires !AllBlank(s)
    ensures |Filled(s)| == Counted(s) <==> EvenlyGapped(s)
  {
    CountsAreGaps(s);
  }

  predicate Roomy(s: string)
    requires s != ""
  {
    if Odd(s, |s|) then Gaps(s, 0, true) <= Gaps(s, 0, false) else !IsBlank(s[0])
  }

  // The counted vector has room for what the filling pass stores, under the same condition with no more for as many.
  lemma FilledFitIff(s: string)
    requires !AllBlank(s)
    ensures |Filled(s)| <= Counted(s) <==> Roomy(s)
  {
    CountsAreGaps(s);
  }

  lemma TakesOne(s: string, i: nat, q: bool, cur: string, next: string)
    requires i < |s| && !IsQuote(s[i]) && (!IsBlank(s[i]) || q) && next == cur + [s[i]]
    ensures SplitFrom(s, i, q, cur) == SplitFrom(s, i + 1, q, next)
    ensures CountFrom(s, i, q) == CountFrom(s, i + 1, q)
  {
  }

  // The three ways in which the passes disagree: a leading blank ...
  lemma LeadingBlankAddsOne()
    ensures var s := " a"; Counted(s) == 1 && Filled(s) == ["", "a"] && !Roomy(s)
  {
    var s := " a";
    assert !Odd(s, 1) && !Odd(s, 2);
    assert LeadingBlanksFrom(s, 1) == 1;
    TakesOne(s, 1, false, "", "a");
    assert SplitFrom(s, 0, false, "") == [""] + ["a"];
  }

  // ... a gap inside an open quote ...
  lemma GapInOpenQuoteAddsOne()
    ensures var s := "a' b"; Counted(s) == 1 && Filled(s) == ["a", "b"] && !Roomy(s)
  {
    var s := "a' b";
    assert !Odd(s, 1) && Odd(s, 2) && Odd(s, 3) && Odd(s, 4);
    TakesOne(s, 0, true, "", "a");
    assert LeadingBlanksFrom(s, 3) == 3;
    TakesOne(s, 3, false, "", "b");
    assert SplitFrom(s, 2, false, "a") == ["a"] + ["b"];
    TakesOne(s, 0, false, "", "a");
    TakesOne(s, 2, true, "", " ");
    TakesOne(s, 3, true, "", "b");
    FilledFitIff(s);
  }

  // ... and a gap before an open quote.
  lemma GapBeforeOpenQuoteDropsOne()
    ensures var s := "a 'b"; Counted(s) == 2 && Filled(s) == ["a b"] && Roomy(s) && !EvenlyGapped(s)
  {
    var s := "a 'b";
    assert !Odd(s, 1) && !Odd(s, 2) && Odd(s, 3) && Odd(s, 4);
    TakesOne(s, 0, true, "", "a");
    TakesOne(s, 1, true, "a", "a ");
    assert SplitFrom(s, 2, true, "a ") == SplitFrom(s, 3, false, "a ");
    TakesOne(s, 3, false, "a ", "a b");
    assert LeadingBlanksFrom(s, 2) == 2;
    TakesOne(s, 0, false, "", "a");
    TakesOne(s, 3, true, "", "b");
    FilledFitIff(s);
    PassesAgreeIff(s);
  }

  // ---------- what the arguments are ----------

  // The command cut at every blank outside quotes, or at every blank inside quotes; quotes included
  function FieldsFrom(s: string, i: nat, raw: string, inside: bool): seq<string>
    requires i <= |s|
    decreases |s| - i
  {
    if i == |s| then [raw]
    else if IsBlank(s[i]) && Odd(s, i) == inside then [raw] + FieldsFrom(s, i + 1, "", inside)
    else FieldsFrom(s, i + 1, raw + [s[i]], inside)
  }

  function Unquoted(raw: string): string {
    if raw == "" then ""
    else
      var n := |raw| - 1;
      Unquoted(raw[..n]) + if IsQuote(raw[n]) then "" else [raw[n]]
  }

  // The fields that are not empty, without their quotes
  function Words(fields: seq<string>): seq<string> {
    if fields == [] then []
    else (if fields[0] == "" then [] else [Unquoted(fields[0])]) + Words(fields[1..])
  }

  lemma UnquotedOneMore(raw: string, c: char)
    ensures Unquoted(raw + [c]) == if IsQuote(c) then Unquoted(raw) else Unquoted(raw) + [c]
  {
    assert (raw + [c])[..|raw|] == raw;
  }

  lemma WordsOfFirst(raw: string, rest: seq<string>)
    ensures Words([raw] + rest) == (if raw == "" then [] else [Unquoted(raw)]) + Words(rest)
  {
    assert ([raw] + rest)[1..] == rest;
  }

  lemma {:induction false} BlankFieldsAreEmpty(s: string, i: nat, j: nat, inside: bool)
    requires i <= j <= |s| && Odd(s, i) == inside && forall k :: i <= k < j ==> IsBlank(s[k])
    ensures Words(FieldsFrom(s, i, "", inside)) == Words(FieldsFrom(s, j, "", inside))
    decreases j - i
  {
    if i < j {
      RunHasOneParity(s, i, i + 1);
      WordsOfFirst("", FieldsFrom(s, i + 1, "", inside));
      BlankFieldsAreEmpty(s, i + 1, j, inside);
    }
  }

  lemma NoWordsAtEnd(s: string, inside: bool)
    ensures Words(FieldsFrom(s, |s|, "", inside)) == []
  {
    assert [""][1..] == [];
  }

  // A pass that takes the blanks with that parity for unquoted yields the words between them.
  lemma {:induction false} SplitIsWords(s: string, i: nat, raw: string, inside: bool)
    requires i <= |s|
    requires raw != "" || (i < |s| && (!IsBlank(s[i]) || Odd(s, i) != inside))
    ensures SplitFrom(s, i, Odd(s, i) != inside, Unquoted(raw)) == Words(FieldsFrom(s, i, raw, inside))
    decreases |s| - i
  {
    if i == |s| {
      WordsOfFirst(raw, []);
      assert [raw] + [] == [raw] && [Unquoted(raw)] + Words([]) == [Unquoted(raw)];
    } else if IsBlank(s[i]) && Odd(s, i) == inside {
      var j := LeadingBlanksFrom(s, i + 1);
      WordsOfFirst(raw, FieldsFrom(s, i + 1, "", inside));
      RunHasOneParity(s, i, i + 1);
      RunHasOneParity(s, i, j);
      BlankFieldsAreEmpty(s, i + 1, j, inside);
      if j == |s| {
        NoWordsAtEnd(s, inside);
      } else {
        SplitIsWords(s, j, "", inside);
      }
    } else {
      UnquotedOneMore(raw, s[i]);
      SplitIsWords(s, i + 1, raw + [s[i]], inside);
    }
  }

  // What the arguments are, for every command that is not blank: with an even number of quotes, the fields between
  // blanks outside quotes; with an odd number, those between blanks inside quotes; without empty fields and without
  // quotes. A leading blank makes an empty argument of its own when the number of quotes is even.
  lemma {:induction false} FilledIsWords(s: string)
    requires !AllBlank(s)
    ensures Filled(s) == (if !Odd(s, |s|) && IsBlank(s[0]) then [""] else []) + Words(FieldsFrom(s, 0, "", Odd(s, |s|)))
  {
    if !Odd(s, |s|) && IsBlank(s[0]) {
      LeadingBlanksSplit(s);
    } else {
      SplitIsWords(s, 0, "", Odd(s, |s|));
    }
  }

  lemma LeadingBlanksSplit(s: string)
    requires !AllBlank(s) && IsBlank(s[0])
    ensures SplitFrom(s, 0, false, "") == [""] + Words(FieldsFrom(s, 0, "", false))
  {
    var n := LeadingBlanks(s);
    BlanksGoOn(s, 0);
    RunHasOneParity(s, 0, n);
    BlankFieldsAreEmpty(s, 0, n, false);
    SplitIsWords(s, n, "", false);
  }

  // ---------- quoting round trip ----------

  // Each argument between two marks, with gaps between them
  function Quoted(args: seq<string>, mark: string, gap: string): string
    requires args != []
  {
    mark + args[0] + mark + if |args| == 1 then "" else gap + Quoted(args[1..], mark, gap)
  }

  // A kind of quote, or none
  predicate IsMark(mark: string) {
    mark == "" || mark == "\'" || mark == "\""
  }

  predicate IsGap(gap: string) {
    gap != "" && forall i :: 0 <= i < |gap| ==> gap[i] == ' ' || gap[i] == '\t'
  }

  // What may stand between the marks: no quotes, and without quotes no blanks either, but something
  predicate Markable(a: string, mark: string) {
    && (forall i :: 0 <= i < |a| ==> a[i] != '\'' && a[i] != '\"')
    && (mark == "" ==> a != "" && forall i :: 0 <= i < |a| ==> a[i] != ' ' && a[i] != '\t')
  }

  predicate AllMarkable(args: seq<string>, mark: string) {
    forall k :: 0 <= k < |args| ==> Markable(args[k], mark)
  }

  // Inside quotes, and outside where there are no blanks, characters are taken as they are.
  lemma {:induction false} TakesAll(s: string, i: nat, k: nat, q: bool, cur: string)
    requires i <= k <= |s| && forall j :: i <= j < k ==> !IsQuote(s[j]) && (q || !IsBlank(s[j]))
    ensures SplitFrom(s, i, q, cur) == SplitFrom(s, k, q, cur + s[i..k])
    ensures Odd(s, k) == Odd(s, i)
    decreases k - i
  {
    if i == k {
      assert cur + s[i..k] == cur;
    } else {
      TakesAll(s, i + 1, k, q, cur + [s[i]]);
      assert cur + [s[i]] + s[i + 1..k] == cur + s[i..k];
    }
  }

  // Where the first argument ends in a quoted list that stands at position i, its closing mark included
  function FirstEnd(i: nat, args: seq<string>, mark: string): nat
    requires args != []
  {
    i + |mark| + |args[0]| + |mark|
  }

  // The argument a stands between two marks from position i to k.
  ghost predicate MarkedAt(s: string, i: nat, k: nat, a: string, mark: string) {
    && k == i + |mark| + |a| + |mark| <= |s|
    && s[i..i + |mark|] == mark && s[i + |mark|..k - |mark|] == a && s[k - |mark|..k] == mark
  }

  // The rest of s from position i on is the quoted list, told by positions.
  ghost predicate QuotedAt(s: string, i: nat, args: seq<string>, mark: string, gap: string)
    requires args != []
    decreases |args|
  {
    var k := FirstEnd(i, args, mark);
    && MarkedAt(s, i, k, args[0], mark)
    && if |args| == 1 then k == |s|
       else k + |gap| <= |s| && s[k..k + |gap|] == gap && QuotedAt(s, k + |gap|, args[1..], mark, gap)
  }

  lemma BetweenMarks(s: string, before: string, a: string, mark: string, tail: string)
    requires s == before + (mark + a + mark) + tail
    ensures MarkedAt(s, |before|, |before| + |mark| + |a| + |mark|, a, mark)
  {
  }

  lemma GapBehind(s: string, before: string, gap: string, tail: string)
    requires s == before + gap + tail
    ensures |before| + |gap| <= |s| && s[|before|..|before| + |gap|] == gap
  {
  }

  lemma {:induction false} QuotedStands(s: string, before: string, args: seq<string>, mark: string, gap: string)
    requires args != [] && s == before + Quoted(args, mark, gap)
    ensures QuotedAt(s, |before|, args, mark, gap)
    decreases |args|
  {
    var first := mark + args[0] + mark;
    if |args| == 1 {
      Assoc(before, first, "");
      BetweenMarks(s, before, args[0], mark, "");
    } else {
      var others := Quoted(args[1..], mark, gap);
      Assoc(before, first, gap + others);
      BetweenMarks(s, before, args[0], mark, gap + others);
      Assoc(before + first, gap, others);
      GapBehind(s, before + first, gap, others);
      QuotedStands(s, before + first + gap, args[1..], mark, gap);
      NextStands(s, before, args, mark, gap);
    }
  }

  lemma NextStands(s: string, before: string, args: seq<string>, mark: string, gap: string)
    requires |args| > 1 && MarkedAt(s, |before|, FirstEnd(|before|, args, mark), args[0], mark)
    requires var b := before + (mark + args[0] + mark);
      |b| + |gap| <= |s| && s[|b|..|b| + |gap|] == gap && QuotedAt(s, |b + gap|, args[1..], mark, gap)
    ensures QuotedAt(s, |before|, args, mark, gap)
  {
    var b := before + (mark + args[0] + mark);
    assert |b| == FirstEnd(|before|, args, mark) && |b + gap| == |b| + |gap|;
  }

  lemma MarkedCharacters(s: string, i: nat, k: nat, a: string, mark: string)
    requires MarkedAt(s, i, k, a, mark) && IsMark(mark)
    ensures forall n :: 0 <= n < |a| ==> s[i + |mark| + n] == a[n]
    ensures mark != "" ==> s[i] == s[k - 1] == mark[0]
  {
    forall n | 0 <= n < |a|
      ensures s[i + |mark| + n] == a[n]
    {
      assert s[i + |mark|..k - |mark|][n] == s[i + |mark| + n];
    }
    if mark != "" {
      assert s[i] == s[i..i + |mark|][0] && s[k - 1] == s[k - |mark|..k][0];
    }
  }

  lemma OneQuoted(s: string, i: nat, k: nat, a: string, mark: string)
    requires MarkedAt(s, i, k, a, mark) && IsMark(mark) && Markable(a, mark)
    ensures SplitFrom(s, i, false, "") == SplitFrom(s, k, false, a) && Odd(s, k) == Odd(s, i)
    ensures i < |s| && !IsBlank(s[i])
  {
    MarkedCharacters(s, i, k, a, mark);
    var j, m := i + |mark|, k - |mark|;
    forall n | j <= n < m
      ensures !IsQuote(s[n]) && (mark != "" || !IsBlank(s[n]))
    {
      assert s[i + |mark| + (n - j)] == a[n - j];
    }
    TakesAll(s, j, m, mark != "", "");
    assert "" + s[j..m] == a;
  }

  lemma ArgumentEnds(s: string, k: nat, a: string, gap: string)
    requires k + |gap| < |s| && IsGap(gap) && s[k..k + |gap|] == gap && !IsBlank(s[k + |gap|])
    ensures SplitFrom(s, k, false, a) == [a] + SplitFrom(s, k + |gap|, false, "")
    ensures Odd(s, k + |gap|) == Odd(s, k)
  {
    var j := k + |gap|;
    forall n | k <= n < j
      ensures IsBlank(s[n])
    {
      assert s[n] == gap[n - k];
    }
    RunHasOneParity(s, k, j);
    BlanksEnd(s, k + 1, j);
  }

  lemma {:induction false} BlanksEnd(s: string, i: nat, j: nat)
    requires i <= j < |s| && !IsBlank(s[j]) && forall n :: i <= n < j ==> IsBlank(s[n])
    ensures LeadingBlanksFrom(s, i) == j
    decreases j - i
  {
    if i < j {
      BlanksEnd(s, i + 1, j);
    }
  }

  // What comes behind the first argument, when there are more
  lemma OthersStand(s: string, i: nat, args: seq<string>, mark: string, gap: string)
    requires |args| > 1 && QuotedAt(s, i, args, mark, gap) && AllMarkable(args, mark)
    ensures var k := FirstEnd(i, args, mark);
      k + |gap| <= |s| && s[k..k + |gap|] == gap && QuotedAt(s, k + |gap|, args[1..], mark, gap)
    ensures AllMarkable(args[1..], mark)
  {
  }

  lemma FirstStands(s: string, i: nat, args: seq<string>, mark: string, gap: string)
    requires args != [] && QuotedAt(s, i, args, mark, gap) && IsMark(mark) && AllMarkable(args, mark)
    ensures var k := FirstEnd(i, args, mark);
      && k <= |s| && (|args| == 1 ==> k == |s|)
      && SplitFrom(s, i, false, "") == SplitFrom(s, k, false, args[0]) && Odd(s, k) == Odd(s, i)
    ensures i < |s| && !IsBlank(s[i])
  {
    OneQuoted(s, i, FirstEnd(i, args, mark), args[0], mark);
  }

  lemma FirstAndOthers(args: seq<string>)
    requires args != []
    ensures [args[0]] + args[1..] == args
  {
  }

  lemma {:induction false} QuotedSplitsBack(s: string, i: nat, args: seq<string>, mark: string, gap: string)
    requires args != [] && QuotedAt(s, i, args, mark, gap) && IsMark(mark) && IsGap(gap) && AllMarkable(args, mark)
    ensures SplitFrom(s, i, false, "") == args && Odd(s, |s|) == Odd(s, i)
    ensures i < |s| && !IsBlank(s[i])
    decreases |args|
  {
    var k := FirstEnd(i, args, mark);
    FirstStands(s, i, args, mark, gap);
    FirstAndOthers(args);
    if |args| > 1 {
      OthersStand(s, i, args, mark, gap);
      QuotedSplitsBack(s, k + |gap|, args[1..], mark, gap);
      ArgumentEnds(s, k, args[0], gap);
    }
  }

  lemma StartsAtOnce(s: string)
    requires s != "" && !IsBlank(s[0]) && !Odd(s, |s|)
    ensures !AllBlank(s) && Filled(s) == SplitFrom(s, 0, false, "") && Counted(s) == |Filled(s)|
  {
    assert LeadingBlanks(s) == 0;
  }

  // Putting arguments between quotes of either kind, or between none when they hold no blanks, with any blanks between
  // them, is undone by the analysis, and the two passes agree on it.
  lemma {:induction false} QuotingRoundTrip(args: seq<string>, mark: string, gap: string)
    requires args != [] && IsMark(mark) && IsGap(gap) && AllMarkable(args, mark)
    ensures var s := Quoted(args, mark, gap); !AllBlank(s) && Filled(s) == args && Counted(s) == |args|
  {
    var s := Quoted(args, mark, gap);
    assert s == "" + s;
    QuotedStands(s, "", args, mark, gap);
    QuotedSplitsBack(s, 0, args, mark, gap);
    StartsAtOnce(s);
  }
}
