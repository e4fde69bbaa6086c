/** analyse_command of src/server/cmdline.c (270-350) on character buffers: one pass counts, a second one fills. */
module CommandLine {
  import opened Options
  import opened Text
  import opened CStrings
  import opened CommandWords

  lemma {:induction false} BlanksFromOn(s: string, i: nat, j: nat)
    requires i <= j <= |s|
    ensures LeadingBlanksFrom(s, j) == i + LeadingBlanksFrom(s[i..], j - i)
    decreases |s| - j
  {
    if j < |s| {
      assert s[i..][j - i] == s[j];
      BlanksFromOn(s, i, j + 1);
    }
  }

  // jump_space from position i of the command
  method SkipFrom(cmd: array<char>, ghost s: string, i: nat) returns (j: nat)
    requires Holds(cmd, 0, s) && i <= |s|
    ensures j == LeadingBlanksFrom(s, i) && i <= j <= |s|
  {
    assert forall k :: 0 <= k < |s| - i ==> cmd[0 + (i + k)] == s[i..][k];
    j := JumpSpace(cmd, i, s[i..]);
    BlanksFromOn(s, i, i);
  }

  // The character at a position, as both passes test it
  lemma CharAt(cmd: array<char>, s: string, i: nat)
    requires Holds(cmd, 0, s) && i <= |s|
    ensures i < |s| ==> cmd[i] == s[i] && cmd[i] != '\0'
    ensures i == |s| ==> cmd[i] == '\0'
  {
    assert i < |s| ==> cmd[0 + i] == s[i];
    assert cmd[0 + |s|] == '\0';
  }

  // The counting pass: the number of arguments and the flag that it leaves behind. For a blank command it ends early.
  method CountArgs(cmd: array<char>, ghost s: string) returns (blank: bool, argc: nat, quoteFlag: bool)
    requires Holds(cmd, 0, s)
    ensures blank <==> AllBlank(s)
    ensures !blank ==> argc == Counted(s) && quoteFlag == Odd(s, |s|)
  {
    argc, quoteFlag, blank := 0, false, false;
    var src := SkipFrom(cmd, s, 0);
    CharAt(cmd, s, src);
    if cmd[src] == '\0' {
      return true, 0, false;
    }
    RunHasOneParity(s, 0, src);
    var done := false;
    while !done
      invariant src <= |s| && (done ==> src == |s|)
      invariant Counted(s) == argc + if done then 0 else CountFrom(s, src, quoteFlag)
      invariant quoteFlag == Odd(s, src)
      decreases !done, |s| - src
    {
      CharAt(cmd, s, src);
      if cmd[src] == '\'' || cmd[src] == '\"' {
        quoteFlag := !quoteFlag;
        src := src + 1;
      } else if ((cmd[src] == ' ' || cmd[src] == '\t') && !quoteFlag) || cmd[src] == '\0' {
        argc := argc + 1;
        ghost var from := src;
        if src < |s| {
          BlanksGoOn(s, src);
        }
        src := SkipFrom(cmd, s, src);
        RunHasOneParity(s, from, src);
        CharAt(cmd, s, src);
        if cmd[src] == '\0' {
          done := true;
        }
      } else {
        src := src + 1;
      }
    }
  }

  // The filling pass: arguments are collected in a scratch buffer as big as the command. Its write position never
  // passes the read position, so it never leaves the buffer.
  method FillArgs(cmd: array<char>, ghost s: string, args: array<Option<string>>, flag: bool) returns (n: nat)
    requires Holds(cmd, 0, s)
    requires |SplitFrom(s, 0, flag, "")| < args.Length
    modifies args
    ensures n == |SplitFrom(s, 0, flag, "")| && args[n] == None
    ensures forall k :: 0 <= k < n ==> args[k] == Some(SplitFrom(s, 0, flag, "")[k])
  {
    ghost var all := SplitFrom(s, 0, flag, "");
    var len := StrLen(cmd, 0, s);
    var buf := new char[len + 1];
    var src, dest, quoteFlag, done := 0, 0, flag, false;
    n := 0;
    ghost var cur := "";
    while !done
      invariant dest <= src <= |s| && dest == |cur|
      invariant forall i :: 0 <= i < dest ==> buf[0 + i] == cur[i] && cur[i] != '\0'
      invariant n <= |all| && (done ==> n == |all|)
      invariant !done ==> all[n..] == SplitFrom(s, src, quoteFlag, cur)
      invariant forall k :: 0 <= k < n ==> args[k] == Some(all[k])
      decreases !done, |s| - src
    {
      CharAt(cmd, s, src);
      if cmd[src] == '\'' || cmd[src] == '\"' {
        quoteFlag := !quoteFlag;
        src := src + 1;
      } else if ((cmd[src] == ' ' || cmd[src] == '\t') && !quoteFlag) || cmd[src] == '\0' {
        buf[dest] := '\0';
        var arg := CopyOut(buf, 0, cur);
        ghost var left := all[n..];
        assert left[0] == cur == all[n];
        args[n] := Some(arg);
        dest, cur := 0, "";
        n := n + 1;
        assert all[n..] == left[1..];
        if src < |s| {
          BlanksGoOn(s, src);
        }
        src := SkipFrom(cmd, s, src);
        CharAt(cmd, s, src);
        if cmd[src] == '\0' {
          done := true;
        }
      } else {
        buf[dest] := cmd[src];
        cur := cur + [cmd[src]];
        src := src + 1;
        dest := dest + 1;
      }
    }
    args[n] := None;
  }

  // A blank command gives no argument vector. For the others the counted vector must have room for what is stored; it
  // holds the arguments and a terminator, and no more when the passes agree.
  method AnalyseCommand(cmd: array<char>, ghost s: string) returns (args: array?<Option<string>>, argc: nat, n: nat)
    requires Holds(cmd, 0, s)
    requires !AllBlank(s) ==> Roomy(s)
    ensures args == null <==> AllBlank(s)
    ensures args != null ==>
      && argc == Counted(s) && args.Length == argc + 1
      && n == |Filled(s)| <= argc && args[n] == None
      && (n == argc <==> EvenlyGapped(s))
      && forall k :: 0 <= k < n ==> args[k] == Some(Filled(s)[k])
  {
    var blank, flag;
    blank, argc, flag := CountArgs(cmd, s);
    if blank {
      return null, 0, 0;
    }
    PassesAgreeIff(s);
    FilledFitIff(s);
    assert |Filled(s)| <= Counted(s);
    args := new Option<string>[argc + 1];
    n := FillArgs(cmd, s, args, flag);
  }
}
