/** NUL-terminated strings in character buffers. */
module CStrings {
  import opened Text

  // The string that starts at position p of a buffer is s.
  ghost predicate Holds(a: array<char>, p: nat, s: string)
    reads a
  {
    && p + |s| < a.Length
    && a[p + |s|] == '\0'
    && forall i :: 0 <= i < |s| ==> a[p + i] == s[i] && s[i] != '\0'
  }

  ghost predicate NulFree(s: string) {
    forall i :: 0 <= i < |s| ==> s[i] != '\0'
  }

  // jump_space: the pointer moves past the leading blanks.
  method JumpSpace(a: array<char>, p: nat, ghost s: string) returns (q: nat)
    requires Holds(a, p, s)
    ensures q == p + LeadingBlanks(s) && Holds(a, q, SkipBlanks(s))
  {
    var n := 0;
    while a[p + n] == ' ' || a[p + n] == '\t'
      invariant 0 <= n <= |s|
      invariant forall i :: 0 <= i < n ==> IsBlank(s[i])
      invariant n < |s| ==> a[p + n] == s[n]
      decreases |s| - n
    {
      n := n + 1;
    }
    q := p + n;
  }

  // strcpy into a fresh buffer of strlen + 1 characters, read back as a value
  method CopyOut(a: array<char>, p: nat, ghost s: string) returns (r: string)
    requires Holds(a, p, s)
    ensures r == s
  {
    r := "";
    var n := 0;
    while a[p + n] != '\0'
      invariant 0 <= n <= |s| && r == s[..n]
      invariant n < |s| ==> a[p + n] == s[n]
      decreases |s| - n
    {
      r := r + [a[p + n]];
      n := n + 1;
    }
  }

  method StrLen(a: array<char>, p: nat, ghost s: string) returns (n: nat)
    requires Holds(a, p, s)
    ensures n == |s|
  {
    n := 0;
    while a[p + n] != '\0'
      invariant 0 <= n <= |s|
      invariant n < |s| ==> a[p + n] == s[n]
      decreases |s| - n
    {
      n := n + 1;
    }
  }

  // strcpy from the start of one buffer to the start of another that is long enough
  method StrCpy(to: array<char>, from: array<char>, ghost s: string)
    requires to != from && Holds(from, 0, s) && |s| < to.Length
    modifies to
    ensures Holds(to, 0, s)
  {
    var n := 0;
    while from[0 + n] != '\0'
      invariant 0 <= n <= |s|
      invariant n < |s| ==> from[0 + n] == s[n]
      invariant forall i :: 0 <= i < n ==> to[i] == s[i]
      decreases |s| - n
    {
      to[n] := from[n];
      n := n + 1;
    }
    to[n] := '\0';
  }
}
