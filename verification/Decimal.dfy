/** Decimal numbers as the configuration file holds them: sprintf("%u"), atoi, and sizes with a unit letter. */
module Decimal {
  import opened Text

  const TWO_16: int := 0x1_0000
  const TWO_31: int := 0x8000_0000
  const TWO_32: int := 0x1_0000_0000
  const TWO_63: int := 0x8000_0000_0000_0000
  const TWO_64: int := 0x1_0000_0000_0000_0000

  predicate IsDigit(c: char) {
    '0' <= c <= '9'
  }

  function DigitChar(d: nat): (c: char)
    requires d < 10
    ensures IsDigit(c) && c as int - '0' as int == d
  {
    ('0' as int + d) as char
  }

  // sprintf("%u", n)
  function Printed(n: nat): (s: string)
    ensures s != "" && forall i :: 0 <= i < |s| ==> IsDigit(s[i])
  {
    if n < 10 then [DigitChar(n)] else Printed(n / 10) + [DigitChar(n % 10)]
  }

  // The digits of s from i on, after acc has been read
  function DigitsFrom(s: string, i: nat, acc: nat): nat
    requires i <= |s|
    decreases |s| - i
  {
    if i < |s| && IsDigit(s[i]) then DigitsFrom(s, i + 1, acc * 10 + (s[i] as int - '0' as int)) else acc
  }

  predicate IsSpace(c: char) {
    c == ' ' || c == '\t' || c == '\n' || c == '\r' || c == '\U{000B}' || c == '\U{000C}'
  }

  function SpacesFrom(s: string, i: nat): (n: nat)
    requires i <= |s|
    ensures i <= n <= |s|
    decreases |s| - i
  {
    if i < |s| && IsSpace(s[i]) then SpacesFrom(s, i + 1) else i
  }

  // A conversion to a 32-bit int keeps the low bits.
  function ToInt32(n: int): (r: int)
    ensures -TWO_31 <= r < TWO_31
    ensures -TWO_31 <= n < TWO_31 ==> r == n
  {
    var m := n % TWO_32;
    if m < TWO_31 then m else m - TWO_32
  }

  // The number that strtol reads, before it is fitted into a long
  function NumberRead(s: string): int {
    var i := SpacesFrom(s, 0);
    var signed := i < |s| && (s[i] == '-' || s[i] == '+');
    var v := DigitsFrom(s, if signed then i + 1 else i, 0) as int;
    if signed && s[i] == '-' then -v else v
  }

  // strtol clamps to a 64-bit long.
  function ToLong(n: int): int {
    if n >= TWO_63 then TWO_63 - 1 else if n < -TWO_63 then -TWO_63 else n
  }

  // atoi returns the low 32 bits of what strtol returns.
  function Atoi(s: string): (r: int)
    ensures -TWO_31 <= r < TWO_31
  {
    ToInt32(ToLong(NumberRead(s)))
  }

  // Reading on after the digits of n gives n behind what was read before.
  function Shifted(acc: nat, n: nat): nat {
    if n < 10 then acc * 10 + n else Shifted(acc, n / 10) * 10 + n % 10
  }

  lemma {:induction false} DigitsOfPrinted(n: nat, rest: string, acc: nat, i: nat, before: string)
    requires i == |before|
    ensures DigitsFrom(before + Printed(n) + rest, i, acc)
         == DigitsFrom(before + Printed(n) + rest, i + |Printed(n)|, Shifted(acc, n))
    decreases n
  {
    if n >= 10 {
      var last := [DigitChar(n % 10)];
      DigitsOfPrinted(n / 10, last + rest, acc, i, before);
      assert before + Printed(n / 10) + (last + rest) == before + Printed(n) + rest;
    }
  }

  lemma {:induction false} ShiftedZero(n: nat)
    ensures Shifted(0, n) == n
  {
    if n >= 10 {
      ShiftedZero(n / 10);
    }
  }

  lemma DigitsOfNumber(n: nat, rest: string)
    requires rest == "" || !IsDigit(rest[0])
    ensures DigitsFrom(Printed(n) + rest, 0, 0) == n
  {
    var s, k := Printed(n) + rest, |Printed(n)|;
    DigitsOfPrinted(n, rest, 0, 0, "");
    assert "" + Printed(n) + rest == s;
    ShiftedZero(n);
    assert k < |s| ==> s[k] == rest[0];
    assert DigitsFrom(s, k, n) == n;
  }

  lemma NumberReadOfPrinted(n: nat, rest: string)
    requires rest == "" || !IsDigit(rest[0])
    ensures NumberRead(Printed(n) + rest) == n
  {
    var s := Printed(n) + rest;
    assert s[0] == Printed(n)[0] && IsDigit(s[0]);
    assert SpacesFrom(s, 0) == 0;
    DigitsOfNumber(n, rest);
  }

  // atoi undoes sprintf("%u"), up to the conversion to int, whatever follows the digits.
  lemma {:induction false} AtoiOfPrinted(n: nat, rest: string)
    requires n < TWO_63 && (rest == "" || !IsDigit(rest[0]))
    ensures Atoi(Printed(n) + rest) == ToInt32(n)
  {
    NumberReadOfPrinted(n, rest);
  }

  lemma {:induction false} AtoiOfNumber(n: nat)
    requires n < TWO_63
    ensures Atoi(Printed(n)) == ToInt32(n)
  {
    AtoiOfPrinted(n, "");
    assert Printed(n) + "" == Printed(n);
  }

  // A port and a 32-bit int read back as they were printed; a negative int is printed as its 32 bits.
  lemma PortReadsBack(p: int)
    requires 0 <= p < TWO_16
    ensures Atoi(Printed(p)) % TWO_16 == p
  {
    AtoiOfNumber(p);
  }

  lemma BitsOfInt(n: int)
    requires -TWO_31 <= n < TWO_31
    ensures n % TWO_32 == if n < 0 then n + TWO_32 else n
  {
  }

  lemma BitsReadBack(m: int)
    requires 0 <= m < TWO_32
    ensures ToInt32(m) == if m < TWO_31 then m else m - TWO_32
  {
  }

  lemma IntReadsBack(n: int)
    requires -TWO_31 <= n < TWO_31
    ensures Atoi(Printed(n % TWO_32)) == n
  {
    BitsOfInt(n);
    var m := if n < 0 then n + TWO_32 else n;
    BitsReadBack(m);
    AtoiOfNumber(m);
  }

  // A printed number is "0" or starts with another digit; with AtoiOfPrinted that leaves one text for each number.
  lemma {:induction false} PrintedPlainly(n: nat)
    ensures n == 0 ==> Printed(n) == "0"
    ensures n > 0 ==> Printed(n)[0] != '0'
  {
    if n >= 10 {
      PrintedPlainly(n / 10);
    }
  }

  // ---------- atoi in numbers ----------

  predicate Spaces(b: string) {
    forall i :: 0 <= i < |b| ==>
      b[i] == ' ' || b[i] == '\t' || b[i] == '\n' || b[i] == '\r' || b[i] == '\U{000B}' || b[i] == '\U{000C}'
  }

  lemma {:induction false} SpacesAreSkipped(b: string, s: string, i: nat)
    requires Spaces(b) && i <= |b| && (s == "" || !IsSpace(s[0]))
    ensures SpacesFrom(b + s, i) == |b|
    decreases |b| - i
  {
    if i < |b| {
      assert (b + s)[i] == b[i];
      SpacesAreSkipped(b, s, i + 1);
    } else if s != "" {
      assert (b + s)[|b|] == s[0];
    }
  }

  lemma FirstBehind(before: string, rest: string)
    ensures rest != "" ==> (before + rest)[|before|] == rest[0]
  {
  }

  // What comes before does not matter.
  lemma {:induction false} DigitsBehind(before: string, s: string, i: nat, acc: nat)
    requires i <= |s|
    ensures DigitsFrom(before + s, |before| + i, acc) == DigitsFrom(s, i, acc)
    decreases |s| - i
  {
    if i < |s| {
      assert (before + s)[|before| + i] == s[i];
      if IsDigit(s[i]) {
        DigitsBehind(before, s, i + 1, acc * 10 + (s[i] as int - '0' as int));
      }
    }
  }

  lemma DigitsRead(before: string, n: nat, rest: string)
    requires rest == "" || rest[0] < '0' || rest[0] > '9'
    ensures DigitsFrom(before + Printed(n) + rest, |before|, 0) == n
  {
    DigitsOfNumber(n, rest);
    DigitsBehind(before, Printed(n) + rest, 0, 0);
    Assoc(before, Printed(n), rest);
  }

  // What comes behind the spaces
  lemma NumberReadAt(s: string, i: nat, n: nat)
    requires i == SpacesFrom(s, 0) && i < |s|
    requires s[i] == '-' || s[i] == '+' || IsDigit(s[i])
    requires DigitsFrom(s, if IsDigit(s[i]) then i else i + 1, 0) == n
    ensures NumberRead(s) == if s[i] == '-' then -(n as int) else n
  {
  }

  lemma SignAt(b: string, sign: string, n: nat, rest: string)
    requires sign == "" || sign == "+" || sign == "-"
    ensures var s := b + sign + Printed(n) + rest;
      && |b| < |s| && s[|b|] == (if sign == "" then Printed(n)[0] else sign[0])
      && s == b + (sign + Printed(n) + rest)
  {
    var t := sign + Printed(n);
    Assoc(b, sign, Printed(n));
    Assoc(b, t, rest);
    assert (t + rest)[0] == t[0];
    FirstBehind(b, t + rest);
  }

  lemma NumberReadOfText(b: string, sign: string, n: nat, rest: string)
    requires Spaces(b) && (sign == "" || sign == "+" || sign == "-")
    requires rest == "" || rest[0] < '0' || rest[0] > '9'
    ensures NumberRead(b + sign + Printed(n) + rest) == if sign == "-" then -(n as int) else n
  {
    SignAt(b, sign, n, rest);
    var t := sign + Printed(n) + rest;
    assert t[0] == if sign == "" then Printed(n)[0] else sign[0];
    SpacesAreSkipped(b, t, 0);
    DigitsRead(b + sign, n, rest);
    NumberReadAt(b + sign + Printed(n) + rest, |b|, n);
  }

  lemma Fitted(m: int)
    ensures -0x8000_0000 <= m < 0x8000_0000 ==> ToInt32(ToLong(m)) == m
    ensures 0x8000_0000 <= m < 0x1_0000_0000 ==> ToInt32(ToLong(m)) == m - 0x1_0000_0000
    ensures 0x8000_0000_0000_0000 <= m ==> ToInt32(ToLong(m)) == -1
  {
  }

  // Spaces and a sign may come before the digits and anything else behind them; what does not fit an int wraps round.
  lemma AtoiOfText(b: string, sign: string, n: nat, rest: string)
    requires Spaces(b) && (sign == "" || sign == "+" || sign == "-")
    requires rest == "" || rest[0] < '0' || rest[0] > '9'
    ensures var r := Atoi(b + sign + Printed(n) + rest);
      && (n < 0x8000_0000 ==> r == if sign == "-" then -(n as int) else n)
      && (0x8000_0000 <= n < 0x1_0000_0000 && sign != "-" ==> r == n - 0x1_0000_0000)
      && (0x8000_0000_0000_0000 <= n && sign != "-" ==> r == -1)
  {
    NumberReadOfText(b, sign, n, rest);
    Fitted(if sign == "-" then -(n as int) else n);
  }

  // Text that does not start with a number reads as zero.
  lemma AtoiOfNothing(b: string, s: string)
    requires Spaces(b) && (s == "" || (!IsSpace(s[0]) && !IsDigit(s[0]) && s[0] != '-' && s[0] != '+'))
    ensures Atoi(b + s) == 0
  {
    SpacesAreSkipped(b, s, 0);
    assert s != "" ==> (b + s)[|b|] == s[0];
    assert DigitsFrom(b + s, |b|, 0) == 0;
  }

  // ---------- get_size (src/config/config.c:403-434) ----------

  // n units in a size_t
  function Scaled(n: nat, unit: char): (size: nat)
    ensures size < TWO_64
  {
    if unit == 'G' then n * (1024 * 1024 * 1024) % TWO_64
    else if unit == 'M' then n * (1024 * 1024) % TWO_64
    else if unit == 'K' then n * 1024 % TWO_64
    else n % TWO_64
  }

  // The first character from i on that is not a digit, or the terminator
  function UnitFrom(s: string, i: nat): char
    requires i <= |s|
    decreases |s| - i
  {
    if i == |s| then '\0' else if IsDigit(s[i]) then UnitFrom(s, i + 1) else s[i]
  }

  function SizeOf(s: string): (size: nat)
    ensures size < TWO_64
  {
    Scaled(Atoi(s) % TWO_64, UnitFrom(s, 0))
  }

  method GetSize(buf: string) returns (size: nat)
    ensures size == SizeOf(buf)
  {
    size := Atoi(buf) % TWO_64;
    ghost var start := size;
    var p := 0;
    while p < |buf|
      invariant p <= |buf| && size == start && UnitFrom(buf, p) == UnitFrom(buf, 0)
    {
      if buf[p] > '9' || buf[p] < '0' {
        if buf[p] == 'G' {
          size := size * (1024 * 1024 * 1024) % TWO_64;
          return;
        } else if buf[p] == 'M' {
          size := size * (1024 * 1024) % TWO_64;
          return;
        } else if buf[p] == 'K' {
          size := size * 1024 % TWO_64;
          return;
        } else {
          break;
        }
      }
      p := p + 1;
    }
  }

  lemma {:induction false} UnitAfterDigits(s: string, i: nat, rest: string)
    requires i <= |s| && forall j :: 0 <= j < |s| ==> IsDigit(s[j])
    ensures UnitFrom(s + rest, i) == UnitFrom(s + rest, |s|)
    decreases |s| - i
  {
    if i < |s| {
      UnitAfterDigits(s, i + 1, rest);
      assert (s + rest)[i] == s[i];
    }
  }

  // A plain number with a unit letter is that many units, whatever follows the letter.
  lemma SizeOfPrinted(n: nat, unit: char, rest: string)
    requires n < TWO_31 && !IsDigit(unit)
    ensures SizeOf(Printed(n) + ([unit] + rest))
         == if unit == 'G' then n * (1024 * 1024 * 1024)
            else if unit == 'M' then n * (1024 * 1024)
            else if unit == 'K' then n * 1024
            else n
  {
    var tail, k := [unit] + rest, |Printed(n)|;
    var s := Printed(n) + tail;
    assert tail[0] == unit;
    AtoiOfPrinted(n, tail);
    UnitAfterDigits(Printed(n), 0, tail);
    assert s[k] == unit;
    assert UnitFrom(s, k) == unit;
    ScaledFits(n, unit);
  }

  // A number alone is that many bytes.
  lemma SizeOfNumber(n: nat)
    requires n < 0x8000_0000
    ensures SizeOf(Printed(n)) == n
  {
    AtoiOfNumber(n);
    UnitAfterDigits(Printed(n), 0, "");
    assert Printed(n) + "" == Printed(n);
    ScaledFits(n, '\0');
  }

  // Behind a sign or a space no unit is found, and a negative number becomes a huge size.
  lemma SizeOfOther(s: string)
    requires s != "" && (s[0] < '0' || s[0] > '9') && s[0] != 'G' && s[0] != 'M' && s[0] != 'K'
    ensures SizeOf(s) == Atoi(s) % 0x1_0000_0000_0000_0000
  {
    assert UnitFrom(s, 0) == s[0];
  }

  lemma ScaledFits(n: nat, unit: char)
    requires n < TWO_31
    ensures Scaled(ToInt32(n) % TWO_64, unit)
         == if unit == 'G' then n * (1024 * 1024 * 1024)
            else if unit == 'M' then n * (1024 * 1024)
            else if unit == 'K' then n * 1024
            else n
  {
  }
}
