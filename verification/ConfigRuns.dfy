/** What the configuration cache keeps over whole runs of setters, and across a write and a reload. */
module ConfigRuns {
  import opened Options
  import opened Text
  import opened Decimal
  import opened IniFormat
  import opened IniRoundTrip
  import opened IniLookup
  import opened IniOpen
  import opened LineReader
  import opened Config

  // ---------- the names and numbers that the setters write ----------

  lemma SetterNamesAreLegal(op: Setter)
    ensures LegalSectionName(op.Target().Section()) && LegalKey(op.Target().Key()) && |op.Target().Key()| <= 14
  {
    match op
    case PortSet(_) =>
    case UsernameSet(_) =>
    case PasswdSet(_) =>
    case MaxConnectSet(_) =>
  }

  function PowerOfTen(k: nat): nat {
    if k == 0 then 1 else 10 * PowerOfTen(k - 1)
  }

  lemma {:induction false} PrintedLength(n: nat, k: nat)
    requires n < PowerOfTen(k) && k > 0
    ensures |Printed(n)| <= k
  {
    if n >= 10 {
      assert k > 1 by {
        assert PowerOfTen(1) == 10;
      }
      PrintedLength(n / 10, k - 1);
    }
  }

  lemma PrintedIsLegal(n: nat)
    requires n < TWO_32
    ensures LegalValue(Printed(n)) && |Printed(n)| <= 10
  {
    assert PowerOfTen(5) == 100_000;
    assert PowerOfTen(10) == 100_000 * 100_000 by {
      assert PowerOfTen(7) == 10_000_000;
      assert PowerOfTen(9) == 1_000_000_000;
    }
    PrintedLength(n, 10);
    assert IsDigit(Printed(n)[0]);
  }

  // ---------- runs ----------

  // A setter whose line fits the first buffer and may stand in a file
  predicate Durable(op: Setter) {
    op.InRange() && LegalValue(op.Value()) && |op.Value()| <= FIRST_LEN - 16
  }

  lemma NumbersAreDurable(op: Setter)
    requires op.InRange() && (op.PortSet? || op.MaxConnectSet?)
    ensures Durable(op)
  {
    match op
    case PortSet(p) => PrintedIsLegal(p);
    case MaxConnectSet(n) => PrintedIsLegal(n % TWO_32);
  }

  const MAX_USERNAME_LEN: nat := 15
  const MAX_PASSWD_LEN: nat := 31

  // The characters that the username and passwd commands take (src/server/cmdline.c:447-449)
  predicate IsAlphanumeric(c: char) {
    IsDigit(c) || 'a' <= c <= 'z' || 'A' <= c <= 'Z'
  }

  predicate FromConsole(op: Setter) {
    match op
    case UsernameSet(s) => |s| <= MAX_USERNAME_LEN && forall i :: 0 <= i < |s| ==> IsAlphanumeric(s[i])
    case PasswdSet(s) => |s| <= MAX_PASSWD_LEN && forall i :: 0 <= i < |s| ==> IsAlphanumeric(s[i])
    case _ => op.InRange()
  }

  // Every setter that the program calls is durable.
  lemma ConsoleIsDurable(op: Setter)
    requires FromConsole(op)
    ensures Durable(op)
  {
    if op.PortSet? || op.MaxConnectSet? {
      NumbersAreDurable(op);
    } else {
      var s := op.Value();
      assert '\n' !in s;
    }
  }

  predicate AllInRange(ops: seq<Setter>) {
    forall i :: 0 <= i < |ops| ==> ops[i].InRange()
  }

  predicate AllDurable(ops: seq<Setter>)
    ensures AllDurable(ops) ==> AllInRange(ops)
  {
    forall i :: 0 <= i < |ops| ==> Durable(ops[i])
  }

  function DocRun(doc: Doc, ops: seq<Setter>): Doc
    requires AllInRange(ops)
  {
    if ops == [] then doc else DocAfter(DocRun(doc, ops[..|ops| - 1]), ops[|ops| - 1])
  }

  function TextsRun(t: Texts, ops: seq<Setter>): Texts
    requires AllInRange(ops)
  {
    if ops == [] then t else TextsAfter(TextsRun(t, ops[..|ops| - 1]), ops[|ops| - 1])
  }

  function CacheRun(s: Settings, ops: seq<Setter>): Settings {
    if ops == [] then s else CacheAfter(CacheRun(s, ops[..|ops| - 1]), ops[|ops| - 1])
  }

  // Over any run of setters the cache is what the document in memory decodes to.
  lemma {:induction false} RunIsCoherent(doc: Doc, t: Texts, ops: seq<Setter>)
    requires Reads(doc, t) && AllInRange(ops)
    ensures Reads(DocRun(doc, ops), TextsRun(t, ops))
    ensures TextsRun(t, ops).Decoded() == CacheRun(t.Decoded(), ops)
  {
    if ops != [] {
      var init, last := ops[..|ops| - 1], ops[|ops| - 1];
      RunIsCoherent(doc, t, init);
      AfterSet(DocRun(doc, init), TextsRun(t, init), last);
    }
  }

  // ---------- when a reload gives back the cache ----------

  // Setters find their keys, so they change values only, and none but the four of their own.
  lemma {:induction false} RunKeepsLayout(doc: Doc, t: Texts, ops: seq<Setter>)
    requires Reads(doc, t) && AllInRange(ops)
    ensures SameLayout(doc, DocRun(doc, ops))
  {
    if ops != [] {
      var init, op := ops[..|ops| - 1], ops[|ops| - 1];
      RunKeepsLayout(doc, t, init);
      RunIsCoherent(doc, t, init);
      assert Asked(op.Target());
      SetKeepsLayout(DocRun(doc, init), op.Target().Section(), op.Target().Key(), op.Value());
      LayoutIsTransitive(doc, DocRun(doc, init), DocRun(doc, ops));
    }
  }

  predicate Names(e: Entry, section: string, key: string) {
    e.Section() == section && e.Key() == key
  }

  predicate Settable(section: string, key: string) {
    Names(Port, section, key) || Names(Username, section, key) || Names(Password, section, key)
    || Names(MaxConnection, section, key)
  }

  lemma {:induction false} OthersStay(doc: Doc, ops: seq<Setter>, section: string, key: string)
    requires AllInRange(ops) && !Settable(section, key)
    ensures Lookup(DocRun(doc, ops), section, key) == Lookup(doc, section, key)
  {
    if ops != [] {
      var init, op := ops[..|ops| - 1], ops[|ops| - 1];
      OthersStay(doc, init, section, key);
      SetThenLookup(DocRun(doc, init), op.Target().Section(), op.Target().Key(), op.Value(), section, key);
    }
  }

  lemma {:induction false} NumbersStayLegal(t: Texts, ops: seq<Setter>)
    requires LegalValue(t.port) && LegalValue(t.max) && AllInRange(ops)
    ensures LegalValue(TextsRun(t, ops).port) && LegalValue(TextsRun(t, ops).max)
  {
    if ops != [] {
      var init, op := ops[..|ops| - 1], ops[|ops| - 1];
      NumbersStayLegal(t, init);
      if op.PortSet? || op.MaxConnectSet? {
        NumbersAreDurable(op);
      }
    }
  }

  // Starting on the printed document gives these settings.
  ghost predicate ReloadGives(doc: Doc, s: Settings) {
    Opened(Print(doc)).Some? && exists u: Texts :: Reads(Opened(Print(doc)).value, u) && u.Decoded() == s
  }

  lemma TextIsLegal(doc: Doc, t: Texts, e: Entry)
    requires WellFormed(doc) && Reads(doc, t)
    ensures LegalValue(t.Get(e))
  {
    assert Asked(e);
    LookupIsLegal(doc, e.Section(), e.Key());
  }

  lemma SettableIsLegal(doc: Doc, t: Texts, section: string, key: string)
    requires Reads(doc, t) && Settable(section, key)
    requires LegalValue(t.port) && LegalValue(t.user) && LegalValue(t.pass) && LegalValue(t.max)
    ensures Lookup(doc, section, key).Some? && LegalValue(Lookup(doc, section, key).value)
  {
    var e := if Names(Port, section, key) then Port
             else if Names(Username, section, key) then Username
             else if Names(Password, section, key) then Password
             else MaxConnection;
    assert Asked(e) && ValueOf(doc, e) == Lookup(doc, section, key);
  }

  lemma RunTextsAreLegal(doc: Doc, t: Texts, ops: seq<Setter>)
    requires WellFormed(doc) && Reads(doc, t) && AllInRange(ops)
    ensures LegalValue(TextsRun(t, ops).port) && LegalValue(TextsRun(t, ops).max)
  {
    TextIsLegal(doc, t, Port);
    TextIsLegal(doc, t, MaxConnection);
    NumbersStayLegal(t, ops);
  }

  // The keys that no setter writes answer as they did.
  lemma RunOthersAreLegal(doc: Doc, ops: seq<Setter>, section: string, key: string)
    requires WellFormed(doc) && AllInRange(ops) && !Settable(section, key)
    requires Lookup(DocRun(doc, ops), section, key).Some?
    ensures LegalValue(Lookup(DocRun(doc, ops), section, key).value)
  {
    OthersStay(doc, ops, section, key);
    LookupIsLegal(doc, section, key);
  }

  lemma {:induction false} RunIsWellFormedIf(doc: Doc, t: Texts, ops: seq<Setter>)
    requires WellFormed(doc) && Reads(doc, t) && AllInRange(ops)
    requires LegalValue(TextsRun(t, ops).user) && LegalValue(TextsRun(t, ops).pass)
    ensures WellFormed(DocRun(doc, ops))
  {
    RunTextsAreLegal(doc, t, ops);
    RunIsCoherent(doc, t, ops);
    RunKeepsLayout(doc, t, ops);
    var r, u := DocRun(doc, ops), TextsRun(t, ops);
    forall section, key | Lookup(r, section, key).Some?
      ensures LegalValue(Lookup(r, section, key).value)
    {
      if Settable(section, key) {
        SettableIsLegal(r, u, section, key);
      } else {
        RunOthersAreLegal(doc, ops, section, key);
      }
    }
    LayoutIsWellFormedIff(doc, r);
  }

  lemma DecodedIsLegal(doc: Doc, t: Texts)
    requires WellFormed(doc) && Reads(doc, t)
    ensures LegalValue(t.Decoded().username) && LegalValue(t.Decoded().passwd)
  {
    TextIsLegal(doc, t, Username);
    TextIsLegal(doc, t, Password);
  }

  // A document that is read back can give only a legal name and a legal password.
  lemma ReloadIsLegal(doc: Doc, s: Settings)
    requires AllFit(Print(doc), FIRST_LEN) && ReloadGives(doc, s)
    ensures LegalValue(s.username) && LegalValue(s.passwd)
  {
    OpenIsParse(Print(doc));
    ParsedIsWellFormed(Print(doc));
    var d := Opened(Print(doc)).value;
    var u: Texts :| Reads(d, u) && u.Decoded() == s;
    DecodedIsLegal(d, u);
  }

  // After a successful start and any run of setters with any arguments, writing the file and starting again gives the
  // cached settings if and only if the cached name and password have no newline and no leading blank.
  lemma CacheIsWhatAReloadGivesIff(text: string, t: Texts, ops: seq<Setter>)
    requires AllFit(text, FIRST_LEN) && Opened(text).Some? && Reads(Opened(text).value, t) && AllInRange(ops)
    requires AllFit(Print(DocRun(Opened(text).value, ops)), FIRST_LEN)
    ensures var s := CacheRun(t.Decoded(), ops);
      ReloadGives(DocRun(Opened(text).value, ops), s) <==> LegalValue(s.username) && LegalValue(s.passwd)
  {
    var doc, u := Opened(text).value, TextsRun(t, ops);
    var r, s := DocRun(doc, ops), u.Decoded();
    RunIsCoherent(doc, t, ops);
    if LegalValue(s.username) && LegalValue(s.passwd) {
      OpenIsParse(text);
      ParsedIsWellFormed(text);
      RunIsWellFormedIf(doc, t, ops);
      ReopensIff(r);
    }
    if ReloadGives(r, s) {
      ReloadIsLegal(r, s);
    }
  }

  // With a legal name and password, the document itself survives if and only if the lines that are written fit the read
  // buffer: a name that is too long is the other way to lose it.
  lemma RunReopensIff(text: string, t: Texts, ops: seq<Setter>)
    requires AllFit(text, FIRST_LEN) && Opened(text).Some? && Reads(Opened(text).value, t) && AllInRange(ops)
    requires LegalValue(TextsRun(t, ops).user) && LegalValue(TextsRun(t, ops).pass)
    ensures var r := DocRun(Opened(text).value, ops);
      Opened(Print(r)) == Some(r) <==> AllFit(Print(r), FIRST_LEN)
  {
    OpenIsParse(text);
    ParsedIsWellFormed(text);
    RunIsWellFormedIf(Opened(text).value, t, ops);
    ReopensIff(DocRun(Opened(text).value, ops));
  }

  // ---------- runs that keep every line short ----------

  // A document that any number of writes and reloads leaves as it is
  ghost predicate Stable(doc: Doc) {
    WellFormed(doc) && DocWithin(doc, FIRST_LEN - 1)
  }

  lemma SetterKeepsStable(doc: Doc, op: Setter)
    requires Stable(doc) && Durable(op)
    ensures Stable(DocAfter(doc, op))
  {
    SetterNamesAreLegal(op);
    var s, k := op.Target().Section(), op.Target().Key();
    SetIsWellFormedIff(doc, s, k, op.Value());
    assert |s| == 3;
    assert DocWithin(WithSection(doc, s), FIRST_LEN - 1);
    PutWithin(WithSection(doc, s), FindSection(doc, s), k, op.Value(), FIRST_LEN - 1);
  }

  lemma {:induction false} RunKeepsStable(doc: Doc, ops: seq<Setter>)
    requires Stable(doc) && AllDurable(ops)
    ensures Stable(DocRun(doc, ops))
  {
    if ops != [] {
      var init, last := ops[..|ops| - 1], ops[|ops| - 1];
      RunKeepsStable(doc, init);
      SetterKeepsStable(DocRun(doc, init), last);
    }
  }

  // After a successful start on a file of short lines and any run of durable setters, writing the file and starting
  // again gives exactly the document and the settings that are cached.
  lemma CacheIsWhatAReloadGives(text: string, t: Texts, ops: seq<Setter>)
    requires LinesWithin(SplitLines(text), FIRST_LEN - 1) && Opened(text).Some? && Reads(Opened(text).value, t)
    requires AllDurable(ops)
    ensures var doc := DocRun(Opened(text).value, ops);
      && Opened(Print(doc)) == Some(doc) && HasAll(doc)
      && forall u: Texts :: Reads(doc, u) ==> u.Decoded() == CacheRun(t.Decoded(), ops)
  {
    ShortLinesStayShort(text);
    RunIsCoherent(Opened(text).value, t, ops);
    RunKeepsStable(Opened(text).value, ops);
    var doc := DocRun(Opened(text).value, ops);
    ShortDocFits(doc);
    ReopensIff(doc);
    ReadsHasAll(doc, TextsRun(t, ops));
    forall u: Texts | Reads(doc, u)
      ensures u.Decoded() == CacheRun(t.Decoded(), ops)
    {
      ReadsAreUnique(doc, u, TextsRun(t, ops));
    }
  }
}
