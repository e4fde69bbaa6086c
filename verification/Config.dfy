/** The configuration of src/config/config.c: cached settings in front of the INI store, written through by the
    setters. */
module Config {
  import opened Options
  import opened Text
  import opened CStrings
  import opened Decimal
  import opened IniFormat
  import opened IniRoundTrip
  import opened IniLookup
  import opened IniStore
  import opened IniOpen
  import opened LineReader

  datatype Settings = Settings(
    serverDir: string,
    serverFile: string,
    cmdLine: string,
    port: int,
    username: string,
    passwd: string,
    maxConnect: int,
    logFileSize: nat,
    logFileNum: int
  )

  // The nine keys that cfg_init reads
  datatype Entry =
    | WorkDir | ServerFile | Command
    | Port | Username | Password | MaxConnection
    | LogFileSize | LogFileNum
  {
    function Section(): string {
      match this
      case WorkDir => "minecraft"
      case ServerFile => "minecraft"
      case Command => "minecraft"
      case LogFileSize => "log"
      case LogFileNum => "log"
      case _ => "ssh"
    }

    function Key(): string {
      match this
      case WorkDir => "workdir"
      case ServerFile => "server-file"
      case Command => "command"
      case Port => "port"
      case Username => "username"
      case Password => "password"
      case MaxConnection => "max_connection"
      case LogFileSize => "log-file-size"
      case LogFileNum => "log-file-num"
    }
  }

  function ValueOf(doc: Doc, e: Entry): Option<string> {
    Lookup(doc, e.Section(), e.Key())
  }

  // Asking for an entry makes the facts about it available in a proof.
  predicate Asked(e: Entry) {
    true
  }

  // None of the nine keys is missing.
  ghost predicate HasAll(doc: Doc) {
    forall e: Entry {:trigger Asked(e)} :: Asked(e) ==> ValueOf(doc, e).Some?
  }

  // The nine values as text
  datatype Texts = Texts(dir: string, file: string, cmd: string, port: string, user: string, pass: string,
                         max: string, size: string, num: string) {
    function Get(e: Entry): string {
      match e
      case WorkDir => dir
      case ServerFile => file
      case Command => cmd
      case Port => port
      case Username => user
      case Password => pass
      case MaxConnection => max
      case LogFileSize => size
      case LogFileNum => num
    }

    // The settings that cfg_init computes from them
    function Decoded(): Settings {
      Settings(dir, file, cmd, Atoi(port) % TWO_16, user, pass, Atoi(max), SizeOf(size), Atoi(num))
    }
  }

  // The document holds all nine keys, with these values.
  ghost predicate Reads(doc: Doc, t: Texts) {
    forall e: Entry {:trigger Asked(e)} :: Asked(e) ==> ValueOf(doc, e) == Some(t.Get(e))
  }

  // The values of the nine keys as the lines of the file assign them, and what the fields are for them
  ghost predicate FromLines(s: Settings, lines: seq<string>) {
    && Some(s.serverDir) == LastAssigned(lines, "minecraft", "workdir")
    && Some(s.serverFile) == LastAssigned(lines, "minecraft", "server-file")
    && Some(s.cmdLine) == LastAssigned(lines, "minecraft", "command")
    && Some(s.username) == LastAssigned(lines, "ssh", "username")
    && Some(s.passwd) == LastAssigned(lines, "ssh", "password")
    && NumbersFromLines(s, lines)
  }

  ghost predicate NumbersFromLines(s: Settings, lines: seq<string>) {
    && (match LastAssigned(lines, "ssh", "port") case Some(v) => s.port == Atoi(v) % 0x1_0000 case None => false)
    && (match LastAssigned(lines, "ssh", "max_connection") case Some(v) => s.maxConnect == Atoi(v) case None => false)
    && (match LastAssigned(lines, "log", "log-file-size") case Some(v) => s.logFileSize == SizeOf(v) case None => false)
    && (match LastAssigned(lines, "log", "log-file-num") case Some(v) => s.logFileNum == Atoi(v) case None => false)
  }

  lemma {:induction false} ValueFromLines(lines: seq<string>, t: Texts, e: Entry)
    requires LoadLines(lines).Some? && Reads(LoadLines(lines).value.doc, t)
    ensures LastAssigned(lines, e.Section(), e.Key()) == Some(t.Get(e))
  {
    assert Asked(e);
    LookupIsLastAssigned(lines, e.Section(), e.Key());
  }

  lemma WorkDirFromLines(lines: seq<string>, t: Texts)
    requires LoadLines(lines).Some? && Reads(LoadLines(lines).value.doc, t)
    ensures LastAssigned(lines, "minecraft", "workdir") == Some(t.dir)
  {
    ValueFromLines(lines, t, WorkDir);
  }

  lemma ServerFileFromLines(lines: seq<string>, t: Texts)
    requires LoadLines(lines).Some? && Reads(LoadLines(lines).value.doc, t)
    ensures LastAssigned(lines, "minecraft", "server-file") == Some(t.file)
  {
    ValueFromLines(lines, t, ServerFile);
  }

  lemma CommandFromLines(lines: seq<string>, t: Texts)
    requires LoadLines(lines).Some? && Reads(LoadLines(lines).value.doc, t)
    ensures LastAssigned(lines, "minecraft", "command") == Some(t.cmd)
  {
    ValueFromLines(lines, t, Command);
  }

  lemma PortFromLines(lines: seq<string>, t: Texts)
    requires LoadLines(lines).Some? && Reads(LoadLines(lines).value.doc, t)
    ensures LastAssigned(lines, "ssh", "port") == Some(t.port)
  {
    ValueFromLines(lines, t, Port);
  }

  lemma UsernameFromLines(lines: seq<string>, t: Texts)
    requires LoadLines(lines).Some? && Reads(LoadLines(lines).value.doc, t)
    ensures LastAssigned(lines, "ssh", "username") == Some(t.user)
  {
    ValueFromLines(lines, t, Username);
  }

  lemma PasswordFromLines(lines: seq<string>, t: Texts)
    requires LoadLines(lines).Some? && Reads(LoadLines(lines).value.doc, t)
    ensures LastAssigned(lines, "ssh", "password") == Some(t.pass)
  {
    ValueFromLines(lines, t, Password);
  }

  lemma MaxConnectionFromLines(lines: seq<string>, t: Texts)
    requires LoadLines(lines).Some? && Reads(LoadLines(lines).value.doc, t)
    ensures LastAssigned(lines, "ssh", "max_connection") == Some(t.max)
  {
    ValueFromLines(lines, t, MaxConnection);
  }

  lemma LogFileSizeFromLines(lines: seq<string>, t: Texts)
    requires LoadLines(lines).Some? && Reads(LoadLines(lines).value.doc, t)
    ensures LastAssigned(lines, "log", "log-file-size") == Some(t.size)
  {
    ValueFromLines(lines, t, LogFileSize);
  }

  lemma LogFileNumFromLines(lines: seq<string>, t: Texts)
    requires LoadLines(lines).Some? && Reads(LoadLines(lines).value.doc, t)
    ensures LastAssigned(lines, "log", "log-file-num") == Some(t.num)
  {
    ValueFromLines(lines, t, LogFileNum);
  }

  lemma {:induction false} DecodedFromLines(lines: seq<string>, t: Texts)
    requires LoadLines(lines).Some? && Reads(LoadLines(lines).value.doc, t)
    ensures FromLines(t.Decoded(), lines)
  {
    WorkDirFromLines(lines, t);
    ServerFileFromLines(lines, t);
    CommandFromLines(lines, t);
    UsernameFromLines(lines, t);
    PasswordFromLines(lines, t);
    NumbersDecoded(lines, t);
  }

  lemma {:induction false} NumbersDecoded(lines: seq<string>, t: Texts)
    requires LoadLines(lines).Some? && Reads(LoadLines(lines).value.doc, t)
    ensures NumbersFromLines(t.Decoded(), lines)
  {
    PortFromLines(lines, t);
    MaxConnectionFromLines(lines, t);
    LogFileSizeFromLines(lines, t);
    LogFileNumFromLines(lines, t);
  }

  // The keys that a start asks for
  ghost predicate NamesAll(lines: seq<string>) {
    && LastAssigned(lines, "minecraft", "workdir").Some?
    && LastAssigned(lines, "minecraft", "server-file").Some?
    && LastAssigned(lines, "minecraft", "command").Some?
    && LastAssigned(lines, "ssh", "port").Some?
    && LastAssigned(lines, "ssh", "username").Some?
    && LastAssigned(lines, "ssh", "password").Some?
    && LastAssigned(lines, "ssh", "max_connection").Some?
    && LastAssigned(lines, "log", "log-file-size").Some?
    && LastAssigned(lines, "log", "log-file-num").Some?
  }

  lemma AskedFromLines(lines: seq<string>, e: Entry)
    requires LoadLines(lines).Some?
    ensures ValueOf(LoadLines(lines).value.doc, e) == LastAssigned(lines, e.Section(), e.Key())
  {
    LookupIsLastAssigned(lines, e.Section(), e.Key());
  }

  predicate Named(lines: seq<string>, e: Entry) {
    LastAssigned(lines, e.Section(), e.Key()).Some?
  }

  lemma NamesAllIs(lines: seq<string>)
    ensures NamesAll(lines) <==>
      && Named(lines, WorkDir) && Named(lines, ServerFile) && Named(lines, Command)
      && Named(lines, Port) && Named(lines, Username) && Named(lines, Password)
      && Named(lines, MaxConnection) && Named(lines, LogFileSize) && Named(lines, LogFileNum)
  {
  }

  lemma NineEntries(s: set<Entry>)
    ensures (forall e: Entry {:trigger Asked(e)} :: Asked(e) ==> e in s) <==>
      && WorkDir in s && ServerFile in s && Command in s
      && Port in s && Username in s && Password in s
      && MaxConnection in s && LogFileSize in s && LogFileNum in s
  {
    assert Asked(WorkDir) && Asked(ServerFile) && Asked(Command) && Asked(Port) && Asked(Username) && Asked(Password);
    assert Asked(MaxConnection) && Asked(LogFileSize) && Asked(LogFileNum);
    if && WorkDir in s && ServerFile in s && Command in s
       && Port in s && Username in s && Password in s
       && MaxConnection in s && LogFileSize in s && LogFileNum in s {
      forall e: Entry | Asked(e)
        ensures e in s
      {
        match e
        case WorkDir =>
        case ServerFile =>
        case Command =>
        case Port =>
        case Username =>
        case Password =>
        case MaxConnection =>
        case LogFileSize =>
        case LogFileNum =>
      }
    }
  }

  lemma HasAllIsNamesAll(lines: seq<string>)
    requires LoadLines(lines).Some?
    ensures HasAll(LoadLines(lines).value.doc) <==> NamesAll(lines)
  {
    NamesAllIs(lines);
    NineEntries(set e: Entry | Named(lines, e));
    forall e: Entry
      ensures Named(lines, e) <==> ValueOf(LoadLines(lines).value.doc, e).Some?
    {
      AskedFromLines(lines, e);
    }
  }

  // v is the answer for e.
  ghost predicate Gives(doc: Doc, e: Entry, v: Option<string>) {
    forall x: Entry {:trigger Asked(x)} :: Asked(x) && x == e ==> v == ValueOf(doc, x)
  }

  lemma NoneIsMissing(doc: Doc, e: Entry)
    requires Gives(doc, e, None)
    ensures !HasAll(doc)
  {
    assert Asked(e);
  }

  lemma NineGivenAreRead(doc: Doc, t: Texts)
    requires Gives(doc, WorkDir, Some(t.dir)) && Gives(doc, ServerFile, Some(t.file))
    requires Gives(doc, Command, Some(t.cmd))
    requires Gives(doc, Port, Some(t.port)) && Gives(doc, Username, Some(t.user)) && Gives(doc, Password, Some(t.pass))
    requires Gives(doc, MaxConnection, Some(t.max)) && Gives(doc, LogFileSize, Some(t.size))
    requires Gives(doc, LogFileNum, Some(t.num))
    ensures Reads(doc, t)
  {
  }

  lemma ReadsHasAll(doc: Doc, t: Texts)
    requires Reads(doc, t)
    ensures HasAll(doc)
  {
  }

  lemma ReadsAreUnique(doc: Doc, t: Texts, u: Texts)
    requires Reads(doc, t) && Reads(doc, u)
    ensures t == u
  {
    assert Asked(WorkDir) && Asked(ServerFile) && Asked(Command) && Asked(Port) && Asked(Username) && Asked(Password);
    assert Asked(MaxConnection) && Asked(LogFileSize) && Asked(LogFileNum);
  }

  // The value of a key, fetched as cfg_init does: first its size, then a buffer of that size
  method FetchString(f: IniFile, e: Entry) returns (v: Option<string>)
    requires f.Valid()
    ensures Gives(f.doc, e, v)
  {
    var len;
    len, v := f.GetKeyValue(e.Section(), e.Key(), 0);
    if len == 0 {
      return None;
    }
    len, v := f.GetKeyValue(e.Section(), e.Key(), len);
  }

  // The same with a buffer that is shared between the numeric keys and grows when a value does not fit
  method FetchShared(f: IniFile, e: Entry, bufLen: nat) returns (v: Option<string>, newLen: nat)
    requires f.Valid()
    ensures Gives(f.doc, e, v) && newLen >= bufLen
  {
    var len;
    newLen := bufLen;
    len, v := f.GetKeyValue(e.Section(), e.Key(), bufLen);
    if len > bufLen {
      newLen := len;
      len, v := f.GetKeyValue(e.Section(), e.Key(), newLen);
    }
  }

  // The values of three keys that cfg_init reads one after the other
  datatype Three = Three(a: string, b: string, c: string)

  ghost predicate GivesThree(doc: Doc, e: Entry, f: Entry, g: Entry, t: Option<Three>) {
    if t.Some? then Gives(doc, e, Some(t.value.a)) && Gives(doc, f, Some(t.value.b)) && Gives(doc, g, Some(t.value.c))
    else !HasAll(doc)
  }

  // The minecraft section: each value in a buffer of its own
  method FetchMinecraft(f: IniFile) returns (t: Option<Three>)
    requires f.Valid()
    ensures GivesThree(f.doc, WorkDir, ServerFile, Command, t)
  {
    t := None;
    var dir := FetchString(f, WorkDir);
    if dir == None {
      NoneIsMissing(f.doc, WorkDir);
      return;
    }
    var file := FetchString(f, ServerFile);
    if file == None {
      NoneIsMissing(f.doc, ServerFile);
      return;
    }
    var cmd := FetchString(f, Command);
    if cmd == None {
      NoneIsMissing(f.doc, Command);
      return;
    }
    t := Some(Three(dir.value, file.value, cmd.value));
  }

  // The first three keys of the ssh section: the port goes through the shared buffer.
  method FetchLogin(f: IniFile) returns (t: Option<Three>, bufLen: nat)
    requires f.Valid()
    ensures GivesThree(f.doc, Port, Username, Password, t)
  {
    t := None;
    var port;
    port, bufLen := FetchShared(f, Port, 64);
    if port == None {
      NoneIsMissing(f.doc, Port);
      return;
    }
    var user := FetchString(f, Username);
    if user == None {
      NoneIsMissing(f.doc, Username);
      return;
    }
    var pass := FetchString(f, Password);
    if pass == None {
      NoneIsMissing(f.doc, Password);
      return;
    }
    t := Some(Three(port.value, user.value, pass.value));
  }

  // The three numbers at the end, all through the shared buffer
  method FetchNumbers(f: IniFile, firstLen: nat) returns (t: Option<Three>)
    requires f.Valid()
    ensures GivesThree(f.doc, MaxConnection, LogFileSize, LogFileNum, t)
  {
    t := None;
    var max, bufLen := FetchShared(f, MaxConnection, firstLen);
    if max == None {
      NoneIsMissing(f.doc, MaxConnection);
      return;
    }
    var size, num;
    size, bufLen := FetchShared(f, LogFileSize, bufLen);
    if size == None {
      NoneIsMissing(f.doc, LogFileSize);
      return;
    }
    num, bufLen := FetchShared(f, LogFileNum, bufLen);
    if num == None {
      NoneIsMissing(f.doc, LogFileNum);
      return;
    }
    t := Some(Three(max.value, size.value, num.value));
  }

  // The nine fetches of cfg_init in their order; the first missing key ends it.
  method FetchAll(f: IniFile) returns (t: Option<Texts>)
    requires f.Valid()
    ensures t.Some? <==> HasAll(f.doc)
    ensures t.Some? ==> Reads(f.doc, t.value)
  {
    t := None;
    var first := FetchMinecraft(f);
    if first == None {
      return;
    }
    var login, bufLen := FetchLogin(f);
    if login == None {
      return;
    }
    var numbers := FetchNumbers(f, bufLen);
    if numbers == None {
      return;
    }
    var (x, y, z) := (first.value, login.value, numbers.value);
    t := Some(Texts(x.a, x.b, x.c, y.a, y.b, y.c, z.a, z.b, z.c));
    NineGivenAreRead(f.doc, t.value);
    ReadsHasAll(f.doc, t.value);
  }

  // The first half of cfg_init: the file is opened and the nine values are fetched.
  method OpenAndFetch(content: string) returns (f: IniFile?, t: Option<Texts>)
    requires NulFree(content)
    ensures t.Some? <==> Opened(content).Some? && HasAll(Opened(content).value)
    ensures t.Some? ==> f != null && fresh(f) && f.Valid() && fresh(f.Repr)
    ensures t.Some? ==> Opened(content) == Some(f.doc) && Reads(f.doc, t.value)
  {
    t := None;
    f := Open(content);
    if f != null {
      t := FetchAll(f);
    }
  }

  lemma StartsFromLines(content: string)
    ensures var lines := ReadAll(content, 256);
      Opened(content).Some? && HasAll(Opened(content).value) <==> AllAcceptable(lines) && NamesAll(lines)
  {
    var lines := ReadAll(content, FIRST_LEN);
    LookupIsLastAssigned(lines, "", "");
    if LoadLines(lines).Some? {
      HasAllIsNamesAll(lines);
    }
  }

  class Cache {
    var serverDir: string
    var serverFile: string
    var cmdLine: string
    var port: int
    var username: string
    var passwd: string
    var maxConnect: int
    var logFileSize: nat
    var logFileNum: int
    var file: IniFile?

    ghost function Cached(): Settings
      reads this
    {
      Settings(serverDir, serverFile, cmdLine, port, username, passwd, maxConnect, logFileSize, logFileNum)
    }

    ghost var texts: Texts  // what the nine keys held when the fields were last computed

    ghost predicate Valid()
      reads this, file, if file == null then {} else file.Repr
    {
      file != null && this !in file.Repr && file.Valid()
    }

    // Every cached field is what cfg_init would compute from the document in memory.
    ghost predicate Coherent()
      reads this, file, if file == null then {} else file.Repr
    {
      Valid() && Reads(file.doc, texts) && Cached() == texts.Decoded()
    }

    constructor ()
      ensures file == null
    {
      serverDir, serverFile, cmdLine, username, passwd := "", "", "", "", "";
      port, maxConnect, logFileSize, logFileNum := 0, 0, 0, 0;
      file := null;
    }

    // cfg_init on a file that can be read, with the given content
    method Init(content: string) returns (ok: bool)
      requires NulFree(content)
      modifies this
      ensures ok <==> Opened(content).Some? && HasAll(Opened(content).value)
      ensures ok ==> Coherent() && fresh(file) && fresh(file.Repr) && file.doc == Opened(content).value
      ensures var lines := ReadAll(content, 256);
        && (ok <==> AllAcceptable(lines) && NamesAll(lines))
        && (ok ==> FromLines(Cached(), lines))
    {
      StartsFromLines(content);
      var f, t := OpenAndFetch(content);
      ok := t.Some?;
      if ok {
        DecodedFromLines(ReadAll(content, FIRST_LEN), t.value);
        Assign(t.value);
        file := f;
      }
    }

    method Assign(t: Texts)
      modifies this
      ensures Cached() == t.Decoded() && texts == t
    {
      texts := t;
      serverDir, serverFile, cmdLine := t.dir, t.file, t.cmd;
      port := Atoi(t.port) % TWO_16;
      username, passwd := t.user, t.pass;
      maxConnect := Atoi(t.max);
      logFileSize := GetSize(t.size);
      logFileNum := Atoi(t.num);
    }

    // cfg_write: the text that goes to the file
    method Write() returns (text: string)
      requires Valid()
      ensures text == Print(file.doc)
    {
      text := file.Sync();
    }

    // ini_set_key_value on behalf of a setter, once the field has its new value
    method Store(ghost op: Setter, e: Entry, value: string)
      requires Valid() && Reads(file.doc, texts) && op.InRange() && e == op.Target() && value == op.Value()
      requires Cached() == TextsAfter(texts, op).Decoded()
      modifies `texts, file.Repr
      ensures Coherent() && file == old(file) && fresh(file.Repr - old(file.Repr))
      ensures file.doc == DocAfter(old(file.doc), op) && Cached() == old(Cached())
    {
      ReadsAfter(file.doc, texts, op);
      texts := TextsAfter(texts, op);
      file.SetKeyValue(e.Section(), e.Key(), value);
    }

    method SetPort(newPort: int)
      requires Coherent() && 0 <= newPort < TWO_16
      modifies `port, `texts, file.Repr
      ensures Coherent() && file == old(file) && fresh(file.Repr - old(file.Repr))
      ensures file.doc == DocAfter(old(file.doc), PortSet(newPort))
      ensures Cached() == CacheAfter(old(Cached()), PortSet(newPort))
      ensures Lookup(file.doc, "ssh", "port") == Some(Printed(newPort))
    {
      DecodedAfter(texts, PortSet(newPort));
      TargetAnswers(file.doc, PortSet(newPort));
      port := newPort;
      Store(PortSet(newPort), Port, Printed(port));
    }

    method SetUsername(newName: string)
      requires Coherent()
      modifies `username, `texts, file.Repr
      ensures Coherent() && file == old(file) && fresh(file.Repr - old(file.Repr))
      ensures file.doc == DocAfter(old(file.doc), UsernameSet(newName))
      ensures Cached() == CacheAfter(old(Cached()), UsernameSet(newName))
      ensures Lookup(file.doc, "ssh", "username") == Some(newName)
    {
      DecodedAfter(texts, UsernameSet(newName));
      TargetAnswers(file.doc, UsernameSet(newName));
      username := newName;
      Store(UsernameSet(newName), Username, username);
    }

    method SetPasswd(newPasswd: string)
      requires Coherent()
      modifies `passwd, `texts, file.Repr
      ensures Coherent() && file == old(file) && fresh(file.Repr - old(file.Repr))
      ensures file.doc == DocAfter(old(file.doc), PasswdSet(newPasswd))
      ensures Cached() == CacheAfter(old(Cached()), PasswdSet(newPasswd))
      ensures Lookup(file.doc, "ssh", "password") == Some(newPasswd)
    {
      DecodedAfter(texts, PasswdSet(newPasswd));
      TargetAnswers(file.doc, PasswdSet(newPasswd));
      passwd := newPasswd;
      Store(PasswdSet(newPasswd), Password, passwd);
    }

    method SetMaxConnect(num: int)
      requires Coherent() && -TWO_31 <= num < TWO_31
      modifies `maxConnect, `texts, file.Repr
      ensures Coherent() && file == old(file) && fresh(file.Repr - old(file.Repr))
      ensures file.doc == DocAfter(old(file.doc), MaxConnectSet(num))
      ensures Cached() == CacheAfter(old(Cached()), MaxConnectSet(num))
      ensures Lookup(file.doc, "ssh", "max_connection") == Some(Printed(num % 0x1_0000_0000))
    {
      DecodedAfter(texts, MaxConnectSet(num));
      TargetAnswers(file.doc, MaxConnectSet(num));
      maxConnect := num;
      Store(MaxConnectSet(num), MaxConnection, Printed(maxConnect % TWO_32));
    }
  }

  lemma LoginNames(doc: Doc)
    ensures ValueOf(doc, Port) == Lookup(doc, "ssh", "port")
    ensures ValueOf(doc, Username) == Lookup(doc, "ssh", "username")
    ensures ValueOf(doc, Password) == Lookup(doc, "ssh", "password")
    ensures ValueOf(doc, MaxConnection) == Lookup(doc, "ssh", "max_connection")
  {
  }

  // What a setter stores, and under which name
  lemma TargetAnswers(doc: Doc, op: Setter)
    requires op.InRange()
    ensures match op
      case PortSet(p) => Lookup(DocAfter(doc, op), "ssh", "port") == Some(Printed(p))
      case UsernameSet(u) => Lookup(DocAfter(doc, op), "ssh", "username") == Some(u)
      case PasswdSet(p) => Lookup(DocAfter(doc, op), "ssh", "password") == Some(p)
      case MaxConnectSet(n) =>
        Lookup(DocAfter(doc, op), "ssh", "max_connection") == Some(Printed(n % 0x1_0000_0000))
  {
    SetAnswers(doc, op, op.Target());
    LoginNames(DocAfter(doc, op));
  }

  // ---------- the setters on values ----------

  datatype Setter =
    | PortSet(port: int)
    | UsernameSet(name: string)
    | PasswdSet(passwd: string)
    | MaxConnectSet(num: int)
  {
    // What the C types of the arguments allow
    predicate InRange() {
      match this
      case PortSet(p) => 0 <= p < TWO_16
      case MaxConnectSet(n) => -TWO_31 <= n < TWO_31
      case _ => true
    }

    function Target(): Entry {
      match this
      case PortSet(_) => Port
      case UsernameSet(_) => Username
      case PasswdSet(_) => Password
      case MaxConnectSet(_) => MaxConnection
    }

    // sprintf("%u") of a negative int prints its 32 bits.
    function Value(): string
      requires InRange()
    {
      match this
      case PortSet(p) => Printed(p)
      case UsernameSet(s) => s
      case PasswdSet(s) => s
      case MaxConnectSet(n) => Printed(n % TWO_32)
    }
  }

  function DocAfter(doc: Doc, op: Setter): Doc
    requires op.InRange()
  {
    SetValue(doc, op.Target().Section(), op.Target().Key(), op.Value())
  }

  function CacheAfter(s: Settings, op: Setter): Settings {
    match op
    case PortSet(p) => s.(port := p)
    case UsernameSet(u) => s.(username := u)
    case PasswdSet(p) => s.(passwd := p)
    case MaxConnectSet(n) => s.(maxConnect := n)
  }

  // No two of the nine keys share both names.
  lemma EntriesDiffer(e: Entry, f: Entry)
    requires e != f
    ensures e.Section() != f.Section() || e.Key() != f.Key()
  {
    if e.Section() == f.Section() && |e.Key()| == |f.Key()| {
      assert e.Key()[0] != f.Key()[0];
    }
  }

  // A setter changes the value of its own key and no other.
  lemma SetAnswers(doc: Doc, op: Setter, e: Entry)
    requires op.InRange()
    ensures ValueOf(DocAfter(doc, op), e) == if e == op.Target() then Some(op.Value()) else ValueOf(doc, e)
  {
    SetThenLookup(doc, op.Target().Section(), op.Target().Key(), op.Value(), e.Section(), e.Key());
    if e != op.Target() {
      EntriesDiffer(e, op.Target());
    }
  }

  function TextsAfter(t: Texts, op: Setter): Texts
    requires op.InRange()
  {
    match op
    case PortSet(_) => t.(port := op.Value())
    case UsernameSet(_) => t.(user := op.Value())
    case PasswdSet(_) => t.(pass := op.Value())
    case MaxConnectSet(_) => t.(max := op.Value())
  }

  lemma DecodedAfter(t: Texts, op: Setter)
    requires op.InRange()
    ensures TextsAfter(t, op).Decoded() == CacheAfter(t.Decoded(), op)
  {
    match op
    case PortSet(p) => PortReadsBack(p);
    case MaxConnectSet(n) => IntReadsBack(n);
    case _ =>
  }

  lemma TextAfter(t: Texts, op: Setter, e: Entry)
    requires op.InRange()
    ensures TextsAfter(t, op).Get(e) == if e == op.Target() then op.Value() else t.Get(e)
  {
  }

  lemma ReadsAfter(doc: Doc, t: Texts, op: Setter)
    requires Reads(doc, t) && op.InRange()
    ensures Reads(DocAfter(doc, op), TextsAfter(t, op))
  {
    forall e: Entry | Asked(e)
      ensures ValueOf(DocAfter(doc, op), e) == Some(TextsAfter(t, op).Get(e))
    {
      SetAnswers(doc, op, e);
      TextAfter(t, op, e);
    }
  }

  // A setter keeps cache and document together: printing a number and atoi undo each other.
  lemma AfterSet(doc: Doc, t: Texts, op: Setter)
    requires Reads(doc, t) && op.InRange()
    ensures Reads(DocAfter(doc, op), TextsAfter(t, op))
    ensures TextsAfter(t, op).Decoded() == CacheAfter(t.Decoded(), op)
  {
    ReadsAfter(doc, t, op);
    DecodedAfter(t, op);
  }
}
