/** The INI store of src/config/ini.c on the heap: rings of sections, rings of keys, and a line buffer in which the
    parser moves pointers and writes terminators. Each operation refines its value-level counterpart of IniFormat. */
module IniStore {
  import opened Options
  import opened Seqs
  import opened Rings
  import opened Text
  import opened CStrings
  import opened IniFormat
  import opened LineCutting

  // A key line: the name is fixed, the value is freed and replaced. A key that get_key has just created has no
  // value yet; it reads as the empty string until the caller stores one.
  class KeyEntry {
    const name: string
    var value: string
    ghost var slot: nat

    constructor (name: string, ghost slot: nat)
      ensures this.name == name && value == "" && this.slot == slot
    {
      this.name := name;
      value := "";
      this.slot := slot;
    }
  }

  lemma KeyTextsOneMore(lines: seq<KeyLine>, k: nat)
    requires k < |lines|
    ensures Unlines(KeyTexts(lines[..k + 1])) == Unlines(KeyTexts(lines[..k])) + KeyText(lines[k]) + "\n"
  {
    assert KeyTexts(lines[..k + 1]) == KeyTexts(lines[..k]) + [KeyText(lines[k])];
    UnlinesOneMore(KeyTexts(lines[..k]), KeyText(lines[k]));
  }

  // What a node of a section's ring points to
  datatype LineRef = KeyRef(entry: KeyEntry) | CommentRef(text: string) | BlankRef

  class SectionEntry {
    const name: string
    const keys: Ring<LineRef>
    ghost var lines: seq<KeyLine>
    ghost var Repr: set<object>

    // Node i of the ring shows line i. A key entry knows its slot, so no two nodes share one.
    ghost predicate ShowsLine(i: nat)
      requires i < |keys.nodes| && i < |lines|
      reads this, keys, Repr
    {
      match keys.nodes[i].item
      case KeyRef(e) => e in Repr && e.slot == i && lines[i] == Key(e.name, e.value)
      case CommentRef(t) => lines[i] == Comment(t)
      case BlankRef => lines[i] == Blank
    }

    ghost predicate Valid()
      reads this, Repr
    {
      && this in Repr && keys in Repr
      && (forall i :: 0 <= i < |keys.nodes| ==> keys.nodes[i] in Repr)
      && keys.Valid()
      && |lines| == |keys.nodes|
      && (forall i {:trigger ShowsLine(i)} :: 0 <= i < |lines| ==> ShowsLine(i))
    }

    constructor (name: string)
      ensures Valid() && fresh(Repr) && this.name == name && lines == []
    {
      this.name := name;
      keys := new Ring();
      lines := [];
      new;
      Repr := {this, keys};
    }

    // list_insert_after at the end of the section
    method Append(r: LineRef, ghost l: KeyLine)
      requires Valid()
      requires match r
        case KeyRef(e) => e !in Repr && e.slot == |lines| && l == Key(e.name, e.value)
        case CommentRef(t) => l == Comment(t)
        case BlankRef => l == Blank
      modifies this, keys, keys.nodes
      ensures Valid() && lines == old(lines) + [l]
      ensures r.KeyRef? ==> r.entry in Repr
      ensures fresh(Repr - old(Repr) - if r.KeyRef? then {r.entry} else {})
    {
      assert forall i {:trigger ShowsLine(i)} :: 0 <= i < |lines| ==> ShowsLine(i);
      ghost var before := keys.nodes;
      keys.Push(r);
      lines := lines + [l];
      Repr := Repr + {keys.nodes[|before|]} + if r.KeyRef? then {r.entry} else {};
      forall i | 0 <= i < |lines|
        ensures ShowsLine(i) && keys.nodes[i] in Repr
      {
        if i < |before| {
          assert keys.nodes[i] == before[i];
          assert old(ShowsLine(i));
        } else {
          assert keys.Items()[i] == r;
        }
      }
    }

    // The inner loop of ini_sync: every line of the ring, printed in ring order
    method PrintLines() returns (text: string)
      requires Valid()
      ensures text == Unlines(KeyTexts(lines))
    {
      text := "";
      ghost var k := 0;
      if keys.head == null {
        return;
      }
      var p: Node<LineRef> := keys.head;
      while true
        invariant k < |keys.nodes| && p == keys.nodes[k]
        invariant text == Unlines(KeyTexts(lines[..k]))
        decreases |lines| - k
      {
        assert ShowsLine(k);
        var line;
        match p.item {
          case KeyRef(e) => line := e.name + "=" + e.value;
          case CommentRef(t) => line := ";" + t;
          case BlankRef => line := "";
        }
        text := text + line + "\n";
        KeyTextsOneMore(lines, k);
        WalkOn(keys, k);
        p := p.next;
        k := k + 1;
        if p == keys.head {
          break;
        }
      }
      assert lines[..k] == lines;
    }

    // get_key without creation: walk the ring until the name matches.
    method FindEntry(key: string) returns (e: KeyEntry?, ghost k: nat)
      requires Valid()
      ensures k == FindKey(lines, key)
      ensures e == null <==> LookupKey(lines, key) == None
      ensures e != null ==> keys.nodes[k].item == KeyRef(e)
    {
      e, k := null, 0;
      if keys.head == null {
        return;
      }
      var p: Node<LineRef> := keys.head;
      while true
        invariant k < |keys.nodes| && p == keys.nodes[k]
        invariant e == null && forall j :: 0 <= j < k ==> !IsKey(lines[j], key)
        decreases |lines| - k
      {
        assert ShowsLine(k);
        if p.item.KeyRef? && p.item.entry.name == key {
          e := p.item.entry;
          return;
        }
        WalkOn(keys, k);
        p := p.next;
        k := k + 1;
        if p == keys.head {
          break;
        }
      }
    }

    // get_key with creation, then the old value is replaced.
    method SetKey(key: string, value: string)
      requires Valid()
      modifies Repr
      ensures Valid() && fresh(Repr - old(Repr))
      ensures lines == PutKey(old(lines), key, value)
    {
      var e, k := FindEntry(key);
      if e == null {
        e := new KeyEntry(key, |lines|);
        e.value := value;
        Append(KeyRef(e), Key(key, value));
      } else {
        assert ShowsLine(k);
        assert forall i {:trigger ShowsLine(i)} :: 0 <= i < |lines| ==> ShowsLine(i);
        e.value := value;
        lines := lines[k := Key(key, value)];
        forall i | 0 <= i < |lines|
          ensures ShowsLine(i)
        {
          assert old(ShowsLine(i));
        }
      }
    }

    method AddComment(text: string)
      requires Valid()
      modifies Repr
      ensures Valid() && fresh(Repr - old(Repr))
      ensures lines == old(lines) + [Comment(text)]
    {
      Append(CommentRef(text), Comment(text));
    }

    method AddBlank()
      requires Valid()
      modifies Repr
      ensures Valid() && fresh(Repr - old(Repr))
      ensures lines == old(lines) + [Blank]
    {
      Append(BlankRef, Blank);
    }

    // The removal loop compares names without looking at the kind of line, so it is called on keys only.
    method DropKey(key: string)
      requires Valid()
      requires forall i :: 0 <= i < |lines| ==> lines[i].Key?
      modifies Repr
      ensures Valid() && Repr <= old(Repr)
      ensures var k := FindKey(old(lines), key);
        lines == if k < |old(lines)| then Without(old(lines), k) else old(lines)
    {
      if keys.head == null {
        return;
      }
      var p: Node<LineRef> := keys.head;
      var found := false;
      ghost var k := 0;
      while true
        modifies {}
        invariant k < |keys.nodes| && p == keys.nodes[k] && !found
        invariant forall j :: 0 <= j < k ==> !IsKey(lines[j], key)
        decreases |lines| - k
      {
        assert ShowsLine(k);
        if p.item.entry.name == key {
          found := true;
          break;
        }
        WalkOn(keys, k);
        p := p.next;
        k := k + 1;
        if p == keys.head {
          break;
        }
      }
      if found {
        DropNode(p, k);
      }
    }

    method DropNode(p: Node<LineRef>, ghost k: nat)
      requires Valid() && k < |keys.nodes| && p == keys.nodes[k]
      requires forall i :: 0 <= i < |lines| ==> lines[i].Key?
      modifies Repr
      ensures Valid() && Repr == old(Repr)
      ensures lines == Without(old(lines), k)
    {
      ghost var before := keys.nodes;
      OneSlotEach(before, k, SlotOf(before, p));
      keys.Remove(p);
      lines := Without(lines, k);
      forall i | 0 <= i < |before|
        ensures before[i].item.KeyRef? && before[i].item.entry in Repr && before[i].item.entry.slot == i
      {
        assert old(ShowsLine(i));
      }
      forall i | k < i < |before| {
        before[i].item.entry.slot := i - 1;
      }
      forall i | 0 <= i < |lines|
        ensures ShowsLine(i) && keys.nodes[i] in Repr
      {
        var o := WithoutFrom(i, k);
        assert old(ShowsLine(o));
        assert keys.nodes[i] == before[o];
      }
    }
  }

  // What a node of the document's ring points to
  datatype TopRef = SectionRef(section: SectionEntry) | TopCommentRef(text: string) | TopBlankRef

  // What a node of the document's ring points to, with all its objects in part, shows the line l.
  ghost predicate Shows(r: TopRef, l: DocLine, part: set<object>)
    reads part
  {
    match r
    case SectionRef(s) => s in part && s.Repr == part && s.Valid() && l == Section(s.name, s.lines)
    case TopCommentRef(t) => part == {} && l == TopComment(t)
    case TopBlankRef => part == {} && l == TopBlank
  }

  class IniFile {
    const sections: Ring<TopRef>
    ghost var doc: Doc
    ghost var parts: seq<set<object>>  // parts[i]: the objects of the section at node i
    ghost var Repr: set<object>

    ghost predicate Apart(i: nat, j: nat)
      requires i < |parts| && j < |parts|
      reads this
    {
      parts[i] !! parts[j]
    }

    // The nodes ns and the parts that hang from them, whatever the parts hold
    ghost predicate FramedOver(ns: seq<Node<TopRef>>)
      reads this
    {
      && this in Repr && sections in Repr
      && |doc| == |parts| == |ns|
      && (forall i :: 0 <= i < |ns| ==> ns[i] in Repr)
      && (forall i :: 0 <= i < |parts| ==> parts[i] <= Repr && this !in parts[i] && sections !in parts[i])
      && (forall i, j :: 0 <= i < |parts| && 0 <= j < |ns| ==> ns[j] !in parts[i])
      && (forall i, j {:trigger Apart(i, j)} :: 0 <= i < |parts| && 0 <= j < |parts| && i != j ==> Apart(i, j))
    }

    ghost predicate Framed()
      reads this, sections, sections.nodes
    {
      sections.Valid() && FramedOver(sections.nodes)
    }

    ghost predicate ShowsTop(i: nat)
      requires i < |sections.nodes| && i < |doc| && i < |parts|
      reads this, sections, parts[i]
    {
      Shows(sections.nodes[i].item, doc[i], parts[i])
    }

    ghost predicate Valid()
      reads this, Repr
    {
      && this in Repr && sections in Repr
      && (forall i :: 0 <= i < |sections.nodes| ==> sections.nodes[i] in Repr)
      && Framed()
      && (forall i {:trigger ShowsTop(i)} :: 0 <= i < |doc| ==> ShowsTop(i))
    }

    // s is the section at slot i of the document, or there is none
    ghost predicate IsAt(s: SectionEntry?, at: Option<nat>)
      reads this, sections
    {
      match at
      case None => s == null
      case Some(i) => s != null && i < |doc| && i < |sections.nodes| && sections.nodes[i].item == SectionRef(s)
    }

    constructor ()
      ensures Valid() && fresh(Repr) && doc == []
    {
      sections := new Ring();
      doc, parts := [], [];
      new;
      Repr := {this, sections};
    }

    // list_insert_after at the end of the document
    method AppendTop(r: TopRef, ghost l: DocLine, ghost part: set<object>)
      requires Valid()
      requires part !! Repr && Shows(r, l, part)
      modifies this, sections, sections.nodes
      ensures Valid() && doc == old(doc) + [l]
      ensures fresh(Repr - old(Repr) - part)
      ensures sections.nodes[|old(doc)|].item == r
    {
      ghost var n := |doc|;
      ghost var before := sections.nodes;
      assert forall i {:trigger ShowsTop(i)} :: 0 <= i < n ==> ShowsTop(i);
      sections.Push(r);
      assert sections.Items()[n] == r;
      forall i | 0 <= i < n
        ensures Shows(before[i].item, doc[i], parts[i])
      {
        assert old(ShowsTop(i));
      }
      Grow(before, sections.nodes[n], l, part);
    }

    // After a node has been appended to the ring, it gets its line and its part.
    ghost method Grow(before: seq<Node<TopRef>>, last: Node<TopRef>, l: DocLine, part: set<object>)
      requires sections.Valid() && sections.nodes == before + [last] && FramedOver(before)
      requires forall i :: 0 <= i < |before| ==> Shows(before[i].item, doc[i], parts[i])
      requires Shows(last.item, l, part) && part !! Repr && last !in part && last !in Repr
      modifies this
      ensures Valid() && doc == old(doc) + [l] && Repr == old(Repr) + part + {last}
    {
      doc, parts := doc + [l], parts + [part];
      Repr := Repr + part + {last};
      forall i, j | 0 <= i < |parts| && 0 <= j < |parts| && i != j
        ensures Apart(i, j)
      {
        assert i < |before| && j < |before| ==> old(Apart(i, j));
      }
      forall i | 0 <= i < |doc|
        ensures ShowsTop(i)
      {
        assert i < |before| ==> old(Shows(before[i].item, doc[i], parts[i]));
      }
    }

    // A change within the part at slot i leaves the other lines of the document as they are.
    twostate lemma OthersStay(i: nat)
      requires old(Framed()) && i < |old(parts)|
      requires doc == old(doc) && parts == old(parts) && sections.nodes == old(sections.nodes)
      requires forall o: object :: o in old(Repr) && o !in old(parts[i]) ==> unchanged(o)
      requires forall j {:trigger old(ShowsTop(j))} :: 0 <= j < |old(doc)| && j != i ==> old(ShowsTop(j))
      ensures forall j {:trigger ShowsTop(j)} :: 0 <= j < |doc| && j != i ==> ShowsTop(j)
    {
      forall j | 0 <= j < |doc| && j != i
        ensures ShowsTop(j)
      {
        assert old(ShowsTop(j)) && old(Apart(i, j));
      }
    }

    // After the section at slot i has been changed, its part is hung back.
    ghost method Rejoin(i: nat, s: SectionEntry)
      requires Framed() && i < |doc| && sections.nodes[i].item == SectionRef(s)
      requires forall j {:trigger ShowsTop(j)} :: 0 <= j < |doc| && j != i ==> ShowsTop(j)
      requires s in parts[i] && s.Valid() && forall o :: o in s.Repr ==> o in parts[i] || o !in Repr
      modifies this
      ensures Valid() && Repr == old(Repr) + s.Repr
      ensures doc == old(doc)[i := Section(s.name, s.lines)]
    {
      doc := doc[i := Section(s.name, s.lines)];
      parts := parts[i := s.Repr];
      Repr := Repr + s.Repr;
      forall j, k | 0 <= j < |parts| && 0 <= k < |parts| && j != k
        ensures Apart(j, k)
      {
        assert old(Apart(j, k));
      }
      forall j | 0 <= j < |doc|
        ensures ShowsTop(j)
      {
        assert j != i ==> old(ShowsTop(j));
      }
    }

    // get_section without creation: walk the ring until a section of that name.
    method FindEntry(name: string) returns (s: SectionEntry?, ghost k: nat)
      requires Valid()
      ensures k == FindSection(doc, name)
      ensures s == null <==> FindSection(doc, name) == |doc|
      ensures IsAt(s, if k < |doc| then Some(k) else None)
    {
      s, k := null, 0;
      if sections.head == null {
        return;
      }
      var p: Node<TopRef> := sections.head;
      while true
        invariant k < |sections.nodes| && p == sections.nodes[k]
        invariant s == null && forall j :: 0 <= j < k ==> !IsSection(doc[j], name)
        decreases |doc| - k
      {
        assert ShowsTop(k);
        if p.item.SectionRef? && p.item.section.name == name {
          s := p.item.section;
          return;
        }
        WalkOn(sections, k);
        p := p.next;
        k := k + 1;
        if p == sections.head {
          break;
        }
      }
    }

    // get_section with creation
    method GetSection(name: string) returns (s: SectionEntry, ghost k: nat)
      requires Valid()
      modifies Repr
      ensures Valid() && fresh(Repr - old(Repr))
      ensures doc == WithSection(old(doc), name) && k == FindSection(old(doc), name)
      ensures IsAt(s, Some(k))
    {
      var found;
      found, k := FindEntry(name);
      if found == null {
        s := new SectionEntry(name);
        AppendTop(SectionRef(s), Section(name, []), s.Repr);
      } else {
        s := found;
      }
    }

    // get_key with creation on the section at slot i, then the old value is replaced.
    method SetInSection(s: SectionEntry, ghost i: nat, key: string, value: string)
      requires Valid() && IsAt(s, Some(i)) && doc[i].Section?
      modifies Repr
      ensures Valid() && fresh(Repr - old(Repr)) && IsAt(s, Some(i))
      ensures doc == WithLines(old(doc), i, PutKey(old(doc[i].lines), key, value))
    {
      assert ShowsTop(i);
      assert forall j {:trigger ShowsTop(j)} :: 0 <= j < |doc| && j != i ==> ShowsTop(j);
      s.SetKey(key, value);
      OthersStay(i);
      Rejoin(i, s);
    }

    // add_comment and add_blank, to the document or to the section at slot i
    method AddComment(s: SectionEntry?, ghost at: Option<nat>, text: string)
      requires Valid() && IsAt(s, at) && Load(doc, at).Valid()
      modifies Repr
      ensures Valid() && fresh(Repr - old(Repr)) && IsAt(s, at)
      ensures doc == AddLine(Load(old(doc), at), TopComment(text), Comment(text)).doc
    {
      if s == null {
        AppendTop(TopCommentRef(text), TopComment(text), {});
      } else {
        ghost var i := at.value;
        assert ShowsTop(i);
        assert forall j {:trigger ShowsTop(j)} :: 0 <= j < |doc| && j != i ==> ShowsTop(j);
        s.AddComment(text);
        OthersStay(i);
        Rejoin(i, s);
      }
    }

    method AddBlank(s: SectionEntry?, ghost at: Option<nat>)
      requires Valid() && IsAt(s, at) && Load(doc, at).Valid()
      modifies Repr
      ensures Valid() && fresh(Repr - old(Repr)) && IsAt(s, at)
      ensures doc == AddLine(Load(old(doc), at), TopBlank, Blank).doc
    {
      if s == null {
        AppendTop(TopBlankRef, TopBlank, {});
      } else {
        ghost var i := at.value;
        assert ShowsTop(i);
        assert forall j {:trigger ShowsTop(j)} :: 0 <= j < |doc| && j != i ==> ShowsTop(j);
        s.AddBlank();
        OthersStay(i);
        Rejoin(i, s);
      }
    }

    // ini_get_key_value: the size that the value needs, and the value when the caller's buffer is big enough
    method GetKeyValue(section: string, key: string, bufSize: nat) returns (len: nat, copied: Option<string>)
      requires Valid()
      ensures match Lookup(doc, section, key)
        case None => len == 0 && copied == None
        case Some(v) => len == |v| + 1 && copied == if len <= bufSize then Some(v) else None
    {
      ghost var i, k;
      var s, e;
      s, i := FindEntry(section);
      if s == null {
        return 0, None;
      }
      assert ShowsTop(i);
      e, k := s.FindEntry(key);
      if e == null {
        return 0, None;
      }
      assert s.ShowsLine(k);
      len := |e.value| + 1;
      copied := if len <= bufSize then Some(e.value) else None;
    }

    // ini_set_key_value with a value
    method SetKeyValue(section: string, key: string, value: string)
      requires Valid()
      modifies Repr
      ensures Valid() && fresh(Repr - old(Repr))
      ensures doc == SetValue(old(doc), section, key, value)
    {
      var s, i := GetSection(section);
      SetInSection(s, i, key, value);
    }

    // ini_set_key_value without a value, on a section that holds keys only
    method RemoveKeyValue(section: string, key: string)
      requires Valid()
      requires var i := FindSection(doc, section);
        i < |doc| ==> forall k :: 0 <= k < |doc[i].lines| ==> doc[i].lines[k].Key?
      modifies Repr
      ensures Valid() && Repr == old(Repr)
      ensures doc == RemoveKey(old(doc), section, key)
    {
      var s, i := FindEntry(section);
      if s == null {
        return;
      }
      assert ShowsTop(i);
      assert forall j {:trigger ShowsTop(j)} :: 0 <= j < |doc| && j != i ==> ShowsTop(j);
      s.DropKey(key);
      OthersStay(i);
      Rejoin(i, s);
    }

    // What analyse_line does to the document once the line has been cut
    method Take(r: Reading, current: SectionEntry?, ghost at: Option<nat>)
      returns (ok: bool, next: SectionEntry?, ghost nextAt: Option<nat>)
      requires Valid() && IsAt(current, at) && Load(doc, at).Valid()
      requires r.ReadsKey? ==> current != null
      modifies Repr
      ensures Valid() && fresh(Repr - old(Repr)) && IsAt(next, nextAt)
      ensures Load(old(doc), at).Valid()
      ensures match Absorb(Load(old(doc), at), r)
        case None => !ok && doc == old(doc)
        case Some(st) => ok && st == Load(doc, nextAt)
    {
      ok, next, nextAt := true, current, at;
      match r {
        case ReadsBlank => AddBlank(current, at);
        case ReadsComment(text) => AddComment(current, at, text);
        case ReadsSection(name) =>
          ghost var k;
          next, k := GetSection(name);
          nextAt := Some(k);
        case ReadsKey(key, value) => SetInSection(current, at.value, key, value);
        case Rejected => ok := false;
      }
    }

    // analyse_line. On failure the document is as it was; the buffer is not.
    method AnalyseLine(line: array<char>, ghost text: string, current: SectionEntry?, ghost at: Option<nat>)
      returns (ok: bool, next: SectionEntry?, ghost nextAt: Option<nat>)
      requires Valid() && IsAt(current, at) && Load(doc, at).Valid()
      requires line !in Repr && Holds(line, 0, text)
      modifies Repr, line
      ensures Valid() && fresh(Repr - old(Repr)) && IsAt(next, nextAt)
      ensures match Step(Load(old(doc), at), text)
        case None => !ok && doc == old(doc)
        case Some(st) => ok && st == Load(doc, nextAt)
    {
      var r := CutLine(line, text, current != null);
      ok, next, nextAt := Take(r, current, at);
    }

    // The body of the outer loop of ini_sync: what is written for one node
    method PrintTop(r: TopRef, ghost l: DocLine, ghost part: set<object>) returns (piece: string)
      requires Shows(r, l, part)
      ensures piece == Piece(l)
    {
      match r {
        case SectionRef(s) =>
          piece := s.PrintLines();
          piece := "[" + s.name + "]\n" + piece;
        case TopCommentRef(t) => piece := ";" + t + "\n";
        case TopBlankRef => piece := "\n";
      }
    }

    // ini_sync: the text that is written to the file
    method Sync() returns (text: string)
      requires Valid()
      ensures text == Print(doc)
    {
      text := "";
      ghost var k := 0;
      if sections.head == null {
        return;
      }
      var p: Node<TopRef> := sections.head;
      while true
        invariant k < |sections.nodes| && p == sections.nodes[k]
        invariant text == Print(doc[..k])
        decreases |doc| - k
      {
        assert ShowsTop(k);
        var piece := PrintTop(p.item, doc[k], parts[k]);
        PrintOneMore(doc, k);
        text := text + piece;
        WalkOn(sections, k);
        p := p.next;
        k := k + 1;
        if p == sections.head {
          break;
        }
      }
      assert doc[..k] == doc;
    }
  }

  // The text of one line of the document, as the two loops of ini_sync write it
  function Piece(l: DocLine): string {
    match l
    case Section(n, lines) => "[" + n + "]\n" + Unlines(KeyTexts(lines))
    case TopComment(t) => ";" + t + "\n"
    case TopBlank => "\n"
  }

  lemma PieceIsItsLines(l: DocLine)
    ensures Unlines(LineTexts(l)) == Piece(l)
  {
    match l
    case Section(n, lines) =>
      UnlinesOfConcat(["[" + n + "]"], KeyTexts(lines));
      UnlinesOfOne("[" + n + "]");
      assert ("[" + n + "]") + "\n" == "[" + n + "]\n";
    case TopComment(t) =>
      UnlinesOfOne(";" + t);
    case TopBlank =>
      UnlinesOfOne("");
  }

  lemma PrintOneMore(doc: Doc, k: nat)
    requires k < |doc|
    ensures Print(doc[..k + 1]) == Print(doc[..k]) + Piece(doc[k])
  {
    assert doc[..k + 1][..k] == doc[..k];
    UnlinesOfConcat(DocTexts(doc[..k]), LineTexts(doc[k]));
    PieceIsItsLines(doc[k]);
  }
}
