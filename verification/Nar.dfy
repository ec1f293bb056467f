/**
 * The Nix Archive parser of site/js/nar.js. A byte string is a `string` whose characters are the
 * byte values.
 */
module Nar {
  import opened Prelude

  const PAD := 8
  const MAGIC := "nix-archive-1"

  datatype Entry =
    | File(path: string, executable: bool, data: string)
    | Link(path: string, target: string)
    | Dir(path: string)

  /** What one read at an offset gives: it throws, or it yields a value and the offset after it. */
  datatype Step<+T> = Throws | At(value: T, next: nat)

  /** Everything readable blob by blob from an offset, up to the offset where a read throws. */
  datatype Stream = End(at: nat) | Blob(value: string, rest: Stream)

  // ---------- the reads, as functions of the bytes and the offset ----------

  function LittleEndian(s: string): nat {
    if s == "" then 0 else s[0] as int + 256 * LittleEndian(s[1..])
  }

  /** How many bytes bring a length up to a multiple of 8 (PaddingIs gives the closed form). */
  function Padding(length: nat): (r: nat)
    ensures r < PAD
  {
    if length == 0 then 0 else if length < PAD then PAD - length else Padding(length - PAD)
  }

  lemma {:induction false} PaddingIs(length: nat)
    ensures Padding(length) == (PAD - length % PAD) % PAD
  {
    if length >= PAD {
      PaddingIs(length - PAD);
    }
  }

  function U64At(bytes: string, offset: nat): Step<nat> {
    if offset + 8 > |bytes| then Throws
    else
      At(LittleEndian(bytes[offset..offset + 4]) + LittleEndian(bytes[offset + 4..offset + 8]) * 0x1_0000_0000,
         offset + 8)
  }

  /** A subarray view: both ends are clamped to the buffer. */
  function Subarray(bytes: string, begin: nat, end: nat): string
    requires begin <= end
  {
    bytes[Min(begin, |bytes|)..Min(end, |bytes|)]
  }

  function BlobAt(bytes: string, offset: nat): (r: Step<string>)
    ensures r.At? ==> offset + 8 <= |bytes| && offset + 8 <= r.next
  {
    match U64At(bytes, offset)
    case Throws => Throws
    case At(length, next) => At(Subarray(bytes, next, next + length), next + length + Padding(length))
  }

  function StreamAt(bytes: string, offset: nat): (s: Stream)
    ensures s.End? ==> s.at == offset
    decreases |bytes| - offset
  {
    match BlobAt(bytes, offset)
    case Throws => End(offset)
    case At(value, next) => Blob(value, StreamAt(bytes, next))
  }

  // ---------- the grammar, on the blobs ----------

  /** What parsing a part gives: it throws, or it yields the entries pushed and the blobs after the part. */
  datatype Parse = Refused | Parsed(entries: seq<Entry>, rest: Stream)

  function Count(s: Stream): nat {
    match s
    case End(_) => 0
    case Blob(_, rest) => 1 + Count(rest)
  }

  predicate Begins(s: Stream, want: string) {
    s.Blob? && s.value == want
  }

  function Child(path: string, name: string): string {
    if path == "" then name else path + "/" + name
  }

  /** Entries already pushed, before whatever the rest of the parse gives. */
  function Prepend(before: seq<Entry>, rest: Parse): Parse {
    match rest
    case Refused => Refused
    case Parsed(entries, after) => Parsed(before + entries, after)
  }

  /** A contents blob and the closing parenthesis. */
  function ContentsOn(s: Stream, path: string, executable: bool): (r: Parse)
    ensures r.Parsed? ==> Count(r.rest) < Count(s)
  {
    if s.Blob? && Begins(s.rest, ")") then Parsed([File(path, executable, s.value)], s.rest.rest) else Refused
  }

  function RegularOn(s: Stream, path: string): (r: Parse)
    ensures r.Parsed? ==> Count(r.rest) < Count(s)
  {
    if Begins(s, "executable") then
      if Begins(s.rest, "") && Begins(s.rest.rest, "contents") then
        assert Count(s.rest.rest.rest) < Count(s.rest.rest) < Count(s.rest);
        ContentsOn(s.rest.rest.rest, path, true)
      else Refused
    else if Begins(s, "contents") then ContentsOn(s.rest, path, false)
    else Refused
  }

  function SymlinkOn(s: Stream, path: string): (r: Parse)
    ensures r.Parsed? ==> Count(r.rest) < Count(s)
  {
    if Begins(s, "target") && s.rest.Blob? && Begins(s.rest.rest, ")") then
      assert Count(s.rest.rest.rest) < Count(s.rest.rest) < Count(s.rest);
      Parsed([Link(path, s.rest.value)], s.rest.rest.rest)
    else Refused
  }

  function NodeOn(s: Stream, path: string): (r: Parse)
    ensures r.Parsed? ==> Count(r.rest) < Count(s)
    decreases Count(s)
  {
    if Begins(s, "(") && Begins(s.rest, "type") && s.rest.rest.Blob? then
      assert Count(s.rest.rest.rest) < Count(s.rest.rest) < Count(s.rest);
      BodyOn(s.rest.rest.rest, path, s.rest.rest.value)
    else Refused
  }

  /** What follows a node's type. */
  function BodyOn(s: Stream, path: string, kind: string): (r: Parse)
    ensures r.Parsed? ==> Count(r.rest) <= Count(s)
    decreases Count(s), 1
  {
    if kind == "regular" then RegularOn(s, path)
    else if kind == "symlink" then SymlinkOn(s, path)
    else if kind == "directory" then Prepend([Dir(path)], EntriesOn(s, path))
    else Refused
  }

  /** The entries of a directory up to and including its closing parenthesis. */
  function EntriesOn(s: Stream, path: string): (r: Parse)
    ensures r.Parsed? ==> Count(r.rest) < Count(s)
    decreases Count(s), 0
  {
    if Begins(s, ")") then Parsed([], s.rest)
    else if !Begins(s, "entry") then Refused
    else
      match EntryOn(s.rest, path)
      case Refused => Refused
      case Parsed(entry, after) => Prepend(entry, EntriesOn(after, path))
  }

  /** One entry, its opening token already read. */
  function EntryOn(s: Stream, path: string): (r: Parse)
    ensures r.Parsed? ==> Count(r.rest) < Count(s)
    decreases Count(s)
  {
    if Begins(s, "(") && Begins(s.rest, "name") && s.rest.rest.Blob? then
      assert Count(s.rest.rest.rest) < Count(s.rest.rest) < Count(s.rest);
      NamedOn(s.rest.rest.rest, Child(path, s.rest.rest.value))
    else Refused
  }

  /** What follows an entry's name. */
  function NamedOn(s: Stream, path: string): (r: Parse)
    ensures r.Parsed? ==> Count(r.rest) < Count(s)
    decreases Count(s)
  {
    if !Begins(s, "node") then Refused
    else
      match NodeOn(s.rest, path)
      case Refused => Refused
      case Parsed(node, after) => if Begins(after, ")") then Parsed(node, after.rest) else Refused
  }

  function ParsedNar(bytes: string): Parse {
    var s := StreamAt(bytes, 0);
    if Begins(s, MAGIC) then NodeOn(s.rest, "") else Refused
  }

  // ---------- the parser ----------

  /** A cursor over the archive. A read that throws answers None; nothing reads after that. */
  class Reader {
    const bytes: string
    var offset: nat

    constructor (bytes: string)
      ensures this.bytes == bytes && offset == 0
    {
      this.bytes := bytes;
      offset := 0;
    }

    /** The blobs still to be read. */
    ghost function Ahead(): Stream
      reads this
    {
      StreamAt(bytes, offset)
    }

    method U64() returns (r: Step<nat>)
      modifies this
      ensures r == U64At(bytes, old(offset))
      ensures r.At? ==> offset == r.next
    {
      if offset + 8 > |bytes| {
        return Throws;
      }
      var lo := LittleEndian(bytes[offset..offset + 4]);
      var hi := LittleEndian(bytes[offset + 4..offset + 8]);
      offset := offset + 8;
      return At(hi * 0x1_0000_0000 + lo, offset);
    }

    /** A token or any other string: its length first, and zeroes behind it. */
    method ReadBlob() returns (r: Option<string>)
      modifies this
      ensures r.Some? <==> old(Ahead()).Blob?
      ensures r.Some? ==> old(Ahead()) == Blob(r.value, Ahead())
      ensures r.Some? ==> old(offset) + 8 <= |bytes| && old(offset) + 8 <= offset
    {
      var length := U64();
      if length.Throws? {
        return None;
      }
      var data := Subarray(bytes, offset, offset + length.value);
      PaddingIs(length.value);
      offset := offset + length.value + (PAD - length.value % PAD) % PAD;
      return Some(data);
    }

    method Expect(want: string) returns (ok: bool)
      modifies this
      ensures ok <==> Begins(old(Ahead()), want)
      ensures ok ==> old(Ahead()) == Blob(want, Ahead())
      ensures ok ==> old(offset) + 8 <= |bytes| && old(offset) + 8 <= offset
    {
      var got := ReadBlob();
      return got == Some(want);
    }
  }

  /** The list every node pushes its entries onto. */
  class EntryList {
    var items: seq<Entry>

    constructor ()
      ensures items == []
    {
      items := [];
    }
  }

  /** A parsing method did what the grammar says: it threw, or it pushed the entries and stands after the part. */
  ghost predicate Did(r: Parse, ok: bool, ahead: Stream, before: seq<Entry>, after: seq<Entry>) {
    match r
    case Refused => !ok
    case Parsed(entries, rest) => ok && ahead == rest && after == before + entries
  }

  method ParseNode(reader: Reader, path: string, entries: EntryList) returns (ok: bool)
    modifies reader, entries
    ensures Did(NodeOn(old(reader.Ahead()), path), ok, reader.Ahead(), old(entries.items), entries.items)
    ensures ok ==> reader.offset > old(reader.offset)
    decreases |reader.bytes| - reader.offset
  {
    ok := reader.Expect("(");
    if !ok { return; }
    ok := reader.Expect("type");
    if !ok { return; }
    var kind := reader.ReadBlob();
    if kind.None? { return false; }
    ok := ParseBody(reader, path, kind.value, entries);
  }

  method ParseBody(reader: Reader, path: string, kind: string, entries: EntryList) returns (ok: bool)
    modifies reader, entries
    ensures Did(BodyOn(old(reader.Ahead()), path, kind), ok, reader.Ahead(), old(entries.items), entries.items)
    ensures ok ==> reader.offset >= old(reader.offset)
    decreases |reader.bytes| - reader.offset, 1
  {
    if kind == "regular" {
      ok := ParseRegular(reader, path, entries);
    } else if kind == "symlink" {
      ok := ParseSymlink(reader, path, entries);
    } else if kind == "directory" {
      entries.items := entries.items + [Dir(path)];
      ok := ParseEntries(reader, path, entries);
    } else {
      ok := false;
    }
  }

  method ParseRegular(reader: Reader, path: string, entries: EntryList) returns (ok: bool)
    modifies reader, entries
    ensures Did(RegularOn(old(reader.Ahead()), path), ok, reader.Ahead(), old(entries.items), entries.items)
    ensures ok ==> reader.offset >= old(reader.offset)
  {
    var token := reader.ReadBlob();
    if token.None? { return false; }
    var executable := false;
    if token.value == "executable" {
      executable := true;
      ok := reader.Expect("");
      if !ok { return; }
      token := reader.ReadBlob();
      if token.None? { return false; }
    }
    if token.value != "contents" { return false; }
    var data := reader.ReadBlob();
    if data.None? { return false; }
    entries.items := entries.items + [File(path, executable, data.value)];
    ok := reader.Expect(")");
  }

  method ParseSymlink(reader: Reader, path: string, entries: EntryList) returns (ok: bool)
    modifies reader, entries
    ensures Did(SymlinkOn(old(reader.Ahead()), path), ok, reader.Ahead(), old(entries.items), entries.items)
    ensures ok ==> reader.offset >= old(reader.offset)
  {
    ok := reader.Expect("target");
    if !ok { return; }
    var target := reader.ReadBlob();
    if target.None? { return false; }
    entries.items := entries.items + [Link(path, target.value)];
    ok := reader.Expect(")");
  }

  /** The loop over a directory's entries. */
  method ParseEntries(reader: Reader, path: string, entries: EntryList) returns (ok: bool)
    modifies reader, entries
    ensures Did(EntriesOn(old(reader.Ahead()), path), ok, reader.Ahead(), old(entries.items), entries.items)
    ensures ok ==> reader.offset >= old(reader.offset)
    decreases |reader.bytes| - reader.offset, 0
  {
    ghost var whole := Prepend(entries.items, EntriesOn(reader.Ahead(), path));
    ghost var left := |reader.bytes| - reader.offset;
    var token := reader.ReadBlob();
    if token.None? { return false; }
    while token.value != ")"
      invariant token.Some?
      invariant whole == Prepend(entries.items, EntriesOn(Blob(token.value, reader.Ahead()), path))
      invariant 8 <= left <= |reader.bytes| - old(reader.offset) && |reader.bytes| - reader.offset < left
      decreases left
    {
      if token.value != "entry" { return false; }
      left := |reader.bytes| - reader.offset;
      ok := NextEntry(reader, path, entries, whole);
      if !ok { return false; }
      token := reader.ReadBlob();
      if token.None? { return false; }
    }
    assert entries.items + [] == entries.items;
    return true;
  }

  /** The loop's body: one entry more on the list, and the whole still to be completed by what follows. */
  method NextEntry(reader: Reader, path: string, entries: EntryList, ghost whole: Parse) returns (ok: bool)
    requires whole == Prepend(entries.items, EntriesOn(Blob("entry", reader.Ahead()), path))
    modifies reader, entries
    ensures if ok then whole == Prepend(entries.items, EntriesOn(reader.Ahead(), path)) else whole.Refused?
    ensures ok ==> reader.offset > old(reader.offset) && old(reader.offset) + 8 <= |reader.bytes|
    decreases |reader.bytes| - reader.offset, 1
  {
    ok := ParseEntry(reader, path, entries);
  }

  lemma {:induction false} PrependNothing(rest: Parse)
    ensures Prepend([], rest) == rest
  {
    if rest.Parsed? {
      assert [] + rest.entries == rest.entries;
    }
  }

  method ParseEntry(reader: Reader, path: string, entries: EntryList) returns (ok: bool)
    modifies reader, entries
    ensures Did(EntryOn(old(reader.Ahead()), path), ok, reader.Ahead(), old(entries.items), entries.items)
    ensures ok ==> reader.offset > old(reader.offset) && old(reader.offset) + 8 <= |reader.bytes|
    decreases |reader.bytes| - reader.offset, 0
  {
    ok := reader.Expect("(");
    if !ok { return; }
    ok := reader.Expect("name");
    if !ok { return; }
    var name := reader.ReadBlob();
    if name.None? { return false; }
    ok := ParseNamed(reader, Child(path, name.value), entries);
  }

  method ParseNamed(reader: Reader, path: string, entries: EntryList) returns (ok: bool)
    modifies reader, entries
    ensures Did(NamedOn(old(reader.Ahead()), path), ok, reader.Ahead(), old(entries.items), entries.items)
    ensures ok ==> reader.offset > old(reader.offset)
    decreases |reader.bytes| - reader.offset
  {
    ok := reader.Expect("node");
    if !ok { return; }
    ok := ParseNode(reader, path, entries);
    if !ok { return; }
    ok := reader.Expect(")");
  }

  /** The whole parser: total, whatever the bytes; `consumed` is where its cursor stands after a success. */
  method ParseNar(bytes: string) returns (r: Option<seq<Entry>>, ghost consumed: nat)
    ensures r == if ParsedNar(bytes).Parsed? then Some(ParsedNar(bytes).entries) else None
    ensures r.Some? ==> ParsedNar(bytes).rest == StreamAt(bytes, consumed)
  {
    var reader := new Reader(bytes);
    var ok := reader.Expect(MAGIC);
    if !ok { return None, 0; }
    var entries := new EntryList();
    PrependNothing(NodeOn(reader.Ahead(), ""));
    ok := ParseNode(reader, "", entries);
    if !ok { return None, 0; }
    return Some(entries.items), reader.offset;
  }
}
