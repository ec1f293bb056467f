/** File trees, their Nix Archive serialisation, and what the parser makes of every prefix of it. */
module Archive {
  import opened Prelude
  import opened Nar

  datatype Tree =
    | Regular(executable: bool, contents: string)
    | Symlink(target: string)
    | Directory(children: Forest)

  datatype Forest = Nil | Cons(name: string, node: Tree, rest: Forest)

  const LENGTH_LIMIT := 0x20_0000_0000_0000

  /** Every string's length is a number JavaScript holds exactly. */
  ghost predicate Fits(t: Tree) {
    match t
    case Regular(_, contents) => |contents| < LENGTH_LIMIT
    case Symlink(target) => |target| < LENGTH_LIMIT
    case Directory(children) => FitsAll(children)
  }

  ghost predicate FitsAll(f: Forest) {
    match f
    case Nil => true
    case Cons(name, node, rest) => |name| < LENGTH_LIMIT && Fits(node) && FitsAll(rest)
  }

  // ---------- the format ----------

  /** The low `count` bytes of a number, least significant first. */
  function LowBytes(n: nat, count: nat): (s: string)
    ensures |s| == count
  {
    if count == 0 then "" else [(n % 256) as char] + LowBytes(n / 256, count - 1)
  }

  function Zeros(count: nat): (s: string)
    ensures |s| == count
  {
    if count == 0 then "" else ['\0'] + Zeros(count - 1)
  }

  /** The zeroes that bring a length up to a multiple of 8. */
  function Fill(length: nat): (r: string)
    ensures |r| == Padding(length)
  {
    PaddingIs(length);
    Zeros((8 - length % 8) % 8)
  }

  /** A string of the format: a 64-bit length, the contents, and what fills it up. */
  function Str(s: string): (r: string)
    ensures |r| == 8 + |s| + Padding(|s|)
  {
    LowBytes(|s|, 8) + s + Fill(|s|)
  }

  function Encode(s: Stream): string {
    match s
    case End(_) => ""
    case Blob(value, rest) => Str(value) + Encode(rest)
  }

  function KindOf(t: Tree): string {
    match t
    case Regular(_, _) => "regular"
    case Symlink(_) => "symlink"
    case Directory(_) => "directory"
  }

  /** A node's strings, followed by `rest`. */
  function NodeBlobs(t: Tree, rest: Stream): Stream
    decreases t, 1
  {
    Blob("(", Blob("type", Blob(KindOf(t), BodyBlobs(t, rest))))
  }

  function BodyBlobs(t: Tree, rest: Stream): Stream
    decreases t, 0
  {
    match t
    case Regular(executable, contents) =>
      var data := Blob("contents", Blob(contents, Blob(")", rest)));
      if executable then Blob("executable", Blob("", data)) else data
    case Symlink(target) => Blob("target", Blob(target, Blob(")", rest)))
    case Directory(children) => ForestBlobs(children, rest)
  }

  /** The entries of a directory and its closing parenthesis. */
  function ForestBlobs(f: Forest, rest: Stream): Stream
    decreases f
  {
    match f
    case Nil => Blob(")", rest)
    case Cons(name, node, more) =>
      Blob("entry", Blob("(", Blob("name", Blob(name, Blob("node",
        NodeBlobs(node, Blob(")", ForestBlobs(more, rest))))))))
  }

  function Serialise(t: Tree): string {
    Encode(Blob("nix-archive-1", NodeBlobs(t, End(0))))
  }

  /** The entries of a tree in archive order. */
  function EntriesOf(t: Tree, path: string): seq<Entry>
    decreases t
  {
    match t
    case Regular(executable, contents) => [File(path, executable, contents)]
    case Symlink(target) => [Link(path, target)]
    case Directory(children) => [Dir(path)] + EntriesOfAll(children, path)
  }

  function EntriesOfAll(f: Forest, path: string): seq<Entry>
    decreases f
  {
    match f
    case Nil => []
    case Cons(name, node, rest) => EntriesOf(node, Child(path, name)) + EntriesOfAll(rest, path)
  }

  // ---------- the grammar undoes the serialisation ----------

  lemma {:induction false} NodeRoundTrip(t: Tree, path: string, rest: Stream)
    ensures NodeOn(NodeBlobs(t, rest), path) == Parsed(EntriesOf(t, path), rest)
    decreases t, 1
  {
    if t.Directory? {
      ForestRoundTrip(t.children, path, rest);
    }
  }

  lemma {:induction false} ForestRoundTrip(f: Forest, path: string, rest: Stream)
    ensures EntriesOn(ForestBlobs(f, rest), path) == Parsed(EntriesOfAll(f, path), rest)
    decreases f
  {
    if f.Cons? {
      var after := Blob(")", ForestBlobs(f.rest, rest));
      NodeRoundTrip(f.node, Child(path, f.name), after);
      ForestRoundTrip(f.rest, path, rest);
      var named := Blob("node", NodeBlobs(f.node, after));
      assert NamedOn(named, Child(path, f.name)) == Parsed(EntriesOf(f.node, Child(path, f.name)), after.rest);
      assert EntryOn(Blob("(", Blob("name", Blob(f.name, named))), path) == NamedOn(named, Child(path, f.name));
    }
  }

  // ---------- a stream cut short ----------

  /** The blobs of `s` up to some point, the last perhaps torn: a proper prefix with nothing readable after it. */
  ghost predicate Torn(cut: Stream, s: Stream)
    decreases s
  {
    match cut
    case End(_) => true
    case Blob(value, more) =>
      s.Blob? && ((value == s.value && Torn(more, s.rest)) || (more.End? && ProperPrefix(value, s.value)))
  }

  ghost predicate ProperPrefix(a: string, b: string) {
    |a| < |b| && a == b[..|a|]
  }

  /** A blob with another after it was not the torn one. */
  lemma {:induction false} TornStep(cut: Stream, s: Stream)
    requires Torn(cut, s) && cut.Blob? && cut.rest.Blob?
    ensures s.Blob? && cut.value == s.value && Torn(cut.rest, s.rest)
  {
  }

  /** A part parsed off a torn stream is the part itself, whole, and what is left is what follows it, torn. */
  lemma {:induction false} NodeTorn(t: Tree, path: string, rest: Stream, cut: Stream)
    requires Torn(cut, NodeBlobs(t, rest)) && NodeOn(cut, path).Parsed?
    ensures var after := NodeOn(cut, path).rest;
      cut == NodeBlobs(t, after) && Torn(after, rest)
    decreases t, 1
  {
    var kind := cut.rest.rest;
    TornStep(cut, NodeBlobs(t, rest));
    TornStep(cut.rest, NodeBlobs(t, rest).rest);
    assert Torn(kind, Blob(KindOf(t), BodyBlobs(t, rest)));
    assert kind.rest.Blob?;
    TornStep(kind, Blob(KindOf(t), BodyBlobs(t, rest)));
    BodyTorn(t, path, rest, kind.rest);
  }

  lemma {:induction false} BodyTorn(t: Tree, path: string, rest: Stream, cut: Stream)
    requires Torn(cut, BodyBlobs(t, rest)) && BodyOn(cut, path, KindOf(t)).Parsed?
    ensures var after := BodyOn(cut, path, KindOf(t)).rest;
      cut == BodyBlobs(t, after) && Torn(after, rest)
    decreases t, 0
  {
    match t
    case Regular(executable, contents) => RegularTorn(executable, contents, path, rest, cut);
    case Symlink(target) =>
      TornStep(cut, BodyBlobs(t, rest));
      TornStep(cut.rest, Blob(target, Blob(")", rest)));
    case Directory(children) => ForestTorn(children, path, rest, cut);
  }

  lemma {:induction false} RegularTorn(executable: bool, contents: string, path: string, rest: Stream, cut: Stream)
    requires Torn(cut, BodyBlobs(Regular(executable, contents), rest)) && RegularOn(cut, path).Parsed?
    ensures var after := RegularOn(cut, path).rest;
      cut == BodyBlobs(Regular(executable, contents), after) && Torn(after, rest)
  {
    var s := BodyBlobs(Regular(executable, contents), rest);
    TornStep(cut, s);
    TornStep(cut.rest, s.rest);
    if executable {
      TornStep(cut.rest.rest, s.rest.rest);
      TornStep(cut.rest.rest.rest, s.rest.rest.rest);
    }
  }

  lemma {:induction false} ForestTorn(f: Forest, path: string, rest: Stream, cut: Stream)
    requires Torn(cut, ForestBlobs(f, rest)) && EntriesOn(cut, path).Parsed?
    ensures var after := EntriesOn(cut, path).rest;
      cut == ForestBlobs(f, after) && Torn(after, rest)
    decreases f
  {
    if f.Cons? {
      var s := ForestBlobs(f, rest);
      EntryOpens(cut, s);
      var entry := EntryOn(cut.rest, path);
      EntryTorn(f.name, f.node, path, ForestBlobs(f.rest, rest), cut.rest);
      ForestTorn(f.rest, path, rest, entry.rest);
    }
  }

  /** Even torn, "entry" is not taken for the closing parenthesis. */
  lemma {:induction false} EntryOpens(cut: Stream, s: Stream)
    requires Torn(cut, s) && Begins(s, "entry") && cut.Blob? && s.rest.Blob?
    ensures !Begins(cut, ")")
    ensures cut.rest.Blob? ==> Begins(cut, "entry") && Torn(cut.rest, s.rest)
  {
    var first: string := "entry"[..1];
    assert first == "e" && first != ")";
  }

  lemma {:induction false} EntryTorn(name: string, node: Tree, path: string, rest: Stream, cut: Stream)
    requires Torn(cut, Blob("(", Blob("name", Blob(name, Blob("node", NodeBlobs(node, Blob(")", rest)))))))
    requires EntryOn(cut, path).Parsed?
    ensures var after := EntryOn(cut, path).rest;
      cut == Blob("(", Blob("name", Blob(name, Blob("node", NodeBlobs(node, Blob(")", after))))))
      && Torn(after, rest)
    decreases node, 2
  {
    var inner := Blob("node", NodeBlobs(node, Blob(")", rest)));
    TornStep(cut, Blob("(", Blob("name", Blob(name, inner))));
    TornStep(cut.rest, Blob("name", Blob(name, inner)));
    TornStep(cut.rest.rest, Blob(name, inner));
    TornStep(cut.rest.rest.rest, inner);
    var at := cut.rest.rest.rest.rest;
    NodeTorn(node, Child(path, cut.rest.rest.value), Blob(")", rest), at);
  }

  // ---------- the bytes behind the blobs ----------

  ghost predicate Here(bytes: string, offset: nat, s: string) {
    offset + |s| <= |bytes| && bytes[offset..offset + |s|] == s
  }

  lemma {:induction false} HereSplit(bytes: string, offset: nat, s: string, rest: string)
    requires Here(bytes, offset, s + rest)
    ensures Here(bytes, offset, s) && Here(bytes, offset + |s|, rest)
  {
    var both := s + rest;
    assert bytes[offset..offset + |s|] == bytes[offset..offset + |both|][..|s|];
    assert bytes[offset + |s|..offset + |both|] == bytes[offset..offset + |both|][|s|..];
  }

  function Weight(count: nat): nat {
    if count == 0 then 1 else 256 * Weight(count - 1)
  }

  lemma {:induction false} LittleEndianSplit(s: string, a: nat)
    requires a <= |s|
    ensures LittleEndian(s) == LittleEndian(s[..a]) + Weight(a) * LittleEndian(s[a..])
  {
    if a == 0 {
      assert s[0..] == s;
    } else {
      LittleEndianSplit(s[1..], a - 1);
      assert s[1..][a - 1..] == s[a..] && s[..a][1..] == s[1..][..a - 1];
      WeightTimes(a - 1, LittleEndian(s[a..]));
    }
  }

  lemma {:induction false} WeightTimes(a: nat, x: nat)
    ensures 256 * (Weight(a) * x) == Weight(a + 1) * x
  {
  }

  /** A number below 256^count survives being written in `count` bytes. */
  lemma {:induction false} LowBytesRead(n: nat, count: nat)
    requires n < Weight(count)
    ensures LittleEndian(LowBytes(n, count)) == n
  {
    if count > 0 {
      LowBytesRead(n / 256, count - 1);
      assert LowBytes(n, count)[1..] == LowBytes(n / 256, count - 1);
    }
  }

  /** The two 32-bit halves the parser reads are the 64-bit length that was written. */
  lemma {:induction false} LengthBytesRead(s: string, n: nat)
    requires s == LowBytes(n, 8) && n < LENGTH_LIMIT
    ensures LittleEndian(s[..4]) + LittleEndian(s[4..]) * 0x1_0000_0000 == n
  {
    assert Weight(4) == 0x1_0000_0000;
    assert Weight(8) == 0x1_0000_0000_0000_0000;
    LowBytesRead(n, 8);
    LittleEndianSplit(s, 4);
  }

  lemma {:induction false} LengthRead(bytes: string, n: nat, offset: nat, s: string)
    requires |s| < LENGTH_LIMIT && Here(bytes, offset, Str(s)) && n <= |bytes| && offset + 8 <= n
    ensures U64At(bytes[..n], offset) == At(|s|, offset + 8)
    ensures Here(bytes, offset + 8, s)
  {
    var length := LowBytes(|s|, 8);
    assert Str(s) == length + (s + Fill(|s|));
    HereSplit(bytes, offset, length, s + Fill(|s|));
    HereSplit(bytes, offset + 8, s, Fill(|s|));
    assert bytes[..n][offset..offset + 8] == bytes[offset..offset + 8] == length;
    assert bytes[..n][offset..offset + 4] == length[..4];
    assert bytes[..n][offset + 4..offset + 8] == length[4..];
    LengthBytesRead(length, |s|);
  }

  lemma {:induction false} SubarrayOfCut(bytes: string, n: nat, begin: nat, s: string)
    requires Here(bytes, begin, s) && begin <= n <= |bytes|
    ensures Subarray(bytes[..n], begin, begin + |s|) == s[..Min(|s|, n - begin)]
  {
    var end := Min(begin + |s|, n);
    assert bytes[..n][begin..end] == bytes[begin..end] == bytes[begin..begin + |s|][..end - begin];
  }

  /** One string of an archive cut at `n`: whole when its last byte is there, torn when only its length is. */
  lemma {:induction false} StrOfCut(bytes: string, n: nat, offset: nat, s: string)
    requires |s| < LENGTH_LIMIT && Here(bytes, offset, Str(s)) && n <= |bytes|
    ensures BlobAt(bytes[..n], offset) ==
      if offset + 8 > n then Throws
      else At(s[..Min(|s|, n - offset - 8)], offset + |Str(s)|)
  {
    if offset + 8 <= n {
      LengthRead(bytes, n, offset, s);
      SubarrayOfCut(bytes, n, offset + 8, s);
    }
  }

  ghost predicate AllFit(s: Stream) {
    match s
    case End(_) => true
    case Blob(value, rest) => |value| < LENGTH_LIMIT && AllFit(rest)
  }

  /** The same blobs, ending at another offset. */
  function EndingAt(s: Stream, at: nat): Stream {
    match s
    case End(_) => End(at)
    case Blob(value, rest) => Blob(value, EndingAt(rest, at))
  }

  /** How many bytes at the end of an encoded stream are padding. */
  function Slack(s: Stream): nat {
    match s
    case End(_) => 0
    case Blob(value, rest) => if rest.End? then Padding(|value|) else Slack(rest)
  }

  /** Cut at `n`, an encoded stream reads as itself when only trailing padding is gone, and otherwise as a torn one. */
  ghost predicate CutReads(cut: Stream, s: Stream, n: nat, size: nat) {
    if size <= n + Slack(s) then cut == EndingAt(s, size)
    else Torn(cut, s) && forall at :: cut != EndingAt(s, at)
  }

  lemma {:induction false} LastOfCut(bytes: string, n: nat, offset: nat, s: Stream)
    requires s.Blob? && s.rest.End? && AllFit(s) && n <= |bytes|
    requires Here(bytes, offset, Encode(s)) && offset + |Encode(s)| == |bytes|
    ensures CutReads(StreamAt(bytes[..n], offset), s, n, |bytes|)
  {
    HereSplit(bytes, offset, Str(s.value), Encode(s.rest));
    StrOfCut(bytes, n, offset, s.value);
  }

  lemma {:induction false} StreamOfCut(bytes: string, n: nat, offset: nat, s: Stream)
    requires s.Blob? && AllFit(s) && n <= |bytes| && Here(bytes, offset, Encode(s)) && offset + |Encode(s)| == |bytes|
    ensures CutReads(StreamAt(bytes[..n], offset), s, n, |bytes|)
    decreases s
  {
    hide CutReads, StreamAt;
    if s.rest.End? {
      LastOfCut(bytes, n, offset, s);
    } else {
      var next := offset + |Str(s.value)|;
      HereSplit(bytes, offset, Str(s.value), Encode(s.rest));
      StrOfCut(bytes, n, offset, s.value);
      StreamOfCut(bytes, n, next, s.rest);
      EncodeIsLong(s.rest);
      MoreOfCut(bytes, n, offset, s);
    }
  }

  /** One string more in front of what is read. */
  lemma {:induction false} MoreOfCut(bytes: string, n: nat, offset: nat, s: Stream)
    requires s.Blob? && s.rest.Blob? && n <= |bytes| && offset + |Encode(s)| == |bytes|
    requires |Encode(s.rest)| >= 8 + Slack(s.rest)
    requires BlobAt(bytes[..n], offset) ==
      if offset + 8 > n then Throws else At(s.value[..Min(|s.value|, n - offset - 8)], offset + |Str(s.value)|)
    requires CutReads(StreamAt(bytes[..n], offset + |Str(s.value)|), s.rest, n, |bytes|)
    ensures CutReads(StreamAt(bytes[..n], offset), s, n, |bytes|)
  {
    var cut, rest := StreamAt(bytes[..n], offset), offset + |Str(s.value)|;
    assert |bytes| == rest + |Encode(s.rest)| && Slack(s) == Slack(s.rest);
    if offset + 8 > n {
      assert cut == End(offset);
    } else {
      assert cut == Blob(s.value[..Min(|s.value|, n - offset - 8)], StreamAt(bytes[..n], rest));
    }
  }

  lemma {:induction false} EncodeIsLong(s: Stream)
    requires s.Blob?
    ensures |Encode(s)| >= 8 + Slack(s)
  {
    if s.rest.Blob? {
      EncodeIsLong(s.rest);
    }
  }

  lemma {:induction false} NodeBlobsFit(t: Tree, rest: Stream)
    requires Fits(t) && AllFit(rest)
    ensures AllFit(NodeBlobs(t, rest))
    decreases t, 1
  {
    BodyBlobsFit(t, rest);
    assert AllFit(Blob(KindOf(t), BodyBlobs(t, rest)));
  }

  lemma {:induction false} BodyBlobsFit(t: Tree, rest: Stream)
    requires Fits(t) && AllFit(rest)
    ensures AllFit(BodyBlobs(t, rest))
    decreases t, 0
  {
    var close := Blob(")", rest);
    assert AllFit(close);
    match t {
      case Regular(executable, contents) =>
        assert AllFit(Blob(contents, close));
        var data := Blob("contents", Blob(contents, close));
        assert AllFit(data);
        assert AllFit(Blob("", data));
      case Symlink(target) =>
        assert AllFit(Blob(target, close));
      case Directory(children) =>
        ForestBlobsFit(children, rest);
    }
  }

  lemma {:induction false} ForestBlobsFit(f: Forest, rest: Stream)
    requires FitsAll(f) && AllFit(rest)
    ensures AllFit(ForestBlobs(f, rest))
    decreases f
  {
    if f.Cons? {
      ForestBlobsFit(f.rest, rest);
      var after := Blob(")", ForestBlobs(f.rest, rest));
      NodeBlobsFit(f.node, after);
      var named := Blob(f.name, Blob("node", NodeBlobs(f.node, after)));
      assert AllFit(named);
      assert AllFit(Blob("(", Blob("name", named)));
    }
  }

  /** Ending a node's stream elsewhere moves what follows the node and nothing else; a node ends in a parenthesis. */
  lemma {:induction false} NodeEndingAt(t: Tree, rest: Stream, at: nat)
    ensures EndingAt(NodeBlobs(t, rest), at) == NodeBlobs(t, EndingAt(rest, at))
    ensures Slack(NodeBlobs(t, rest)) == Slack(Blob(")", rest))
    decreases t, 1
  {
    BodyEndingAt(t, rest, at);
    var b := BodyBlobs(t, rest);
    Wrap(KindOf(t), b, at);
    Wrap("type", Blob(KindOf(t), b), at);
    Wrap("(", Blob("type", Blob(KindOf(t), b)), at);
  }

  lemma {:induction false} Wrap(value: string, rest: Stream, at: nat)
    ensures EndingAt(Blob(value, rest), at) == Blob(value, EndingAt(rest, at))
    ensures rest.Blob? ==> Slack(Blob(value, rest)) == Slack(rest)
  {
  }

  lemma {:induction false} BodyEndingAt(t: Tree, rest: Stream, at: nat)
    ensures BodyBlobs(t, rest).Blob?
    ensures EndingAt(BodyBlobs(t, rest), at) == BodyBlobs(t, EndingAt(rest, at))
    ensures Slack(BodyBlobs(t, rest)) == Slack(Blob(")", rest))
    decreases t, 0
  {
    var close := Blob(")", rest);
    Wrap(")", rest, at);
    match t {
      case Regular(executable, contents) =>
        var data := Blob("contents", Blob(contents, close));
        Wrap(contents, close, at);
        Wrap("contents", Blob(contents, close), at);
        Wrap("", data, at);
        Wrap("executable", Blob("", data), at);
      case Symlink(target) =>
        Wrap(target, close, at);
        Wrap("target", Blob(target, close), at);
      case Directory(children) =>
        ForestEndingAt(children, rest, at);
    }
  }

  lemma {:induction false} ForestEndingAt(f: Forest, rest: Stream, at: nat)
    ensures EndingAt(ForestBlobs(f, rest), at) == ForestBlobs(f, EndingAt(rest, at))
    ensures Slack(ForestBlobs(f, rest)) == Slack(Blob(")", rest)) && ForestBlobs(f, rest).Blob?
    decreases f
  {
    if f.Cons? {
      ForestEndingAt(f.rest, rest, at);
      var after := Blob(")", ForestBlobs(f.rest, rest));
      NodeEndingAt(f.node, after, at);
      var node := NodeBlobs(f.node, after);
      Wrap(")", ForestBlobs(f.rest, rest), at);
      Wrap("node", node, at);
      Wrap(f.name, Blob("node", node), at);
      Wrap("name", Blob(f.name, Blob("node", node)), at);
      Wrap("(", Blob("name", Blob(f.name, Blob("node", node))), at);
    }
  }

  /**
   * Of the prefixes of a serialised tree, the parser accepts exactly those missing at most 7 bytes (the padding of
   * the closing parenthesis), and from each of them it gives the tree's entries and ends at the archive's length.
   */
  lemma {:induction false} ParseOfPrefix(t: Tree, n: nat)
    requires Fits(t) && n <= |Serialise(t)|
    ensures ParsedNar(Serialise(t)[..n]) ==
      if |Serialise(t)| <= n + 7 then Parsed(EntriesOf(t, ""), End(|Serialise(t)|)) else Refused
  {
    var bytes := Serialise(t);
    var node := NodeBlobs(t, End(0));
    var s := Blob(MAGIC, node);
    var cut := StreamAt(bytes[..n], 0);
    NodeBlobsFit(t, End(0));
    NodeEndingAt(t, End(0), |bytes|);
    StreamOfCut(bytes, n, 0, s);
    assert Padding(|")"|) == 7;
    if |bytes| <= n + 7 {
      NodeRoundTrip(t, "", End(|bytes|));
    } else if Begins(cut, MAGIC) && NodeOn(cut.rest, "").Parsed? {
      TornStep(cut, s);
      NodeTorn(t, "", End(0), cut.rest);
      var after := NodeOn(cut.rest, "").rest;
      NodeEndingAt(t, End(0), after.at);
      assert cut == EndingAt(s, after.at);
    }
  }

  /** The whole archive: the parser undoes the serialisation and consumes it to the byte. */
  lemma {:induction false} ParseOfSerialised(t: Tree)
    requires Fits(t)
    ensures ParsedNar(Serialise(t)) == Parsed(EntriesOf(t, ""), End(|Serialise(t)|))
  {
    ParseOfPrefix(t, |Serialise(t)|);
    assert Serialise(t)[..|Serialise(t)|] == Serialise(t);
  }
}
