/**
 * The bzip2 path of site/js/store.js. The decoder itself is a function of the pieces it has been handed; what is
 * modelled is how it is fed and where its blocks go. Bytes are characters.
 */
module Unbzip2 {
  import opened Prelude

  const BZIP2_CHUNK: nat := 256 * 1024

  /** A decoder that could not be brought in, or bytes that could not be used. */
  datatype Fault = DecoderUnavailable | Unusable(message: string)

  type Push = (seq<string>, string) -> Result<string, string>
  type Finish = seq<string> -> Result<string, string>

  function Flatten(parts: seq<string>): string {
    if parts == [] then "" else Flatten(parts[..|parts| - 1]) + parts[|parts| - 1]
  }

  /** Consecutive pieces of at most one chunk. */
  function Pieces(bytes: string): (pieces: seq<string>)
    decreases |bytes|
  {
    if bytes == "" then []
    else [bytes[..Min(BZIP2_CHUNK, |bytes|)]] + Pieces(bytes[Min(BZIP2_CHUNK, |bytes|)..])
  }

  lemma {:induction false} FlattenCons(first: string, rest: seq<string>)
    ensures Flatten([first] + rest) == first + Flatten(rest)
  {
    if rest == [] {
      assert [first] + rest == [first];
      assert [first][..0] == [];
    } else {
      var init, last := rest[..|rest| - 1], rest[|rest| - 1];
      assert ([first] + rest)[..|rest|] == [first] + init;
      FlattenCons(first, init);
      assert first + Flatten(init) + last == first + (Flatten(init) + last);
    }
  }

  /** In order, each byte once, and never more than a chunk at a time. */
  lemma {:induction false} PiecesMean(bytes: string)
    ensures Flatten(Pieces(bytes)) == bytes
    ensures forall k :: 0 <= k < |Pieces(bytes)| ==> 0 < |Pieces(bytes)[k]| <= 262144
    ensures forall k :: 0 <= k < |Pieces(bytes)| - 1 ==> |Pieces(bytes)[k]| == 262144
    decreases |bytes|
  {
    if bytes != "" {
      var cut := Min(BZIP2_CHUNK, |bytes|);
      PiecesMean(bytes[cut..]);
      hide Flatten;
      FlattenCons(bytes[..cut], Pieces(bytes[cut..]));
      assert bytes[..cut] + bytes[cut..] == bytes;
    }
  }

  function Prepend(front: string, rest: Result<string, string>): Result<string, string> {
    if rest.Ok? then Ok(front + rest.value) else rest
  }

  /** Everything a decoder that has been handed `done` still says when it is handed `left`, or why it throws. */
  function OutputOf(push: Push, finish: Finish, done: seq<string>, left: seq<string>): Result<string, string>
    decreases |left|
  {
    if left == [] then finish(done)
    else
      var part := push(done, left[0]);
      if part.Err? then part else Prepend(part.value, OutputOf(push, finish, done + [left[0]], left[1..]))
  }

  /** What the archive unpacks to. */
  function Unpacked(push: Push, finish: Finish, compressed: string): Result<string, string> {
    OutputOf(push, finish, [], Pieces(compressed))
  }

  /** No push throws. */
  ghost predicate AllPush(push: Push, done: seq<string>, left: seq<string>) {
    forall i :: 0 <= i < |left| ==> push(done + left[..i], left[i]).Ok?
  }

  /** What each push says, in order. */
  function Pushed(push: Push, done: seq<string>, left: seq<string>): seq<string> {
    seq(|left|, i requires 0 <= i < |left| =>
      var part := push(done + left[..i], left[i]); if part.Ok? then part.value else "")
  }

  /** The output is what the pushes say, one after the other, and then what the decoder says at the end. */
  lemma {:induction false} OutputIs(push: Push, finish: Finish, done: seq<string>, left: seq<string>)
    ensures var output := OutputOf(push, finish, done, left);
      && (output.Ok? <==> AllPush(push, done, left) && finish(done + left).Ok?)
      && (output.Ok? ==> output.value == Flatten(Pushed(push, done, left)) + finish(done + left).value)
    decreases |left|
  {
    if left == [] {
      assert done + left == done;
      if finish(done).Ok? {
        assert "" + finish(done).value == finish(done).value;
      }
    } else {
      var first, rest := left[0], left[1..];
      OutputIs(push, finish, done + [first], rest);
      PushedFirst(push, done, left);
      assert done + [first] + rest == done + left;
      FlattenCons(Pushed(push, done, left)[0], Pushed(push, done + [first], rest));
      ConcatAssociates(Pushed(push, done, left)[0], Flatten(Pushed(push, done + [first], rest)),
                       if finish(done + left).Ok? then finish(done + left).value else "");
    }
  }

  lemma {:induction false} PushedFirst(push: Push, done: seq<string>, left: seq<string>)
    requires left != []
    ensures var rest := Pushed(push, done + [left[0]], left[1..]);
      Pushed(push, done, left) == [Pushed(push, done, left)[0]] + rest
    ensures push(done, left[0]).Ok? ==> Pushed(push, done, left)[0] == push(done, left[0]).value
    ensures AllPush(push, done, left) <==> push(done, left[0]).Ok? && AllPush(push, done + [left[0]], left[1..])
  {
    var rest := left[1..];
    assert done + left[..0] == done;
    forall i | 0 <= i < |rest|
      ensures (done + [left[0]]) + rest[..i] == done + left[..i + 1] && rest[i] == left[i + 1]
    {
    }
    if AllPush(push, done, left) {
      forall i | 0 <= i < |rest| ensures push((done + [left[0]]) + rest[..i], rest[i]).Ok? {
        assert push(done + left[..i + 1], left[i + 1]).Ok?;
      }
    }
    if push(done, left[0]).Ok? && AllPush(push, done + [left[0]], rest) {
      forall i | 0 <= i < |left| ensures push(done + left[..i], left[i]).Ok? {
        if i > 0 {
          assert push((done + [left[0]]) + rest[..i - 1], rest[i - 1]).Ok?;
        }
      }
    }
  }

  class Bz2Decoder {
    const push: Push
    const finish: Finish
    var handed: seq<string>
    var freed: bool

    constructor (push: Push, finish: Finish)
      ensures handed == [] && !freed && this.push == push && this.finish == finish
    {
      this.push, this.finish := push, finish;
      handed, freed := [], false;
    }

    method Push(piece: string) returns (part: Result<string, string>)
      requires !freed
      modifies this`handed
      ensures part == push(old(handed), piece) && handed == old(handed) + [piece]
    {
      part := push(handed, piece);
      handed := handed + [piece];
    }

    method Finish() returns (part: Result<string, string>)
      requires !freed
      ensures part == finish(handed)
    {
      part := finish(handed);
    }

    method Free()
      requires !freed
      modifies this`freed
      ensures freed
    {
      freed := true;
    }
  }

  /** Blocks go into a buffer of the signed size, or onto a pile when no size is known (0). */
  class Blocks {
    const size: nat
    const nar: array<char>
    var parts: seq<string>
    var filled: nat
    /** Everything taken so far. */
    ghost var taken: string

    ghost predicate Valid()
      reads this, nar
    {
      && filled == |taken|
      && nar.Length == size
      && (if size > 0 then filled <= size && nar[..filled] == taken else Flatten(parts) == taken)
    }

    constructor (size: nat)
      ensures Valid() && taken == "" && this.size == size && fresh(nar)
    {
      this.size := size;
      nar := new char[size](_ => '\0');
      parts, filled, taken := [], 0, "";
    }

    /** One block into its place or onto the pile; false when it does not fit. */
    method Take(part: string) returns (ok: bool)
      requires Valid()
      modifies this, nar
      ensures Valid()
      ensures ok <==> size == 0 || |old(taken)| + |part| <= size
      ensures taken == if ok then old(taken) + part else old(taken)
    {
      if size == 0 {
        parts, filled, taken := parts + [part], filled + |part|, taken + part;
        return true;
      }
      if filled + |part| > nar.Length {
        return false;
      }
      forall k | 0 <= k < |part| {
        nar[filled + k] := part[k];
      }
      filled, taken := filled + |part|, taken + part;
      return true;
    }

    /** The archive, once everything has been taken: none when the buffer is not full. */
    method Archive() returns (archive: Option<string>)
      requires Valid()
      ensures archive == if size == 0 || |taken| == size then Some(taken) else None
    {
      if size == 0 {
        var bytes := Concat(parts, filled);
        return Some(bytes);
      }
      if filled != nar.Length {
        return None;
      }
      assert nar[..] == nar[..filled];
      return Some(nar[..]);
    }
  }

  lemma {:induction false} FlattenSplit(parts: seq<string>, i: nat)
    requires i < |parts|
    ensures Flatten(parts[..i + 1]) == Flatten(parts[..i]) + parts[i]
  {
    assert parts[..i + 1][..i] == parts[..i];
  }

  lemma {:induction false} FlattenGrows(parts: seq<string>, i: nat)
    requires i <= |parts|
    ensures |Flatten(parts[..i])| <= |Flatten(parts)|
    decreases |parts| - i
  {
    if i < |parts| {
      FlattenSplit(parts, i);
      FlattenGrows(parts, i + 1);
    } else {
      assert parts[..i] == parts;
    }
  }

  method Concat(parts: seq<string>, total: nat) returns (bytes: string)
    requires total == |Flatten(parts)|
    ensures bytes == Flatten(parts)
  {
    var buffer := new char[total](_ => '\0');
    var offset := 0;
    for i := 0 to |parts|
      invariant offset == |Flatten(parts[..i])| <= total
      invariant buffer[..offset] == Flatten(parts[..i])
    {
      FlattenSplit(parts, i);
      FlattenGrows(parts, i + 1);
      Place(buffer, offset, parts[i]);
      offset := offset + |parts[i]|;
    }
    assert parts[..|parts|] == parts;
    return buffer[..];
  }

  method Place(buffer: array<char>, offset: nat, part: string)
    requires offset + |part| <= buffer.Length
    modifies buffer
    ensures buffer[..offset + |part|] == old(buffer[..offset]) + part
  {
    forall k | 0 <= k < |part| {
      buffer[offset + k] := part[k];
    }
  }

  /** Between two pushes: what is handed and what is left, and what is taken and what is still to come. */
  ghost predicate Feeding(push: Push, finish: Finish, all: seq<string>, done: seq<string>, left: seq<string>,
                          taken: string)
  {
    && done + left == all
    && OutputOf(push, finish, [], all) == Prepend(taken, OutputOf(push, finish, done, left))
  }

  lemma {:induction false} FeedingStarts(push: Push, finish: Finish, all: seq<string>)
    ensures Feeding(push, finish, all, [], all, "")
  {
    assert [] + all == all;
    var output := OutputOf(push, finish, [], all);
    if output.Ok? {
      assert "" + output.value == output.value;
    }
  }

  lemma {:induction false} FeedingGoesOn(push: Push, finish: Finish, all: seq<string>, done: seq<string>,
                                         left: seq<string>,
                                         taken: string)
    requires left != [] && Feeding(push, finish, all, done, left, taken)
    ensures push(done, left[0]).Err? ==> OutputOf(push, finish, [], all).Err?
    ensures push(done, left[0]).Ok? ==>
      Feeding(push, finish, all, done + [left[0]], left[1..], taken + push(done, left[0]).value)
  {
    assert done + [left[0]] + left[1..] == done + left;
    var part := push(done, left[0]);
    var rest := OutputOf(push, finish, done + [left[0]], left[1..]);
    if part.Ok? && rest.Ok? {
      assert taken + (part.value + rest.value) == (taken + part.value) + rest.value;
    }
  }

  lemma {:induction false} NextPiece(compressed: string, at: nat)
    requires at < |compressed|
    ensures Pieces(compressed[at..]) ==
      [compressed[at..Min(at + BZIP2_CHUNK, |compressed|)]] + Pieces(compressed[Min(at + BZIP2_CHUNK, |compressed|)..])
  {
    var rest, cut := compressed[at..], Min(BZIP2_CHUNK, |compressed| - at);
    assert rest[..cut] == compressed[at..at + cut] && rest[cut..] == compressed[at + cut..];
  }

  /** What the loop over the compressed bytes ends with. */
  datatype Fed = Fed | Full | Threw(message: string)

  ghost predicate FedAll(fed: Fed, unpacked: Result<string, string>, size: nat, taken: string) {
    match fed
    case Fed => unpacked == Ok(taken)
    case Full => size > 0 && (unpacked.Ok? ==> |unpacked.value| > size)
    case Threw(_) => unpacked.Err?
  }

  /** One push, and its block taken unless it is empty. */
  method FeedPiece(decoder: Bz2Decoder, blocks: Blocks, piece: string, ghost all: seq<string>, ghost left: seq<string>)
    returns (fed: Fed)
    requires !decoder.freed && blocks.Valid()
    requires left != [] && piece == left[0]
    requires Feeding(decoder.push, decoder.finish, all, decoder.handed, left, blocks.taken)
    modifies decoder`handed, blocks, blocks.nar
    ensures blocks.Valid() && decoder.handed <= all
    ensures fed.Fed? ==> Feeding(decoder.push, decoder.finish, all, decoder.handed, left[1..], blocks.taken)
    ensures !fed.Fed? ==> FedAll(fed, OutputOf(decoder.push, decoder.finish, [], all), blocks.size, blocks.taken)
  {
    ghost var done, taken := decoder.handed, blocks.taken;
    FeedingGoesOn(decoder.push, decoder.finish, all, done, left, taken);
    assert done + [left[0]] + left[1..] == all;
    var part := decoder.Push(piece);
    if part.Err? {
      return Threw(part.error);
    }
    var ok := true;
    if |part.value| > 0 {
      ok := blocks.Take(part.value);
    } else {
      assert taken + part.value == taken;
    }
    fed := if ok then Fed else Full;
  }

  /** The pushes and the finish. */
  method Feed(decoder: Bz2Decoder, blocks: Blocks, compressed: string) returns (fed: Fed)
    requires !decoder.freed && decoder.handed == [] && blocks.Valid() && blocks.taken == ""
    modifies decoder`handed, blocks, blocks.nar
    ensures blocks.Valid() && decoder.handed <= Pieces(compressed)
    ensures FedAll(fed, Unpacked(decoder.push, decoder.finish, compressed), blocks.size, blocks.taken)
    ensures fed.Fed? ==> decoder.handed == Pieces(compressed)
  {
    ghost var all := Pieces(compressed);
    FeedingStarts(decoder.push, decoder.finish, all);
    var at := 0;
    while at < |compressed|
      invariant blocks.Valid() && !decoder.freed
      invariant Feeding(decoder.push, decoder.finish, all, decoder.handed, Pieces(compressed[Min(at, |compressed|)..]),
                        blocks.taken)
    {
      NextPiece(compressed, at);
      fed := FeedPiece(decoder, blocks, compressed[at..Min(at + BZIP2_CHUNK, |compressed|)], all,
                       Pieces(compressed[at..]));
      if !fed.Fed? {
        return;
      }
      at := at + BZIP2_CHUNK;
    }
    var part := decoder.Finish();
    if part.Err? {
      return Threw(part.error);
    }
    var ok := blocks.Take(part.value);
    fed := if ok then Fed else Full;
  }

  /** What unpacking promises: the decoder's output when its size is the signed one, or no size is known. */
  function Promised(unpacked: Result<string, string>, size: nat): Option<string> {
    if unpacked.Ok? && (size == 0 || |unpacked.value| == size) then Some(unpacked.value) else None
  }

  method UnpackWith(decoder: Bz2Decoder, compressed: string, narSize: nat) returns (archive: Result<string, Fault>)
    requires !decoder.freed && decoder.handed == []
    modifies decoder
    ensures decoder.freed
    ensures var unpacked := Unpacked(decoder.push, decoder.finish, compressed);
      if Promised(unpacked, narSize).Some? then archive == Ok(Promised(unpacked, narSize).value) else
      archive.Err? && archive.error.Unusable?
    ensures decoder.handed <= Pieces(compressed)
    ensures archive.Ok? ==> decoder.handed == Pieces(compressed)
  {
    var blocks := new Blocks(narSize);
    var fed := Feed(decoder, blocks, compressed);
    decoder.Free();
    match fed
    case Threw(message) => archive := Err(Unusable(message));
    case Full => archive := Err(Unusable("unpacks past the size the narinfo says"));
    case Fed =>
      var whole := blocks.Archive();
      archive := if whole.Some? then Ok(whole.value)
                 else Err(Unusable("unpacked to another size than the narinfo says"));
  }

  /**
   * The archive is what the decoder unpacks the compressed bytes to, kept in one buffer or joined at the end. It is
   * refused when the decoder throws, and when a size was signed and it is not that long.
   */
  method Unbzip2(loaded: bool, push: Push, finish: Finish, compressed: string, narSize: nat)
    returns (archive: Result<string, Fault>)
    ensures !loaded <==> archive == Err(DecoderUnavailable)
    ensures loaded ==> var unpacked := Unpacked(push, finish, compressed);
      archive.Ok? <==> unpacked.Ok? && (narSize == 0 || |unpacked.value| == narSize)
    ensures archive.Ok? ==> Unpacked(push, finish, compressed) == Ok(archive.value)
  {
    if !loaded {
      return Err(DecoderUnavailable);
    }
    var decoder := new Bz2Decoder(push, finish);
    archive := UnpackWith(decoder, compressed, narSize);
  }
}
