/**
 * Downloading with retries (site/js/net.js) and fetching one archive (site/js/store.js). The network is a script of
 * answers; what is counted is what the progress callback heard. Bytes are characters.
 */
module Fetch {
  import opened Prelude
  import opened Unbzip2
  import Archive
  import Nar

  const ATTEMPTS := 4
  const NAR_ATTEMPTS := 2

  /**
   * An answer to one fetch; a body may break off, and what came of it was reported. `kept` is whether it can be
   * cached.
   */
  datatype Answer = NoAnswer | Status(code: nat) | Body(chunks: seq<string>, broken: bool, kept: bool)

  /** A body that arrived whole and passes. */
  predicate Succeeds(answer: Answer, verify: string -> bool) {
    answer.Body? && !answer.broken && verify(Flatten(answer.chunks))
  }

  /** The first of `n` answers from `at` on that is a success, or `at + n`. */
  function FirstSuccess(network: nat -> Answer, verify: string -> bool, at: nat, n: nat): (k: nat)
    ensures at <= k <= at + n
    ensures k < at + n ==> Succeeds(network(k), verify)
    ensures forall i :: at <= i < k ==> !Succeeds(network(i), verify)
    decreases n
  {
    if n == 0 || Succeeds(network(at), verify) then at else FirstSuccess(network, verify, at + 1, n - 1)
  }

  /** The network, the persistent cache, and the progress reported so far. */
  class Client {
    const network: nat -> Answer
    var fetches: nat
    var cache: map<string, string>
    var reported: seq<int>

    constructor (network: nat -> Answer)
      ensures this.network == network && fetches == 0 && cache == map[] && reported == []
    {
      this.network := network;
      fetches, cache, reported := 0, map[], [];
    }

    method OnBytes(n: int)
      modifies this`reported
      ensures Sum(reported) == Sum(old(reported)) + n
    {
      reported := reported + [n];
      assert reported[..|reported| - 1] == old(reported);
    }

    /** A body's chunks put together, each one's size reported when it is there. */
    method Drain(chunks: seq<string>) returns (bytes: string)
      modifies this`reported
      ensures bytes == Flatten(chunks) && Sum(reported) == Sum(old(reported)) + |bytes|
    {
      bytes := "";
      for i := 0 to |chunks|
        invariant bytes == Flatten(chunks[..i]) && Sum(reported) == Sum(old(reported)) + |bytes|
      {
        FlattenSplit(chunks, i);
        bytes := bytes + chunks[i];
        OnBytes(|chunks[i]|);
      }
      assert chunks[..|chunks|] == chunks;
    }

    /** One attempt. What it reported is taken back when it fails. */
    method Attempt(url: string, verify: string -> bool) returns (bytes: Option<string>)
      modifies this
      ensures fetches == old(fetches) + 1
      ensures bytes ==
        if Succeeds(network(old(fetches)), verify) then Some(Flatten(network(old(fetches)).chunks)) else None
      ensures Sum(reported) == Sum(old(reported)) + if bytes.Some? then |bytes.value| else 0
      ensures cache == if bytes.Some? && network(old(fetches)).kept then old(cache)[url := bytes.value] else old(cache)
    {
      var answer := network(fetches);
      fetches := fetches + 1;
      if !answer.Body? {
        OnBytes(0);
        return None;
      }
      var body := Drain(answer.chunks);
      if answer.broken || !verify(body) {
        OnBytes(-|body|);
        return None;
      }
      if answer.kept {
        cache := cache[url := body];
      }
      return Some(body);
    }

    /**
     * A cached body that passes, or the first of four answers that does. The progress reported is the length returned,
     * and nothing on giving up; a cached body that fails is forgotten, and only what passes is kept.
     */
    method FetchWithProgress(url: string, verify: string -> bool) returns (bytes: Option<string>)
      modifies this
      ensures bytes.Some? ==> verify(bytes.value)
      ensures Sum(reported) == Sum(old(reported)) + if bytes.Some? then |bytes.value| else 0
      ensures url in old(cache) && verify(old(cache)[url]) ==>
        bytes == Some(old(cache)[url]) && fetches == old(fetches) && cache == old(cache)
      ensures !(url in old(cache) && verify(old(cache)[url])) ==>
        var k := FirstSuccess(network, verify, old(fetches), ATTEMPTS);
        if k == old(fetches) + ATTEMPTS
        then bytes == None && fetches == k && cache == old(cache) - {url}
        else bytes == Some(Flatten(network(k).chunks)) && fetches == k + 1 &&
             cache == if network(k).kept then (old(cache) - {url})[url := bytes.value] else old(cache) - {url}
    {
      if url in cache {
        var hit := Drain([cache[url]]);
        FlattenOne(cache[url]);
        if verify(hit) {
          return Some(hit);
        }
        cache := cache - {url};
        OnBytes(-|hit|);
      }
      assert cache == old(cache) - {url};
      ghost var first := FirstSuccess(network, verify, fetches, ATTEMPTS);
      var attempt := 1;
      while true
        invariant 1 <= attempt <= ATTEMPTS && fetches == old(fetches) + attempt - 1 <= first
        invariant cache == old(cache) - {url} && Sum(reported) == Sum(old(reported))
        invariant first == FirstSuccess(network, verify, old(fetches), ATTEMPTS)
        decreases ATTEMPTS - attempt
      {
        bytes := Attempt(url, verify);
        if bytes.Some? || attempt >= ATTEMPTS {
          return;
        }
        attempt := attempt + 1;
      }
    }
  }

  lemma {:induction false} FlattenOne(part: string)
    ensures Flatten([part]) == part
  {
    assert [part][..0] == [];
  }

  // ---------- one archive ----------

  /** What comparing an archive with the narinfo's hash gives; a browser without a hash function cannot say. */
  datatype HashCheck = Matches | Differs | Uncheckable | NotAHash

  /** `narSize` is 0 when the narinfo has none. */
  datatype NarInfo = NarInfo(supported: bool, url: string, narSize: nat, hashed: bool)

  /** The decoder for the info's compression at the n-th decode, and the hash comparison. */
  datatype Tools = Tools(decode: (nat, string) -> Result<string, Fault>, check: string -> HashCheck)

  /** The archive is what the narinfo promised, as far as it promised and the browser can tell. */
  predicate Genuine(info: NarInfo, tools: Tools, nar: string) {
    && (info.narSize > 0 ==> |nar| == info.narSize)
    && (info.hashed ==> tools.check(nar) in {Matches, Uncheckable})
  }

  /** How fetching an archive ends; `last` is the last compressed body. */
  datatype Fetched =
    | Unsupported
    | GaveUp
    | NoDecoder(last: string)
    | WrongTwice(last: string)
    | Malformed(last: string)
    | Parsed(last: string, entries: seq<Nar.Entry>)

  /** What the progress callback has heard in the end. */
  function Reported(fetched: Fetched): nat {
    match fetched
    case Unsupported => 0
    case GaveUp => 0
    case NoDecoder(last) => |last|
    case WrongTwice(last) => |last|
    case Malformed(last) => |last|
    case Parsed(last, _) => |last|
  }

  /**
   * The body that is left in the cache, if it could be kept there: one that decodes and passes stays, although it may
   * not parse, and so does one there is no decoder for.
   */
  function Staying(fetched: Fetched): Option<string> {
    match fetched
    case Unsupported => None
    case GaveUp => None
    case WrongTwice(_) => None
    case NoDecoder(last) => Some(last)
    case Malformed(last) => Some(last)
    case Parsed(last, _) => Some(last)
  }

  /** Whether a body decodes, at the n-th decode, to an archive that is what was promised. */
  predicate Usable(info: NarInfo, tools: Tools, n: nat, body: string) {
    tools.decode(n, body).Ok? && Genuine(info, tools, tools.decode(n, body).value)
  }

  /** What one round makes of its body: none when the body has to be fetched again. */
  function Judged(info: NarInfo, tools: Tools, n: nat, body: string): (judged: Option<Fetched>)
    ensures judged.Some? ==> Staying(judged.value) == Some(body) && Reported(judged.value) == |body|
    ensures judged.Some? ==> !judged.value.Unsupported?
  {
    if tools.decode(n, body) == Err(DecoderUnavailable) then Some(NoDecoder(body))
    else if !Usable(info, tools, n, body) then None
    else
      match Nar.ParsedNar(tools.decode(n, body).value)
      case Refused => Some(Malformed(body))
      case Parsed(entries, _) => Some(Parsed(body, entries))
  }

  method Judge(info: NarInfo, tools: Tools, n: nat, body: string) returns (fetched: Option<Fetched>)
    ensures fetched == Judged(info, tools, n, body)
  {
    var decoded := tools.decode(n, body);
    if decoded == Err(DecoderUnavailable) {
      return Some(NoDecoder(body));
    }
    if decoded.Err? {
      return None;
    }
    var nar := decoded.value;
    if info.narSize > 0 && |nar| != info.narSize {
      return None;
    }
    if info.hashed {
      var verdict := tools.check(nar);
      if verdict.Differs? || verdict.NotAHash? {
        return None;
      }
    }
    var entries, _ := Nar.ParseNar(nar);
    return Some(if entries.Some? then Parsed(body, entries.value) else Malformed(body));
  }

  function Anything(bytes: string): bool {
    true
  }

  /** The body a round gets, if any: what is cached, or the first of four bodies that arrives whole. */
  function BodyFor(network: nat -> Answer, fetches: nat, cache: map<string, string>, url: string): Option<string> {
    if url in cache then Some(cache[url])
    else
      var k := FirstSuccess(network, Anything, fetches, ATTEMPTS);
      if k == fetches + ATTEMPTS then None else Some(Flatten(network(k).chunks))
  }

  /** How many fetches have been made after such a round. */
  function FetchesAfter(network: nat -> Answer, fetches: nat, cache: map<string, string>, url: string): nat {
    if url in cache then fetches else Min(FirstSuccess(network, Anything, fetches, ATTEMPTS) + 1, fetches + ATTEMPTS)
  }

  /**
   * The rounds from the `attempt`-th on. When the bytes of one cannot be used they are forgotten, so the next goes to
   * the network; when the last one's cannot, that is the end.
   */
  function RoundsFrom(info: NarInfo, tools: Tools, network: nat -> Answer, attempt: nat, fetches: nat,
                      cache: map<string, string>): Fetched
    decreases NAR_ATTEMPTS - attempt
  {
    var body := BodyFor(network, fetches, cache, info.url);
    if body.None? then GaveUp
    else
      var judged := Judged(info, tools, attempt, body.value);
      if judged.Some? then judged.value
      else if attempt >= NAR_ATTEMPTS then WrongTwice(body.value)
      else
        RoundsFrom(info, tools, network, attempt + 1, FetchesAfter(network, fetches, cache, info.url),
                   cache - {info.url})
  }

  function FetchOf(info: NarInfo, tools: Tools, network: nat -> Answer, fetches: nat,
                   cache: map<string, string>): Fetched
  {
    if info.supported then RoundsFrom(info, tools, network, 1, fetches, cache) else Unsupported
  }

  /** Whether the last body came out of the cache, or in an answer that could go there. */
  ghost predicate FromStore(network: nat -> Answer, before: nat, after: nat) {
    after <= before || (network(after - 1).Body? && network(after - 1).kept)
  }

  /** The cache with a body under its URL, if there is one and it stays; without one otherwise. */
  function CacheWith(cache: map<string, string>, url: string, body: Option<string>, stays: bool): map<string, string> {
    if body.Some? && stays then cache[url := body.value] else cache - {url}
  }

  /** A round's download, said in the terms of the specification. */
  method Download(client: Client, url: string) returns (bytes: Option<string>)
    modifies client
    ensures bytes == BodyFor(client.network, old(client.fetches), old(client.cache), url)
    ensures client.fetches == FetchesAfter(client.network, old(client.fetches), old(client.cache), url)
    ensures Sum(client.reported) == Sum(old(client.reported)) + if bytes.Some? then |bytes.value| else 0
    ensures old(client.fetches) <= client.fetches <= old(client.fetches) + ATTEMPTS
    ensures client.fetches == old(client.fetches) <==> url in old(client.cache)
    ensures url in old(client.cache) ==> bytes == Some(old(client.cache)[url])
    ensures client.cache == CacheWith(old(client.cache), url, bytes,
                                      FromStore(client.network, old(client.fetches), client.fetches))
  {
    hide Flatten;
    bytes := client.FetchWithProgress(url, Anything);
    assert bytes.Some? && url in old(client.cache) ==> old(client.cache)[url := bytes.value] == old(client.cache);
  }

  /** One round; what it reported is taken back when its bytes are to be fetched again. */
  method Round(client: Client, info: NarInfo, tools: Tools, attempt: nat) returns (done: bool, fetched: Fetched)
    requires attempt <= NAR_ATTEMPTS
    modifies client
    ensures client.fetches <= old(client.fetches) + ATTEMPTS
    ensures client.fetches >= old(client.fetches)
    ensures client.fetches == old(client.fetches) ==> info.url in old(client.cache)
    ensures info.url in old(client.cache) && Judged(info, tools, attempt, old(client.cache)[info.url]).Some? ==>
      done && client.fetches == old(client.fetches) && client.cache == old(client.cache)
    ensures client.cache == CacheWith(old(client.cache), info.url, if done then Staying(fetched) else None,
                                      FromStore(client.network, old(client.fetches), client.fetches))
    ensures Sum(client.reported) == Sum(old(client.reported)) + if done then Reported(fetched) else 0
    ensures var rounds := RoundsFrom(info, tools, client.network, attempt, old(client.fetches), old(client.cache));
      if done then fetched == rounds else
        && attempt < NAR_ATTEMPTS
        && RoundsFrom(info, tools, client.network, attempt + 1, client.fetches, client.cache) == rounds
    ensures done ==> !fetched.Unsupported?
  {
    hide Judged, FirstSuccess, BodyFor, FetchesAfter;
    var body := Download(client, info.url);
    if body.None? {
      done, fetched := true, GaveUp;
    } else {
      var judged := Judge(info, tools, attempt, body.value);
      if judged.Some? {
        done, fetched := true, judged.value;
      } else {
        client.cache := client.cache - {info.url};
        done, fetched := attempt >= NAR_ATTEMPTS, WrongTwice(body.value);
        if !done {
          client.OnBytes(-|body.value|);
        }
      }
    }
  }

  /**
   * Fetch, decode, verify, parse. What was reported nets the last body's length, whatever it came to, and nothing when
   * there is none. The last body is in the cache afterwards exactly when it came from there or could be kept, and was
   * not found to be wrong; one that passes and does not parse is among those, and on one that was cached nothing
   * changes at all.
   */
  method FetchNar(client: Client, info: NarInfo, tools: Tools) returns (fetched: Fetched)
    modifies client
    ensures fetched == FetchOf(info, tools, client.network, old(client.fetches), old(client.cache))
    ensures Sum(client.reported) == Sum(old(client.reported)) + Reported(fetched)
    ensures client.fetches <= old(client.fetches) + 8
    ensures fetched.Unsupported? ==> client.cache == old(client.cache) && client.fetches == old(client.fetches)
    ensures info.url in old(client.cache) && Judged(info, tools, 1, old(client.cache)[info.url]).Some? ==>
      client.fetches == old(client.fetches) && client.cache == old(client.cache)
    ensures !fetched.Unsupported? ==>
      client.cache == CacheWith(old(client.cache), info.url, Staying(fetched),
                                FromStore(client.network, old(client.fetches), client.fetches))
  {
    hide RoundsFrom, Judged;
    if !info.supported {
      return Unsupported;
    }
    ghost var fetched0 := FetchOf(info, tools, client.network, client.fetches, client.cache);
    var attempt := 1;
    while true
      invariant 1 <= attempt <= NAR_ATTEMPTS
      invariant fetched0 == RoundsFrom(info, tools, client.network, attempt, client.fetches, client.cache)
      invariant Sum(client.reported) == Sum(old(client.reported))
      invariant client.fetches <= old(client.fetches) + (attempt - 1) * ATTEMPTS
      invariant old(client.fetches) <= client.fetches
      invariant client.cache == if attempt == 1 then old(client.cache) else old(client.cache) - {info.url}
      invariant if attempt == 1 then client.fetches == old(client.fetches)
                else !(info.url in old(client.cache) && Judged(info, tools, 1, old(client.cache)[info.url]).Some?)
      decreases NAR_ATTEMPTS - attempt
    {
      var done;
      done, fetched := Round(client, info, tools, attempt);
      if done {
        return;
      }
      attempt := attempt + 1;
    }
  }

  /** A body that arrived whole. */
  predicate Whole(answer: Answer) {
    answer.Body? && !answer.broken
  }

  /** Of four answers the first whole body counts; with none among them there is none. */
  lemma {:induction false} FirstOfFour(network: nat -> Answer, fetches: nat, cache: map<string, string>, url: string,
                                       k: nat)
    requires url !in cache && k <= 4 && forall i: nat :: fetches <= i < fetches + k ==> !Whole(network(i))
    ensures k == 4 ==> BodyFor(network, fetches, cache, url).None?
    ensures k < 4 && Whole(network(fetches + k)) ==>
      BodyFor(network, fetches, cache, url) == Some(Flatten(network(fetches + k).chunks))
  {
    var first := FirstSuccess(network, Anything, fetches, 4);
    forall i: nat | fetches <= i < fetches + k ensures !Succeeds(network(i), Anything) {
      assert !Whole(network(i));
    }
    if k < 4 && Whole(network(fetches + k)) {
      assert Succeeds(network(fetches + k), Anything);
    }
  }

  /** A body decodes, at the n-th decode, to this archive, and the archive is of the size and hash that are given. */
  ghost predicate Fitting(info: NarInfo, tools: Tools, n: nat, body: string, nar: string) {
    && tools.decode(n, body) == Ok(nar)
    && (info.narSize == 0 || |nar| == info.narSize)
    && (!info.hashed || tools.check(nar) == Matches || tools.check(nar) == Uncheckable)
  }

  /** A body that decodes to an archive of another size or hash, or to nothing. */
  ghost predicate Wrong(info: NarInfo, tools: Tools, n: nat, body: string) {
    && tools.decode(n, body) != Err(DecoderUnavailable)
    && forall nar :: !Fitting(info, tools, n, body, nar)
  }

  lemma {:induction false} JudgedIs(info: NarInfo, tools: Tools, n: nat, body: string)
    ensures Judged(info, tools, n, body).None? <==> Wrong(info, tools, n, body)
  {
    hide Nar.ParsedNar;
    if tools.decode(n, body).Ok? {
      var nar := tools.decode(n, body).value;
      assert Usable(info, tools, n, body) <==> Fitting(info, tools, n, body, nar);
    }
  }

  /** Nothing that fits is turned away: a first body that unpacks to a tree's archive gives that tree's entries. */
  lemma {:induction false} FittingIsParsed(info: NarInfo, tools: Tools, network: nat -> Answer, fetches: nat,
                                           cache: map<string, string>, body: string, t: Archive.Tree)
    requires info.supported && Archive.Fits(t) && BodyFor(network, fetches, cache, info.url) == Some(body)
    requires Fitting(info, tools, 1, body, Archive.Serialise(t))
    ensures FetchOf(info, tools, network, fetches, cache) == Parsed(body, Archive.EntriesOf(t, ""))
  {
    hide Archive.Serialise, Archive.EntriesOf, Archive.Fits, Nar.ParsedNar, BodyFor, FetchesAfter, Judged;
    Archive.ParseOfSerialised(t);
    FittingIsJudged(info, tools, body, Archive.Serialise(t));
  }

  lemma {:induction false} FittingIsJudged(info: NarInfo, tools: Tools, body: string, nar: string)
    requires Fitting(info, tools, 1, body, nar) && Nar.ParsedNar(nar).Parsed?
    ensures Judged(info, tools, 1, body) == Some(Parsed(body, Nar.ParsedNar(nar).entries))
  {
    hide Nar.ParsedNar;
  }

  /** A first body that is wrong gets a second chance, from the network; so does nothing else. */
  lemma {:induction false} WrongIsFetchedAgain(info: NarInfo, tools: Tools, network: nat -> Answer, fetches: nat,
                                               cache: map<string, string>, body: string, again: nat)
    requires info.supported && BodyFor(network, fetches, cache, info.url) == Some(body)
    requires Wrong(info, tools, 1, body) && again == FetchesAfter(network, fetches, cache, info.url)
    ensures var second := BodyFor(network, again, cache - {info.url}, info.url);
      FetchOf(info, tools, network, fetches, cache) ==
        if second.None? then GaveUp
        else if Wrong(info, tools, 2, second.value) then WrongTwice(second.value)
        else Judged(info, tools, 2, second.value).value
  {
    hide Judged, BodyFor, FetchesAfter, Wrong;
    JudgedIs(info, tools, 1, body);
    var second := BodyFor(network, again, cache - {info.url}, info.url);
    if second.Some? {
      JudgedIs(info, tools, 2, second.value);
    }
  }

  /** What a fetch may leave in the cache is never a body found wrong. */
  lemma {:induction false} StayingIsNotWrong(info: NarInfo, tools: Tools, network: nat -> Answer, fetches: nat,
                                             cache: map<string, string>)
    ensures var staying := Staying(FetchOf(info, tools, network, fetches, cache));
      staying.Some? ==> !Wrong(info, tools, 1, staying.value) || !Wrong(info, tools, 2, staying.value)
  {
    hide Judged, BodyFor, FetchesAfter, Wrong;
    var first := BodyFor(network, fetches, cache, info.url);
    if info.supported && first.Some? {
      JudgedIs(info, tools, 1, first.value);
      if Wrong(info, tools, 1, first.value) {
        var again := FetchesAfter(network, fetches, cache, info.url);
        WrongIsFetchedAgain(info, tools, network, fetches, cache, first.value, again);
        var second := BodyFor(network, again, cache - {info.url}, info.url);
        if second.Some? {
          JudgedIs(info, tools, 2, second.value);
        }
      }
    }
  }

  /** The parser only ever sees an archive that is what the narinfo promised, and an entry list is what it parsed. */
  lemma {:induction false} OnlyGenuineIsParsed(info: NarInfo, tools: Tools, network: nat -> Answer, fetches: nat,
                                               cache: map<string, string>)
    ensures var fetched := FetchOf(info, tools, network, fetches, cache);
      (fetched.Parsed? || fetched.Malformed? ==>
        exists n :: n in {1, 2} && Usable(info, tools, n, fetched.last) &&
          (fetched.Parsed? <==> Nar.ParsedNar(tools.decode(n, fetched.last).value).Parsed?) &&
          (fetched.Parsed? ==> fetched.entries == Nar.ParsedNar(tools.decode(n, fetched.last).value).entries))
  {
    var fetched := FetchOf(info, tools, network, fetches, cache);
    if fetched.Parsed? || fetched.Malformed? {
      var first := BodyFor(network, fetches, cache, info.url);
      var n := if Judged(info, tools, 1, first.value).Some? then 1 else 2;
      assert Usable(info, tools, n, fetched.last);
    }
  }

  /**
   * With a hash that only the serialised tree has, and a browser that can tell, what is fetched always parses, and is
   * the entries of the tree.
   */
  lemma {:induction false} HashedIsTheTree(info: NarInfo, tools: Tools, network: nat -> Answer, fetches: nat,
                                           cache: map<string, string>, t: Archive.Tree)
    requires info.hashed && Archive.Fits(t)
    requires forall nar :: tools.check(nar) in {Matches, Uncheckable} ==> nar == Archive.Serialise(t)
    ensures var fetched := FetchOf(info, tools, network, fetches, cache);
      !fetched.Malformed? && (fetched.Parsed? ==> fetched.entries == Archive.EntriesOf(t, ""))
  {
    OnlyGenuineIsParsed(info, tools, network, fetches, cache);
    Archive.ParseOfSerialised(t);
  }

  /**
   * A fetch fails on a cached body for not parsing, whatever the network has to offer, exactly when the first decode
   * judges that body so. It leaves everything as it was (FetchNar), so every later one fails alike.
   */
  lemma {:induction false} MalformedForeverIff(info: NarInfo, tools: Tools, cache: map<string, string>)
    requires info.url in cache
    ensures (forall network, fetches ::
               FetchOf(info, tools, network, fetches, cache) == Malformed(cache[info.url])) <==>
            info.supported && Judged(info, tools, 1, cache[info.url]) == Some(Malformed(cache[info.url]))
  {
    var silent: nat -> Answer := _ => NoAnswer;
    var fetched := FetchOf(info, tools, silent, 0, cache);
    assert BodyFor(silent, 0, cache - {info.url}, info.url).None?;
  }

  /** There are such bodies: an uncompressed one, empty, under a narinfo that gives neither size nor hash. */
  lemma {:induction false} EmptyBodyIsMalformed(url: string, tools: Tools)
    requires forall n, body :: tools.decode(n, body) == Ok(body)
    ensures Judged(NarInfo(true, url, 0, false), tools, 1, "") == Some(Malformed(""))
  {
    assert tools.decode(1, "") == Ok("");
  }
}
