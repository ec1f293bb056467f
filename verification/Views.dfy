/**
 * One narinfo as the walk, the download and the signature check see it (site/js/closure.js, store.js and
 * substituters.js), and what a signature on it says of the archive that is parsed. What `Number` makes of a size is a
 * parameter; a field the narinfo lacks is the text it is printed as.
 */
module Views {
  import opened Prelude
  import Nar
  import Paths
  import Narinfo
  import Closure
  import Fetch
  import Substituters

  const SUPPORTED: set<string> := {"bzip2", "xz", "zstd", "none"}

  function Printed(field: Option<string>): string {
    Narinfo.OrElse(field, "undefined")
  }

  /** What the walk follows. */
  function Walked(info: Narinfo.Info): Closure.Narinfo {
    Closure.Narinfo(Printed(info.storePath), info.references)
  }

  /** What the download goes by; its URL is a path under the cache that it came from. */
  function Downloaded(info: Narinfo.Info, cache: string, number: string -> nat): Fetch.NarInfo {
    Fetch.NarInfo(info.compression in SUPPORTED, cache + "/" + Printed(info.url), number(info.narSize),
                  info.narHash.Some?)
  }

  /** What a cache signs, and the signatures. */
  function Signed(info: Narinfo.Info, number: string -> nat): Substituters.Info {
    Substituters.Info(Printed(info.storePath), Printed(info.narHash), number(info.narSize), info.references, info.sigs)
  }

  /** Of lines that a cache writes, what each of them sees. */
  lemma {:induction false} WrittenIsSeen(entries: seq<Narinfo.Entry>, path: string, url: string, compression: string,
                                         size: string, hash: string, references: seq<string>, cache: string,
                                         number: string -> nat)
    requires forall i :: 0 <= i < |entries| ==> Narinfo.Writable(entries[i])
    requires Narinfo.Given(entries, "StorePath") == [path] && Narinfo.Given(entries, "URL") == [url]
    requires Narinfo.Given(entries, "Compression") == [compression] && Narinfo.Given(entries, "NarSize") == [size]
    requires Narinfo.Given(entries, "NarHash") == [hash]
    requires Narinfo.Given(entries, "References") == [Paths.Join(references, " ")]
    requires forall r :: r in references ==> r != "" && Paths.Free(r, ' ')
    ensures var info := Narinfo.InfoOf(Paths.Split(Paths.Join(Narinfo.LinesOf(entries), "\n"), '\n'));
      && Walked(info) == Closure.Narinfo(path, references)
      && Downloaded(info, cache, number) ==
           Fetch.NarInfo(compression in {"", "bzip2", "xz", "zstd", "none"}, cache + "/" + url, number(size), true)
      && Signed(info, number) ==
           Substituters.Info(path, hash, number(size), references, Narinfo.Given(entries, "Sig"))
  {
    hide Narinfo.InfoOf, Narinfo.LinesOf, Paths.Join, Paths.Split;
    assert entries != [];
    Narinfo.NarinfoIsRead(entries, references);
  }

  /** Comparing an archive with a hash. */
  type Compare = (string, string) -> Fetch.HashCheck

  /** The archive is the one that was published, as far as the browser can tell. */
  ghost predicate IsPublished(p: Substituters.Info, compare: Compare, nar: string) {
    (p.narSize > 0 ==> |nar| == p.narSize) && compare(p.narHash, nar) in {Fetch.Matches, Fetch.Uncheckable}
  }

  /** What was parsed of an archive that is the published one. */
  ghost predicate ParsedFrom(p: Substituters.Info, compare: Compare, tools: Fetch.Tools, fetched: Fetch.Fetched) {
    fetched.Parsed? &&
    exists n: nat | n in {1, 2} ::
      && tools.decode(n, fetched.last).Ok?
      && IsPublished(p, compare, tools.decode(n, fetched.last).value)
      && Nar.ParsedNar(tools.decode(n, fetched.last).value).Parsed?
      && fetched.entries == Nar.ParsedNar(tools.decode(n, fetched.last).value).entries
  }

  /**
   * From a signature to the bytes: of a narinfo that a configured key vouches for, with keys that sign only what their
   * owner published, the walk follows published references, and what is parsed, whatever the network and the cache
   * give, is an archive of the published size and, where it can be checked, of the published hash.
   */
  lemma {:induction false} VouchedIsParsed(info: Narinfo.Info, number: string -> nat, check: Substituters.Checker,
                                           substituters: seq<Substituters.Substituter>,
                                           published: set<Substituters.Info>, compare: Compare, tools: Fetch.Tools,
                                           network: nat -> Fetch.Answer, fetches: nat, cache: string,
                                           stored: map<string, string>)
    requires Substituters.Signable(Signed(info, number)) && info.narHash.Some?
    requires Substituters.Vouched(check, Signed(info, number), substituters)
    requires Substituters.Honest(check, substituters, published)
    requires forall p :: p in published ==> Substituters.Signable(p)
    requires forall nar :: tools.check(nar) == compare(info.narHash.value, nar)
    ensures var fetched := Fetch.FetchOf(Downloaded(info, cache, number), tools, network, fetches, stored);
      exists p :: p in published
        && Walked(info) == Closure.Narinfo(p.storePath, p.references)
        && (fetched.Parsed? ==> ParsedFrom(p, compare, tools, fetched))
  {
    hide Substituters.Signable, Substituters.Vouched, Substituters.Honest, Fetch.FetchOf, Nar.ParsedNar;
    var signed, asked := Signed(info, number), Downloaded(info, cache, number);
    Substituters.VouchedIsPublished(check, signed, substituters, published);
    var p :| p in published && p.(sigs := signed.sigs) == signed;
    var fetched := Fetch.FetchOf(asked, tools, network, fetches, stored);
    Fetch.OnlyGenuineIsParsed(asked, tools, network, fetches, stored);
    if fetched.Parsed? {
      var n :| n in {1, 2} && Fetch.Usable(asked, tools, n, fetched.last)
               && Nar.ParsedNar(tools.decode(n, fetched.last).value).Parsed?
               && fetched.entries == Nar.ParsedNar(tools.decode(n, fetched.last).value).entries;
      assert IsPublished(p, compare, tools.decode(n, fetched.last).value);
    }
  }
}
