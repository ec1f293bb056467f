/**
 * The page's link, printed and read by site/js/url.js and printed by tools/share-link.py. White space is the ASCII
 * kind.
 */
module Url {
  import opened Prelude
  import opened Paths
  import opened Form
  import opened Text

  const PARAM_PKG := "pkg"
  const PARAM_PATH := "path"
  const PARAM_CACHE := "cache"
  const PARAM_BOOT := "boot"

  datatype Pkg = Pkg(attr: string, version: Option<string>)

  datatype Cache = Cache(url: string, key: string)

  datatype State = State(pkgs: seq<Pkg>, paths: seq<string>, caches: seq<Cache>, boot: bool)

  // ---------- reading ----------

  function GetAll(params: seq<Param>, name: string): seq<string> {
    if params == [] then []
    else (if params[0].name == name then [params[0].value] else []) + GetAll(params[1..], name)
  }

  /** Values are lists with commas between; nothing between two commas is nothing. */
  function Listed(values: seq<string>): seq<string> {
    if values == [] then [] else NonEmpty(Split(values[0], ',')) + Listed(values[1..])
  }

  /** The last place a character has, or -1. */
  function LastIndexOf(s: string, c: char): (i: int)
    ensures -1 <= i < |s|
    ensures i >= 0 ==> s[i] == c
    ensures forall k :: i < k < |s| ==> s[k] != c
  {
    if s == "" then -1 else if s[|s| - 1] == c then |s| - 1 else LastIndexOf(s[..|s| - 1], c)
  }

  function ReadPkg(spec: string): Pkg {
    var at := LastIndexOf(spec, '@');
    if at < 0 then Pkg(spec, None) else Pkg(spec[..at], Some(spec[at + 1..]))
  }

  function ReadPkgs(specs: seq<string>): seq<Pkg> {
    if specs == [] then [] else [ReadPkg(specs[0])] + ReadPkgs(specs[1..])
  }

  predicate Solid(s: string) {
    forall i :: 0 <= i < |s| ==> !IsSpace(s[i])
  }

  /** The runs of characters between white space. */
  function Words(s: string): seq<string> {
    if s == "" then []
    else if IsSpace(s[0]) then Words(s[1..])
    else if |s| == 1 || IsSpace(s[1]) then [[s[0]]] + Words(s[1..])
    else
      var rest := Words(s[1..]);
      if rest == [] then [[s[0]]] else [[s[0]] + rest[0]] + rest[1..]
  }

  function DropSlash(url: string): string {
    if url != "" && url[|url| - 1] == '/' then url[..|url| - 1] else url
  }

  /** A URL and a key; anything else is dropped. */
  function ReadCache(value: string): seq<Cache> {
    var words := Words(value);
    if |words| == 2 then [Cache(DropSlash(words[0]), words[1])] else []
  }

  function ReadCaches(values: seq<string>): seq<Cache> {
    if values == [] then [] else ReadCache(values[0]) + ReadCaches(values[1..])
  }

  function ReadParams(params: seq<Param>): State {
    State(
      ReadPkgs(Listed(GetAll(params, PARAM_PKG))),
      Listed(GetAll(params, PARAM_PATH)),
      ReadCaches(GetAll(params, PARAM_CACHE)),
      GetAll(params, PARAM_BOOT) != [] && GetAll(params, PARAM_BOOT)[0] == "1")
  }

  function ReadUrl(query: string): State {
    ReadParams(Parse(query))
  }

  // ---------- writing ----------

  function SpecOf(pkg: Pkg): string {
    match pkg.version
    case None => pkg.attr
    case Some(version) => pkg.attr + ['@'] + version
  }

  function SpecsOf(pkgs: seq<Pkg>): seq<string> {
    if pkgs == [] then [] else [SpecOf(pkgs[0])] + SpecsOf(pkgs[1..])
  }

  function CacheValue(cache: Cache): string {
    cache.url + [' '] + cache.key
  }

  function CacheValues(caches: seq<Cache>): seq<string> {
    if caches == [] then [] else [CacheValue(caches[0])] + CacheValues(caches[1..])
  }

  function Named(name: string, values: seq<string>): seq<Param> {
    if values == [] then [] else [Param(name, values[0])] + Named(name, values[1..])
  }

  function BootParams(boot: bool): seq<Param> {
    if boot then [Param(PARAM_BOOT, "1")] else []
  }

  function ParamsOf(state: State): seq<Param> {
    Named(PARAM_PKG, SpecsOf(state.pkgs)) + Named(PARAM_PATH, state.paths) +
    Named(PARAM_CACHE, CacheValues(state.caches)) + BootParams(state.boot)
  }

  /** What URLSearchParams leaves alone, and what urlencode does when told to leave slashes and colons. */
  const ALPHANUMERIC: set<char> := set c: char | '0' <= c <= '9' || 'A' <= c <= 'Z' || 'a' <= c <= 'z'

  const PAGE_KEEPS: set<char> := ALPHANUMERIC + {'*', '-', '.', '_'}

  const TOOL_KEEPS: set<char> := ALPHANUMERIC + {'_', '.', '-', '~', '/', ':'}

  lemma {:induction false} NamedSnoc(name: string, values: seq<string>, value: string)
    ensures Named(name, values + [value]) == Named(name, values) + [Param(name, value)]
  {
    if values == [] {
      assert values + [value] == [value];
      assert [value][1..] == [];
    } else {
      assert (values + [value])[1..] == values[1..] + [value];
      NamedSnoc(name, values[1..], value);
    }
  }

  lemma {:induction false} NamedPrefix(name: string, values: seq<string>, i: nat)
    requires i < |values|
    ensures Named(name, values[..i + 1]) == Named(name, values[..i]) + [Param(name, values[i])]
  {
    assert values[..i + 1] == values[..i] + [values[i]];
    NamedSnoc(name, values[..i], values[i]);
  }

  lemma {:induction false} SpecsOfAt(pkgs: seq<Pkg>, i: nat)
    requires i < |pkgs|
    ensures |SpecsOf(pkgs)| == |pkgs| && SpecsOf(pkgs)[i] == SpecOf(pkgs[i])
  {
    SpecsOfLength(pkgs);
    if i > 0 {
      SpecsOfAt(pkgs[1..], i - 1);
    }
  }

  lemma {:induction false} SpecsOfLength(pkgs: seq<Pkg>)
    ensures |SpecsOf(pkgs)| == |pkgs|
  {
    if pkgs != [] {
      SpecsOfLength(pkgs[1..]);
    }
  }

  lemma {:induction false} CacheValuesAt(caches: seq<Cache>, i: nat)
    requires i < |caches|
    ensures |CacheValues(caches)| == |caches| && CacheValues(caches)[i] == CacheValue(caches[i])
  {
    CacheValuesLength(caches);
    if i > 0 {
      CacheValuesAt(caches[1..], i - 1);
    }
  }

  lemma {:induction false} CacheValuesLength(caches: seq<Cache>)
    ensures |CacheValues(caches)| == |caches|
  {
    if caches != [] {
      CacheValuesLength(caches[1..]);
    }
  }

  method AppendPkgs(pkgs: seq<Pkg>) returns (params: seq<Param>)
    ensures params == Named(PARAM_PKG, SpecsOf(pkgs))
  {
    params := [];
    SpecsOfLength(pkgs);
    for i := 0 to |pkgs|
      invariant params == Named(PARAM_PKG, SpecsOf(pkgs)[..i])
    {
      SpecsOfAt(pkgs, i);
      NamedPrefix(PARAM_PKG, SpecsOf(pkgs), i);
      params := params + [Param(PARAM_PKG, SpecOf(pkgs[i]))];
    }
    assert SpecsOf(pkgs)[..|pkgs|] == SpecsOf(pkgs);
  }

  method AppendPaths(params0: seq<Param>, paths: seq<string>) returns (params: seq<Param>)
    ensures params == params0 + Named(PARAM_PATH, paths)
  {
    params := params0;
    for i := 0 to |paths|
      invariant params == params0 + Named(PARAM_PATH, paths[..i])
    {
      NamedPrefix(PARAM_PATH, paths, i);
      params := params + [Param(PARAM_PATH, paths[i])];
    }
    assert paths[..|paths|] == paths;
  }

  method AppendCaches(params0: seq<Param>, caches: seq<Cache>) returns (params: seq<Param>)
    ensures params == params0 + Named(PARAM_CACHE, CacheValues(caches))
  {
    params := params0;
    CacheValuesLength(caches);
    for i := 0 to |caches|
      invariant params == params0 + Named(PARAM_CACHE, CacheValues(caches)[..i])
    {
      CacheValuesAt(caches, i);
      NamedPrefix(PARAM_CACHE, CacheValues(caches), i);
      params := params + [Param(PARAM_CACHE, CacheValue(caches[i]))];
    }
    assert CacheValues(caches)[..|caches|] == CacheValues(caches);
  }

  /** The query of a link to this state. */
  method WriteUrl(state: State) returns (query: string)
    ensures query == Serialise(ParamsOf(state), PAGE_KEEPS)
  {
    var params := AppendPkgs(state.pkgs);
    params := AppendPaths(params, state.paths);
    params := AppendCaches(params, state.caches);
    ghost var rest := params;
    if state.boot {
      params := params + [Param(PARAM_BOOT, "1")];
    }
    assert params == rest + BootParams(state.boot);
    query := Serialise(params, PAGE_KEEPS);
  }

  // ---------- what reading can give ----------

  ghost predicate PkgReadable(pkg: Pkg) {
    && Free(pkg.attr, ',')
    && match pkg.version
       case None => pkg.attr != "" && Free(pkg.attr, '@')
       case Some(version) => Free(version, ',') && Free(version, '@')
  }

  ghost predicate PathReadable(path: string) {
    path != "" && Free(path, ',')
  }

  ghost predicate CacheReadable(cache: Cache) {
    Solid(cache.url) && cache.key != "" && Solid(cache.key)
  }

  /** The states that reading a link can give at all. */
  ghost predicate Readable(state: State) {
    && (forall i :: 0 <= i < |state.pkgs| ==> PkgReadable(state.pkgs[i]))
    && (forall i :: 0 <= i < |state.paths| ==> PathReadable(state.paths[i]))
    && (forall i :: 0 <= i < |state.caches| ==> CacheReadable(state.caches[i]))
  }

  lemma {:induction false} NonEmptyReadable(parts: seq<string>)
    requires forall p :: p in parts ==> Free(p, ',')
    ensures forall i :: 0 <= i < |NonEmpty(parts)| ==> PathReadable(NonEmpty(parts)[i])
  {
    if parts != [] {
      NonEmptyReadable(parts[1..]);
    }
  }

  lemma {:induction false} ListedReadable(values: seq<string>)
    ensures forall i :: 0 <= i < |Listed(values)| ==> PathReadable(Listed(values)[i])
  {
    if values != [] {
      PartsAreFree(values[0], ',');
      NonEmptyReadable(Split(values[0], ','));
      ListedReadable(values[1..]);
    }
  }

  lemma {:induction false} ReadPkgsReadable(specs: seq<string>)
    requires forall i :: 0 <= i < |specs| ==> PathReadable(specs[i])
    ensures forall i :: 0 <= i < |ReadPkgs(specs)| ==> PkgReadable(ReadPkgs(specs)[i])
  {
    if specs != [] {
      ReadPkgsReadable(specs[1..]);
      assert PathReadable(specs[0]);
      assert PkgReadable(ReadPkg(specs[0]));
    }
  }

  lemma {:induction false} WordsAreSolid(s: string)
    ensures forall i :: 0 <= i < |Words(s)| ==> Words(s)[i] != "" && Solid(Words(s)[i])
  {
    if s != "" {
      WordsAreSolid(s[1..]);
    }
  }

  lemma {:induction false} ReadCachesReadable(values: seq<string>)
    ensures forall i :: 0 <= i < |ReadCaches(values)| ==> CacheReadable(ReadCaches(values)[i])
  {
    if values != [] {
      WordsAreSolid(values[0]);
      ReadCachesReadable(values[1..]);
    }
  }

  /** Reading never gives anything else. */
  lemma {:induction false} ReadIsReadable(query: string)
    ensures Readable(ReadUrl(query))
  {
    var params := Parse(query);
    ListedReadable(GetAll(params, PARAM_PKG));
    ReadPkgsReadable(Listed(GetAll(params, PARAM_PKG)));
    ListedReadable(GetAll(params, PARAM_PATH));
    ReadCachesReadable(GetAll(params, PARAM_CACHE));
  }

  // ---------- the round trip ----------

  lemma {:induction false} GetAllConcat(a: seq<Param>, b: seq<Param>, name: string)
    ensures GetAll(a + b, name) == GetAll(a, name) + GetAll(b, name)
  {
    if a == [] {
      assert a + b == b;
    } else {
      GetAllConcat(a[1..], b, name);
      assert (a + b)[1..] == a[1..] + b;
      ConcatAssociates(if a[0].name == name then [a[0].value] else [], GetAll(a[1..], name), GetAll(b, name));
    }
  }

  lemma {:induction false} GetAllNamed(name: string, values: seq<string>, wanted: string)
    ensures GetAll(Named(name, values), wanted) == if name == wanted then values else []
  {
    if values != [] {
      GetAllNamed(name, values[1..], wanted);
      assert [values[0]] + values[1..] == values;
    }
  }

  lemma {:induction false} BootNamed(boot: bool)
    ensures BootParams(boot) == Named(PARAM_BOOT, if boot then ["1"] else [])
  {
    if boot {
      assert ["1"][1..] == [];
    }
  }

  lemma {:induction false} GetAllOfState(state: State, name: string)
    ensures GetAll(ParamsOf(state), name) ==
      if name == PARAM_PKG then SpecsOf(state.pkgs) else if name == PARAM_PATH then state.paths
      else if name == PARAM_CACHE then CacheValues(state.caches)
      else if name == PARAM_BOOT && state.boot then ["1"] else []
  {
    var pkgs, paths := Named(PARAM_PKG, SpecsOf(state.pkgs)), Named(PARAM_PATH, state.paths);
    var caches, boot := Named(PARAM_CACHE, CacheValues(state.caches)), BootParams(state.boot);
    BootNamed(state.boot);
    hide GetAll, Named, SpecsOf, CacheValues, BootParams;
    GetAllConcat(pkgs + paths + caches, boot, name);
    GetAllConcat(pkgs + paths, caches, name);
    GetAllConcat(pkgs, paths, name);
    GetAllNamed(PARAM_PKG, SpecsOf(state.pkgs), name);
    GetAllNamed(PARAM_PATH, state.paths, name);
    GetAllNamed(PARAM_CACHE, CacheValues(state.caches), name);
    GetAllNamed(PARAM_BOOT, if state.boot then ["1"] else [], name);
  }

  lemma {:induction false} ListedSingles(values: seq<string>)
    requires forall i :: 0 <= i < |values| ==> PathReadable(values[i])
    ensures Listed(values) == values
  {
    if values != [] {
      SplitFree(values[0], ',');
      assert NonEmpty([values[0]]) == [values[0]] + NonEmpty([values[0]][1..]);
      ListedSingles(values[1..]);
      assert [values[0]] + values[1..] == values;
    }
  }

  lemma {:induction false} LastIndexIs(a: string, b: string, c: char)
    requires Free(b, c)
    ensures LastIndexOf(a + [c] + b, c) == |a|
  {
    var s := a + [c] + b;
    assert s[|a|] == c;
    assert forall k :: |a| < k < |s| ==> s[k] == b[k - |a| - 1];
  }

  lemma {:induction false} PkgComesBack(pkg: Pkg)
    requires PkgReadable(pkg)
    ensures PathReadable(SpecOf(pkg)) && ReadPkg(SpecOf(pkg)) == pkg
  {
    if pkg.version.Some? {
      LastIndexIs(pkg.attr, pkg.version.value, '@');
      var spec := pkg.attr + ['@'] + pkg.version.value;
      assert spec[..|pkg.attr|] == pkg.attr && spec[|pkg.attr| + 1..] == pkg.version.value;
    }
  }

  lemma {:induction false} PkgsComeBack(pkgs: seq<Pkg>)
    requires forall i :: 0 <= i < |pkgs| ==> PkgReadable(pkgs[i])
    ensures Listed(SpecsOf(pkgs)) == SpecsOf(pkgs) && ReadPkgs(SpecsOf(pkgs)) == pkgs
  {
    SpecsOfLength(pkgs);
    forall i | 0 <= i < |pkgs| ensures PathReadable(SpecsOf(pkgs)[i]) {
      SpecsOfAt(pkgs, i);
      PkgComesBack(pkgs[i]);
    }
    ListedSingles(SpecsOf(pkgs));
    ReadSpecs(pkgs);
  }

  lemma {:induction false} ReadSpecs(pkgs: seq<Pkg>)
    requires forall i :: 0 <= i < |pkgs| ==> PkgReadable(pkgs[i])
    ensures ReadPkgs(SpecsOf(pkgs)) == pkgs
  {
    if pkgs != [] {
      PkgComesBack(pkgs[0]);
      ReadSpecs(pkgs[1..]);
      assert [pkgs[0]] + pkgs[1..] == pkgs;
    }
  }

  lemma {:induction false} WordsOfSolid(s: string)
    requires Solid(s)
    ensures Words(s) == if s == "" then [] else [s]
  {
    if |s| == 1 {
      assert s == [s[0]];
    } else if s != "" {
      WordsOfSolid(s[1..]);
      assert !IsSpace(s[0]) && !IsSpace(s[1]);
      assert [s[0]] + s[1..] == s;
    }
  }

  lemma {:induction false} WordsOfPair(url: string, key: string)
    requires Solid(url) && Solid(key)
    ensures Words(url + [' '] + key) == Words(url) + Words(key)
  {
    var s := url + [' '] + key;
    if url == "" {
      assert s[1..] == key;
    } else {
      WordsOfPair(url[1..], key);
      assert s[1..] == url[1..] + [' '] + key;
      WordsOfSolid(url);
      WordsOfSolid(url[1..]);
      assert [url[0]] + url[1..] == url;
    }
  }

  /** A cache that comes back from the link as it was. */
  predicate Normal(cache: Cache) {
    cache.url != "" && cache.url[|cache.url| - 1] != '/'
  }

  predicate AllNormal(caches: seq<Cache>) {
    forall c :: c in caches ==> Normal(c)
  }

  lemma {:induction false} CacheComesBack(cache: Cache)
    requires CacheReadable(cache)
    ensures ReadCache(CacheValue(cache)) == if cache.url == "" then [] else [Cache(DropSlash(cache.url), cache.key)]
  {
    WordsOfPair(cache.url, cache.key);
    WordsOfSolid(cache.url);
    WordsOfSolid(cache.key);
  }

  lemma {:induction false} CachesShrink(caches: seq<Cache>)
    requires forall i :: 0 <= i < |caches| ==> CacheReadable(caches[i])
    ensures |ReadCaches(CacheValues(caches))| <= |caches|
  {
    if caches != [] {
      CacheComesBack(caches[0]);
      CachesShrink(caches[1..]);
    }
  }

  lemma {:induction false} CachesComeBack(caches: seq<Cache>)
    requires forall i :: 0 <= i < |caches| ==> CacheReadable(caches[i])
    ensures ReadCaches(CacheValues(caches)) == caches <==> AllNormal(caches)
  {
    if caches != [] {
      var read, rest := ReadCaches(CacheValues(caches)), ReadCaches(CacheValues(caches[1..]));
      CacheComesBack(caches[0]);
      CachesComeBack(caches[1..]);
      CachesShrink(caches[1..]);
      assert caches == [caches[0]] + caches[1..];
      if Normal(caches[0]) {
        assert read == [caches[0]] + rest && read[1..] == rest;
      } else if caches[0].url != "" {
        assert read[0].url == DropSlash(caches[0].url);
      }
    }
  }

  // ---------- links written by hand ----------

  lemma {:induction false} NonEmptyConcat(a: seq<string>, b: seq<string>)
    ensures NonEmpty(a + b) == NonEmpty(a) + NonEmpty(b)
  {
    if a == [] {
      assert a + b == b;
    } else {
      NonEmptyConcat(a[1..], b);
      assert (a + b)[0] == a[0] && (a + b)[1..] == a[1..] + b;
      ConcatAssociates([a[0]], NonEmpty(a[1..]), NonEmpty(b));
    }
  }

  /** A comma in a value does what a second value does; a value without one is one item, and an empty one is none. */
  lemma {:induction false} CommasSplit(a: string, b: string, more: seq<string>)
    ensures Listed([a + "," + b] + more) == Listed([a, b] + more)
    ensures Free(a, ',') ==> Listed([a] + more) == (if a == "" then [] else [a]) + Listed(more)
  {
    assert a + "," + b == a + [','] + b;
    SplitAt(a, b, ',');
    NonEmptyConcat(Split(a, ','), Split(b, ','));
    assert ([a + "," + b] + more)[1..] == more && ([a] + more)[1..] == more;
    assert ([a, b] + more)[1..] == [b] + more && ([b] + more)[1..] == more;
    ConcatAssociates(NonEmpty(Split(a, ',')), NonEmpty(Split(b, ',')), Listed(more));
    if Free(a, ',') {
      SplitFree(a, ',');
      assert NonEmpty([a]) == (if a == "" then [] else [a]) + NonEmpty([a][1..]);
    }
  }

  /** The parameters of a link that names two packages, two paths, a cache, and how to start. */
  function ByHand(attr: string, version: string, other: string, path: string, second: string, cache: Cache,
                  boot: string): seq<Param>
  {
    [Param("pkg", attr + "@" + version + "," + other), Param("path", path + "," + second),
     Param("cache", cache.url + " " + cache.key), Param("boot", boot)]
  }

  lemma {:induction false} ByHandGives(attr: string, version: string, other: string, path: string, second: string,
                                       cache: Cache, boot: string)
    ensures var params := ByHand(attr, version, other, path, second, cache, boot);
      && GetAll(params, PARAM_PKG) == [attr + "@" + version + "," + other]
      && GetAll(params, PARAM_PATH) == [path + "," + second]
      && GetAll(params, PARAM_CACHE) == [cache.url + " " + cache.key] && GetAll(params, PARAM_BOOT) == [boot]
  {
    var params := ByHand(attr, version, other, path, second, cache, boot);
    GetAllOfFour(params, PARAM_PKG);
    GetAllOfFour(params, PARAM_PATH);
    GetAllOfFour(params, PARAM_CACHE);
    GetAllOfFour(params, PARAM_BOOT);
  }

  lemma {:induction false} GetAllOne(param: Param, name: string)
    ensures GetAll([param], name) == if param.name == name then [param.value] else []
  {
    assert [param][1..] == [];
  }

  lemma {:induction false} GetAllOfFour(params: seq<Param>, name: string)
    requires |params| == 4
    ensures GetAll(params, name) ==
      GetAll([params[0]], name) + (GetAll([params[1]], name) + (GetAll([params[2]], name) + GetAll([params[3]], name)))
    ensures forall i :: 0 <= i < 4 ==>
      GetAll([params[i]], name) == if params[i].name == name then [params[i].value] else []
  {
    hide GetAll;
    GetAllConcat([params[2]], [params[3]], name);
    GetAllConcat([params[1]], [params[2]] + [params[3]], name);
    GetAllConcat([params[0]], [params[1]] + ([params[2]] + [params[3]]), name);
    assert params == [params[0]] + ([params[1]] + ([params[2]] + [params[3]]));
    forall i | 0 <= i < 4
      ensures GetAll([params[i]], name) == if params[i].name == name then [params[i].value] else []
    {
      GetAllOne(params[i], name);
    }
  }

  /** They are read as what they say; anything but a one at the end does not start by itself. */
  lemma {:induction false} ByHandIsRead(attr: string, version: string, other: string, path: string, second: string,
                                        cache: Cache, boot: string)
    requires PkgReadable(Pkg(attr, Some(version))) && PkgReadable(Pkg(other, None))
    requires PathReadable(path) && PathReadable(second) && CacheReadable(cache) && Normal(cache)
    ensures ReadParams(ByHand(attr, version, other, path, second, cache, boot)) ==
      State([Pkg(attr, Some(version)), Pkg(other, None)], [path, second], [cache], boot == "1")
  {
    hide PathReadable, Listed, ReadPkgs, ReadCaches, GetAll, ByHand;
    var spec := attr + "@" + version;
    ByHandGives(attr, version, other, path, second, cache, boot);
    TwoPkgs(attr, version, other);
    TwoItems(spec, other);
    TwoItems(path, second);
    OneCache(cache);
  }

  lemma {:induction false} TwoPkgs(attr: string, version: string, other: string)
    requires PkgReadable(Pkg(attr, Some(version))) && PkgReadable(Pkg(other, None))
    ensures ReadPkgs([attr + "@" + version, other]) == [Pkg(attr, Some(version)), Pkg(other, None)]
    ensures PathReadable(attr + "@" + version) && PathReadable(other)
  {
    hide ReadPkg;
    var spec := attr + "@" + version;
    PkgComesBack(Pkg(attr, Some(version)));
    PkgComesBack(Pkg(other, None));
    assert attr + ['@'] + version == spec;
    assert ReadPkgs([other]) == [Pkg(other, None)] + ReadPkgs([other][1..]) && [spec, other][1..] == [other];
    assert [other][1..] == [];
  }

  lemma {:induction false} OneCache(cache: Cache)
    requires CacheReadable(cache) && Normal(cache)
    ensures ReadCaches([cache.url + " " + cache.key]) == [cache]
  {
    hide ReadCache;
    CacheComesBack(cache);
    assert cache.url + [' '] + cache.key == cache.url + " " + cache.key;
    assert [cache.url + " " + cache.key][1..] == [];
  }

  lemma {:induction false} WordsOfFirst(word: string, rest: string)
    requires Solid(word) && word != ""
    ensures Words(word + " " + rest) == [word] + Words(rest) && Words(" " + rest) == Words(rest)
  {
    var s := word + " " + rest;
    assert (" " + rest)[1..] == rest;
    assert s[0] == word[0] && s[1..] == word[1..] + " " + rest;
    if |word| == 1 {
      assert s[1] == ' ' && s[1..] == " " + rest && word == [word[0]];
    } else {
      WordsOfFirst(word[1..], rest);
      assert s[1] == word[1] && !IsSpace(word[1]);
      assert [word[0]] + word[1..] == word;
      assert ([word[1..]] + Words(rest))[0] == word[1..] && ([word[1..]] + Words(rest))[1..] == Words(rest);
    }
  }

  /** A cache is two words, whatever blanks are around them; one word is none, and neither are three. */
  lemma {:induction false} CacheIsTwoWords(a: string, b: string, c: string)
    requires Solid(a) && Solid(b) && Solid(c) && a != "" && b != "" && c != ""
    ensures ReadCache(a) == [] && ReadCache(a + " " + (b + " " + c)) == []
    ensures ReadCache(" " + (a + " " + (" " + (b + " ")))) == [Cache(DropSlash(a), b)]
  {
    hide Words, DropSlash;
    WordsOfSolid(a);
    WordsOfSolid(c);
    WordsOfSolid("");
    WordsOfFirst(b, c);
    WordsOfFirst(a, b + " " + c);
    WordsOfFirst(b, "");
    WordsOfFirst(a, b + " ");
    WordsOfFirst(a, " " + (b + " "));
    WordsOfFirst(a, a + " " + (" " + (b + " ")));
    assert b + " " + "" == b + " ";
  }

  lemma {:induction false} TwoItems(a: string, b: string)
    requires PathReadable(a) && PathReadable(b)
    ensures Listed([a + "," + b]) == [a, b]
  {
    CommasSplit(a, b, []);
    CommasSplit(a, b, [b]);
    CommasSplit(b, a, []);
    assert [a + "," + b] + [] == [a + "," + b] && [a, b] + [] == [a, b] && [a] + [b] == [a, b] && [b] + [] == [b];
    assert Listed([]) == [] && [a] + ([b] + []) == [a, b];
  }

  ghost predicate StateBytes(state: State) {
    ParamBytes(ParamsOf(state))
  }

  /**
   * A state that reading a link can give comes back from the link written for it exactly when every cache URL in it is
   * non-empty and ends in no slash.
   */
  lemma {:induction false} RoundTripIff(state: State)
    requires Readable(state) && StateBytes(state)
    ensures ReadUrl(Serialise(ParamsOf(state), PAGE_KEEPS)) == state <==>
            AllNormal(state.caches)
  {
    hide Parse, Serialise, ReadParams, ParamsOf, AllNormal;
    ParseSerialise(ParamsOf(state), PAGE_KEEPS);
    ReadOfParams(state);
    CachesComeBack(state.caches);
  }

  lemma {:induction false} ReadOfParams(state: State)
    requires Readable(state)
    ensures ReadParams(ParamsOf(state)) == state.(caches := ReadCaches(CacheValues(state.caches)))
  {
    GetAllOfState(state, PARAM_PKG);
    GetAllOfState(state, PARAM_PATH);
    GetAllOfState(state, PARAM_CACHE);
    GetAllOfState(state, PARAM_BOOT);
    PkgsComeBack(state.pkgs);
    ListedSingles(state.paths);
  }

  /** Every URL with one slash more. */
  function Slashed(caches: seq<Cache>): seq<Cache> {
    if caches == [] then [] else [Cache(caches[0].url + "/", caches[0].key)] + Slashed(caches[1..])
  }

  lemma {:induction false} SlashedReadable(caches: seq<Cache>)
    requires forall i :: 0 <= i < |caches| ==> CacheReadable(caches[i])
    ensures forall i :: 0 <= i < |Slashed(caches)| ==> CacheReadable(Slashed(caches)[i])
  {
    if caches != [] {
      SlashedReadable(caches[1..]);
      assert CacheReadable(caches[0]);
      assert CacheReadable(Slashed(caches)[0]);
    }
  }

  /** One slash is what reading drops. */
  lemma {:induction false} SlashedComesBack(caches: seq<Cache>)
    requires forall i :: 0 <= i < |caches| ==> CacheReadable(caches[i])
    ensures ReadCaches(CacheValues(Slashed(caches))) == caches
  {
    if caches != [] {
      var first := Cache(caches[0].url + "/", caches[0].key);
      SlashedReadable(caches);
      assert CacheReadable(Slashed(caches)[0]) && Slashed(caches)[0] == first;
      CacheComesBack(first);
      SlashedComesBack(caches[1..]);
      assert first.url[..|caches[0].url|] == caches[0].url;
      assert Slashed(caches)[1..] == Slashed(caches[1..]) && [caches[0]] + caches[1..] == caches;
    }
  }

  lemma {:induction false} BytesConcat(a: seq<Param>, b: seq<Param>)
    ensures ParamBytes(a + b) <==> ParamBytes(a) && ParamBytes(b)
  {
    if ParamBytes(a + b) {
      forall i | 0 <= i < |a| ensures IsBytes(a[i].name) && IsBytes(a[i].value) {
        assert (a + b)[i] == a[i];
      }
      forall i | 0 <= i < |b| ensures IsBytes(b[i].name) && IsBytes(b[i].value) {
        assert (a + b)[|a| + i] == b[i];
      }
    }
  }

  lemma {:induction false} SlashedValueBytes(cache: Cache)
    requires IsBytes(CacheValue(cache))
    ensures IsBytes(CacheValue(Cache(cache.url + "/", cache.key)))
  {
    var value := CacheValue(cache);
    assert forall i :: 0 <= i < |cache.url| ==> cache.url[i] == value[i];
    assert forall i :: 0 <= i < |cache.key| ==> cache.key[i] == value[|cache.url| + 1 + i];
  }

  lemma {:induction false} SlashedParamBytes(caches: seq<Cache>)
    requires ParamBytes(Named(PARAM_CACHE, CacheValues(caches)))
    ensures ParamBytes(Named(PARAM_CACHE, CacheValues(Slashed(caches))))
  {
    if caches != [] {
      var rest, slashed := Named(PARAM_CACHE, CacheValues(caches[1..])), Slashed(caches);
      var first, after := Param(PARAM_CACHE, CacheValue(caches[0])), Param(PARAM_CACHE, CacheValue(slashed[0]));
      assert Named(PARAM_CACHE, CacheValues(caches)) == [first] + rest;
      BytesConcat([first], rest);
      assert IsBytes([first][0].value);
      SlashedValueBytes(caches[0]);
      SlashedParamBytes(caches[1..]);
      assert slashed[1..] == Slashed(caches[1..]);
      assert IsBytes(after.name) && IsBytes(after.value);
      BytesConcat([after], Named(PARAM_CACHE, CacheValues(slashed[1..])));
    }
  }

  lemma {:induction false} SlashedBytes(state: State)
    requires StateBytes(state)
    ensures StateBytes(state.(caches := Slashed(state.caches)))
  {
    var before := Named(PARAM_PKG, SpecsOf(state.pkgs)) + Named(PARAM_PATH, state.paths);
    var caches, boot := Named(PARAM_CACHE, CacheValues(state.caches)), BootParams(state.boot);
    BytesConcat(before + caches, boot);
    BytesConcat(before, caches);
    SlashedParamBytes(state.caches);
    var slashed := Named(PARAM_CACHE, CacheValues(Slashed(state.caches)));
    BytesConcat(before, slashed);
    BytesConcat(before + slashed, boot);
  }

  /**
   * Every readable state is read from some link, the one with a slash more behind every cache URL; so the states that
   * do not come back from the link written for them, the ones with a cache URL that is empty or ends in a slash, do
   * occur.
   */
  lemma {:induction false} SlashIsLost(state: State)
    requires Readable(state) && StateBytes(state)
    ensures ReadUrl(Serialise(ParamsOf(state.(caches := Slashed(state.caches))), PAGE_KEEPS)) == state
    ensures !AllNormal(state.caches) ==> ReadUrl(Serialise(ParamsOf(state), PAGE_KEEPS)) != state
  {
    var slashed := state.(caches := Slashed(state.caches));
    SlashedReadable(state.caches);
    SlashedComesBack(state.caches);
    SlashedBytes(state);
    ParseSerialise(ParamsOf(slashed), PAGE_KEEPS);
    ReadOfParams(slashed);
    RoundTripIff(state);
  }

  // ---------- the other printer ----------

  function DropSlashes(url: string): string {
    if url != "" && url[|url| - 1] == '/' then DropSlashes(url[..|url| - 1]) else url
  }

  /** None stands for leaving with a message. */
  function NormalizeCacheUrl(cache: string): Option<string> {
    if StartsWith(cache, "http") then Some(DropSlashes(cache)) else None
  }

  /** The caches of a link: the one URL with each of its keys. */
  function OnePerKey(url: string, keys: seq<string>): seq<Cache> {
    if keys == [] then [] else [Cache(url, keys[0])] + OnePerKey(url, keys[1..])
  }

  function Link(site: string, paths: seq<string>, cacheUrl: string, keys: seq<string>, boot: bool): string {
    DropSlashes(site) + "/" + ['?'] +
    Serialise(
      Named(PARAM_PATH, paths) + Named(PARAM_CACHE, CacheValues(OnePerKey(cacheUrl, keys))) + BootParams(boot),
      TOOL_KEEPS)
  }

  /** What a browser has as the query: from the first question mark to the first hash. */
  function QueryOf(link: string): string {
    Cut(Cut(link, '#').0, '?').1
  }

  lemma {:induction false} DropSlashesMeans(url: string)
    ensures DropSlashes(url) <= url
    ensures DropSlashes(url) == "" || DropSlashes(url)[|DropSlashes(url)| - 1] != '/'
    ensures forall i :: |DropSlashes(url)| <= i < |url| ==> url[i] == '/'
  {
    if url != "" && url[|url| - 1] == '/' {
      DropSlashesMeans(url[..|url| - 1]);
    }
  }

  lemma {:induction false} CutFree(s: string, sep: char)
    requires Free(s, sep)
    ensures Cut(s, sep) == (s, "")
  {
    if s != "" {
      CutFree(s[1..], sep);
      assert [s[0]] + s[1..] == s;
    }
  }

  lemma {:induction false} OnePerKeyAll(url: string, keys: seq<string>)
    requires Solid(url) && forall i :: 0 <= i < |keys| ==> keys[i] != "" && Solid(keys[i])
    requires url != "" && url[|url| - 1] != '/'
    ensures forall i :: 0 <= i < |OnePerKey(url, keys)| ==> CacheReadable(OnePerKey(url, keys)[i])
    ensures AllNormal(OnePerKey(url, keys))
  {
    if keys != [] {
      OnePerKeyAll(url, keys[1..]);
    }
  }

  /**
   * The page reads the tool's link back: its paths, one cache entry per key, and whether to boot. Paths have no comma,
   * keys and the cache's URL no white space.
   */
  lemma {:induction false} LinkComesBack(site: string, paths: seq<string>, cache: string, keys: seq<string>, boot: bool)
    requires Free(site, '?') && Free(site, '#')
    requires forall i :: 0 <= i < |paths| ==> PathReadable(paths[i])
    requires Solid(cache) && NormalizeCacheUrl(cache).Some?
    requires forall i :: 0 <= i < |keys| ==> keys[i] != "" && Solid(keys[i])
    requires StateBytes(State([], paths, OnePerKey(NormalizeCacheUrl(cache).value, keys), boot))
    ensures var cacheUrl := NormalizeCacheUrl(cache).value;
      ReadUrl(QueryOf(Link(site, paths, cacheUrl, keys, boot))) == State([], paths, OnePerKey(cacheUrl, keys), boot)
  {
    var cacheUrl := NormalizeCacheUrl(cache).value;
    var state := State([], paths, OnePerKey(cacheUrl, keys), boot);
    DropSlashesMeans(cache);
    NormalizedIsNormal(cache);
    OnePerKeyAll(cacheUrl, keys);
    assert Named(PARAM_PKG, SpecsOf([])) + Named(PARAM_PATH, paths) == Named(PARAM_PATH, paths);
    LinkQuery(site, ParamsOf(state));
    ParseSerialise(ParamsOf(state), TOOL_KEEPS);
    ReadOfParams(state);
    CachesComeBack(state.caches);
  }

  lemma {:induction false} NormalizedIsNormal(cache: string)
    requires Solid(cache) && NormalizeCacheUrl(cache).Some?
    ensures var url := NormalizeCacheUrl(cache).value; Solid(url) && url != "" && url[|url| - 1] != '/'
  {
    DropSlashesMeans(cache);
    assert cache[0] == cache[..4][0] == 'h';
  }

  lemma {:induction false} LinkQuery(site: string, params: seq<Param>)
    requires Free(site, '?') && Free(site, '#')
    ensures QueryOf(DropSlashes(site) + "/" + ['?'] + Serialise(params, TOOL_KEEPS)) == Serialise(params, TOOL_KEEPS)
  {
    var base, query := DropSlashes(site) + "/", Serialise(params, TOOL_KEEPS);
    DropSlashesMeans(site);
    SerialiseHasNoFragment(params, TOOL_KEEPS);
    CutFree(base + ['?'] + query, '#');
    CutJoined(base, query, '?');
  }
}
