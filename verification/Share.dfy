/** The store share of site/js/boot.js: written paths, what they offer, and the farm, all on the filesystem. */
module Share {
  import opened Prelude
  import opened Paths
  import opened FileSystem
  import Nar
  import opened Archive
  import opened Writer
  import opened Farm
  import Fitting

  // Where the page keeps the store and the farm, as names; Abs gives /share/nix/store and /share/bin.
  const STORE: seq<string> := ["share", "nix", "store"]
  const BIN: seq<string> := ["share", "bin"]
  const GUEST_STORE_DIR := "/nix/store"

  function LinkPath(name: string): string {
    Abs(BIN) + "/" + name
  }

  /** Where a farm link leads: a path that only the guest has. */
  function TargetOf(basename: string, name: string): string {
    GUEST_STORE_DIR + "/" + basename + "/" + BIN_PREFIX + name
  }

  // ---------- the farm on the filesystem ----------

  /** The bin directory holds exactly these links; it may be missing only while there are none. */
  ghost predicate Shows(nodes: Nodes, links: Links) {
    && Clear(nodes, BIN)
    && (Abs(BIN) !in nodes ==> links == map[])
    && (forall name :: name in links ==> ProperName(name))
    && (forall name :: ProperName(name) ==>
          (LinkPath(name) in nodes <==> name in links)
          && (name in links ==> nodes[LinkPath(name)] == FileSystem.Link(TargetOf(links[name], name))))
  }

  lemma {:induction false} BinPaths(name: string)
    requires ProperName(name)
    ensures ProperPath(BIN) && ProperPath(BIN + [name]) && LinkPath(name) == Abs(BIN + [name])
    ensures Below(BIN, LinkPath(name)) && Dirname(LinkPath(name)) == Abs(BIN) && !Circular(LinkPath(name))
  {
    ProperIsNotCircular(BIN + [name]);
    DirnameJoin(Abs(BIN), name);
    assert BIN <= BIN + [name];
    BelowAbs(BIN, BIN + [name]);
  }

  lemma {:induction false} LinkPathInjective(a: string, b: string)
    requires LinkPath(a) == LinkPath(b)
    ensures a == b
  {
    var dir := Abs(BIN) + "/";
    assert LinkPath(a)[|dir|..] == a && LinkPath(b)[|dir|..] == b;
  }

  lemma {:induction false} LinkPathNotStep(name: string)
    requires ProperName(name)
    ensures LinkPath(name) !in Steps(BIN, 0)
  {
    BinPaths(name);
    InSteps(BIN, 0, LinkPath(name));
    forall k | 0 < k <= |BIN| ensures LinkPath(name) != Abs(BIN[..k]) {
      assert forall n :: n in BIN[..k] ==> n in BIN;
      AbsDiffers(BIN + [name], BIN[..k]);
    }
  }

  lemma {:induction false} AbsDiffers(a: seq<string>, b: seq<string>)
    requires ProperPath(a) && ProperPath(b) && |a| != |b|
    ensures Abs(a) != Abs(b)
  {
    if Abs(a) == Abs(b) {
      AbsInjective(a, b);
    }
  }

  lemma {:induction false} EnsuredShows(nodes: Nodes, links: Links)
    requires Shows(nodes, links)
    ensures var after := Ensured(nodes, Abs(BIN)); Shows(after, links) && HasDir(after, Abs(BIN))
  {
    EnsuredMeans(nodes, BIN);
    var after := WithDirs(nodes, Steps(BIN, 0));
    InSteps(BIN, 0, Abs(BIN));
    assert BIN[..|BIN|] == BIN;
    forall name | ProperName(name)
      ensures LinkPath(name) in after <==> name in links
      ensures name in links ==> after[LinkPath(name)] == FileSystem.Link(TargetOf(links[name], name))
    {
      LinkPathNotStep(name);
    }
  }

  /** One link put in place. */
  lemma {:induction false} LinkShows(nodes: Nodes, links: Links, basename: string, name: string)
    requires Shows(nodes, links) && HasDir(nodes, Abs(BIN)) && ProperName(name)
    ensures var after := nodes[LinkPath(name) := FileSystem.Link(TargetOf(basename, name))];
      Shows(after, links[name := basename]) && HasDir(after, Abs(BIN))
  {
    var after := nodes[LinkPath(name) := FileSystem.Link(TargetOf(basename, name))];
    LinkPathNotStep(name);
    forall k | 0 < k <= |BIN| ensures Abs(BIN[..k]) != LinkPath(name) {
      InSteps(BIN, 0, Abs(BIN[..k]));
    }
    assert BIN[..|BIN|] == BIN;
    forall other | ProperName(other)
      ensures LinkPath(other) in after <==> other in links[name := basename]
      ensures other in links[name := basename] ==>
        after[LinkPath(other)] == FileSystem.Link(TargetOf(links[name := basename][other], other))
    {
      if LinkPath(other) == LinkPath(name) {
        LinkPathInjective(other, name);
      }
    }
  }

  /** What linking one program does to the farm. */
  function LinkedName(links: Links, basename: string, name: string, precedence: Precedence): Links {
    if name in links && precedence.Keep? then links else links[name := basename]
  }

  function LinkedNames(links: Links, basename: string, names: seq<string>, precedence: Precedence): Links
    decreases |names|
  {
    if names == [] then links
    else LinkedNames(LinkedName(links, basename, names[0], precedence), basename, names[1..], precedence)
  }

  lemma {:induction false} LinkedNamesIs(links: Links, basename: string, names: seq<string>, precedence: Precedence,
                                         name: string)
    ensures LinkOf(LinkedNames(links, basename, names, precedence), name) ==
      if name in names && (precedence.Replace? || name !in links) then Some(basename) else LinkOf(links, name)
    decreases |names|
  {
    if names != [] {
      var one := LinkedName(links, basename, names[0], precedence);
      LinkedNamesIs(one, basename, names[1..], precedence, name);
      assert names == [names[0]] + names[1..];
    }
  }

  lemma {:induction false} LinkedNamesIsLinked(links: Links, offers: Offers, basename: string, precedence: Precedence)
    ensures LinkedNames(links, basename, Offered(offers, basename), precedence) ==
      Linked(links, offers, basename, precedence)
  {
    var a := LinkedNames(links, basename, Offered(offers, basename), precedence);
    var b := Linked(links, offers, basename, precedence);
    forall name ensures LinkOf(a, name) == LinkOf(b, name) {
      LinkedNamesIs(links, basename, Offered(offers, basename), precedence, name);
    }
    assert forall name :: name in a <==> LinkOf(a, name).Some?;
    assert forall name :: name in b <==> LinkOf(b, name).Some?;
    assert forall name :: name in a ==> a[name] == LinkOf(a, name).value;
    assert forall name :: name in b ==> b[name] == LinkOf(b, name).value;
  }

  // ---------- the store on the filesystem ----------

  ghost predicate StoreReady(nodes: Nodes) {
    forall k :: 0 < k <= |STORE| ==> Abs(STORE[..k]) in nodes && nodes[Abs(STORE[..k])] == Dir
  }

  /** The path of a package in the share. */
  function PathOf(basename: string): seq<string> {
    STORE + [basename]
  }

  lemma {:induction false} PackagesApart(a: string, b: string, key: string)
    requires Below(PathOf(a), key) && Below(PathOf(b), key)
    ensures a == b
  {
    BelowApart(STORE, a, b, key);
  }

  lemma {:induction false} BinIsApart(basename: string, key: string)
    requires Below(PathOf(basename), key)
    ensures !Below(BIN, key)
  {
    var share: seq<string>, nix: string, bin: string := ["share"], "nix", "bin";
    assert [""] + (share + [nix]) <= [""] + PathOf(basename) && BIN == share + [bin];
    if Below(BIN, key) {
      BelowApart(share, nix, bin, key);
    }
  }

  /** The directories above a package belong to no package and not to the farm. */
  lemma {:induction false} StoreIsAbove(basename: string, k: nat)
    requires k <= |STORE|
    ensures !Below(PathOf(basename), Abs(STORE[..k])) && !Below(BIN, Abs(STORE[..k]))
  {
    assert forall n :: n in STORE[..k] ==> n in STORE;
    BelowAbs(PathOf(basename), STORE[..k]);
    BelowAbs(BIN, STORE[..k]);
  }

  lemma {:induction false} ReadyIsRooted(nodes: Nodes, basename: string)
    requires StoreReady(nodes) && ProperName(basename)
    ensures Rooted(nodes, PathOf(basename))
  {
    forall k | 0 < k < |PathOf(basename)|
      ensures Abs(PathOf(basename)[..k]) in nodes && nodes[Abs(PathOf(basename)[..k])] == Dir
    {
      assert PathOf(basename)[..k] == STORE[..k];
    }
  }

  lemma {:induction false} PackageKeepsReady(before: Nodes, after: Nodes, basename: string)
    requires SameOutside(before, after, PathOf(basename)) && StoreReady(before)
    ensures StoreReady(after)
  {
    forall k | 0 < k <= |STORE| ensures Abs(STORE[..k]) in after && after[Abs(STORE[..k])] == Dir {
      StoreIsAbove(basename, k);
    }
  }

  lemma {:induction false} FarmKeepsReady(before: Nodes, after: Nodes)
    requires SameOutside(before, after, BIN) && StoreReady(before)
    ensures StoreReady(after)
  {
    forall k | 0 < k <= |STORE| ensures Abs(STORE[..k]) in after && after[Abs(STORE[..k])] == Dir {
      StoreIsAbove("", k);
    }
  }

  lemma {:induction false} PackageKeepsShows(before: Nodes, after: Nodes, basename: string, links: Links)
    requires SameOutside(before, after, PathOf(basename)) && Shows(before, links)
    ensures Shows(after, links)
  {
    assert BIN[..|BIN|] == BIN;
    forall k | 0 < k <= |BIN| ensures SameAt(before, after, Abs(BIN[..k])) {
      assert forall n :: n in BIN[..k] ==> n in BIN;
      BelowAbs(PathOf(basename), BIN[..k]);
    }
    forall name | ProperName(name) ensures SameAt(before, after, LinkPath(name)) {
      BinPaths(name);
      BelowAbs(PathOf(basename), BIN + [name]);
    }
  }

  // ---------- linkPrograms ----------

  /** One program: an existing link is kept, or unlinked and made again. */
  method LinkProgram(fs: FS, basename: string, name: string, precedence: Precedence, ghost links: Links)
    requires Shows(fs.nodes, links) && HasDir(fs.nodes, Abs(BIN)) && ProperName(name)
    modifies fs
    ensures Shows(fs.nodes, LinkedName(links, basename, name, precedence)) && HasDir(fs.nodes, Abs(BIN))
    ensures SameOutside(old(fs.nodes), fs.nodes, BIN)
  {
    var link := LinkPath(name);
    BinPaths(name);
    LinkShows(fs.nodes, links, basename, name);
    if link in fs.nodes {
      if precedence.Keep? {
        return;
      }
      fs.Unlink(link);
    }
    LinkPathNotStep(name);
    var ok := fs.Symlink(TargetOf(basename, name), link);
    assert fs.nodes == old(fs.nodes)[link := FileSystem.Link(TargetOf(basename, name))];
  }

  /** A link for each of these programs, in a bin directory that is made if need be. */
  method LinkPrograms(fs: FS, basename: string, programs: seq<string>, precedence: Precedence, ghost links: Links)
    requires StoreReady(fs.nodes) && Shows(fs.nodes, links) && forall name :: name in programs ==> ProperName(name)
    modifies fs
    ensures Shows(fs.nodes, LinkedNames(links, basename, programs, precedence))
    ensures SameOutside(old(fs.nodes), fs.nodes, BIN)
  {
    EnsuredShows(fs.nodes, links);
    EnsuredOutsideBin(fs.nodes);
    EnsureDir(fs, Abs(BIN));
    ghost var so := links;
    for i := 0 to |programs|
      invariant Shows(fs.nodes, so) && HasDir(fs.nodes, Abs(BIN))
      invariant SameOutside(old(fs.nodes), fs.nodes, BIN)
      invariant LinkedNames(so, basename, programs[i..], precedence) ==
        LinkedNames(links, basename, programs, precedence)
    {
      assert programs[i..][0] == programs[i] && programs[i..][1..] == programs[i + 1..];
      LinkProgram(fs, basename, programs[i], precedence, so);
      so := LinkedName(so, basename, programs[i], precedence);
    }
  }

  lemma {:induction false} EnsuredOutsideBin(nodes: Nodes)
    requires StoreReady(nodes) && Clear(nodes, BIN)
    ensures SameOutside(nodes, Ensured(nodes, Abs(BIN)), BIN)
  {
    hide Below, EnsuredFrom, Steps, Ensured;
    EnsuredMeans(nodes, BIN);
    assert BIN[..|BIN|] == BIN && BIN[..1] == STORE[..1];
    forall key | key in Steps(BIN, 0) && key !in nodes ensures Below(BIN, key) {
      InSteps(BIN, 0, key);
      var k :| 0 < k <= |BIN| && key == Abs(BIN[..k]);
      assert k == |BIN|;
      BelowAbs(BIN, BIN);
    }
  }

  // ---------- what the share has of each package ----------

  /** A filesystem with the store's directories and nothing else. */
  function EmptyStore(): Nodes {
    Ensured(map[], Abs(STORE))
  }

  /** A package written into an empty store. */
  function Alone(basename: string, entries: seq<Nar.Entry>): Written {
    WriteAll(EmptyStore(), Abs(PathOf(basename)), entries)
  }

  predicate Takes(basename: string, entries: seq<Nar.Entry>) {
    Alone(basename, entries).ok
  }

  /**
   * Each package written is, at its path and below, what writing it alone gives. Where a write has thrown there may be
   * anything; where none was tried there is nothing.
   */
  ghost predicate Stores(nodes: Nodes, contents: map<string, seq<Nar.Entry>>, spoiled: set<string>) {
    && StoreReady(nodes)
    && (forall b :: b in contents ==>
          ProperName(b) && Takes(b, contents[b]) && SameBelow(nodes, Alone(b, contents[b]).nodes, PathOf(b)))
    && (forall b :: ProperName(b) && b !in contents && b !in spoiled ==> Vacant(nodes, PathOf(b)))
  }

  lemma {:induction false} EmptyStoreIs()
    ensures StoreReady(EmptyStore()) && Shows(EmptyStore(), map[])
    ensures forall b :: Vacant(EmptyStore(), PathOf(b))
    ensures Stores(EmptyStore(), map[], {})
  {
    EnsuredMeans(map[], STORE);
    assert EmptyStore().Keys == Steps(STORE, 0);
    forall k | 0 < k <= |STORE| ensures Abs(STORE[..k]) in EmptyStore() {
      InSteps(STORE, 0, Abs(STORE[..k]));
    }
    forall b ensures Vacant(EmptyStore(), PathOf(b)) {
      OnlyStepsVacant(EmptyStore(), b);
    }
    OnlyStepsShows(EmptyStore());
  }

  lemma {:induction false} OnlyStepsVacant(nodes: Nodes, b: string)
    requires nodes.Keys == Steps(STORE, 0)
    ensures Vacant(nodes, PathOf(b))
  {
    forall key | key in nodes ensures !Below(PathOf(b), key) {
      InSteps(STORE, 0, key);
      var k :| 0 < k <= |STORE| && key == Abs(STORE[..k]);
      StoreIsAbove(b, k);
    }
  }

  lemma {:induction false} OnlyStepsShows(nodes: Nodes)
    requires nodes.Keys == Steps(STORE, 0) && forall key :: key in nodes ==> nodes[key] == Dir
    ensures Shows(nodes, map[])
  {
    forall name | ProperName(name) ensures LinkPath(name) !in nodes {
      BinPaths(name);
      if LinkPath(name) in nodes {
        InSteps(STORE, 0, LinkPath(name));
        var k :| 0 < k <= |STORE| && LinkPath(name) == Abs(STORE[..k]);
        StoreIsAbove(name, k);
      }
    }
  }

  /** What else the store holds makes no difference to a package. */
  lemma {:induction false} WriteIsAlone(nodes: Nodes, basename: string, entries: seq<Nar.Entry>)
    requires StoreReady(nodes) && ProperName(basename) && Vacant(nodes, PathOf(basename))
    ensures var written := WriteAll(nodes, Abs(PathOf(basename)), entries);
      && (written.ok <==> Takes(basename, entries))
      && SameBelow(written.nodes, Alone(basename, entries).nodes, PathOf(basename))
  {
    EmptyStoreIs();
    ReadyIsRooted(nodes, basename);
    ReadyIsRooted(EmptyStore(), basename);
    WriteAgrees(nodes, EmptyStore(), PathOf(basename), entries);
  }

  lemma {:induction false} StillBelow(before: Nodes, after: Nodes, alone: Nodes, base: seq<string>)
    requires SameBelow(before, after, base)
    ensures SameBelow(before, alone, base) ==> SameBelow(after, alone, base)
    ensures Vacant(before, base) ==> Vacant(after, base)
  {
    if SameBelow(before, alone, base) {
      forall key | Below(base, key) ensures SameAt(after, alone, key) {
        assert SameAt(before, after, key) && SameAt(before, alone, key);
      }
    }
    if Vacant(before, base) {
      forall key | key in after ensures !Below(base, key) {
        assert Below(base, key) ==> SameAt(before, after, key);
      }
    }
  }

  /** A package whose place is as it was is stored, or missing, as it was. */
  lemma {:induction false} PackageStays(before: Nodes, after: Nodes, contents: map<string, seq<Nar.Entry>>,
                                        spoiled: set<string>, b: string)
    requires Stores(before, contents, spoiled) && SameBelow(before, after, PathOf(b))
    ensures b in contents ==> SameBelow(after, Alone(b, contents[b]).nodes, PathOf(b))
    ensures ProperName(b) && b !in contents && b !in spoiled ==> Vacant(after, PathOf(b))
  {
    StillBelow(before, after, if b in contents then Alone(b, contents[b]).nodes else after, PathOf(b));
  }

  /** A change in one package's place is none in another's. */
  lemma {:induction false} PackageKeepsOther(before: Nodes, after: Nodes, basename: string, b: string)
    requires SameOutside(before, after, PathOf(basename)) && b != basename
    ensures SameBelow(before, after, PathOf(b))
  {
    forall key | Below(PathOf(b), key) ensures SameAt(before, after, key) {
      if Below(PathOf(basename), key) {
        PackagesApart(b, basename, key);
      }
    }
  }

  lemma {:induction false} FarmKeepsPackage(before: Nodes, after: Nodes, b: string)
    requires SameOutside(before, after, BIN)
    ensures SameBelow(before, after, PathOf(b))
  {
    forall key | Below(PathOf(b), key) ensures SameAt(before, after, key) {
      BinIsApart(b, key);
    }
  }

  /** One write, whatever its entries: the other packages and the farm are as they were. */
  lemma {:induction false} WriteStores(nodes: Nodes, contents: map<string, seq<Nar.Entry>>, spoiled: set<string>,
                                       links: Links, basename: string, entries: seq<Nar.Entry>)
    requires Stores(nodes, contents, spoiled) && Shows(nodes, links) && ProperName(basename) && basename !in contents
    ensures var written := WriteAll(nodes, Abs(PathOf(basename)), entries);
      && Shows(written.nodes, links)
      && (if written.ok && basename !in spoiled then Stores(written.nodes, contents[basename := entries], spoiled)
          else Stores(written.nodes, contents, spoiled + {basename}))
      && (basename !in spoiled ==> (written.ok <==> Takes(basename, entries)))
  {
    var after := WriteAll(nodes, Abs(PathOf(basename)), entries).nodes;
    ReadyIsRooted(nodes, basename);
    WriteStays(nodes, PathOf(basename), entries);
    PackageKeepsReady(nodes, after, basename);
    PackageKeepsShows(nodes, after, basename, links);
    forall b | b != basename
      ensures b in contents ==> SameBelow(after, Alone(b, contents[b]).nodes, PathOf(b))
      ensures ProperName(b) && b !in contents && b !in spoiled ==> Vacant(after, PathOf(b))
    {
      PackageKeepsOther(nodes, after, basename, b);
      PackageStays(nodes, after, contents, spoiled, b);
    }
    if basename !in spoiled {
      WriteIsAlone(nodes, basename, entries);
    }
  }

  /** Changes confined to the bin directory leave the store alone. */
  lemma {:induction false} FarmKeepsStores(before: Nodes, after: Nodes, contents: map<string, seq<Nar.Entry>>,
                                           spoiled: set<string>)
    requires Stores(before, contents, spoiled) && SameOutside(before, after, BIN)
    ensures Stores(after, contents, spoiled)
  {
    FarmKeepsReady(before, after);
    forall b
      ensures b in contents ==> SameBelow(after, Alone(b, contents[b]).nodes, PathOf(b))
      ensures ProperName(b) && b !in contents && b !in spoiled ==> Vacant(after, PathOf(b))
    {
      FarmKeepsPackage(before, after, b);
      PackageStays(before, after, contents, spoiled, b);
    }
  }

  /** Which entry lists the store takes, told from the list alone. */
  lemma {:induction false} TakesIffAllFit(basename: string, entries: seq<Nar.Entry>)
    requires ProperName(basename)
    ensures Takes(basename, entries) <==> Fitting.AllFit(entries)
  {
    EmptyStoreIs();
    ReadyIsRooted(EmptyStore(), basename);
    Fitting.TakenIffAllFit(EmptyStore(), PathOf(basename), entries);
  }

  /** Of trees whose siblings are told apart, the store takes exactly those without `.` and `..` among the names. */
  lemma {:induction false} TakesProperTrees(basename: string, t: Tree)
    requires ProperName(basename) && Siblings(t)
    ensures Takes(basename, EntriesOf(t, "")) <==> Proper(t)
  {
    EmptyStoreIs();
    ReadyIsRooted(EmptyStore(), basename);
    WritesArchive(EmptyStore(), PathOf(basename), t);
  }

  /** A package that is the parse of a tree is that tree on disk. */
  lemma {:induction false} StoredTree(nodes: Nodes, contents: map<string, seq<Nar.Entry>>, spoiled: set<string>,
                                      basename: string, t: Tree)
    requires Stores(nodes, contents, spoiled) && basename in contents
    requires Siblings(t) && contents[basename] == EntriesOf(t, "")
    ensures HoldsTree(nodes, PathOf(basename), t)
  {
    var base := PathOf(basename);
    EmptyStoreIs();
    ReadyIsRooted(EmptyStore(), basename);
    WritesArchive(EmptyStore(), base, t);
    LayoutRebuilds(EmptyStore(), base, t);
    var alone := Alone(basename, contents[basename]).nodes;
    forall names | ProperPath(names) ensures SameAt(nodes, alone, Abs(base + names)) {
      BelowAbs(base, base + names);
    }
  }

  // ---------- what a link of the farm starts ----------

  /** A path of the guest, where /nix is a link to the share's. */
  function InGuest(path: string): string {
    if |path| >= 5 && path[..5] == "/nix/" then "/share" + path else path
  }

  /** The farm's link of this name leads the guest to the program of that name in a package, and it can be started. */
  ghost predicate LeadsToProgram(nodes: Nodes, basename: string, name: string) {
    var link, program := "/share/bin/" + name, "/share/nix/store/" + basename + "/bin/" + name;
    && link in nodes && nodes[link].Link? && InGuest(nodes[link].target) == program
    && program in nodes && Starts(nodes[program])
  }

  lemma {:induction false} PackagePath(basename: string, name: string)
    ensures Abs(PathOf(basename)) == "/share/nix/store/" + basename
    ensures Abs(PathOf(basename) + ["bin", name]) == "/share/nix/store/" + basename + "/bin/" + name
    ensures LinkPath(name) == "/share/bin/" + name
  {
    StoreIsThere();
    AbsOneMore(STORE, basename);
    AbsOneMore(PathOf(basename), "bin");
    AbsOneMore(PathOf(basename) + ["bin"], name);
    assert PathOf(basename) + ["bin"] + [name] == PathOf(basename) + ["bin", name];
  }

  lemma {:induction false} AbsOneMore(names: seq<string>, last: string)
    ensures Abs(names + [last]) == Abs(names) + "/" + last
  {
    assert (names + [last])[..|names|] == names;
  }

  lemma {:induction false} StoreIsThere()
    ensures Abs(STORE) == "/share/nix/store" && Abs(BIN) == "/share/bin"
  {
    AbsOneMore([], "share");
    AbsOneMore(["share"], "nix");
    AbsOneMore(["share", "nix"], "store");
    AbsOneMore(["share"], "bin");
    assert [] + ["share"] == ["share"] && ["share"] + ["nix"] == ["share", "nix"];
    assert ["share", "nix"] + ["store"] == STORE && ["share"] + ["bin"] == BIN;
  }

  lemma {:induction false} TargetInGuest(basename: string, name: string)
    ensures InGuest(TargetOf(basename, name)) == "/share/nix/store/" + basename + "/bin/" + name
  {
    var target := TargetOf(basename, name);
    assert target == "/nix/" + ("store/" + basename + "/bin/" + name);
    assert "/share" + target == "/share/nix/store/" + basename + "/bin/" + name;
  }

  /** A linked name whose package is on disk starts that package's program. */
  lemma {:induction false} LinkStarts(nodes: Nodes, contents: map<string, seq<Nar.Entry>>, spoiled: set<string>,
                                      links: Links, name: string)
    requires Stores(nodes, contents, spoiled) && Shows(nodes, links) && name in links && links[name] in contents
    requires name in ProgramsOf(contents[links[name]])
    ensures LeadsToProgram(nodes, links[name], name)
  {
    hide WriteAll, EmptyStore, Starts, TargetOf, InGuest, PathOf, LinkPath, ProgramsOf, Below, Vacant, StoreReady;
    var b := links[name];
    ProgramsStart(EmptyStore(), Abs(PathOf(b)), contents[b], name);
    PackagePath(b, name);
    TargetInGuest(b, name);
    ProgramIsBelow(b, name);
    assert SameAt(nodes, Alone(b, contents[b]).nodes, Abs(PathOf(b) + ["bin", name]));
  }

  lemma {:induction false} ProgramIsBelow(basename: string, name: string)
    requires ProperName(basename) && ProperName(name)
    ensures Below(PathOf(basename), Abs(PathOf(basename) + ["bin", name]))
  {
    assert ProperPath(PathOf(basename) + ["bin", name]);
    BelowAbs(PathOf(basename), PathOf(basename) + ["bin", name]);
  }

  ghost predicate AllProper(programs: Offers) {
    forall b, name :: b in programs && name in programs[b] ==> ProperName(name)
  }

  /** The share's books agree with each other... */
  ghost predicate Booked(programs: Offers, order: seq<string>, contents: map<string, seq<Nar.Entry>>,
                         spoiled: set<string>)
  {
    && ToSet(order) == programs.Keys
    && contents.Keys == programs.Keys - spoiled
    && AllProper(programs)
    && (forall b :: b in contents ==> programs[b] == ProgramsOf(contents[b]))
  }

  /** ...and with the filesystem. */
  ghost predicate Coherent(nodes: Nodes, programs: Offers, order: seq<string>, contents: map<string, seq<Nar.Entry>>,
                           spoiled: set<string>, links: Links)
  {
    Booked(programs, order, contents, spoiled) && Stores(nodes, contents, spoiled) && Shows(nodes, links)
  }

  lemma {:induction false} BookedOneMore(programs: Offers, order: seq<string>, contents: map<string, seq<Nar.Entry>>,
                                         spoiled: set<string>, basename: string, entries: seq<Nar.Entry>)
    requires Booked(programs, order, contents, spoiled) && basename !in programs
    requires AllProper(programs[basename := ProgramsOf(entries)])
    ensures Booked(programs[basename := ProgramsOf(entries)], order + [basename],
                   if basename in spoiled then contents else contents[basename := entries], spoiled)
  {
    ToSetConcat(order, [basename]);
    assert ToSet([basename]) == {basename};
  }

  lemma {:induction false} AllProperAfter(programs: Offers, nodes: Nodes, root: string, basename: string,
                                          entries: seq<Nar.Entry>)
    requires AllProper(programs) && WriteAll(nodes, root, entries).ok
    ensures AllProper(programs[basename := ProgramsOf(entries)])
  {
    forall name | name in ProgramsOf(entries) ensures ProperName(name) {
      WrittenProgramsAreProper(nodes, root, entries, name);
    }
  }

  /** A write under a new name, whether it goes through or throws. */
  lemma {:induction false} WriteCoheres(nodes: Nodes, programs: Offers, order: seq<string>,
                                        contents: map<string, seq<Nar.Entry>>, spoiled: set<string>, links: Links,
                                        basename: string, entries: seq<Nar.Entry>)
    requires Coherent(nodes, programs, order, contents, spoiled, links) && ProperName(basename)
    requires basename !in programs
    ensures var written := WriteAll(nodes, Abs(PathOf(basename)), entries);
      && (basename !in spoiled ==> (written.ok <==> Takes(basename, entries)))
      && (if written.ok then
            Coherent(written.nodes, programs[basename := ProgramsOf(entries)], order + [basename],
                     if basename in spoiled then contents else contents[basename := entries], spoiled, links)
          else Coherent(written.nodes, programs, order, contents, spoiled + {basename}, links))
  {
    var written := WriteAll(nodes, Abs(PathOf(basename)), entries);
    WriteStores(nodes, contents, spoiled, links, basename, entries);
    if written.ok {
      AllProperAfter(programs, nodes, Abs(PathOf(basename)), basename, entries);
      BookedOneMore(programs, order, contents, spoiled, basename, entries);
      assert basename in spoiled ==> spoiled + {basename} == spoiled;
    }
  }

  class StoreShare {
    const fs: FS
    /** Basename to offered programs, for every path written; `order` is the map's insertion order. */
    var programs: Offers
    var order: seq<string>
    ghost var links: Links
    /** What was written under each name; the names a write has thrown for are set apart. */
    ghost var contents: map<string, seq<Nar.Entry>>
    ghost var spoiled: set<string>
    /** The packages that have been linked: after a write that threw, not all that were written. */
    ghost var linked: set<string>

    /** The books are in order; a batch may be half-way linked. */
    ghost predicate Intact()
      reads this, fs
    {
      Coherent(fs.nodes, programs, order, contents, spoiled, links)
    }

    ghost predicate Valid()
      reads this, fs
    {
      Intact() && linked <= programs.Keys && Sound(links, programs, linked)
    }

    constructor ()
      ensures Valid() && fresh(fs) && programs == map[] && links == map[] && order == []
      ensures contents == map[] && spoiled == {} && linked == {}
    {
      fs := new FS();
      programs, order := map[], [];
      links, contents, spoiled, linked := map[], map[], {}, {};
      new;
      EnsureDir(fs, Abs(STORE));
      EmptyStoreIs();
    }

    /** An archive's entries become files, unless its name has been written before; that can throw half-way. */
    method Write(basename: string, entries: seq<Nar.Entry>) returns (ok: bool)
      requires Valid()
      modifies this`programs, this`order, this`contents, this`spoiled, fs
      ensures programs == if ok && basename !in old(programs) then old(programs)[basename := ProgramsOf(entries)]
                          else old(programs)
      ensures order == if ok && basename !in old(programs) then old(order) + [basename] else old(order)
      ensures Written(fs.nodes, ok) == if basename in old(programs) then Written(old(fs.nodes), true)
                                       else WriteAll(old(fs.nodes), Abs(PathOf(basename)), entries)
      ensures ProperName(basename) || basename in old(programs) ==> Valid()
      ensures ProperName(basename) && basename !in old(programs) && basename !in old(spoiled) ==>
        (ok <==> Takes(basename, entries))
      ensures contents == if ok && basename !in old(programs) && basename !in old(spoiled)
                          then old(contents)[basename := entries] else old(contents)
      ensures spoiled == if ok then old(spoiled) else old(spoiled) + {basename}
    {
      if basename in programs {
        ok := true;
      } else {
        WriteKeepsSound(links, programs, linked, basename, ProgramsOf(entries));
        ok := WriteNew(basename, entries);
      }
    }

    method WriteNew(basename: string, entries: seq<Nar.Entry>) returns (ok: bool)
      requires Intact() && basename !in programs
      modifies this`programs, this`order, this`contents, this`spoiled, fs
      ensures programs == if ok then old(programs)[basename := ProgramsOf(entries)] else old(programs)
      ensures order == if ok then old(order) + [basename] else old(order)
      ensures Written(fs.nodes, ok) == WriteAll(old(fs.nodes), Abs(PathOf(basename)), entries)
      ensures ProperName(basename) ==> Intact()
      ensures ProperName(basename) && basename !in old(spoiled) ==> (ok <==> Takes(basename, entries))
      ensures contents == if ok && basename !in old(spoiled) then old(contents)[basename := entries] else old(contents)
      ensures spoiled == if ok then old(spoiled) else old(spoiled) + {basename}
    {
      ghost var before := fs.nodes;
      ok := WriteEntries(fs, Abs(PathOf(basename)), entries);
      if ProperName(basename) {
        WriteCoheres(before, programs, order, contents, spoiled, links, basename, entries);
      }
      if ok {
        programs := programs[basename := ProgramsOf(entries)];
        order := order + [basename];
        contents := if basename in spoiled then contents else contents[basename := entries];
      } else {
        spoiled := spoiled + {basename};
      }
    }

    /** Links for everything a package that was written has to run. */
    method Link(basename: string, precedence: Precedence)
      requires Intact()
      modifies this`links, fs
      ensures Intact() && links == Linked(old(links), programs, basename, precedence)
    {
      LinkedNamesIsLinked(links, programs, basename, precedence);
      LinkPrograms(fs, basename, Offered(programs, basename), precedence, links);
      FarmKeepsStores(old(fs.nodes), fs.nodes, contents, spoiled);
      links := Linked(links, programs, basename, precedence);
    }

    /** What was selected is linked before what it depends on, and a dependency takes only names that are free. */
    method LinkAll(basenames: seq<string>, roots: seq<string>, precedence: Precedence)
      requires Valid()
      modifies this`links, this`linked, fs
      ensures Valid() && links == LinkedAll(old(links), programs, basenames, roots, precedence)
      ensures linked == old(linked) + ((ToSet(basenames) + ToSet(roots)) * programs.Keys)
    {
      BatchKeepsSound(links, programs, programs, linked, basenames, roots, precedence);
      LinkEach(basenames, roots, precedence);
      linked := linked + ((ToSet(basenames) + ToSet(roots)) * programs.Keys);
    }

    method LinkEach(basenames: seq<string>, roots: seq<string>, precedence: Precedence)
      requires Intact()
      modifies this`links, fs
      ensures Intact() && links == LinkedAll(old(links), programs, basenames, roots, precedence)
    {
      for i := 0 to |roots|
        invariant Intact()
        invariant LinkedEach(links, programs, roots[i..], precedence) ==
                  LinkedEach(old(links), programs, roots, precedence)
      {
        assert roots[i..][0] == roots[i] && roots[i..][1..] == roots[i + 1..];
        Link(roots[i], precedence);
      }
      ghost var rooted := links;
      for i := 0 to |basenames|
        invariant Intact()
        invariant LinkedEach(links, programs, Others(basenames[i..], roots), Keep) ==
                  LinkedEach(rooted, programs, Others(basenames, roots), Keep)
      {
        OthersStep(basenames, roots, i);
        if basenames[i] !in roots {
          Link(basenames[i], Keep);
        }
      }
    }
  }

  lemma {:induction false} OthersStep(basenames: seq<string>, roots: seq<string>, i: nat)
    requires i < |basenames|
    ensures var rest := Others(basenames[i..], roots);
      if basenames[i] in roots then rest == Others(basenames[i + 1..], roots)
      else rest != [] && rest[0] == basenames[i] && rest[1..] == Others(basenames[i + 1..], roots)
  {
    assert basenames[i..][0] == basenames[i] && basenames[i..][1..] == basenames[i + 1..];
  }
}
