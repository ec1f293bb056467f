/**
 * A program that never gets a link (add in site/js/boot.js, over addToRunningVM in site/js/app.js): a boot, and an
 * addition in which the last of three archives cannot be written.
 */
module Stranding {
  import opened Prelude
  import opened Closure
  import opened Session
  import Archive
  import Nar
  import Paths
  import Writer
  import Share

  const BASE := Digest("base")
  const APP := Digest("app")
  const TOOL := Digest("tool")
  const LIB := Digest("lib")

  /** The application needs a tool and a library. */
  function World(): Index {
    map[BASE := Narinfo(STORE_PREFIX + "base", []), APP := Narinfo(STORE_PREFIX + "app", ["tool", "lib"]),
        TOOL := Narinfo(STORE_PREFIX + "tool", []), LIB := Narinfo(STORE_PREFIX + "lib", [])]
  }

  const EMPTY := Archive.Directory(Archive.Nil)

  /** The tool has one program, `run`. */
  function ToolTree(): Archive.Tree {
    var bin := Archive.Directory(Archive.Cons("run", Archive.Regular(true, ""), Archive.Nil));
    Archive.Directory(Archive.Cons("bin", bin, Archive.Nil))
  }

  /** The library has a name that the parser takes and the filesystem does not. */
  function LibTree(): Archive.Tree {
    Archive.Directory(Archive.Cons("..", EMPTY, Archive.Nil))
  }

  function Downloads(): Archives {
    map[BASE := Archive.EntriesOf(EMPTY, ""), APP := Archive.EntriesOf(EMPTY, ""),
        TOOL := Archive.EntriesOf(ToolTree(), ""), LIB := Archive.EntriesOf(LibTree(), "")]
  }

  function Select(d: Digest): Request {
    Request([Root(d, None)], World(), Downloads(), s => s)
  }

  /** What can be looked up in it. */
  lemma {:induction false} WorldHas()
    ensures World().Keys == Downloads().Keys == {BASE, APP, TOOL, LIB}
    ensures World()[BASE].references == World()[TOOL].references == World()[LIB].references == []
    ensures World()[APP].references == ["tool", "lib"]
    ensures forall d :: d in World() ==> World()[d].storePath == STORE_PREFIX + d.text
    ensures BASE != APP && BASE != TOOL && BASE != LIB && APP != TOOL && APP != LIB && TOOL != LIB
  {
  }

  lemma {:induction false} TextIsName(d: Digest)
    requires d in {BASE, APP, TOOL, LIB}
    ensures d in World() && NameOf(World(), d) == d.text && Paths.ProperName(d.text) && DigestOf(d.text) == d
  {
    assert (STORE_PREFIX + d.text)[|STORE_PREFIX|..] == d.text;
  }

  lemma {:induction false} WorldIsWellNamed()
    ensures WellNamed(World())
  {
    hide World, Downloads, BasenameOf, DigestOf, Paths.ProperName;
    WorldHas();
    forall d | d in World() ensures Paths.ProperName(NameOf(World(), d)) && DigestOf(NameOf(World(), d)) == d {
      TextIsName(d);
    }
  }

  // ---------- what is reached ----------

  lemma {:induction false} BallStaysIn(index: Index, root: Digest, s: set<Digest>, n: nat)
    requires root in s && Closed(index, s)
    ensures Ball(index, {}, root, n) <= s
  {
    if n > 0 {
      BallStaysIn(index, root, s, n - 1);
    }
  }

  /** A root and what it refers to, which refers to nothing. */
  lemma {:induction false} ReachOfOne(index: Index, root: Digest)
    requires Closed(index, {root} + Refs(index, root))
    ensures ReachAll(index, [root]) == {root} + Refs(index, root)
  {
    hide Refs, Closed, Reach;
    BallStaysIn(index, root, {root} + Refs(index, root), |Universe(index, root)|);
    FirstBalls(index, root);
    ReachIsFixpoint(index, {}, root, 1);
    ReachIsBall(index, root);
    ReachAllOne(index, root);
  }

  lemma {:induction false} ReachIsBall(index: Index, root: Digest)
    ensures Reach(index, {}, root) == Ball(index, {}, root, |Universe(index, root)|)
  {
  }

  lemma {:induction false} FirstBalls(index: Index, root: Digest)
    ensures Ball(index, {}, root, 1) == {root} + Refs(index, root)
  {
    assert Ball(index, {}, root, 0) == {root};
    SuccessorsOfOne(index, root);
  }

  lemma {:induction false} ReachAllOne(index: Index, root: Digest)
    ensures ReachAll(index, [root]) == Reach(index, {}, root)
  {
    assert [root][..0] == [];
  }

  lemma {:induction false} WorldReaches()
    ensures ReachAll(World(), [BASE]) == {BASE} && ReachAll(World(), [APP]) == {APP, TOOL, LIB}
  {
    hide World, ReachAll;
    WorldRefers();
    ReachOfOne(World(), BASE);
    ReachOfOne(World(), APP);
  }

  lemma {:induction false} WorldRefers()
    ensures Refs(World(), BASE) == {} && Refs(World(), APP) == {TOOL, LIB}
    ensures Refs(World(), TOOL) == {} && Refs(World(), LIB) == {}
  {
    hide World, Downloads;
    WorldHas();
    assert DigestOf("tool") == TOOL && DigestOf("lib") == LIB;
    assert "tool" in ["tool", "lib"] && ["tool", "lib"][1] == "lib";
  }

  lemma {:induction false} AppOrder()
    ensures RootsOrder(World(), {BASE}, [APP]) == [APP, TOOL, LIB]
  {
    hide World, Unseen, ReferencesOf, OrderFrom;
    var index, next := World(), [TOOL, LIB];
    AppRefers();
    UnseenOfApp({APP} + {BASE});
    assert RootsOrder(index, {BASE}, []) == [] && [APP][..0] == [];
    assert {BASE} + ToSet<Digest>([]) == {BASE};
    OrderStep(index, [APP], {APP} + {BASE});
    OrderStep(index, next, {APP} + {BASE} + ToSet(next));
    UnseenOfNothing({APP} + {BASE} + ToSet(next));
  }

  lemma {:induction false} AppRefers()
    ensures ReferencesOf(World(), [APP]) == ["tool", "lib"] && ReferencesOf(World(), [TOOL, LIB]) == []
  {
    hide World, Downloads;
    WorldHas();
    assert [APP][..0] == [] && ReferencesOf(World(), []) == [];
    assert [TOOL, LIB][..1] == [TOOL] && [TOOL][..0] == [];
    assert ReferencesOf(World(), [TOOL]) == [];
  }

  lemma {:induction false} UnseenOfNothing(seen: set<Digest>)
    ensures Unseen(seen, []) == []
  {
  }

  lemma {:induction false} UnseenOfApp(seen: set<Digest>)
    requires TOOL !in seen && LIB !in seen
    ensures Unseen(seen, ["tool", "lib"]) == [TOOL, LIB]
  {
    assert ["tool", "lib"][..1] == ["tool"] && ["tool"][..0] == [];
    assert DigestOf("tool") == TOOL && DigestOf("lib") == LIB;
    assert Unseen(seen, ["tool"]) == [TOOL];
  }

  // ---------- what is taken ----------

  lemma {:induction false} WorldTakesOne(d: Digest, t: Archive.Tree)
    requires d in {BASE, APP, TOOL, LIB} && d in Downloads()
    requires Writer.Siblings(t) && Downloads()[d] == Archive.EntriesOf(t, "")
    ensures Taken(World(), Downloads(), d) <==> Writer.Proper(t)
  {
    hide World, Downloads, Archive.EntriesOf, Share.Takes;
    TextIsName(d);
    Share.TakesProperTrees(d.text, t);
  }

  lemma {:induction false} TreesAre()
    ensures Writer.Proper(EMPTY) && Writer.Proper(ToolTree()) && Writer.Siblings(LibTree()) && !Writer.Proper(LibTree())
  {
    assert Paths.ProperName("bin") && Paths.ProperName("run");
    assert Writer.Names(Archive.Nil) == [];
  }

  lemma {:induction false} DownloadsAre()
    ensures Downloads().Keys == {BASE, APP, TOOL, LIB}
    ensures Downloads()[BASE] == Downloads()[APP] == Archive.EntriesOf(EMPTY, "")
    ensures Downloads()[TOOL] == Archive.EntriesOf(ToolTree(), "")
    ensures Downloads()[LIB] == Archive.EntriesOf(LibTree(), "")
  {
    hide Archive.EntriesOf;
  }

  lemma {:induction false} WorldTakes()
    ensures Taken(World(), Downloads(), BASE) && Taken(World(), Downloads(), APP) && Taken(World(), Downloads(), TOOL)
    ensures !Taken(World(), Downloads(), LIB)
  {
    hide World, Downloads, Archive.EntriesOf, Taken, Writer.Proper, Writer.Siblings, ToolTree, LibTree;
    TreesAre();
    DownloadsAre();
    Writer.ProperIsSiblings(EMPTY);
    Writer.ProperIsSiblings(ToolTree());
    WorldTakesOne(BASE, EMPTY);
    WorldTakesOne(APP, EMPTY);
    WorldTakesOne(TOOL, ToolTree());
    WorldTakesOne(LIB, LibTree());
  }

  lemma {:induction false} TakenTwo()
    ensures TakenFirst(World(), Downloads(), [APP, TOOL, LIB]) == 2
  {
    hide World, Downloads, Taken;
    WorldTakes();
    var order := [APP, TOOL, LIB];
    forall i | 0 <= i < 2 ensures Taken(World(), Downloads(), order[..2][i]) {
    }
    TakenFirstIs(World(), Downloads(), order, 2);
  }

  // ---------- the run ----------

  lemma {:induction false} BootLeaves()
    ensures OutcomeOf(World(), EMPTY_LEDGER, Select(BASE)) == Mounted
    ensures BASE in Downloads()
    ensures LedgerOf(World(), [Select(BASE)]) ==
      Ledger([BASE], map[BASE := Downloads()[BASE]], [RootNames(World(), Select(BASE))], {}, {BASE})
  {
    hide World, Downloads, ReachAll, OutcomeOf, After, LedgerOf, RootNames, Taken;
    var index, request := World(), Select(BASE);
    AsksForOne(BASE);
    WorldReaches();
    WorldTakes();
    WorldHas();
    BootLedger(index, request, InfosOf(index, {BASE}));
    LedgerOneMore(index, [], request);
    NothingClicked(index);
    assert [] + [request] == [request];
    assert Those(request.archives, {BASE}) == map[BASE := Downloads()[BASE]];
  }

  lemma {:induction false} NothingClicked(index: Index)
    ensures LedgerOf(index, []) == EMPTY_LEDGER
  {
  }

  lemma {:induction false} AsksForOne(d: Digest)
    ensures DigestsAsked(Select(d)) == [d]
  {
    assert AllNamed([Root(d, None)]) == [d] + [] + [];
    assert [d][..0] == [] && Deduplicated<Digest>([]) == [];
  }

  /** The addition throws at the library, and what it has written by then is not linked. */
  lemma {:induction false} AdditionLeaves()
    ensures var ledger := LedgerOf(World(), [Select(BASE)]);
      OutcomeOf(World(), ledger, Select(APP)) == WriteThrew
    ensures var ledger := LedgerOf(World(), [Select(BASE), Select(APP)]);
      && ledger.Started() && ledger.linked == {BASE} && ledger.Stranded() == {APP, TOOL}
      && ledger.got == map[BASE := Downloads()[BASE]] + Those(Downloads(), {APP, TOOL, LIB})
  {
    hide LedgerOf, World, Downloads, ReachAll, Taken, RootsOrder, TakenFirst, DigestsAsked, RootNames;
    var index, request := World(), Select(APP);
    var ledger := LedgerOf(index, [Select(BASE)]);
    BootLeaves();
    AsksForOne(APP);
    WorldReaches();
    WorldTakes();
    WorldHas();
    AppOrder();
    TakenTwo();
    LedgerOneMore(index, [Select(BASE)], request);
    assert [Select(BASE)] + [request] == [Select(BASE), request];
    assert Needed(index, ledger, request) == {APP, TOOL, LIB};
    assert LIB in Needed(index, ledger, request) && !Taken(index, request.archives, LIB);
    assert WrittenBy(index, ledger, request) == [APP, TOOL];
  }

  lemma {:induction false} ToolEntries()
    ensures Archive.EntriesOf(ToolTree(), "") == [Nar.Dir(""), Nar.Dir("bin"), Nar.File("bin/run", true, "")]
    ensures Archive.EntriesOf(EMPTY, "") == [Nar.Dir("")]
  {
    var run := Archive.Cons("run", Archive.Regular(true, ""), Archive.Nil);
    assert Nar.Child("", "bin") == "bin" && Nar.Child("bin", "run") == "bin/run";
    assert Archive.EntriesOfAll(run, "bin") == [Nar.File("bin/run", true, "")];
    assert Archive.EntriesOf(Archive.Directory(run), "bin") == [Nar.Dir("bin"), Nar.File("bin/run", true, "")];
  }

  lemma {:induction false} OnlyTheToolRuns()
    ensures "run" in Writer.ProgramsOf(Archive.EntriesOf(ToolTree(), ""))
    ensures Writer.ProgramsOf(Archive.EntriesOf(EMPTY, "")) == []
  {
    hide Archive.EntriesOf, ToolTree;
    ToolEntries();
    var run := Nar.File("bin/run", true, "");
    var entries := [Nar.Dir(""), Nar.Dir("bin"), run];
    assert run.path[|Writer.BIN_PREFIX|..] == "run";
    assert run.path == Writer.BIN_PREFIX + "run" && entries[2] == run && Writer.IsProgram(run);
    Writer.InPrograms(entries, "run");
  }

  // ---------- and ever after ----------

  /** Once all there is to mount is mounted, clicks come to nothing. */
  lemma {:induction false} NothingMore(index: Index, ledger: Ledger, request: Request)
    requires ledger.Started() && index.Keys <= ReachAll(index, ledger.asked) && Possible(index, request)
    ensures var after := After(index, ledger, request);
      && after == ledger.(asked := after.asked)
      && index.Keys <= ReachAll(index, after.asked)
  {
    hide ReachAll, DigestsAsked, Refused, WrittenBy;
    ReachAllConcat(index, ledger.asked, DigestsAsked(request));
    assert Needed(index, ledger, request) <= request.served.Keys ==> Needed(index, ledger, request) == {};
  }

  /** Both clicks, and any clicks after them. */
  function Clicks(more: seq<Request>): seq<Request> {
    [Select(BASE), Select(APP)] + more
  }

  lemma {:induction false} StillStranded(more: seq<Request>)
    requires AllPossible(World(), more)
    ensures var first, ledger := LedgerOf(World(), Clicks([])), LedgerOf(World(), Clicks(more));
      ledger == first.(asked := ledger.asked) && World().Keys <= ReachAll(World(), ledger.asked)
  {
    hide World, Downloads, After, LedgerOf, ReachAll, Possible;
    if more == [] {
      AllMounted();
    } else {
      var n := |more| - 1;
      assert AllPossible(World(), more[..n]);
      StillStranded(more[..n]);
      AdditionLeaves();
      assert Clicks([]) == [Select(BASE), Select(APP)];
      assert Clicks(more) == Clicks(more[..n]) + [more[n]];
      LedgerOneMore(World(), Clicks(more[..n]), more[n]);
      NothingMore(World(), LedgerOf(World(), Clicks(more[..n])), more[n]);
    }
  }

  lemma {:induction false} AllMounted()
    ensures World().Keys <= ReachAll(World(), LedgerOf(World(), Clicks([])).asked)
  {
    hide World, Downloads, LedgerOf, ReachAll;
    assert Clicks([]) == [Select(BASE), Select(APP)];
    AdditionLeaves();
    WorldHas();
    LedgerInOrder(World(), Clicks([]));
  }

  /** So the tool has been written, and its program has no link, whatever is clicked from then on. */
  lemma {:induction false} ProgramWithoutLink(page: Page, more: seq<Request>)
    requires page.Valid() && page.index == World() && AllPossible(World(), more)
    requires page.ledger == LedgerOf(World(), Clicks(more))
    ensures "tool" in page.share.programs && "run" in page.share.programs["tool"] && "run" !in page.share.links
    ensures !AllLinked(page.share)
  {
    hide LedgerOf, World, Downloads, Archive.EntriesOf, ToolTree, Page.Valid, AllPossible, AllLinked;
    assert Clicks([]) == [Select(BASE), Select(APP)];
    StillStranded(more);
    AdditionLeaves();
    OnlyTheToolRuns();
    DownloadsAre();
    TextIsName(TOOL);
    MountedIsReach(page);
    StrandedOffers(page, TOOL);
    FarmIs(page, "run");
    assert Gives(page.ledger, TOOL, "run");
    AllLinkedIff(page);
  }
}
