/**
 * The page's boot and additions (site/js/app.js): what is mounted, what the share has written, and the farm, over any
 * run of one boot and any number of additions.
 */
module Session {
  import opened Prelude
  import opened Closure
  import opened Farm
  import Paths
  import Nar
  import Archive
  import Writer
  import Share
  import Fitting

  function BasenameOf(info: Narinfo): string {
    if |info.storePath| < |STORE_PREFIX| then "" else info.storePath[|STORE_PREFIX|..]
  }

  lemma {:induction false} BasenameIs(basename: string, references: seq<string>)
    ensures BasenameOf(Narinfo("/nix/store/" + basename, references)) == basename
  {
    assert ("/nix/store/" + basename)[|"/nix/store/"|..] == basename;
  }

  /** A narinfo names its own digest, and its path is one directory entry. */
  ghost predicate WellNamed(index: Index) {
    forall d :: d in index ==> Paths.ProperName(BasenameOf(index[d])) && DigestOf(BasenameOf(index[d])) == d
  }

  // ---------- a walk over what the caches answer right now ----------

  ghost predicate ServedFrom(served: Index, index: Index) {
    forall d :: d in served ==> d in index && served[d] == index[d]
  }

  lemma {:induction false} ServedBallWithin(served: Index, index: Index, known: set<Digest>, root: Digest, n: nat)
    requires ServedFrom(served, index)
    ensures Ball(served, known, root, n) <= Ball(index, known, root, n)
  {
    if n > 0 {
      ServedBallWithin(served, index, known, root, n - 1);
      var less, more := Ball(served, known, root, n - 1), Ball(index, known, root, n - 1);
      forall e | e in Successors(served, less) ensures e in Successors(index, more) {
        var d :| d in less && e in Refs(served, d);
        assert e in Refs(index, d);
      }
    }
  }

  lemma {:induction false} ServedBallIs(served: Index, index: Index, known: set<Digest>, root: Digest, n: nat)
    requires ServedFrom(served, index) && Reach(served, known, root) <= served.Keys
    ensures Ball(served, known, root, n) == Ball(index, known, root, n)
  {
    hide Reach, ServedFrom, Successors;
    if n > 0 {
      ServedBallIs(served, index, known, root, n - 1);
      ReachIsFixpoint(served, known, root, n - 1);
      SuccessorsAgree(served, index, Ball(served, known, root, n - 1));
    }
  }

  lemma {:induction false} SuccessorsAgree(served: Index, index: Index, ball: set<Digest>)
    requires ServedFrom(served, index) && ball <= served.Keys
    ensures Successors(served, ball) == Successors(index, ball)
  {
    assert forall d :: d in ball ==> d in served && Refs(served, d) == Refs(index, d);
  }

  lemma {:induction false} ServedReach(served: Index, index: Index, known: set<Digest>, root: Digest)
    requires ServedFrom(served, index)
    ensures Reach(served, known, root) <= Reach(index, known, root)
    ensures Reach(served, known, root) <= served.Keys ==> Reach(served, known, root) == Reach(index, known, root)
  {
    var n, m := |Universe(served, root)|, |Universe(index, root)|;
    ServedBallWithin(served, index, known, root, n);
    ReachIsFixpoint(index, known, root, n);
    if Reach(served, known, root) <= served.Keys {
      ServedBallIs(served, index, known, root, m);
      ReachIsFixpoint(served, known, root, m);
    }
  }

  lemma {:induction false} ServedRoot(served: Index, index: Index, known: set<Digest>, root: Digest)
    requires ServedFrom(served, index) && Closed(index, known)
    ensures Reach(served, {}, root) <= Reach(index, {}, root)
    ensures Reach(served, {}, root) - known <= served.Keys ==>
            Reach(served, {}, root) - known == Reach(index, {}, root) - known
  {
    ServedReach(served, index, {}, root);
    ServedReach(served, index, known, root);
    ReachOutsideClosed(served, known, root);
    ReachOutsideClosed(index, known, root);
  }

  /** What is reachable over the answers of the moment, when they suffice, is what is reachable at all. */
  lemma {:induction false} ServedReachAll(served: Index, index: Index, known: set<Digest>, roots: seq<Digest>)
    requires ServedFrom(served, index) && Closed(index, known)
    ensures ReachAll(served, roots) <= ReachAll(index, roots)
    ensures ReachAll(served, roots) - known <= served.Keys ==>
            ReachAll(served, roots) - known == ReachAll(index, roots) - known
  {
    if roots != [] {
      ServedReachAll(served, index, known, roots[..|roots| - 1]);
      ServedRoot(served, index, known, roots[|roots| - 1]);
      UnionOfServed(ReachAll(served, roots[..|roots| - 1]), ReachAll(index, roots[..|roots| - 1]),
                    Reach(served, {}, roots[|roots| - 1]), Reach(index, {}, roots[|roots| - 1]), known, served.Keys);
    }
  }

  lemma {:induction false} UnionOfServed(a: set<Digest>, a': set<Digest>, b: set<Digest>, b': set<Digest>,
                                         known: set<Digest>, keys: set<Digest>)
    requires a <= a' && b <= b'
    requires a - known <= keys ==> a - known == a' - known
    requires b - known <= keys ==> b - known == b' - known
    ensures a + b <= a' + b'
    ensures a + b - known <= keys ==> a + b - known == a' + b' - known
  {
    if a + b - known <= keys {
      assert a + b - known == (a - known) + (b - known);
      assert a' + b' - known == (a' - known) + (b' - known);
    }
  }

  lemma {:induction false} ReachAllConcat(index: Index, a: seq<Digest>, b: seq<Digest>)
    ensures ReachAll(index, a + b) == ReachAll(index, a) + ReachAll(index, b)
  {
    if b == [] {
      ReachAllNothing(index, a, b);
    } else {
      var init, last := b[..|b| - 1], b[|b| - 1];
      assert b == init + [last];
      ReachAllConcat(index, a, init);
      ReachAllConcatStep(index, a, init, last);
    }
  }

  lemma {:induction false} ReachAllNothing(index: Index, a: seq<Digest>, b: seq<Digest>)
    requires b == []
    ensures ReachAll(index, a + b) == ReachAll(index, a) + ReachAll(index, b)
  {
    assert a + b == a;
  }

  lemma {:induction false} ReachAllConcatStep(index: Index, a: seq<Digest>, b: seq<Digest>, last: Digest)
    requires ReachAll(index, a + b) == ReachAll(index, a) + ReachAll(index, b)
    ensures ReachAll(index, a + (b + [last])) == ReachAll(index, a) + ReachAll(index, b + [last])
  {
    assert a + (b + [last]) == (a + b) + [last];
  }

  // ---------- roots ----------

  /** One selection: a package and, where its programs are in an output of their own, that output. */
  datatype Root = Root(digest: Digest, bin: Option<Digest>)

  function Named(root: Root): seq<Digest> {
    [root.digest] + if root.bin.Some? then [root.bin.value] else []
  }

  function AllNamed(roots: seq<Root>): seq<Digest>
    decreases |roots|
  {
    if roots == [] then [] else Named(roots[0]) + AllNamed(roots[1..])
  }

  /** A package comes before the output beside it, and both where the selection has them. */
  lemma {:induction false} NamedInOrder(before: seq<Root>, package: Digest, output: Digest, after: seq<Root>)
    ensures AllNamed(before + [Root(package, Some(output))] + after) ==
      AllNamed(before) + [package, output] + AllNamed(after)
  {
    var root := Root(package, Some(output));
    if before == [] {
      assert before + [root] + after == [root] + after && ([root] + after)[1..] == after;
      assert AllNamed(before) == [] && [] + [package, output] == [package, output];
    } else {
      NamedInOrder(before[1..], package, output, after);
      assert (before + [root] + after)[1..] == before[1..] + [root] + after;
    }
  }

  method AddDigest(digests0: seq<Digest>, d: Digest, ghost seen: seq<Digest>) returns (digests: seq<Digest>)
    requires digests0 == Deduplicated(seen)
    ensures digests == Deduplicated(seen + [d])
  {
    digests := if d in digests0 then digests0 else digests0 + [d];
  }

  /** What the selection names, each package before the output beside it; a digest named twice counts once. */
  method DigestsOfRoots(roots: seq<Root>) returns (digests: seq<Digest>)
    ensures digests == Deduplicated(AllNamed(roots))
  {
    digests := [];
    ghost var seen := [];
    for i := 0 to |roots|
      invariant AllNamed(roots) == seen + AllNamed(roots[i..])
      invariant digests == Deduplicated(seen)
    {
      NamedStep(roots, i, seen);
      digests := AddDigest(digests, roots[i].digest, seen);
      seen := seen + [roots[i].digest];
      if roots[i].bin.Some? {
        digests := AddDigest(digests, roots[i].bin.value, seen);
        seen := seen + [roots[i].bin.value];
      }
    }
    assert seen + AllNamed([]) == seen;
  }

  lemma {:induction false} NamedStep(roots: seq<Root>, i: nat, seen: seq<Digest>)
    requires i < |roots|
    ensures var one := seen + [roots[i].digest];
      var after := if roots[i].bin.Some? then one + [roots[i].bin.value] else one;
      seen + AllNamed(roots[i..]) == after + AllNamed(roots[i + 1..])
  {
    assert roots[i..][0] == roots[i] && roots[i..][1..] == roots[i + 1..];
  }

  /** A digest outside the closure has no name and is passed over. */
  function BasenamesOf(closure: Index, digests: seq<Digest>): seq<string> {
    if digests == [] then []
    else
      var init, last := BasenamesOf(closure, digests[..|digests| - 1]), digests[|digests| - 1];
      if last in closure then init + [BasenameOf(closure[last])] else init
  }

  /** The name a digest's package has on disk. */
  ghost function NameOf(index: Index, d: Digest): string
    requires d in index
  {
    BasenameOf(index[d])
  }

  ghost function NamesOf(index: Index, s: set<Digest>): set<string> {
    set d | d in s && d in index :: BasenameOf(index[d])
  }

  lemma {:induction false} NamesDiffer(index: Index, a: Digest, b: Digest)
    requires WellNamed(index) && a in index && b in index && NameOf(index, a) == NameOf(index, b)
    ensures a == b
  {
  }

  lemma {:induction false} NotNamed(index: Index, s: set<Digest>, d: Digest)
    requires WellNamed(index) && d in index && d !in s
    ensures NameOf(index, d) !in NamesOf(index, s)
  {
    forall e | e in s && e in index ensures NameOf(index, e) != NameOf(index, d) {
      if NameOf(index, e) == NameOf(index, d) {
        NamesDiffer(index, d, e);
      }
    }
  }

  lemma {:induction false} NamesOfOneMore(index: Index, s: set<Digest>, d: Digest)
    requires d in index
    ensures NamesOf(index, s + {d}) == NamesOf(index, s) + {NameOf(index, d)}
  {
  }

  lemma {:induction false} MoreNames(index: Index, a: set<Digest>, b: set<Digest>)
    requires a <= b
    ensures NamesOf(index, a) <= NamesOf(index, b)
  {
  }

  // ---------- downloads ----------

  /** What fetching an archive gives right now: the parsed entries, or, for a digest left out, a failure. */
  type Archives = map<Digest, seq<Nar.Entry>>

  function Those(archives: Archives, s: set<Digest>): Archives {
    map d | d in s && d in archives :: archives[d]
  }

  lemma {:induction false} ThoseOneMore(archives: Archives, s: set<Digest>, d: Digest)
    requires d in archives
    ensures Those(archives, s + {d}) == Those(archives, s)[d := archives[d]]
  {
  }

  // ---------- what the share holds ----------

  /**
   * Of what has been downloaded, all but the lost archives are in the share, each under its own name and as it came;
   * the share has nothing else.
   */
  ghost predicate Holds(index: Index, got: Archives, lost: set<Digest>, programs: Offers,
                        contents: map<string, seq<Nar.Entry>>, spoiled: set<string>)
  {
    && lost <= got.Keys <= index.Keys
    && programs.Keys == NamesOf(index, got.Keys - lost)
    && spoiled <= NamesOf(index, lost)
    && forall d :: d in got && d !in lost ==> NameOf(index, d) in contents && contents[NameOf(index, d)] == got[d]
  }

  lemma {:induction false} HoldsOneMore(index: Index, got: Archives, lost: set<Digest>, programs: Offers,
                                        contents: map<string, seq<Nar.Entry>>, spoiled: set<string>, d: Digest,
                                        entries: seq<Nar.Entry>, offered: seq<string>)
    requires WellNamed(index) && Holds(index, got, lost, programs, contents, spoiled) && d in index && d !in got
    ensures var name := NameOf(index, d);
      Holds(index, got[d := entries], lost, programs[name := offered], contents[name := entries], spoiled)
  {
    assert got[d := entries].Keys - lost == (got.Keys - lost) + {d};
    NamesOfOneMore(index, got.Keys - lost, d);
    forall x | x in got && x !in lost ensures NameOf(index, x) != NameOf(index, d) {
      if NameOf(index, x) == NameOf(index, d) {
        NamesDiffer(index, x, d);
      }
    }
  }

  /** Archives that never got into the share, one of them with a write that threw. */
  lemma {:induction false} HoldsLosing(index: Index, got: Archives, lost: set<Digest>, programs: Offers,
                                       contents: map<string, seq<Nar.Entry>>, spoiled: set<string>, more: Archives,
                                       d: Digest)
    requires Holds(index, got, lost, programs, contents, spoiled)
    requires more.Keys <= index.Keys && more.Keys !! got.Keys && d in more
    ensures Holds(index, got + more, lost + more.Keys, programs, contents, spoiled + {NameOf(index, d)})
  {
    assert (got + more).Keys - (lost + more.Keys) == got.Keys - lost;
    NamesOfOneMore(index, lost, d);
  }

  /** A name that is new to the share. */
  lemma {:induction false} NameIsNew(index: Index, got: Archives, lost: set<Digest>, programs: Offers,
                                     contents: map<string, seq<Nar.Entry>>, spoiled: set<string>, d: Digest)
    requires WellNamed(index) && Holds(index, got, lost, programs, contents, spoiled) && d in index && d !in got
    ensures NameOf(index, d) !in programs && NameOf(index, d) !in spoiled && Paths.ProperName(NameOf(index, d))
  {
    NotNamed(index, got.Keys - lost, d);
    NotNamed(index, lost, d);
  }

  ghost predicate Shares(index: Index, got: Archives, lost: set<Digest>, share: Share.StoreShare)
    reads share, share.fs
  {
    share.Valid() && Holds(index, got, lost, share.programs, share.contents, share.spoiled)
  }

  lemma {:induction false} OfferedElsewhere(before: Offers, programs: Offers, names: set<string>, name: string,
                                            offered: seq<string>)
    requires SameOffered(before, programs, names) && name !in names
    ensures SameOffered(before, programs[name := offered], names)
  {
  }

  /** What of a share stays the same, or only grows, while archives are written into it. */
  datatype Before = Before(order: seq<string>, programs: Offers, links: Links, linked: set<string>)

  ghost function Now(share: Share.StoreShare): Before
    reads share
  {
    Before(share.order, share.programs, share.links, share.linked)
  }

  /** More is written, under names other than these; the farm is as it was. */
  ghost predicate Grew(before: Before, now: Before, names: set<string>, written: seq<string>) {
    && now.links == before.links && now.linked == before.linked
    && now.order == before.order + written
    && SameOffered(before.programs, now.programs, names)
  }

  lemma {:induction false} GrewOneMore(before: Before, now: Before, after: Before, names: set<string>,
                                       written: seq<string>, more: seq<string>)
    requires Grew(before, now, names, written) && Grew(now, after, names, more)
    ensures Grew(before, after, names, written + more)
  {
  }

  lemma {:induction false} GrewBeside(before: Before, now: Before, names: set<string>, fewer: set<string>,
                                      written: seq<string>)
    requires Grew(before, now, names, written) && fewer <= names
    ensures Grew(before, now, fewer, written)
  {
  }

  /** One archive more, which goes in exactly when the store takes it. */
  method WriteArchive(share: Share.StoreShare, ghost index: Index, ghost got: Archives, ghost lost: set<Digest>,
                      d: Digest, info: Narinfo, archives: Archives) returns (ok: bool)
    requires WellNamed(index) && Shares(index, got, lost, share)
    requires d in index && index[d] == info && d !in got && d in archives
    modifies share, share.fs
    ensures ok <==> Share.Takes(BasenameOf(info), archives[d])
    ensures ok ==> Shares(index, got[d := archives[d]], lost, share)
    ensures !ok ==> share.Valid() && share.programs == old(share.programs) && share.contents == old(share.contents)
    ensures !ok ==> share.spoiled == old(share.spoiled) + {BasenameOf(info)}
    ensures Grew(old(Now(share)), Now(share), NamesOf(index, got.Keys), if ok then [BasenameOf(info)] else [])
  {
    hide Share.StoreShare.Valid, Holds, NamesOf, WellNamed;
    NameIsNew(index, got, lost, share.programs, share.contents, share.spoiled, d);
    HoldsOneMore(index, got, lost, share.programs, share.contents, share.spoiled, d, archives[d],
                 Writer.ProgramsOf(archives[d]));
    NotNamed(index, got.Keys, d);
    OfferedElsewhere(share.programs, share.programs, NamesOf(index, got.Keys), BasenameOf(info),
                     Writer.ProgramsOf(archives[d]));
    ok := share.Write(BasenameOf(info), archives[d]);
  }

  /** The store takes what has been downloaded for a digest. */
  ghost predicate Taken(walked: Index, archives: Archives, d: Digest) {
    d in walked && d in archives && Share.Takes(BasenameOf(walked[d]), archives[d])
  }

  ghost predicate AllTaken(walked: Index, archives: Archives, order: seq<Digest>) {
    forall i :: 0 <= i < |order| ==> Taken(walked, archives, order[i])
  }

  /** How many archives the store takes before the first that it does not. */
  ghost function TakenFirst(index: Index, archives: Archives, order: seq<Digest>): (n: nat)
    ensures n <= |order|
  {
    if order == [] then 0
    else
      var n := TakenFirst(index, archives, order[..|order| - 1]);
      if n == |order| - 1 && Taken(index, archives, order[n]) then |order| else n
  }

  lemma {:induction false} TakenFirstMeans(index: Index, archives: Archives, order: seq<Digest>)
    ensures var n := TakenFirst(index, archives, order);
      AllTaken(index, archives, order[..n]) && (n < |order| ==> !Taken(index, archives, order[n]))
  {
    hide Taken;
    if order != [] {
      var init := order[..|order| - 1];
      TakenFirstMeans(index, archives, init);
      var n := TakenFirst(index, archives, init);
      assert init[..n] == order[..n];
      if n == |init| {
        assert order[..|order|] == order;
        forall i | 0 <= i < |init| ensures Taken(index, archives, order[i]) {
          assert init[..n][i] == order[i];
        }
      }
    }
  }

  lemma {:induction false} TakenFirstIs(index: Index, archives: Archives, order: seq<Digest>, n: nat)
    requires n <= |order| && AllTaken(index, archives, order[..n])
    requires n < |order| ==> !Taken(index, archives, order[n])
    ensures TakenFirst(index, archives, order) == n
  {
    hide Taken;
    var m := TakenFirst(index, archives, order);
    TakenFirstMeans(index, archives, order);
    if m < n {
      PrefixIsTaken(index, archives, order, n, m);
    } else if n < m {
      PrefixIsTaken(index, archives, order, m, n);
    }
  }

  lemma {:induction false} PrefixIsTaken(index: Index, archives: Archives, order: seq<Digest>, n: nat, i: nat)
    requires i < n <= |order| && AllTaken(index, archives, order[..n])
    ensures Taken(index, archives, order[i])
  {
    assert Taken(index, archives, order[..n][i]);
  }

  /** What has been downloaded once the first `i` archives of a walk are in. */
  ghost function GotUpto(got: Archives, archives: Archives, order: seq<Digest>, i: nat): Archives
    requires i <= |order|
  {
    got + Those(archives, ToSet(order[..i]))
  }

  lemma {:induction false} NextIsNew(order: seq<Digest>, i: nat)
    requires i < |order| && Distinct(order)
    ensures order[i] in ToSet(order) && order[i] !in ToSet(order[..i])
    ensures ToSet(order[..i + 1]) == ToSet(order[..i]) + {order[i]}
  {
    assert order[..i + 1] == order[..i] + [order[i]];
    ToSetConcat(order[..i], [order[i]]);
    assert ToSet([order[i]]) == {order[i]};
  }

  lemma {:induction false} UpdateLast<K, V>(a: map<K, V>, b: map<K, V>, k: K, v: V)
    ensures a + b[k := v] == (a + b)[k := v]
  {
  }

  lemma {:induction false} GotUptoStep(got: Archives, archives: Archives, order: seq<Digest>, i: nat)
    requires i < |order| && Distinct(order) && ToSet(order) <= archives.Keys && ToSet(order) !! got.Keys
    ensures order[i] in archives && order[i] !in GotUpto(got, archives, order, i)
    ensures GotUpto(got, archives, order, i + 1) == GotUpto(got, archives, order, i)[order[i] := archives[order[i]]]
  {
    NextIsNew(order, i);
    ThoseOneMore(archives, ToSet(order[..i]), order[i]);
    UpdateLast(got, Those(archives, ToSet(order[..i])), order[i], archives[order[i]]);
  }

  lemma {:induction false} GotUptoNone(got: Archives, archives: Archives, order: seq<Digest>)
    ensures GotUpto(got, archives, order, 0) == got
  {
    assert ToSet(order[..0]) == {};
  }

  lemma {:induction false} GotUptoAll(got: Archives, archives: Archives, order: seq<Digest>)
    ensures GotUpto(got, archives, order, |order|) == got + Those(archives, ToSet(order))
    ensures ToSet(order[|order|..]) == {}
  {
    assert order[..|order|] == order;
  }

  lemma {:induction false} RestApart(order: seq<Digest>, i: nat)
    requires i <= |order| && Distinct(order)
    ensures ToSet(order[..i]) !! ToSet(order[i..]) && ToSet(order) == ToSet(order[..i]) + ToSet(order[i..])
  {
    assert order == order[..i] + order[i..];
    ToSetConcat(order[..i], order[i..]);
    forall d | d in order[i..] ensures d !in order[..i] {
      var j :| i <= j < |order| && order[j] == d;
      assert order[..i] == order[..j][..i];
    }
  }

  lemma {:induction false} ThoseTogether(got: Archives, archives: Archives, a: set<Digest>, b: set<Digest>)
    ensures got + Those(archives, a) + Those(archives, b) == got + Those(archives, a + b)
  {
  }

  /** A write that throws loses its archive and every one after it. */
  lemma {:induction false} RestIsLost(index: Index, got: Archives, lost: set<Digest>, programs: Offers,
                                      contents: map<string, seq<Nar.Entry>>, spoiled: set<string>, archives: Archives,
                                      order: seq<Digest>, i: nat)
    requires i < |order| && Distinct(order) && ToSet(order) <= archives.Keys && ToSet(order) !! got.Keys
    requires ToSet(order) <= index.Keys
    requires Holds(index, GotUpto(got, archives, order, i), lost, programs, contents, spoiled)
    ensures order[i] in index
    ensures Holds(index, got + Those(archives, ToSet(order)), lost + ToSet(order[i..]), programs, contents,
                  spoiled + {NameOf(index, order[i])})
  {
    var before, more := GotUpto(got, archives, order, i), Those(archives, ToSet(order[i..]));
    RestApart(order, i);
    assert order[i] in order[i..];
    assert more.Keys == ToSet(order[i..]);
    ThoseTogether(got, archives, ToSet(order[..i]), ToSet(order[i..]));
    HoldsLosing(index, before, lost, programs, contents, spoiled, more, order[i]);
  }

  /** The archive whose turn it is. */
  method WriteNext(share: Share.StoreShare, ghost index: Index, ghost got: Archives, ghost lost: set<Digest>,
                   walked: Index, order: seq<Digest>, archives: Archives, i: nat)
    returns (ok: bool, more: seq<string>)
    requires WellNamed(index) && i < |order| && Shares(index, GotUpto(got, archives, order, i), lost, share)
    requires ServedFrom(walked, index) && walked.Keys !! got.Keys && walked.Keys <= archives.Keys
    requires Distinct(order) && ToSet(order) == walked.Keys
    modifies share, share.fs
    ensures order[i] in walked && (ok <==> Taken(walked, archives, order[i]))
    ensures more == if ok then [BasenameOf(walked[order[i]])] else []
    ensures ok ==> Shares(index, GotUpto(got, archives, order, i + 1), lost, share)
    ensures !ok ==> Shares(index, got + Those(archives, ToSet(order)), lost + ToSet(order[i..]), share)
    ensures Grew(old(Now(share)), Now(share), NamesOf(index, got.Keys), more)
  {
    GotUptoStep(got, archives, order, i);
    RestIsLost(index, got, lost, share.programs, share.contents, share.spoiled, archives, order, i);
    ghost var before := Now(share);
    ok := WriteArchive(share, index, GotUpto(got, archives, order, i), lost, order[i], walked[order[i]], archives);
    more := if ok then [BasenameOf(walked[order[i]])] else [];
    MoreNames(index, got.Keys, GotUpto(got, archives, order, i).Keys);
    GrewBeside(before, Now(share), NamesOf(index, GotUpto(got, archives, order, i).Keys), NamesOf(index, got.Keys),
               more);
  }

  /** These are the names of the first archives of a walk, all of them taken. */
  ghost predicate Begun(walked: Index, archives: Archives, order: seq<Digest>, written: seq<string>) {
    var n := |written|;
    n <= |order| && AllTaken(walked, archives, order[..n]) && written == BasenamesOf(walked, order[..n])
  }

  /** And the next one, if there is one, is not taken. */
  ghost predicate Ended(walked: Index, archives: Archives, order: seq<Digest>, written: seq<string>) {
    var n := |written|;
    Begun(walked, archives, order, written) && (n < |order| ==> !Taken(walked, archives, order[n]))
  }

  lemma {:induction false} NothingBegun(walked: Index, archives: Archives, order: seq<Digest>)
    ensures Begun(walked, archives, order, [])
  {
  }

  lemma {:induction false} BegunOneMore(walked: Index, archives: Archives, order: seq<Digest>, written: seq<string>)
    requires Begun(walked, archives, order, written) && |written| < |order|
    ensures Taken(walked, archives, order[|written|]) ==>
            Begun(walked, archives, order, written + [BasenameOf(walked[order[|written|]])])
    ensures !Taken(walked, archives, order[|written|]) ==> Ended(walked, archives, order, written + [])
  {
    var n := |written|;
    assert order[..n + 1] == order[..n] + [order[n]];
    assert order[..n + 1][..n] == order[..n] && written + [] == written;
  }

  /** Where the writing of a walk has stopped: the archive that was not taken is lost, and so is every one after it. */
  ghost predicate Wrote(index: Index, got: Archives, lost: set<Digest>, walked: Index, archives: Archives,
                        order: seq<Digest>, written: seq<string>, share: Share.StoreShare)
    reads share, share.fs
  {
    && Ended(walked, archives, order, written)
    && Shares(index, got + Those(archives, ToSet(order)), lost + ToSet(order[|written|..]), share)
  }

  lemma {:induction false} WroteUpTo(index: Index, got: Archives, lost: set<Digest>, walked: Index, archives: Archives,
                                     order: seq<Digest>, written: seq<string>, share: Share.StoreShare)
    requires Ended(walked, archives, order, written + []) && |written| < |order|
    requires Shares(index, got + Those(archives, ToSet(order)), lost + ToSet(order[|written|..]), share)
    ensures Wrote(index, got, lost, walked, archives, order, written + [], share)
  {
    assert written + [] == written;
  }

  lemma {:induction false} WroteAll(index: Index, got: Archives, lost: set<Digest>, walked: Index, archives: Archives,
                                    order: seq<Digest>, written: seq<string>, share: Share.StoreShare)
    requires Begun(walked, archives, order, written) && |written| == |order|
    requires Shares(index, GotUpto(got, archives, order, |order|), lost, share)
    ensures Wrote(index, got, lost, walked, archives, order, written, share)
  {
    GotUptoAll(got, archives, order);
    assert lost + {} == lost;
  }

  /** Put the archives of a walk into the share, in the order given; stop at one that cannot be written. */
  method WriteEach(share: Share.StoreShare, ghost index: Index, ghost got: Archives, ghost lost: set<Digest>,
                   walked: Index, order: seq<Digest>, archives: Archives) returns (ok: bool, written: seq<string>)
    requires WellNamed(index) && Shares(index, got, lost, share)
    requires ServedFrom(walked, index) && walked.Keys !! got.Keys && walked.Keys <= archives.Keys
    requires Distinct(order) && ToSet(order) == walked.Keys
    modifies share, share.fs
    ensures ok <==> |written| == |order|
    ensures Wrote(index, got, lost, walked, archives, order, written, share)
    ensures Grew(old(Now(share)), Now(share), NamesOf(index, got.Keys), written)
  {
    hide Shares, Wrote, BasenamesOf, NamesOf, WellNamed, ServedFrom, AllTaken, Distinct, Taken, GotUpto;
    ok, written := true, [];
    NothingBegun(walked, archives, order);
    GotUptoNone(got, archives, order);
    ghost var before, names := Now(share), NamesOf(index, got.Keys);
    while ok && |written| < |order|
      invariant Begun(walked, archives, order, written)
      invariant ok ==> Shares(index, GotUpto(got, archives, order, |written|), lost, share)
      invariant !ok ==> |written| < |order| && Wrote(index, got, lost, walked, archives, order, written, share)
      invariant Grew(before, Now(share), names, written)
      decreases |order| - |written|, ok
    {
      ghost var now := Now(share);
      var more;
      ok, more := WriteNext(share, index, got, lost, walked, order, archives, |written|);
      BegunOneMore(walked, archives, order, written);
      GrewOneMore(before, now, Now(share), names, written, more);
      if !ok {
        WroteUpTo(index, got, lost, walked, archives, order, written, share);
      }
      written := written + more;
    }
    if ok {
      WroteAll(index, got, lost, walked, archives, order, written, share);
    }
  }

  // ---------- a share from its boot on ----------

  ghost predicate Refused(index: Index, need: set<Digest>, archives: Archives) {
    exists d :: d in need && !Taken(index, archives, d)
  }

  lemma {:induction false} AllTakenMeans(walked: Index, index: Index, archives: Archives, order: seq<Digest>)
    requires ServedFrom(walked, index) && ToSet(order) == walked.Keys
    ensures AllTaken(walked, archives, order) <==> !Refused(index, walked.Keys, archives)
  {
    forall d | d in walked ensures Taken(walked, archives, d) <==> Taken(index, archives, d) {
    }
    if AllTaken(walked, archives, order) {
      forall d | d in walked ensures Taken(index, archives, d) {
        assert d in ToSet(order);
      }
    } else {
      var i :| 0 <= i < |order| && !Taken(walked, archives, order[i]);
      assert order[i] in ToSet(order);
    }
  }

  lemma {:induction false} WrittenWhole(walked: Index, index: Index, archives: Archives, order: seq<Digest>,
                                        written: seq<string>)
    requires ServedFrom(walked, index) && ToSet(order) == walked.Keys && Ended(walked, archives, order, written)
    ensures |written| == |order| <==> !Refused(index, walked.Keys, archives)
    ensures |written| == |order| ==> written == BasenamesOf(walked, order)
  {
    AllTakenMeans(walked, index, archives, order);
    if |written| == |order| {
      assert order[..|order|] == order;
    }
  }

  lemma {:induction false} BasenamesAre(closure: Index, digests: seq<Digest>, b: string)
    ensures b in BasenamesOf(closure, digests) <==>
            exists d :: d in digests && d in closure && BasenameOf(closure[d]) == b
  {
    if digests != [] {
      var init, last := digests[..|digests| - 1], digests[|digests| - 1];
      assert digests == init + [last];
      BasenamesAre(closure, init, b);
    }
  }

  /** Digest by digest, in the order given. */
  lemma {:induction false} BasenamesInOrder(closure: Index, digests: seq<Digest>, i: nat)
    requires ToSet(digests) <= closure.Keys && i < |digests|
    ensures |BasenamesOf(closure, digests)| == |digests|
    ensures digests[i] in closure && BasenamesOf(closure, digests)[i] == BasenameOf(closure[digests[i]])
  {
    var init, last := digests[..|digests| - 1], digests[|digests| - 1];
    assert digests == init + [last] && last in ToSet(digests);
    ToSetConcat(init, [last]);
    if init == [] {
      assert BasenamesOf(closure, init) == [];
    } else {
      BasenamesInOrder(closure, init, if i < |init| then i else 0);
    }
  }

  lemma {:induction false} NamesWritten(walked: Index, index: Index, order: seq<Digest>)
    requires ServedFrom(walked, index) && ToSet(order) == walked.Keys
    ensures ToSet(BasenamesOf(walked, order)) == NamesOf(index, walked.Keys)
  {
    forall b ensures b in BasenamesOf(walked, order) <==> b in NamesOf(index, walked.Keys) {
      BasenamesAre(walked, order, b);
      if d :| d in walked && BasenameOf(walked[d]) == b {
        assert d in ToSet(order);
      }
    }
  }

  /** The names of what is in a closure, digest by digest, whatever else the index has. */
  lemma {:induction false} BasenamesAgree(closure: Index, index: Index, digests: seq<Digest>)
    requires ToSet(digests) <= closure.Keys <= index.Keys && closure == InfosOf(index, closure.Keys)
    ensures BasenamesOf(closure, digests) == BasenamesOf(index, digests)
    ensures ToSet(BasenamesOf(index, digests)) <= NamesOf(index, closure.Keys)
  {
    if digests != [] {
      var init, last := digests[..|digests| - 1], digests[|digests| - 1];
      assert digests == init + [last];
      ToSetConcat(init, [last]);
      assert last in ToSet(digests);
      BasenamesAgree(closure, index, init);
      ToSetConcat(BasenamesOf(index, init), [BasenameOf(index[last])]);
    }
  }

  /** The farm is the roots' of every round, and has what these digests have to run, and nothing else. */
  ghost predicate Farmed(index: Index, rounds: seq<seq<string>>, linked: set<Digest>, share: Share.StoreShare)
    reads share
  {
    Decides(share.programs, rounds, share.links) && share.linked == NamesOf(index, linked)
  }

  /** A batch that is written whole is linked, and so is every root of it that is not lost. */
  ghost function LinkedNow(linked: set<Digest>, written: set<Digest>, rooted: set<Digest>, lost: set<Digest>)
    : set<Digest>
  {
    linked + written + (rooted - lost)
  }

  lemma {:induction false} NamesTogether(index: Index, a: set<Digest>, b: set<Digest>)
    ensures NamesOf(index, a + b) == NamesOf(index, a) + NamesOf(index, b)
  {
  }

  lemma {:induction false} NamesShared(index: Index, a: set<Digest>, b: set<Digest>)
    requires WellNamed(index)
    ensures NamesOf(index, a * b) == NamesOf(index, a) * NamesOf(index, b)
  {
    forall name | name in NamesOf(index, a) && name in NamesOf(index, b) ensures name in NamesOf(index, a * b) {
      var d :| d in a && d in index && NameOf(index, d) == name;
      var e :| e in b && e in index && NameOf(index, e) == name;
      NamesDiffer(index, d, e);
    }
  }

  /** What linking a batch that was written whole gives, name by name. */
  lemma {:induction false} LinkedWhole(index: Index, linked: set<Digest>, got: set<Digest>, lost: set<Digest>,
                                       walked: Index, order: seq<Digest>, rooted: set<Digest>, roots: seq<string>,
                                       programs: Offers)
    requires WellNamed(index) && ServedFrom(walked, index) && ToSet(order) == walked.Keys
    requires ToSet(roots) == NamesOf(index, rooted) && rooted <= got + walked.Keys && walked.Keys !! lost
    requires programs.Keys == NamesOf(index, got + walked.Keys - lost)
    ensures NamesOf(index, linked) + ((ToSet(BasenamesOf(walked, order)) + ToSet(roots)) * programs.Keys) ==
            NamesOf(index, LinkedNow(linked, walked.Keys, rooted, lost))
  {
    hide NamesOf, BasenamesOf, WellNamed;
    NamesWritten(walked, index, order);
    NamesTogether(index, walked.Keys, rooted);
    NamesShared(index, walked.Keys + rooted, got + walked.Keys - lost);
    assert (walked.Keys + rooted) * (got + walked.Keys - lost) == walked.Keys + (rooted - lost);
    NamesTogether(index, linked, walked.Keys + (rooted - lost));
    assert LinkedNow(linked, walked.Keys, rooted, lost) == linked + (walked.Keys + (rooted - lost));
  }

  /** A batch that has been written is linked. */
  method LinkBatch(share: Share.StoreShare, ghost index: Index, ghost got: Archives, ghost lost: set<Digest>,
                   basenames: seq<string>, roots: seq<string>, precedence: Precedence)
    requires Shares(index, got, lost, share)
    modifies share`links, share`linked, share.fs
    ensures Shares(index, got, lost, share)
    ensures share.links == LinkedAll(old(share.links), share.programs, basenames, roots, precedence)
    ensures share.linked == old(share.linked) + ((ToSet(basenames) + ToSet(roots)) * share.programs.Keys)
  {
    share.LinkAll(basenames, roots, precedence);
  }

  /** A new share, filled. */
  method Fill(ghost index: Index, closure: Index, order: seq<Digest>, archives: Archives)
    returns (share: Share.StoreShare, ok: bool)
    requires WellNamed(index) && ServedFrom(closure, index)
    requires Distinct(order) && ToSet(order) == closure.Keys && closure.Keys <= archives.Keys
    ensures fresh(share) && fresh(share.fs)
    ensures ok <==> !Refused(index, closure.Keys, archives)
    ensures ok ==> Shares(index, Those(archives, closure.Keys), {}, share)
    ensures share.links == map[] && share.linked == {}
    ensures ok ==> ToSet(share.order) == share.programs.Keys == NamesOf(index, closure.Keys)
  {
    hide Shares, Refused, NamesOf;
    share := new Share.StoreShare();
    NothingShared(index, share);
    ghost var none: Archives := map[];
    var written;
    ok, written := WriteEach(share, index, none, {}, closure, order, archives);
    WrittenWhole(closure, index, archives, order, written);
    LaunchedHolds(archives, order);
    if ok {
      HoldsWhole(index, archives, closure.Keys, share);
    }
  }

  lemma {:induction false} HoldsWhole(index: Index, archives: Archives, closure: set<Digest>, share: Share.StoreShare)
    requires closure <= archives.Keys && Shares(index, Those(archives, closure), {}, share)
    ensures ToSet(share.order) == share.programs.Keys == NamesOf(index, closure)
  {
    hide Share.Stores, Share.Shows, Sound, Share.AllProper;
    assert Those(archives, closure).Keys - {} == closure;
  }

  lemma {:induction false} NothingShared(index: Index, share: Share.StoreShare)
    requires share.Valid() && share.programs == map[] && share.spoiled == {}
    ensures Shares(index, map[], {}, share)
  {
  }

  lemma {:induction false} LaunchedHolds(archives: Archives, order: seq<Digest>)
    ensures var none: Archives := map[]; none + Those(archives, ToSet(order)) == Those(archives, ToSet(order))
    ensures {} + ToSet(order[|order|..]) == {}
  {
  }

  /** A new share filled with a closure and linked. */
  method Launch(ghost index: Index, closure: Index, order: seq<Digest>, roots: seq<string>, archives: Archives)
    returns (share: Share.StoreShare, ok: bool)
    requires WellNamed(index) && ServedFrom(closure, index)
    requires Distinct(order) && ToSet(order) == closure.Keys && closure.Keys <= archives.Keys
    ensures fresh(share) && fresh(share.fs)
    ensures ok <==> !Refused(index, closure.Keys, archives)
    ensures ok ==> Shares(index, Those(archives, closure.Keys), {}, share)
    ensures ok ==> Farmed(index, [roots], closure.Keys, share)
    ensures ok ==> share.links == LinkedAll(map[], share.programs, share.order, roots, Keep)
  {
    share, ok := Fill(index, closure, order, archives);
    if ok {
      BootDecides(share.programs, share.order, roots);
      LinkBatch(share, index, Those(archives, closure.Keys), {}, share.order, roots, Keep);
    }
  }

  /** What a write that throws leaves of the farm. */
  lemma {:induction false} LossFarms(names: set<string>, rounds: seq<seq<string>>, before: Before,
                                     share: Share.StoreShare)
    requires Decides(before.programs, rounds, share.links) && Within(rounds, names)
    requires SameOffered(before.programs, share.programs, names)
    ensures Decides(share.programs, rounds, share.links)
  {
    StillDecides(share.links, before.programs, share.programs, names, rounds);
  }

  /** What linking the batch is going to give. */
  ghost predicate Prepared(index: Index, rounds: seq<seq<string>>, linked: set<Digest>, written: seq<string>,
                           roots: seq<string>, share: Share.StoreShare)
    reads share
  {
    && Decides(share.programs, rounds + [roots], LinkedAll(share.links, share.programs, written, roots, Replace))
    && share.linked + ((ToSet(written) + ToSet(roots)) * share.programs.Keys) == NamesOf(index, linked)
  }

  /** More of a closure: what is written into a running share, and what is to be linked as its roots. */
  ghost predicate Extends(index: Index, got: Archives, lost: set<Digest>, walked: Index, order: seq<Digest>,
                          rooted: set<Digest>, roots: seq<string>, archives: Archives)
  {
    && WellNamed(index) && ServedFrom(walked, index) && walked.Keys !! got.Keys && walked.Keys <= archives.Keys
    && Distinct(order) && ToSet(order) == walked.Keys && lost <= got.Keys
    && ToSet(roots) == NamesOf(index, rooted) && rooted <= got.Keys + walked.Keys
  }

  /** Where writing more of a closure stops: nothing is linked yet. */
  ghost predicate Appended(index: Index, got: Archives, lost: set<Digest>, rounds: seq<seq<string>>,
                           linked: set<Digest>, walked: Index, order: seq<Digest>, rooted: set<Digest>,
                           roots: seq<string>, archives: Archives, written: seq<string>, share: Share.StoreShare)
    reads share, share.fs
  {
    && Wrote(index, got, lost, walked, archives, order, written, share)
    && (if |written| == |order|
        then Prepared(index, rounds, LinkedNow(linked, walked.Keys, rooted, lost), written, roots, share)
        else Farmed(index, rounds, linked, share))
  }

  /** All of it was written. */
  lemma {:induction false} WholePrepares(index: Index, got: Archives, lost: set<Digest>, rounds: seq<seq<string>>,
                                         linked: set<Digest>, before: Before, walked: Index, order: seq<Digest>,
                                         rooted: set<Digest>, roots: seq<string>, archives: Archives,
                                         written: seq<string>, share: Share.StoreShare)
    requires Extends(index, got, lost, walked, order, rooted, roots, archives)
    requires rounds != [] && Within(rounds, NamesOf(index, got.Keys)) && Decides(before.programs, rounds, share.links)
    requires SameOffered(before.programs, share.programs, NamesOf(index, got.Keys))
    requires share.linked == NamesOf(index, linked) && written == BasenamesOf(walked, order)
    requires share.programs.Keys == NamesOf(index, (got + Those(archives, walked.Keys)).Keys - lost)
    ensures Prepared(index, rounds, LinkedNow(linked, walked.Keys, rooted, lost), written, roots, share)
  {
    hide NamesOf, BasenamesOf, Decides, LinkedAll, SameOffered, Within;
    assert (got + Those(archives, walked.Keys)).Keys == got.Keys + walked.Keys;
    AdditionDecides(share.links, before.programs, share.programs, NamesOf(index, got.Keys), rounds, written, roots);
    LinkedWhole(index, linked, got.Keys, lost, walked, order, rooted, roots, share.programs);
  }

  lemma {:induction false} AppendFarms(index: Index, got: Archives, lost: set<Digest>, rounds: seq<seq<string>>,
                                       linked: set<Digest>, before: Before, walked: Index, order: seq<Digest>,
                                       rooted: set<Digest>, roots: seq<string>, archives: Archives,
                                       written: seq<string>, share: Share.StoreShare)
    requires Extends(index, got, lost, walked, order, rooted, roots, archives)
    requires rounds != [] && Within(rounds, NamesOf(index, got.Keys)) && Decides(before.programs, rounds, before.links)
    requires before.linked == NamesOf(index, linked)
    requires Wrote(index, got, lost, walked, archives, order, written, share)
    requires Grew(before, Now(share), NamesOf(index, got.Keys), written)
    ensures Appended(index, got, lost, rounds, linked, walked, order, rooted, roots, archives, written, share)
  {
    hide NamesOf, BasenamesOf, Decides, LinkedAll, Within, Taken, AllTaken;
    if |written| == |order| {
      assert order[..|order|] == order;
      NothingLost(lost, order);
      WholePrepares(index, got, lost, rounds, linked, before, walked, order, rooted, roots, archives, written, share);
    } else {
      LossFarms(NamesOf(index, got.Keys), rounds, before, share);
    }
  }

  /** More of a closure written into a share that is running. */
  method Append(share: Share.StoreShare, ghost index: Index, ghost got: Archives, ghost lost: set<Digest>,
                ghost rounds: seq<seq<string>>, ghost linked: set<Digest>, walked: Index, order: seq<Digest>,
                ghost rooted: set<Digest>, ghost roots: seq<string>, archives: Archives)
    returns (ok: bool, written: seq<string>)
    requires Shares(index, got, lost, share) && Farmed(index, rounds, linked, share)
    requires Extends(index, got, lost, walked, order, rooted, roots, archives)
    requires rounds != [] && Within(rounds, NamesOf(index, got.Keys))
    modifies share, share.fs
    ensures ok <==> |written| == |order|
    ensures Appended(index, got, lost, rounds, linked, walked, order, rooted, roots, archives, written, share)
    ensures share.links == old(share.links) && share.linked == old(share.linked)
    ensures share.order == old(share.order) + written
  {
    hide Wrote, Appended, Decides, Within, NamesOf;
    ghost var before := Now(share);
    ok, written := WriteEach(share, index, got, lost, walked, order, archives);
    AppendFarms(index, got, lost, rounds, linked, before, walked, order, rooted, roots, archives, written, share);
  }

  /** A batch written whole is linked. */
  method Join(share: Share.StoreShare, ghost index: Index, ghost more: Archives, ghost lost: set<Digest>,
              ghost rounds: seq<seq<string>>, ghost linked: set<Digest>, written: seq<string>, roots: seq<string>)
    requires Shares(index, more, lost, share) && Prepared(index, rounds, linked, written, roots, share)
    modifies share`links, share`linked, share.fs
    ensures Shares(index, more, lost, share) && Farmed(index, rounds + [roots], linked, share)
    ensures share.links == LinkedAll(old(share.links), share.programs, written, roots, Replace)
  {
    LinkBatch(share, index, more, lost, written, roots, Replace);
  }

  /** More of a closure put into a share that is running, its roots linked over what was there. */
  method Extend(share: Share.StoreShare, ghost index: Index, ghost got: Archives, ghost lost: set<Digest>,
                ghost rounds: seq<seq<string>>, ghost linked: set<Digest>, walked: Index, order: seq<Digest>,
                ghost rooted: set<Digest>, roots: seq<string>, archives: Archives)
    returns (ok: bool, written: seq<string>)
    requires Shares(index, got, lost, share) && Farmed(index, rounds, linked, share)
    requires Extends(index, got, lost, walked, order, rooted, roots, archives)
    requires rounds != [] && Within(rounds, NamesOf(index, got.Keys))
    modifies share, share.fs
    ensures ok <==> |written| == |order|
    ensures Wrote(index, got, lost, walked, archives, order, written, share)
    ensures Farmed(index, if ok then rounds + [roots] else rounds,
                   if ok then LinkedNow(linked, walked.Keys, rooted, lost) else linked, share)
    ensures share.links == if ok then LinkedAll(old(share.links), share.programs, written, roots, Replace)
                           else old(share.links)
    ensures !ok ==> share.linked == old(share.linked)
    ensures share.order == old(share.order) + written
  {
    ok, written := Append(share, index, got, lost, rounds, linked, walked, order, rooted, roots, archives);
    if ok {
      NothingLost(lost, order);
      Join(share, index, got + Those(archives, ToSet(order)), lost, rounds,
           LinkedNow(linked, walked.Keys, rooted, lost), written, roots);
    }
  }

  lemma {:induction false} NothingLost(lost: set<Digest>, order: seq<Digest>)
    ensures lost + ToSet(order[|order|..]) == lost
  {
  }

  // ---------- what is mounted ----------

  lemma {:induction false} WalkedIsIndexed(served: Index, index: Index, known: set<Digest>, roots: seq<Digest>,
                                           order: seq<Digest>, infos: Index)
    requires ServedFrom(served, index) && Closed(index, known) && FreshWalk(served, known, roots, order, infos)
    ensures infos.Keys == ToSet(order) == ReachAll(index, roots) - known
    ensures infos.Keys <= index.Keys && infos == InfosOf(index, infos.Keys) && ServedFrom(infos, index)
  {
    ServedReachAll(served, index, known, roots);
  }

  /** The closure of everything asked for, narinfo by narinfo. */
  ghost predicate Closes(index: Index, asked: seq<Digest>, mounted: Index) {
    mounted.Keys == ReachAll(index, asked) && mounted.Keys <= index.Keys && mounted == InfosOf(index, mounted.Keys)
  }

  /** Adding what a walk found to what was mounted gives the closure of everything asked for. */
  lemma {:induction false} MountedGrows(index: Index, mounted: Index, asked: seq<Digest>, roots: seq<Digest>,
                                        infos: Index)
    requires Closes(index, asked, mounted)
    requires infos.Keys == ReachAll(index, roots) - mounted.Keys
    requires infos.Keys <= index.Keys && infos == InfosOf(index, infos.Keys)
    ensures Closes(index, asked + roots, mounted + infos)
  {
    ReachAllConcat(index, asked, roots);
  }

  /** A walk over the answers of the moment, said in terms of the whole index. */
  method WalkServed(served: Index, ghost index: Index, digests: seq<Digest>, known: Index) returns (walk: Walk)
    requires ServedFrom(served, index) && Closed(index, known.Keys)
    ensures walk.Failed? <==> !(ReachAll(index, digests) - known.Keys <= served.Keys)
    ensures walk.Walked? ==> Distinct(walk.order) && ToSet(walk.order) == walk.infos.Keys
    ensures walk.Walked? ==> walk.infos.Keys == ReachAll(index, digests) - known.Keys && walk.infos.Keys <= index.Keys
    ensures walk.Walked? ==> walk.infos == InfosOf(index, walk.infos.Keys) && ServedFrom(walk.infos, index)
    ensures walk.Walked? ==> walk.order == RootsOrder(served, known.Keys, digests)
  {
    walk := WalkRoots(served, digests, known);
    ServedReachAll(served, index, known.Keys, digests);
    if walk.Walked? {
      WalkedIsIndexed(served, index, known.Keys, digests, walk.order, walk.infos);
    }
  }

  lemma {:induction false} ReachAllHasRoots(index: Index, digests: seq<Digest>)
    ensures ToSet(digests) <= ReachAll(index, digests)
  {
    if digests != [] {
      var init, last := digests[..|digests| - 1], digests[|digests| - 1];
      assert digests == init + [last];
      ToSetConcat(init, [last]);
      ReachAllHasRoots(index, init);
      ReachIsFixpoint(index, {}, last, 0);
    }
  }

  // ---------- clicks ----------

  /**
   * What one click asks for, what the caches answer and the downloads give it, and the order the downloads of a boot
   * happen to finish in.
   */
  datatype Request = Request(roots: seq<Root>, served: Index, archives: Archives, arrive: seq<Digest> -> seq<Digest>)

  function DigestsAsked(request: Request): seq<Digest> {
    Deduplicated(AllNamed(request.roots))
  }

  /** The caches answer alike whenever they answer, and every download that is awaited finishes once. */
  ghost predicate Possible(index: Index, request: Request) {
    && ServedFrom(request.served, index)
    && forall s :: Distinct(s) ==> Distinct(request.arrive(s)) && ToSet(request.arrive(s)) == ToSet(s)
  }

  datatype Outcome = WalkFailed | FetchFailed | WriteThrew | AlreadyThere | Mounted

  /**
   * What the clicks so far come to: the digests of those that mounted anything or found it mounted, every archive
   * downloaded for them, and, of each that was linked, the names of its roots; what a write that threw has lost, and
   * what is linked.
   */
  datatype Ledger = Ledger(asked: seq<Digest>, got: Archives, rounds: seq<seq<string>>, lost: set<Digest>,
                           linked: set<Digest>) {
    predicate Started() {
      rounds != []
    }

    /** What has been written, but is not linked. */
    ghost function Stranded(): set<Digest> {
      got.Keys - lost - linked
    }
  }

  const EMPTY_LEDGER := Ledger([], map[], [], {}, {})

  /** What a click has to mount. */
  ghost function Needed(index: Index, ledger: Ledger, request: Request): set<Digest> {
    ReachAll(index, DigestsAsked(request)) - ReachAll(index, ledger.asked)
  }

  /** How a click ends, whatever the clicks before it were and in whatever order its archives arrive. */
  ghost function OutcomeOf(index: Index, ledger: Ledger, request: Request): Outcome {
    var need := Needed(index, ledger, request);
    if !(need <= request.served.Keys) then WalkFailed
    else if ledger.Started() && need == {} then AlreadyThere
    else if !(need <= request.archives.Keys) then FetchFailed
    else if Refused(index, need, request.archives) then WriteThrew
    else Mounted
  }

  function RootNames(index: Index, request: Request): seq<string> {
    BasenamesOf(index, DigestsAsked(request))
  }

  /** The order an addition writes in: that in which its walk discovers what is not mounted. */
  ghost function Discovered(index: Index, ledger: Ledger, request: Request): seq<Digest> {
    RootsOrder(request.served, ReachAll(index, ledger.asked), DigestsAsked(request))
  }

  /** What an addition writes: everything up to the first archive that the store does not take. */
  ghost function WrittenBy(index: Index, ledger: Ledger, request: Request): seq<Digest> {
    var order := Discovered(index, ledger, request);
    order[..TakenFirst(index, request.archives, order)]
  }

  /** A boot that fails leaves nothing; an addition whose write throws has been mounted, but is not linked. */
  ghost function After(index: Index, ledger: Ledger, request: Request): Ledger {
    var need := Needed(index, ledger, request);
    var asked := ledger.asked + DigestsAsked(request);
    var got := ledger.got + Those(request.archives, need);
    match OutcomeOf(index, ledger, request)
    case WalkFailed => ledger
    case FetchFailed => ledger
    case WriteThrew =>
      if ledger.Started()
      then
        var lost := ledger.lost + (need - ToSet(WrittenBy(index, ledger, request)));
        Ledger(asked, got, ledger.rounds, lost, ledger.linked)
      else ledger
    case AlreadyThere => ledger.(asked := asked)
    case Mounted =>
      var linked := LinkedNow(ledger.linked, need, ToSet(DigestsAsked(request)), ledger.lost);
      Ledger(asked, got, ledger.rounds + [RootNames(index, request)], ledger.lost, linked)
  }

  ghost function LedgerOf(index: Index, requests: seq<Request>): Ledger {
    if requests == [] then EMPTY_LEDGER
    else After(index, LedgerOf(index, requests[..|requests| - 1]), requests[|requests| - 1])
  }

  lemma {:induction false} NothingWalked<K, V>(m: map<K, V>, none: map<K, V>)
    requires none.Keys == {}
    ensures m + none == m
  {
  }

  /** What is lost has been downloaded, and what is linked has been written. */
  ghost predicate InOrder(ledger: Ledger) {
    ledger.lost <= ledger.got.Keys && ledger.linked <= ledger.got.Keys - ledger.lost
  }

  /** What the page knows of its share and its farm once it has started. */
  ghost predicate Backed(index: Index, ledger: Ledger, share: Share.StoreShare)
    reads share, share.fs
  {
    && InOrder(ledger) && Shares(index, ledger.got, ledger.lost, share)
    && Farmed(index, ledger.rounds, ledger.linked, share)
    && Within(ledger.rounds, NamesOf(index, ledger.got.Keys))
  }

  /** A page that has started: what is mounted, the books, and the share. */
  ghost predicate Runs(index: Index, ledger: Ledger, mounted: Index, share: Share.StoreShare)
    reads share, share.fs
  {
    && Closes(index, ledger.asked, mounted) && ledger.got.Keys == mounted.Keys
    && ledger.Started() && Backed(index, ledger, share)
  }

  /** What a boot has to mount is the whole closure. */
  lemma {:induction false} BootOutcome(index: Index, request: Request)
    ensures var need := ReachAll(index, DigestsAsked(request));
      && Needed(index, EMPTY_LEDGER, request) == need
      && OutcomeOf(index, EMPTY_LEDGER, request) ==
           if !(need <= request.served.Keys) then WalkFailed
           else if !(need <= request.archives.Keys) then FetchFailed
           else if Refused(index, need, request.archives) then WriteThrew
           else Mounted
  {
    assert Needed(index, EMPTY_LEDGER, request) == ReachAll(index, DigestsAsked(request));
  }

  lemma {:induction false} FromNothing(asked: seq<Digest>, got: Archives)
    ensures EMPTY_LEDGER.asked + asked == asked && EMPTY_LEDGER.got + got == got
    ensures forall roots: seq<string> :: EMPTY_LEDGER.rounds + [roots] == [roots]
  {
  }

  lemma {:induction false} RootsWithin(index: Index, request: Request, closure: Index)
    requires Closes(index, DigestsAsked(request), closure)
    ensures BasenamesOf(closure, DigestsAsked(request)) == RootNames(index, request)
    ensures Within([RootNames(index, request)], NamesOf(index, closure.Keys))
  {
    ReachAllHasRoots(index, DigestsAsked(request));
    BasenamesAgree(closure, index, DigestsAsked(request));
    forall b | b in RootNames(index, request) ensures b in NamesOf(index, closure.Keys) {
      assert b in ToSet(RootNames(index, request));
    }
  }

  /** The ledger of a boot that went through. */
  lemma {:induction false} BootLedger(index: Index, request: Request, walked: Index)
    requires Closes(index, DigestsAsked(request), walked) && walked.Keys <= request.served.Keys
    requires walked.Keys <= request.archives.Keys && !Refused(index, walked.Keys, request.archives)
    ensures OutcomeOf(index, EMPTY_LEDGER, request) == Mounted
    ensures After(index, EMPTY_LEDGER, request) ==
      Ledger(DigestsAsked(request), Those(request.archives, walked.Keys), [RootNames(index, request)], {}, walked.Keys)
  {
    BootOutcome(index, request);
    FromNothing(DigestsAsked(request), Those(request.archives, walked.Keys));
    ReachAllHasRoots(index, DigestsAsked(request));
    assert LinkedNow({}, walked.Keys, ToSet(DigestsAsked(request)), {}) == walked.Keys;
  }

  /** What a boot that went through leaves. */
  ghost predicate Booted(index: Index, after: Ledger, walked: Index, share: Share.StoreShare)
    reads share, share.fs
  {
    && Runs(index, after, walked, share) && |after.rounds| == 1 && after.lost == {}
    && share.links == LinkedAll(map[], share.programs, share.order, after.rounds[0], Keep)
  }

  lemma {:induction false} BootedBy(index: Index, request: Request, walked: Index, share: Share.StoreShare)
    requires Closes(index, DigestsAsked(request), walked) && walked.Keys <= request.archives.Keys
    requires Shares(index, Those(request.archives, walked.Keys), {}, share)
    requires Farmed(index, [RootNames(index, request)], walked.Keys, share)
    requires share.links == LinkedAll(map[], share.programs, share.order, RootNames(index, request), Keep)
    ensures
      var got := Those(request.archives, walked.Keys);
      Booted(index, Ledger(DigestsAsked(request), got, [RootNames(index, request)], {}, walked.Keys), walked, share)
  {
    hide Shares, Farmed, Within, NamesOf, RootNames, DigestsAsked, ReachAll, LinkedAll;
    RootsWithin(index, request, walked);
    assert Those(request.archives, walked.Keys).Keys == walked.Keys;
  }

  /** Walk, download, write. The virtual machine of a boot that fails is one nobody runs. */
  method StartShare(ghost index: Index, request: Request)
    returns (outcome: Outcome, share: Share.StoreShare, walked: Index)
    requires WellNamed(index) && Possible(index, request)
    ensures fresh(share) && fresh(share.fs)
    ensures outcome == OutcomeOf(index, EMPTY_LEDGER, request)
    ensures outcome.Mounted? ==> Booted(index, After(index, EMPTY_LEDGER, request), walked, share)
  {
    var digests := DigestsOfRoots(request.roots);
    walked := map[];
    BootOutcome(index, request);
    var walk := WalkServed(request.served, index, digests, walked);
    assert ReachAll(index, digests) - walked.Keys == ReachAll(index, digests);
    if walk.Walked? && walk.infos.Keys <= request.archives.Keys {
      walked := walk.infos;
      outcome, share := StartWalked(index, request, walked, request.arrive(walk.order), digests);
    } else {
      outcome := if walk.Failed? then WalkFailed else FetchFailed;
      share := new Share.StoreShare();
    }
  }

  /** The rest of it once everything is downloaded, in the order it arrived. */
  method StartWalked(ghost index: Index, request: Request, walked: Index, order: seq<Digest>, digests: seq<Digest>)
    returns (outcome: Outcome, share: Share.StoreShare)
    requires WellNamed(index) && digests == DigestsAsked(request)
    requires Closes(index, digests, walked) && ServedFrom(walked, index) && walked.Keys <= request.served.Keys
    requires Distinct(order) && ToSet(order) == walked.Keys && walked.Keys <= request.archives.Keys
    ensures fresh(share) && fresh(share.fs)
    ensures outcome == OutcomeOf(index, EMPTY_LEDGER, request)
    ensures outcome.Mounted? ==> Booted(index, After(index, EMPTY_LEDGER, request), walked, share)
  {
    RootsWithin(index, request, walked);
    var ok;
    share, ok := Launch(index, walked, order, BasenamesOf(walked, digests), request.archives);
    outcome := if ok then Mounted else WriteThrew;
    BootOutcome(index, request);
    if ok {
      BootedBy(index, request, walked, share);
      BootLedger(index, request, walked);
    }
  }

  /** Of an addition. */
  lemma {:induction false} AdditionOutcome(index: Index, ledger: Ledger, request: Request, need: set<Digest>)
    requires ledger.Started() && need == Needed(index, ledger, request)
    ensures OutcomeOf(index, ledger, request) ==
      if !(need <= request.served.Keys) then WalkFailed
      else if need == {} then AlreadyThere
      else if !(need <= request.archives.Keys) then FetchFailed
      else if Refused(index, need, request.archives) then WriteThrew
      else Mounted
  {
  }

  /** The walk an addition starts with: only what is not mounted is looked up. */
  method WalkOn(ghost index: Index, ghost ledger: Ledger, mounted: Index, request: Request)
    returns (digests: seq<Digest>, walk: Walk)
    requires Closes(index, ledger.asked, mounted) && Possible(index, request)
    ensures digests == DigestsAsked(request)
    ensures walk.Failed? <==> !(Needed(index, ledger, request) <= request.served.Keys)
    ensures walk.Walked? ==> Distinct(walk.order) && ToSet(walk.order) == walk.infos.Keys
    ensures walk.Walked? ==> walk.infos.Keys == Needed(index, ledger, request)
    ensures walk.Walked? ==> walk.order == Discovered(index, ledger, request)
    ensures walk.Walked? ==> ServedFrom(walk.infos, index) && walk.infos.Keys !! mounted.Keys
    ensures walk.Walked? ==> Closes(index, ledger.asked + digests, mounted + walk.infos)
  {
    digests := DigestsOfRoots(request.roots);
    ReachAllIsClosed(index, ledger.asked);
    walk := WalkServed(request.served, index, digests, mounted);
    if walk.Walked? {
      MountedGrows(index, mounted, ledger.asked, digests, walk.infos);
    }
  }

  lemma {:induction false} RoundsStayWithin(index: Index, rounds: seq<seq<string>>, before: set<Digest>,
                                            after: set<Digest>, roots: seq<string>)
    requires Within(rounds, NamesOf(index, before)) && before <= after
    ensures Within(rounds, NamesOf(index, after))
    ensures ToSet(roots) <= NamesOf(index, after) ==> Within(rounds + [roots], NamesOf(index, after))
  {
    MoreNames(index, before, after);
    if ToSet(roots) <= NamesOf(index, after) {
      forall b | b in roots ensures b in NamesOf(index, after) {
        assert b in ToSet(roots);
      }
    }
  }

  /** The roots of an addition are among what is mounted after it. */
  lemma {:induction false} RootsMounted(index: Index, asked: seq<Digest>, request: Request, mounted: Index)
    requires Closes(index, asked + DigestsAsked(request), mounted)
    ensures BasenamesOf(mounted, DigestsAsked(request)) == RootNames(index, request)
    ensures ToSet(RootNames(index, request)) <= NamesOf(index, mounted.Keys)
    ensures ToSet(RootNames(index, request)) == NamesOf(index, ToSet(DigestsAsked(request)))
    ensures ToSet(DigestsAsked(request)) <= mounted.Keys
  {
    var digests := DigestsAsked(request);
    ReachAllHasRoots(index, asked + digests);
    ToSetConcat(asked, digests);
    BasenamesAgree(mounted, index, digests);
    forall b ensures b in RootNames(index, request) <==> b in NamesOf(index, ToSet(digests)) {
      BasenamesAre(index, digests, b);
    }
  }

  /** A walk that an addition has made and all of whose archives are there. */
  ghost predicate Downloaded(index: Index, ledger: Ledger, mounted: Index, request: Request, walked: Index,
                             order: seq<Digest>)
  {
    && walked.Keys == Needed(index, ledger, request) != {} && walked.Keys <= request.served.Keys
    && ServedFrom(walked, index) && walked.Keys !! mounted.Keys && walked.Keys <= request.archives.Keys
    && Closes(index, ledger.asked + DigestsAsked(request), mounted + walked)
    && Distinct(order) && ToSet(order) == walked.Keys && order == Discovered(index, ledger, request)
  }

  lemma {:induction false} AllDownloaded(index: Index, ledger: Ledger, mounted: Index, request: Request, walk: Walk)
    requires walk.Walked? && walk.infos.Keys == Needed(index, ledger, request) != {}
    requires Needed(index, ledger, request) <= request.served.Keys && walk.infos.Keys <= request.archives.Keys
    requires ServedFrom(walk.infos, index) && walk.infos.Keys !! mounted.Keys
    requires Closes(index, ledger.asked + DigestsAsked(request), mounted + walk.infos)
    requires Distinct(walk.order) && ToSet(walk.order) == walk.infos.Keys
    requires walk.order == Discovered(index, ledger, request)
    ensures Downloaded(index, ledger, mounted, request, walk.infos, walk.order)
  {
  }

  /** What writing a walk has come to, said by the books. */
  lemma {:induction false} WroteIs(index: Index, walked: Index, order: seq<Digest>, archives: Archives,
                                   written: seq<string>)
    requires ServedFrom(walked, index) && Distinct(order) && ToSet(order) == walked.Keys
    requires Ended(walked, archives, order, written)
    ensures |written| == TakenFirst(index, archives, order)
    ensures written == BasenamesOf(index, order[..|written|])
    ensures ToSet(order[|written|..]) == walked.Keys - ToSet(order[..|written|])
    ensures |written| == |order| <==> !Refused(index, walked.Keys, archives)
  {
    hide Refused, BasenamesOf;
    var n := |written|;
    forall d | d in walked ensures Taken(walked, archives, d) <==> Taken(index, archives, d) {
    }
    forall i | 0 <= i < n ensures Taken(index, archives, order[..n][i]) {
      assert Taken(walked, archives, order[..n][i]) && order[..n][i] in ToSet(order);
    }
    if n < |order| {
      assert order[n] in ToSet(order);
    }
    TakenFirstIs(index, archives, order, n);
    WrittenWhole(walked, index, archives, order, written);
    RestApart(order, n);
    SameBasenames(walked, index, order[..n]);
  }

  lemma {:induction false} SameBasenames(walked: Index, index: Index, digests: seq<Digest>)
    requires ServedFrom(walked, index) && ToSet(digests) <= walked.Keys
    ensures BasenamesOf(walked, digests) == BasenamesOf(index, digests)
  {
    if digests != [] {
      var init, last := digests[..|digests| - 1], digests[|digests| - 1];
      assert digests == init + [last] && last in ToSet(digests);
      ToSetConcat(init, [last]);
      SameBasenames(walked, index, init);
    }
  }

  /** The ledger of an addition that got as far as writing. */
  lemma {:induction false} WriteLedger(index: Index, ledger: Ledger, request: Request, walked: Index,
                                       order: seq<Digest>, before: Index, ok: bool)
    requires ledger.Started() && Downloaded(index, ledger, before, request, walked, order)
    requires ok <==> !Refused(index, walked.Keys, request.archives)
    ensures OutcomeOf(index, ledger, request) == if ok then Mounted else WriteThrew
    ensures After(index, ledger, request) ==
      Ledger(ledger.asked + DigestsAsked(request), ledger.got + Those(request.archives, walked.Keys),
             if ok then ledger.rounds + [RootNames(index, request)] else ledger.rounds,
             if ok then ledger.lost else ledger.lost + (walked.Keys - ToSet(WrittenBy(index, ledger, request))),
             if ok then LinkedNow(ledger.linked, walked.Keys, ToSet(DigestsAsked(request)), ledger.lost)
             else ledger.linked)
  {
    hide OutcomeOf, Refused, ReachAll, DigestsAsked, Closes, Needed, Discovered;
    AdditionOutcome(index, ledger, request, walked.Keys);
  }

  /** The books after it. */
  lemma {:induction false} BackedAfter(index: Index, ledger: Ledger, request: Request, walked: Index,
                                       order: seq<Digest>, before: Index, ok: bool, share: Share.StoreShare)
    requires ledger.Started() && InOrder(ledger) && Within(ledger.rounds, NamesOf(index, ledger.got.Keys))
    requires Downloaded(index, ledger, before, request, walked, order) && ledger.got.Keys == before.Keys
    requires ok <==> !Refused(index, walked.Keys, request.archives)
    requires var after := After(index, ledger, request);
      Shares(index, after.got, after.lost, share) && Farmed(index, after.rounds, after.linked, share)
    ensures OutcomeOf(index, ledger, request) == if ok then Mounted else WriteThrew
    ensures Runs(index, After(index, ledger, request), before + walked, share)
  {
    hide OutcomeOf, Shares, Farmed, Within, Refused, ReachAll, NamesOf, DigestsAsked, After, WrittenBy, Discovered;
    WriteLedger(index, ledger, request, walked, order, before, ok);
    RootsMounted(index, ledger.asked, request, before + walked);
    assert (ledger.got + Those(request.archives, walked.Keys)).Keys == (before + walked).Keys;
    RoundsStayWithin(index, ledger.rounds, ledger.got.Keys, (before + walked).Keys, RootNames(index, request));
  }

  lemma {:induction false} ExtendsMounted(index: Index, ledger: Ledger, before: Index, request: Request,
                                          walked: Index, order: seq<Digest>)
    requires WellNamed(index) && InOrder(ledger) && ledger.got.Keys == before.Keys
    requires Downloaded(index, ledger, before, request, walked, order)
    ensures BasenamesOf(before + walked, DigestsAsked(request)) == RootNames(index, request)
    ensures Extends(index, ledger.got, ledger.lost, walked, order, ToSet(DigestsAsked(request)),
                    RootNames(index, request), request.archives)
  {
    hide ReachAll, NamesOf, DigestsAsked, Discovered, BasenamesOf, WellNamed, Needed, RootNames;
    RootsMounted(index, ledger.asked, request, before + walked);
    assert (before + walked).Keys == before.Keys + walked.Keys;
  }

  /** What an addition does to the share, once its paths count as mounted. */
  method WriteMounted(share: Share.StoreShare, ghost index: Index, ghost ledger: Ledger, ghost before: Index,
                      mounted: Index, walked: Index, order: seq<Digest>, request: Request)
    returns (ok: bool, written: seq<string>)
    requires WellNamed(index) && Runs(index, ledger, before, share) && mounted == before + walked
    requires Downloaded(index, ledger, before, request, walked, order)
    modifies share, share.fs
    ensures OutcomeOf(index, ledger, request) == if ok then Mounted else WriteThrew
    ensures Runs(index, After(index, ledger, request), mounted, share)
    ensures share.links ==
      if ok then LinkedAll(old(share.links), share.programs, written, RootNames(index, request), Replace)
      else old(share.links)
    ensures !ok ==> share.linked == old(share.linked)
    ensures written == BasenamesOf(index, WrittenBy(index, ledger, request))
    ensures share.order == old(share.order) + written
  {
    hide Downloaded, Farmed, Within, NamesOf, BasenamesOf, WellNamed, Shares, Refused, OutcomeOf, After, Extends;
    hide Closes;
    ExtendsMounted(index, ledger, before, request, walked, order);
    var digests := DigestsOfRoots(request.roots);
    ghost var got := ledger.got;
    ok, written := Extend(share, index, ledger.got, ledger.lost, ledger.rounds, ledger.linked, walked, order,
                          ToSet(digests), BasenamesOf(mounted, digests), request.archives);
    WrittenLedger(index, ledger, request, walked, order, before, ok, written, share);
    BackedAfter(index, ledger, request, walked, order, before, ok, share);
  }

  /** What the share has come to is what the ledger says. */
  lemma {:induction false} WrittenLedger(index: Index, ledger: Ledger, request: Request, walked: Index,
                                         order: seq<Digest>, before: Index, ok: bool, written: seq<string>,
                                         share: Share.StoreShare)
    requires ledger.Started() && Downloaded(index, ledger, before, request, walked, order)
    requires ok <==> |written| == |order|
    requires Wrote(index, ledger.got, ledger.lost, walked, request.archives, order, written, share)
    requires Farmed(index, if ok then ledger.rounds + [RootNames(index, request)] else ledger.rounds,
                    if ok then LinkedNow(ledger.linked, walked.Keys, ToSet(DigestsAsked(request)), ledger.lost)
                    else ledger.linked, share)
    ensures ok <==> !Refused(index, walked.Keys, request.archives)
    ensures written == BasenamesOf(index, WrittenBy(index, ledger, request))
    ensures var after := After(index, ledger, request);
      Shares(index, after.got, after.lost, share) && Farmed(index, after.rounds, after.linked, share)
  {
    hide Farmed, NamesOf, BasenamesOf, Shares, Refused, OutcomeOf, After, Closes, DigestsAsked, Needed, Discovered;
    WroteIs(index, walked, order, request.archives, written);
    WriteLedger(index, ledger, request, walked, order, before, ok);
    NothingLost(ledger.lost, order);
  }

  class Page {
    ghost const index: Index
    var started: bool
    var mounted: Index
    var share: Share.StoreShare
    ghost var ledger: Ledger

    ghost predicate Valid()
      reads this, share, share.fs
    {
      && WellNamed(index)
      && (if started then Runs(index, ledger, mounted, share) else ledger == EMPTY_LEDGER && mounted == map[])
    }

    /** Nothing on disk or in the farm has changed. */
    twostate predicate SameShare()
      reads this, share, share.fs
    {
      share == old(share) && share.fs == old(share.fs) && unchanged(share) && unchanged(share.fs)
    }

    constructor (ghost index: Index)
      requires WellNamed(index)
      ensures Valid() && this.index == index && ledger == EMPTY_LEDGER
      ensures fresh(share) && fresh(share.fs)
    {
      this.index := index;
      started, mounted, ledger := false, map[], EMPTY_LEDGER;
      share := new Share.StoreShare();
    }

    /** A boot that goes through gives the page its share; one that fails leaves it as it was. */
    method Boot(request: Request) returns (outcome: Outcome)
      requires Valid() && !started && Possible(index, request)
      modifies this
      ensures Valid()
      ensures outcome == OutcomeOf(index, old(ledger), request) && ledger == After(index, old(ledger), request)
      ensures started ==> fresh(share) && fresh(share.fs) && Booted(index, ledger, mounted, share)
      ensures !started ==> share == old(share) && mounted == old(mounted)
    {
      var vm, walked;
      outcome, vm, walked := StartShare(index, request);
      BootKeeps(index, request);
      if outcome.Mounted? {
        Take(vm, walked, After(index, ledger, request));
      }
    }

    /** The virtual machine is up: its share is the page's, and what it holds is mounted. */
    method Take(vm: Share.StoreShare, closure: Index, ghost after: Ledger)
      requires WellNamed(index) && Booted(index, after, closure, vm)
      modifies this
      ensures Valid() && started && share == vm && mounted == closure && ledger == after
    {
      started, mounted, share, ledger := true, closure, vm, after;
    }

    /**
     * Walk from what is mounted, download, mount, write. A walk or a download that fails changes nothing; an archive
     * that cannot be written is noticed only once it counts as mounted.
     */
    method Add(request: Request) returns (outcome: Outcome, written: seq<string>)
      requires Valid() && started && Possible(index, request)
      modifies this`mounted, this`ledger, share, share.fs
      ensures Valid()
      ensures outcome == OutcomeOf(index, old(ledger), request) && ledger == After(index, old(ledger), request)
      ensures !outcome.Mounted? && !outcome.WriteThrew? ==> mounted == old(mounted) && SameShare() && written == []
      ensures outcome.Mounted? ==>
        share.links == LinkedAll(old(share.links), share.programs, written, RootNames(index, request), Replace)
      ensures outcome.WriteThrew? ==> share.links == old(share.links) && share.linked == old(share.linked)
      ensures outcome.Mounted? || outcome.WriteThrew? ==>
        written == BasenamesOf(index, WrittenBy(index, old(ledger), request))
      ensures share.order == old(share.order) + written
    {
      hide Backed, Closed, After, OutcomeOf, WrittenBy, Discovered, Downloaded, Needed, Closes, ServedFrom;
      written := [];
      var _, walk := WalkOn(index, ledger, mounted, request);
      if walk.Walked? && walk.infos.Keys != {} && walk.infos.Keys <= request.archives.Keys {
        var ok;
        AllDownloaded(index, ledger, mounted, request, walk);
        ok, written := MountAndWrite(walk.infos, walk.order, request);
        outcome := if ok then Mounted else WriteThrew;
      } else {
        outcome := if walk.Failed? then WalkFailed else if walk.infos.Keys == {} then AlreadyThere else FetchFailed;
        NothingMounted(index, ledger, mounted, share, request, walk);
        Book(request);
      }
    }

    /** The walk's paths are mounted first and written after. */
    method MountAndWrite(walked: Index, order: seq<Digest>, request: Request) returns (ok: bool, written: seq<string>)
      requires Valid() && started && Downloaded(index, ledger, mounted, request, walked, order)
      modifies this`mounted, this`ledger, share, share.fs
      ensures Valid()
      ensures OutcomeOf(index, old(ledger), request) == if ok then Mounted else WriteThrew
      ensures ledger == After(index, old(ledger), request)
      ensures share.links ==
        if ok then LinkedAll(old(share.links), share.programs, written, RootNames(index, request), Replace)
        else old(share.links)
      ensures !ok ==> share.linked == old(share.linked)
      ensures written == BasenamesOf(index, WrittenBy(index, old(ledger), request))
      ensures share.order == old(share.order) + written
    {
      hide Backed, Closes, Downloaded, WellNamed, After, OutcomeOf, WrittenBy, BasenamesOf;
      ghost var before := mounted;
      mounted := mounted + walked;
      ok, written := WriteMounted(share, index, ledger, before, mounted, walked, order, request);
      Book(request);
    }

    /** The one button: it boots, and once a boot has gone through it adds. */
    method Click(request: Request) returns (outcome: Outcome)
      requires Valid() && Possible(index, request)
      modifies this, share, share.fs
      ensures Valid() && ((share == old(share) && share.fs == old(share.fs)) || (fresh(share) && fresh(share.fs)))
      ensures outcome == OutcomeOf(index, old(ledger), request) && ledger == After(index, old(ledger), request)
    {
      hide Backed, Closes, Possible, OutcomeOf, After, WrittenBy, Booted, WellNamed;
      if started {
        var ended, _ := Add(request);
        outcome := ended;
      } else {
        outcome := Boot(request);
      }
    }

    /** The books are brought up to date. */
    ghost method Book(request: Request)
      requires WellNamed(index) && started && Runs(index, After(index, ledger, request), mounted, share)
      modifies this`ledger
      ensures Valid() && ledger == After(index, old(ledger), request)
    {
      ledger := After(index, ledger, request);
    }
  }

  /** An addition that stops before it mounts anything. */
  lemma {:induction false} NothingMounted(index: Index, ledger: Ledger, mounted: Index, share: Share.StoreShare,
                                          request: Request, walk: Walk)
    requires Runs(index, ledger, mounted, share)
    requires walk.Failed? <==> !(Needed(index, ledger, request) <= request.served.Keys)
    requires walk.Walked? ==> walk.infos.Keys == Needed(index, ledger, request)
    requires walk.Walked? ==> Closes(index, ledger.asked + DigestsAsked(request), mounted + walk.infos)
    requires walk.Failed? || walk.infos.Keys == {} || !(walk.infos.Keys <= request.archives.Keys)
    ensures OutcomeOf(index, ledger, request) ==
      if walk.Failed? then WalkFailed else if walk.infos.Keys == {} then AlreadyThere else FetchFailed
    ensures Runs(index, After(index, ledger, request), mounted, share)
  {
    hide OutcomeOf, Needed, Shares, Farmed, Within;
    AdditionOutcome(index, ledger, request, Needed(index, ledger, request));
    if walk.Walked? && walk.infos.Keys == {} {
      NothingWalked(mounted, walk.infos);
    }
  }

  lemma {:induction false} BootKeeps(index: Index, request: Request)
    ensures !OutcomeOf(index, EMPTY_LEDGER, request).Mounted? ==>
            After(index, EMPTY_LEDGER, request) == EMPTY_LEDGER
  {
  }

  // ---------- whole runs ----------

  ghost predicate AllPossible(index: Index, requests: seq<Request>) {
    forall i :: 0 <= i < |requests| ==> Possible(index, requests[i])
  }

  /** Every click ended as the ones before it determine. */
  ghost predicate Ends(index: Index, requests: seq<Request>, outcomes: seq<Outcome>) {
    && |outcomes| == |requests|
    && forall i :: 0 <= i < |requests| ==> outcomes[i] == OutcomeOf(index, LedgerOf(index, requests[..i]), requests[i])
  }

  /** Some addition threw. */
  ghost predicate Threw(index: Index, requests: seq<Request>, outcomes: seq<Outcome>) {
    exists i ::
      0 <= i < |outcomes| && i < |requests| && outcomes[i].WriteThrew? && LedgerOf(index, requests[..i]).Started()
  }

  lemma {:induction false} EndsOneMore(index: Index, requests: seq<Request>, outcomes: seq<Outcome>, request: Request,
                                       outcome: Outcome)
    requires Ends(index, requests, outcomes)
    requires outcome == OutcomeOf(index, LedgerOf(index, requests), request)
    ensures Ends(index, requests + [request], outcomes + [outcome])
    ensures LedgerOf(index, requests + [request]) == After(index, LedgerOf(index, requests), request)
  {
    hide OutcomeOf, After;
    var more, ends := requests + [request], outcomes + [outcome];
    assert more[..|requests|] == requests;
    forall i | 0 <= i < |requests|
      ensures more[..i] == requests[..i] && more[i] == requests[i] && ends[i] == outcomes[i]
    {
    }
  }

  lemma {:induction false} NothingEnds(index: Index)
    ensures Ends(index, [], []) && (forall outcomes :: Ends(index, [], outcomes) ==> outcomes == [])
    ensures !Threw(index, [], []) && !AnyMounted([])
    ensures !LedgerOf(index, []).Started()
  {
  }

  /**
   * Any number of clicks, whatever the caches answer and the downloads give each of them: how every one ends and what
   * the page comes to is determined, the page is in order after them, and it has lost something exactly when an
   * addition threw.
   */
  method Run(ghost index: Index, requests: seq<Request>) returns (page: Page, outcomes: seq<Outcome>)
    requires WellNamed(index) && AllPossible(index, requests)
    ensures page.Valid() && page.index == index && page.ledger == LedgerOf(index, requests)
    ensures Ends(index, requests, outcomes)
    ensures page.ledger.lost == {} <==> !Threw(index, requests, outcomes)
    ensures page.started <==> AnyMounted(outcomes)
    ensures page.mounted.Keys == ReachAll(index, page.ledger.asked)
  {
    hide WellNamed, Possible, OutcomeOf, After, Ends, Threw, Page.Valid;
    page := new Page(index);
    outcomes := [];
    NothingEnds(index);
    assert requests[..0] == [];
    for i := 0 to |requests|
      invariant page.Valid() && page.index == index && fresh(page) && fresh(page.share) && fresh(page.share.fs)
      invariant page.ledger == LedgerOf(index, requests[..i])
      invariant Ends(index, requests[..i], outcomes)
    {
      var outcome := page.Click(requests[i]);
      EndsOneMore(index, requests[..i], outcomes, requests[i], outcome);
      outcomes := outcomes + [outcome];
      assert requests[..i + 1] == requests[..i] + [requests[i]];
    }
    assert requests[..|requests|] == requests;
    StartedIff(index, requests, outcomes);
    LostIffThrew(index, requests, outcomes);
    MountedIsReach(page);
  }

  // ---------- what that comes to ----------

  lemma {:induction false} MountedIsReach(page: Page)
    requires page.Valid()
    ensures page.started == page.ledger.Started() && page.mounted.Keys == ReachAll(page.index, page.ledger.asked)
  {
  }

  lemma {:induction false} StartedAfter(index: Index, ledger: Ledger, request: Request)
    ensures After(index, ledger, request).Started() <==> ledger.Started() || OutcomeOf(index, ledger, request).Mounted?
  {
  }

  lemma {:induction false} EndsOneLess(index: Index, requests: seq<Request>, outcomes: seq<Outcome>)
    requires Ends(index, requests, outcomes) && requests != []
    ensures |outcomes| == |requests|
    ensures var n := |requests| - 1;
      && Ends(index, requests[..n], outcomes[..n])
      && outcomes[n] == OutcomeOf(index, LedgerOf(index, requests[..n]), requests[n])
      && LedgerOf(index, requests) == After(index, LedgerOf(index, requests[..n]), requests[n])
  {
    hide OutcomeOf, After;
    var n := |requests| - 1;
    forall i | 0 <= i < n ensures requests[..n][..i] == requests[..i] && requests[..n][i] == requests[i] {
    }
  }

  ghost predicate AnyMounted(outcomes: seq<Outcome>) {
    exists i :: 0 <= i < |outcomes| && outcomes[i].Mounted?
  }

  lemma {:induction false} AnyOneMore(outcomes: seq<Outcome>, outcome: Outcome)
    ensures AnyMounted(outcomes + [outcome]) <==> AnyMounted(outcomes) || outcome.Mounted?
  {
    var more := outcomes + [outcome];
    if outcome.Mounted? {
      assert more[|outcomes|].Mounted?;
    }
    if i :| 0 <= i < |outcomes| && outcomes[i].Mounted? {
      assert more[i].Mounted?;
    }
  }

  /** A page has started exactly when some click mounted. */
  lemma {:induction false} StartedIff(index: Index, requests: seq<Request>, outcomes: seq<Outcome>)
    requires Ends(index, requests, outcomes)
    ensures LedgerOf(index, requests).Started() <==> AnyMounted(outcomes)
  {
    hide OutcomeOf, After, AnyMounted, Ends;
    NothingEnds(index);
    if requests != [] {
      var n := |requests| - 1;
      EndsOneLess(index, requests, outcomes);
      StartedIff(index, requests[..n], outcomes[..n]);
      StartedAfter(index, LedgerOf(index, requests[..n]), requests[n]);
      AnyOneMore(outcomes[..n], outcomes[n]);
      assert outcomes == outcomes[..n] + [outcomes[n]];
    }
  }

  /**
   * A write throws: what is lost is an archive that was not taken and all that are discovered after it; what is
   * discovered before it is written and not linked.
   */
  lemma {:induction false} ThrowMeans(index: Index, ledger: Ledger, request: Request)
    requires ledger.Started() && OutcomeOf(index, ledger, request).WriteThrew?
    ensures var after, need := After(index, ledger, request), Needed(index, ledger, request);
      && (exists d :: d in need && d in after.lost && !Taken(index, request.archives, d))
      && (forall d :: d in need && d !in after.lost ==> Taken(index, request.archives, d))
      && after.lost != {} && ledger.lost <= after.lost && after.linked == ledger.linked
  {
    hide ReachAll, Discovered, Share.Takes;
    TakenFirstMeans(index, request.archives, Discovered(index, ledger, request));
    var order, after := Discovered(index, ledger, request), After(index, ledger, request);
    var n := TakenFirst(index, request.archives, order);
    forall d | d in order[..n] ensures Taken(index, request.archives, d) {
      var i :| 0 <= i < n && order[..n][i] == d;
      assert Taken(index, request.archives, order[..n][i]);
    }
    var d :| d in Needed(index, ledger, request) && !Taken(index, request.archives, d);
    assert d in after.lost;
  }

  lemma {:induction false} LostAfter(index: Index, ledger: Ledger, request: Request)
    requires ledger == EMPTY_LEDGER || ledger.Started()
    ensures After(index, ledger, request).lost == {} <==>
            ledger.lost == {} && !(ledger.Started() && OutcomeOf(index, ledger, request).WriteThrew?)
  {
    if ledger.Started() && OutcomeOf(index, ledger, request).WriteThrew? {
      ThrowMeans(index, ledger, request);
    }
  }

  lemma {:induction false} ThrewOneMore(index: Index, requests: seq<Request>, outcomes: seq<Outcome>)
    requires |outcomes| == |requests| > 0
    ensures var n := |requests| - 1;
      Threw(index, requests, outcomes) <==>
        Threw(index, requests[..n], outcomes[..n]) ||
        (outcomes[n].WriteThrew? && LedgerOf(index, requests[..n]).Started())
  {
    hide LedgerOf;
    var n := |requests| - 1;
    forall i | 0 <= i < n ensures requests[..n][..i] == requests[..i] && outcomes[..n][i] == outcomes[i] {
    }
    if Threw(index, requests[..n], outcomes[..n]) {
      var i :| 0 <= i < n && outcomes[..n][i].WriteThrew? && LedgerOf(index, requests[..n][..i]).Started();
      assert outcomes[i].WriteThrew? && LedgerOf(index, requests[..i]).Started();
    }
    if Threw(index, requests, outcomes) {
      var i :| 0 <= i < |outcomes| && outcomes[i].WriteThrew? && LedgerOf(index, requests[..i]).Started();
      if i < n {
        assert outcomes[..n][i].WriteThrew? && LedgerOf(index, requests[..n][..i]).Started();
      }
    }
  }

  /** Something is lost exactly when the write of an addition threw. */
  lemma {:induction false} LostIffThrew(index: Index, requests: seq<Request>, outcomes: seq<Outcome>)
    requires Ends(index, requests, outcomes)
    ensures LedgerOf(index, requests).lost == {} <==> !Threw(index, requests, outcomes)
    ensures LedgerOf(index, requests) == EMPTY_LEDGER || LedgerOf(index, requests).Started()
  {
    hide OutcomeOf, Ends;
    NothingEnds(index);
    if requests == [] {
      assert outcomes == [];
    } else {
      var n := |requests| - 1;
      EndsOneLess(index, requests, outcomes);
      LostIffThrew(index, requests[..n], outcomes[..n]);
      LostAfter(index, LedgerOf(index, requests[..n]), requests[n]);
      StartedAfter(index, LedgerOf(index, requests[..n]), requests[n]);
      BootKeeps(index, requests[n]);
      ThrewOneMore(index, requests, outcomes);
    }
  }

  /** What is mounted is what the share has written, name for name, exactly when nothing has been lost. */
  lemma {:induction false} SharedIffNothingLost(page: Page)
    requires page.Valid() && page.started
    ensures page.mounted.Keys == ReachAll(page.index, page.ledger.asked) && Closed(page.index, page.mounted.Keys)
    ensures page.share.programs.Keys == NamesOf(page.index, page.mounted.Keys - page.ledger.lost)
    ensures page.share.programs.Keys == NamesOf(page.index, page.mounted.Keys) <==> page.ledger.lost == {}
  {
    var lost := page.ledger.lost;
    ReachAllIsClosed(page.index, page.ledger.asked);
    if lost == {} {
      assert page.mounted.Keys - lost == page.mounted.Keys;
    } else {
      var d :| d in lost;
      NotNamed(page.index, page.mounted.Keys - lost, d);
      assert NameOf(page.index, d) in NamesOf(page.index, page.mounted.Keys);
    }
  }

  // ---------- which programs have a link ----------

  /** What an archive has to run. */
  ghost predicate Gives(ledger: Ledger, d: Digest, name: string) {
    d in ledger.got && name in Writer.ProgramsOf(ledger.got[d])
  }

  /** A program of something that is linked. */
  ghost predicate InFarm(ledger: Ledger, name: string) {
    exists d :: d in ledger.linked && Gives(ledger, d, name)
  }

  /** A written package offers what its archive does. */
  lemma {:induction false} WrittenOffers(page: Page, d: Digest)
    requires page.Valid() && page.started && d in page.ledger.got && d !in page.ledger.lost
    ensures d in page.index
    ensures forall name :: Offering(page.share.programs, NameOf(page.index, d), name) <==> Gives(page.ledger, d, name)
  {
    hide Share.Stores, Share.Shows, Sound, Decides, Within, Closes;
    var b := NameOf(page.index, d);
    assert b in page.share.contents && page.share.contents[b] == page.ledger.got[d];
    assert page.share.programs[b] == Writer.ProgramsOf(page.share.contents[b]);
  }

  /** A linked name belongs to a package that is on disk. */
  lemma {:induction false} LinkIsStored(page: Page, name: string) returns (d: Digest)
    requires page.Valid() && page.started && name in page.share.links
    ensures d in page.ledger.linked && d in page.index && NameOf(page.index, d) == page.share.links[name]
    ensures Gives(page.ledger, d, name)
    ensures page.share.links[name] in page.share.contents
    ensures name in Writer.ProgramsOf(page.share.contents[page.share.links[name]])
  {
    hide Share.Stores, Share.Shows, Share.Booked, Decides, Within, Closes;
    d :| d in page.ledger.linked && d in page.index && NameOf(page.index, d) == page.share.links[name];
    WrittenOffers(page, d);
  }

  /** Over any run: each name in the farm starts the program of that name in its package, which is on disk. */
  lemma {:induction false} FarmStarts(page: Page, name: string)
    requires page.Valid() && page.started && name in page.share.links
    ensures Share.LeadsToProgram(page.share.fs.nodes, page.share.links[name], name)
  {
    hide Share.Stores, Share.Shows, Share.Booked, Sound, Decides, Within, Closes, Holds;
    var d := LinkIsStored(page, name);
    Share.LinkStarts(page.share.fs.nodes, page.share.contents, page.share.spoiled, page.share.links, name);
  }

  /** Over any run: the names in the farm are the programs of what is linked, no more, no less, and each starts one. */
  lemma {:induction false} FarmIs(page: Page, name: string)
    requires page.Valid() && page.started
    ensures name in page.share.links <==> InFarm(page.ledger, name)
    ensures name in page.share.links ==>
      Share.LeadsToProgram(page.share.fs.nodes, page.share.links[name], name)
  {
    if name in page.share.links {
      FarmStarts(page, name);
    }
    FarmNames(page, name);
  }

  lemma {:induction false} FarmNames(page: Page, name: string)
    requires page.Valid() && page.started
    ensures name in page.share.links <==> InFarm(page.ledger, name)
  {
    hide Share.Stores, Share.Shows, Share.Booked, Decides, Within, Closes, Holds, Gives;
    var links, programs := page.share.links, page.share.programs;
    if name in links {
      var d :| d in page.ledger.linked && d in page.index && NameOf(page.index, d) == links[name];
      WrittenOffers(page, d);
    }
    if d :| d in page.ledger.linked && Gives(page.ledger, d, name) {
      WrittenOffers(page, d);
      assert Offering(programs, NameOf(page.index, d), name);
      assert NameOf(page.index, d) in page.share.linked;
    }
  }

  /** Every program of every path that has been written has a link. */
  ghost predicate AllLinked(share: Share.StoreShare)
    reads share
  {
    Sound(share.links, share.programs, share.programs.Keys)
  }

  /**
   * Every program of every path that has been written has a link exactly when whatever is written and not linked offers
   * only programs that something linked offers as well.
   */
  lemma {:induction false} AllLinkedIff(page: Page)
    requires page.Valid() && page.started
    ensures AllLinked(page.share) <==>
      forall d, name :: d in page.ledger.Stranded() && Gives(page.ledger, d, name) ==> InFarm(page.ledger, name)
  {
    hide Page.Valid, InFarm, Gives, Ledger.Stranded;
    SharesSoundly(page);
    SoundWhole(page.share.links, page.share.programs, page.share.linked);
    if AllLinked(page.share) {
      forall d, name | d in page.ledger.Stranded() && Gives(page.ledger, d, name) ensures InFarm(page.ledger, name) {
        StrandedOffers(page, d);
        FarmIs(page, name);
        assert Offering(page.share.programs, NameOf(page.index, d), name);
      }
    }
    if forall d, name :: d in page.ledger.Stranded() && Gives(page.ledger, d, name) ==> InFarm(page.ledger, name) {
      forall b, name | b in page.share.programs && Offering(page.share.programs, b, name)
        ensures name in page.share.links
      {
        var d := OfferedBy(page, b, name);
        FarmIs(page, name);
      }
    }
  }

  lemma {:induction false} SharesSoundly(page: Page)
    requires page.Valid() && page.started
    ensures Sound(page.share.links, page.share.programs, page.share.linked)
    ensures page.share.linked <= page.share.programs.Keys
  {
    hide Share.Stores, Share.Shows, Share.Booked, Decides, Within, Closes, Holds;
  }

  lemma {:induction false} StrandedOffers(page: Page, d: Digest)
    requires page.Valid() && page.started && d in page.ledger.Stranded()
    ensures d in page.index && NameOf(page.index, d) in page.share.programs
    ensures forall name :: Offering(page.share.programs, NameOf(page.index, d), name) <==> Gives(page.ledger, d, name)
  {
    hide Share.Stores, Share.Shows, Share.Booked, Sound, Decides, Within, Closes;
    WrittenOffers(page, d);
  }

  /** Who offers a program: something stranded, or something linked. */
  lemma {:induction false} OfferedBy(page: Page, b: string, name: string) returns (d: Digest)
    requires page.Valid() && page.started && Offering(page.share.programs, b, name)
    ensures Gives(page.ledger, d, name) && (d in page.ledger.Stranded() || InFarm(page.ledger, name))
  {
    hide Share.Stores, Share.Shows, Share.Booked, Sound, Decides, Within, Closes, Gives;
    assert b in NamesOf(page.index, page.ledger.got.Keys - page.ledger.lost);
    d :| d in page.ledger.got.Keys - page.ledger.lost && d in page.index && NameOf(page.index, d) == b;
    WrittenOffers(page, d);
  }

  /**
   * A click strands what it writes before a throw. It links what was stranded only if it mounts something and names it:
   * nothing else brings a stranded package back, not even selecting it alone, which finds it already there.
   */
  lemma {:induction false} StrandedAfter(index: Index, ledger: Ledger, request: Request)
    requires InOrder(ledger) && ledger.got.Keys == ReachAll(index, ledger.asked)
    requires ledger == EMPTY_LEDGER || ledger.Started()
    ensures After(index, ledger, request).Stranded() ==
      match OutcomeOf(index, ledger, request)
      case Mounted => ledger.Stranded() - ToSet(DigestsAsked(request))
      case WriteThrew =>
        if ledger.Started()
        then ledger.Stranded() + (Needed(index, ledger, request) * ToSet(WrittenBy(index, ledger, request)))
        else ledger.Stranded()
      case _ => ledger.Stranded()
  {
    hide ReachAll, WrittenBy, DigestsAsked, Refused;
    var after, need := After(index, ledger, request), Needed(index, ledger, request);
    if OutcomeOf(index, ledger, request) in {Mounted, WriteThrew} {
      assert Those(request.archives, need).Keys == need;
    }
  }

  /** The books stay in order over any clicks. */
  lemma {:induction false} LedgerInOrder(index: Index, requests: seq<Request>)
    ensures var ledger := LedgerOf(index, requests);
      && InOrder(ledger) && ledger.got.Keys == ReachAll(index, ledger.asked)
      && (ledger == EMPTY_LEDGER || ledger.Started())
  {
    if requests != [] {
      var n := |requests| - 1;
      LedgerInOrder(index, requests[..n]);
      InOrderAfter(index, LedgerOf(index, requests[..n]), requests[n]);
    }
  }

  lemma {:induction false} InOrderAfter(index: Index, ledger: Ledger, request: Request)
    requires InOrder(ledger) && ledger.got.Keys == ReachAll(index, ledger.asked)
    requires ledger == EMPTY_LEDGER || ledger.Started()
    ensures var after := After(index, ledger, request);
      InOrder(after) && after.got.Keys == ReachAll(index, after.asked) && (after == EMPTY_LEDGER || after.Started())
  {
    hide ReachAll, WrittenBy, DigestsAsked, Refused;
    BootKeeps(index, request);
    var need := Needed(index, ledger, request);
    assert ledger.got.Keys + need == ReachAll(index, ledger.asked) + ReachAll(index, DigestsAsked(request));
    ReachAllConcat(index, ledger.asked, DigestsAsked(request));
    ReachAllHasRoots(index, DigestsAsked(request));
    if OutcomeOf(index, ledger, request) in {Mounted, WriteThrew} {
      assert Those(request.archives, need).Keys == need;
    }
  }

  /** Some click that mounts something asks for this digest. */
  ghost predicate Relinked(index: Index, requests: seq<Request>, more: seq<Request>, d: Digest) {
    exists i :: 0 <= i < |more| && RelinkedBy(index, LedgerOf(index, requests + more[..i]), more[i], d)
  }

  ghost predicate RelinkedBy(index: Index, ledger: Ledger, request: Request, d: Digest) {
    OutcomeOf(index, ledger, request).Mounted? && d in DigestsAsked(request)
  }

  /** What is stranded stays so, through any number of clicks, exactly until one that mounts something names it. */
  lemma {:induction false} StrandedUnlessRelinked(index: Index, requests: seq<Request>, more: seq<Request>, d: Digest)
    requires d in LedgerOf(index, requests).Stranded()
    ensures d in LedgerOf(index, requests + more).Stranded() <==> !Relinked(index, requests, more, d)
  {
    hide After, OutcomeOf, LedgerOf, RelinkedBy, Ledger.Stranded;
    if more == [] {
      assert requests + more == requests;
    } else {
      var n := |more| - 1;
      var before, all := requests + more[..n], requests + more;
      assert all == before + [more[n]];
      LedgerOneMore(index, before, more[n]);
      StrandedIsGot(index, requests, d);
      StrandedUnlessRelinked(index, requests, more[..n], d);
      StrandedStep(index, requests, before, more[n], d);
      RelinkedOneMore(index, requests, more, d);
    }
  }

  lemma {:induction false} LedgerOneMore(index: Index, requests: seq<Request>, request: Request)
    ensures LedgerOf(index, requests + [request]) == After(index, LedgerOf(index, requests), request)
  {
    assert (requests + [request])[..|requests|] == requests;
  }

  lemma {:induction false} StrandedIsGot(index: Index, requests: seq<Request>, d: Digest)
    requires d in LedgerOf(index, requests).Stranded()
    ensures d in LedgerOf(index, requests).got
  {
  }

  /** Once written, never stranded anew. */
  lemma {:induction false} StrandedStep(index: Index, requests: seq<Request>, before: seq<Request>, request: Request,
                                        d: Digest)
    requires d in LedgerOf(index, requests).got && requests <= before
    ensures d in LedgerOf(index, before).got
    ensures var ledger := LedgerOf(index, before);
      d in After(index, ledger, request).Stranded() <==>
        d in ledger.Stranded() && !RelinkedBy(index, ledger, request, d)
  {
    hide After, OutcomeOf, WrittenBy;
    GotStays(index, requests, before);
    LedgerInOrder(index, before);
    StrandedAfter(index, LedgerOf(index, before), request);
  }

  lemma {:induction false} GotStays(index: Index, requests: seq<Request>, before: seq<Request>)
    requires requests <= before
    ensures LedgerOf(index, requests).got.Keys <= LedgerOf(index, before).got.Keys
    decreases |before|
  {
    hide OutcomeOf, WrittenBy, Needed;
    if requests != before {
      GotStays(index, requests, before[..|before| - 1]);
    } else {
      assert requests == before;
    }
  }

  lemma {:induction false} RelinkedOneMore(index: Index, requests: seq<Request>, more: seq<Request>, d: Digest)
    requires more != []
    ensures var n := |more| - 1;
      Relinked(index, requests, more, d) <==>
        Relinked(index, requests, more[..n], d) ||
        RelinkedBy(index, LedgerOf(index, requests + more[..n]), more[n], d)
  {
    hide RelinkedBy, LedgerOf;
    var n := |more| - 1;
    forall i | 0 <= i < n ensures more[..n][..i] == more[..i] && more[..n][i] == more[i] {
    }
    if Relinked(index, requests, more[..n], d) {
      var i :| 0 <= i < n && RelinkedBy(index, LedgerOf(index, requests + more[..n][..i]), more[..n][i], d);
      assert RelinkedBy(index, LedgerOf(index, requests + more[..i]), more[i], d);
    }
    if Relinked(index, requests, more, d) {
      var i :| 0 <= i < |more| && RelinkedBy(index, LedgerOf(index, requests + more[..i]), more[i], d);
      if i < n {
        assert RelinkedBy(index, LedgerOf(index, requests + more[..n][..i]), more[..n][i], d);
      }
    }
  }

  /** A mounted package that was not lost, and came as the parse of a tree, is that tree in the share. */
  lemma {:induction false} MountedTree(page: Page, d: Digest, t: Archive.Tree)
    requires page.Valid() && page.started && d in page.mounted && d !in page.ledger.lost
    requires Writer.Siblings(t) && page.ledger.got[d] == Archive.EntriesOf(t, "")
    ensures d in page.index
    ensures Writer.HoldsTree(page.share.fs.nodes, Share.PathOf(NameOf(page.index, d)), t)
  {
    Share.StoredTree(page.share.fs.nodes, page.share.contents, page.share.spoiled, NameOf(page.index, d), t);
  }

  /** An addition whose archives are all downloaded throws exactly if the entries of one of them do not fit together. */
  lemma {:induction false} RefusedIff(index: Index, need: set<Digest>, archives: Archives)
    requires WellNamed(index) && need <= index.Keys && need <= archives.Keys
    ensures Refused(index, need, archives) <==> exists d :: d in need && !Fitting.AllFit(archives[d])
  {
    forall d | d in need ensures Taken(index, archives, d) <==> Fitting.AllFit(archives[d]) {
      Share.TakesIffAllFit(NameOf(index, d), archives[d]);
    }
  }

  /**
   * When every archive needed is the parse of a tree, a write throws exactly if one of the trees has a name `.` or
   * `..`.
   */
  lemma {:induction false} GenuineThrowsIff(index: Index, need: set<Digest>, archives: Archives,
                                            world: map<Digest, Archive.Tree>)
    requires WellNamed(index) && need <= index.Keys && need <= archives.Keys && need <= world.Keys
    requires forall d :: d in need ==> Writer.Siblings(world[d]) && archives[d] == Archive.EntriesOf(world[d], "")
    ensures Refused(index, need, archives) <==> exists d :: d in need && !Writer.Proper(world[d])
  {
    forall d | d in need ensures Taken(index, archives, d) <==> Writer.Proper(world[d]) {
      Share.TakesProperTrees(NameOf(index, d), world[d]);
    }
  }

  ghost predicate SameButArrival(a: seq<Request>, b: seq<Request>) {
    && |a| == |b|
    && forall i :: 0 <= i < |a| ==>
         a[i].roots == b[i].roots && a[i].served == b[i].served && a[i].archives == b[i].archives
  }

  lemma {:induction false} SameAfter(index: Index, ledger: Ledger, a: Request, b: Request)
    requires a.roots == b.roots && a.served == b.served && a.archives == b.archives
    ensures OutcomeOf(index, ledger, a) == OutcomeOf(index, ledger, b)
    ensures After(index, ledger, a) == After(index, ledger, b)
  {
    hide Refused, ReachAll, Those, BasenamesOf, Deduplicated, AllNamed;
    assert DigestsAsked(a) == DigestsAsked(b) && RootNames(index, a) == RootNames(index, b);
  }

  /** What a run comes to does not depend on the order in which archives arrive. */
  lemma {:induction false} SameLedger(index: Index, a: seq<Request>, b: seq<Request>)
    requires SameButArrival(a, b)
    ensures LedgerOf(index, a) == LedgerOf(index, b)
  {
    if a != [] {
      hide After;
      var n := |a| - 1;
      SameLedger(index, a[..n], b[..n]);
      SameAfter(index, LedgerOf(index, a[..n]), a[n], b[n]);
    }
  }

  /** What was downloaded and not lost determines what is offered. */
  lemma {:induction false} SameHoldings(index: Index, got: Archives, held: set<Digest>, a: Offers, b: Offers,
                                        contents: map<string, seq<Nar.Entry>>, contents': map<string, seq<Nar.Entry>>)
    requires held <= got.Keys <= index.Keys && a.Keys == NamesOf(index, held) == b.Keys
    requires forall d :: d in held ==> NameOf(index, d) in contents && contents[NameOf(index, d)] == got[d]
    requires forall d :: d in held ==> NameOf(index, d) in contents' && contents'[NameOf(index, d)] == got[d]
    requires forall n :: n in contents ==> n in a && a[n] == Writer.ProgramsOf(contents[n])
    requires forall n :: n in contents' ==> n in b && b[n] == Writer.ProgramsOf(contents'[n])
    ensures a == b
  {
    forall n | n in a ensures a[n] == b[n] {
      var d :| d in held && d in index && NameOf(index, d) == n;
      assert contents[n] == got[d] == contents'[n];
    }
  }

  lemma {:induction false} SamePrograms(a: Page, b: Page)
    requires a.Valid() && b.Valid() && a.started && a.index == b.index && a.ledger == b.ledger
    ensures b.started && a.mounted == b.mounted && a.share.programs == b.share.programs
  {
    hide Share.Stores, Share.Shows, Sound, Decides, Share.AllProper, Within;
    SameHoldings(a.index, a.ledger.got, a.ledger.got.Keys - a.ledger.lost, a.share.programs, b.share.programs,
                 a.share.contents, b.share.contents);
  }

  /**
   * Two pages after the same clicks, with the archives of their boots arriving in different orders: the same is
   * mounted, the same is written, there are links of the same names, and a name that a root of some click offers leads
   * to the same package. Additions whose writes threw are included.
   */
  lemma {:induction false} ArrivalOrderIrrelevant(a: Page, b: Page, clicks: seq<Request>, clicks': seq<Request>)
    requires a.Valid() && b.Valid() && a.started && a.index == b.index
    requires a.ledger == LedgerOf(a.index, clicks) && b.ledger == LedgerOf(b.index, clicks')
    requires SameButArrival(clicks, clicks')
    ensures b.started && a.mounted == b.mounted && a.share.programs == b.share.programs
    ensures a.share.links.Keys == b.share.links.Keys
    ensures forall name :: Winner(a.share.programs, a.ledger.rounds, name).Some? ==>
      && name in a.share.links
      && a.share.links[name] == b.share.links[name] == Winner(a.share.programs, a.ledger.rounds, name).value
  {
    SameLedger(a.index, clicks, clicks');
    SamePrograms(a, b);
    forall name ensures name in a.share.links <==> name in b.share.links {
      FarmIs(a, name);
      FarmIs(b, name);
    }
  }
}
