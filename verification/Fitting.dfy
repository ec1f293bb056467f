/** Which entry lists a vacant place takes (writeEntries of site/js/store.js), told from the list alone. */
module Fitting {
  import opened Prelude
  import opened Paths
  import opened FileSystem
  import Nar
  import opened Writer

  /** The first entry with a path: what is there once all of them are written. */
  function FirstAt(entries: seq<Nar.Entry>, path: string): (first: Option<Nar.Entry>)
    ensures first.Some? ==> first.value in entries && first.value.path == path
    ensures first.None? ==> forall e :: e in entries ==> e.path != path
  {
    if entries == [] then None
    else
      var first := FirstAt(entries[..|entries| - 1], path);
      assert entries == entries[..|entries| - 1] + [entries[|entries| - 1]];
      if first.Some? then first
      else if entries[|entries| - 1].path == path then Some(entries[|entries| - 1]) else None
  }

  predicate DirectoryAt(entries: seq<Nar.Entry>, path: string) {
    var first := FirstAt(entries, path);
    first.Some? && first.value.Dir?
  }

  /** The place of an entry is free, or both it and what is there are files. */
  predicate PlaceFits(before: seq<Nar.Entry>, e: Nar.Entry) {
    var first := FirstAt(before, e.path);
    first.None? || (first.value.File? && e.File?)
  }

  /** The last component is a name a new node can have, and is not all there is behind a leading slash. */
  predicate NamesANode(path: string) {
    var last := Split(path, '/')[|Split(path, '/')| - 1];
    last != "" && last != "." && last != ".." && (path != "" && path[0] == '/' ==> Dirname(path) != "")
  }

  /** The entry can be written after the ones before it. The directory of a whole archive is never in the way. */
  predicate Fits(before: seq<Nar.Entry>, e: Nar.Entry) {
    if e.path == "" then e.Dir? || PlaceFits(before, e)
    else NamesANode(e.path) && DirectoryAt(before, Dirname(e.path)) && PlaceFits(before, e)
  }

  ghost predicate AllFit(entries: seq<Nar.Entry>) {
    forall i :: 0 <= i < |entries| ==> Fits(entries[..i], entries[i])
  }

  // ---------- paths below a root ----------

  lemma {:induction false} FullPathInjective(root: string, a: string, b: string)
    requires FullPath(root, a) == FullPath(root, b)
    ensures a == b
  {
    if a != "" && b != "" {
      assert (root + "/" + a)[|root| + 1..] == a && (root + "/" + b)[|root| + 1..] == b;
    }
  }

  lemma {:induction false} FullIsCircular(root: string, path: string)
    requires path != ""
    ensures Circular(FullPath(root, path)) <==> Circular(path)
  {
    assert root + "/" + path == root + ['/'] + path;
    SplitAt(root, path, '/');
  }

  lemma {:induction false} NoDirname(path: string)
    requires '/' !in path
    ensures Dirname(path) == ""
  {
    if path != "" {
      NoDirname(path[..|path| - 1]);
    }
  }

  /** The directory of a full path is that of the path, below the root. */
  lemma {:induction false} FullDirname(root: string, path: string)
    requires path != ""
    ensures Dirname(FullPath(root, path)) ==
      if Dirname(path) == "" && path[0] == '/' then root + "/" else FullPath(root, Dirname(path))
  {
    if '/' in path {
      var last := DirnameRest(path);
      assert root + "/" + path == (root + "/" + Dirname(path)) + "/" + last;
      DirnameJoin(root + "/" + Dirname(path), last);
      FirstSlash(path, last);
    } else {
      NoDirname(path);
      DirnameJoin(root, path);
    }
  }

  lemma {:induction false} FirstSlash(path: string, last: string)
    requires path == Dirname(path) + "/" + last
    ensures Dirname(path) == "" ==> path[0] == '/'
  {
  }

  // ---------- entries and nodes in step ----------

  ghost predicate SameKind(node: Node, e: Nar.Entry) {
    (node.Dir? <==> e.Dir?) && (node.File? <==> e.File?)
  }

  ghost predicate MirrorsAt(nodes: Nodes, root: string, before: seq<Nar.Entry>, path: string) {
    var first := FirstAt(before, path);
    && (FullPath(root, path) in nodes <==> first.Some?)
    && (first.Some? ==> SameKind(nodes[FullPath(root, path)], first.value))
  }

  /** Below the root there is what the entries so far have made. */
  ghost predicate Mirrors(nodes: Nodes, root: string, before: seq<Nar.Entry>) {
    root + "/" !in nodes && forall path :: MirrorsAt(nodes, root, before, path)
  }

  lemma {:induction false} VacantMirrors(nodes: Nodes, base: seq<string>)
    requires ProperPath(base) && Vacant(nodes, base)
    ensures Mirrors(nodes, Abs(base), [])
  {
    forall path ensures FullPath(Abs(base), path) !in nodes {
      PathIsBelow(base, path);
    }
    SplitAbs(base);
    assert Abs(base) + "/" == Abs(base) + ['/'] + "";
    SplitAt(Abs(base), "", '/');
    assert Below(base, Abs(base) + "/");
  }

  lemma {:induction false} DirectoryMirrors(nodes: Nodes, root: string, before: seq<Nar.Entry>, path: string)
    requires root != "" && Mirrors(nodes, root, before)
    ensures HasDir(nodes, FullPath(root, path)) <==> DirectoryAt(before, path)
  {
    assert MirrorsAt(nodes, root, before, path);
  }

  /** Below the root, the directory an entry goes into. */
  lemma {:induction false} ParentMirrors(nodes: Nodes, root: string, before: seq<Nar.Entry>, path: string)
    requires root != "" && path != "" && Mirrors(nodes, root, before)
    ensures !Circular(FullPath(root, path)) && HasDir(nodes, Dirname(FullPath(root, path))) <==>
            NamesANode(path) && DirectoryAt(before, Dirname(path))
  {
    FullIsCircular(root, path);
    FullDirname(root, path);
    DirectoryMirrors(nodes, root, before, Dirname(path));
  }

  /** The root's own place. */
  lemma {:induction false} RootPlace(nodes: Nodes, base: seq<string>)
    requires Rooted(nodes, base)
    ensures !Circular(Abs(base)) && HasDir(nodes, Dirname(Abs(base))) && Abs(base) != ""
  {
    LastParent(nodes, base);
    ProperIsNotCircular(base);
  }

  lemma {:induction false} OneFits(nodes: Nodes, base: seq<string>, before: seq<Nar.Entry>, e: Nar.Entry)
    requires Rooted(nodes, base) && Mirrors(nodes, Abs(base), before)
    ensures WriteOne(nodes, Abs(base), e).Done? <==> Fits(before, e)
  {
    hide Circular, Dirname, Rooted;
    RootPlace(nodes, base);
    assert MirrorsAt(nodes, Abs(base), before, e.path);
    if e.path != "" {
      ParentMirrors(nodes, Abs(base), before, e.path);
    }
  }

  /** What one more entry makes of a place. */
  lemma {:induction false} FirstAtOneMore(before: seq<Nar.Entry>, e: Nar.Entry, path: string)
    ensures FirstAt(before + [e], path) ==
      if FirstAt(before, path).Some? then FirstAt(before, path) else if e.path == path then Some(e) else None
  {
    assert (before + [e])[..|before|] == before;
  }

  /** What a call that goes through does to the nodes. */
  lemma {:induction false} OneMakes(nodes: Nodes, base: seq<string>, e: Nar.Entry)
    requires Rooted(nodes, base) && WriteOne(nodes, Abs(base), e).Done?
    ensures var after, path := WriteOne(nodes, Abs(base), e).nodes, FullPath(Abs(base), e.path);
      && path in after && after.Keys == nodes.Keys + {path}
      && (forall key :: key in nodes && key != path ==> after[key] == nodes[key])
      && (if path in nodes then after[path].Dir? == nodes[path].Dir? && after[path].File? == nodes[path].File?
          else SameKind(after[path], e))
  {
    if e.Dir? && e.path == "" {
      EnsuredMakesLast(nodes, base);
    }
  }

  lemma {:induction false} StillMirrors(nodes: Nodes, base: seq<string>, before: seq<Nar.Entry>, e: Nar.Entry)
    requires Rooted(nodes, base) && Mirrors(nodes, Abs(base), before) && WriteOne(nodes, Abs(base), e).Done?
    ensures Mirrors(WriteOne(nodes, Abs(base), e).nodes, Abs(base), before + [e])
  {
    hide WriteOne, Rooted, FullPath;
    var root, after := Abs(base), WriteOne(nodes, Abs(base), e).nodes;
    OneMakes(nodes, base, e);
    SlashIsNoPath(root, e.path);
    forall path ensures MirrorsAt(after, root, before + [e], path) {
      FirstAtOneMore(before, e, path);
      assert MirrorsAt(nodes, root, before, path);
      if FullPath(root, path) == FullPath(root, e.path) {
        FullPathInjective(root, path, e.path);
      }
    }
  }

  lemma {:induction false} SlashIsNoPath(root: string, path: string)
    ensures FullPath(root, path) != root + "/"
  {
    if path != "" {
      assert |root + "/" + path| > |root + "/"|;
    }
  }

  lemma {:induction false} WritesIffFit(nodes: Nodes, base: seq<string>, before: seq<Nar.Entry>,
                                        entries: seq<Nar.Entry>)
    requires Rooted(nodes, base) && Mirrors(nodes, Abs(base), before)
    ensures WriteAll(nodes, Abs(base), entries).ok <==>
            forall i :: 0 <= i < |entries| ==> Fits(before + entries[..i], entries[i])
    decreases |entries|
  {
    hide WriteOne, Mirrors, Rooted, Fits;
    if entries != [] {
      var e, rest := entries[0], entries[1..];
      var one := WriteOne(nodes, Abs(base), e);
      OneFits(nodes, base, before, e);
      assert before + entries[..0] == before && entries == [e] + rest;
      if one.Done? {
        OneStays(nodes, base, e);
        ParentsStay(nodes, one.nodes, base);
        StillMirrors(nodes, base, before, e);
        WritesIffFit(one.nodes, base, before + [e], rest);
        FitShift(before, e, rest);
      } else {
        assert !Fits(before + entries[..0], entries[0]);
      }
    }
  }

  lemma {:induction false} FitShift(before: seq<Nar.Entry>, e: Nar.Entry, rest: seq<Nar.Entry>)
    requires Fits(before, e)
    ensures (forall i :: 0 <= i < |rest| ==> Fits((before + [e]) + rest[..i], rest[i])) <==>
            (forall i :: 0 <= i < |[e] + rest| ==> Fits(before + ([e] + rest)[..i], ([e] + rest)[i]))
  {
    hide Fits;
    var all := [e] + rest;
    forall i | 0 <= i < |rest| ensures (before + [e]) + rest[..i] == before + all[..i + 1] && rest[i] == all[i + 1] {
    }
    assert before + all[..0] == before && all[0] == e;
    if forall i :: 0 <= i < |rest| ==> Fits((before + [e]) + rest[..i], rest[i]) {
      forall i | 0 <= i < |all| ensures Fits(before + all[..i], all[i]) {
        if i > 0 {
          assert Fits((before + [e]) + rest[..i - 1], rest[i - 1]);
        }
      }
    }
    if forall i :: 0 <= i < |all| ==> Fits(before + all[..i], all[i]) {
      forall i | 0 <= i < |rest| ensures Fits((before + [e]) + rest[..i], rest[i]) {
        assert Fits(before + all[..i + 1], all[i + 1]);
      }
    }
  }

  /**
   * Any entry list: it is written whole onto a vacant place whose parents exist exactly when each entry fits behind the
   * ones before it, that is, names a node, in a directory an earlier entry has made, in a place that is free or, for a
   * file, a file's.
   */
  lemma {:induction false} TakenIffAllFit(nodes: Nodes, base: seq<string>, entries: seq<Nar.Entry>)
    requires Rooted(nodes, base) && Vacant(nodes, base)
    ensures WriteAll(nodes, Abs(base), entries).ok <==> AllFit(entries)
  {
    VacantMirrors(nodes, base);
    WritesIffFit(nodes, base, [], entries);
    forall i | 0 <= i < |entries| ensures [] + entries[..i] == entries[..i] {
    }
  }
}
