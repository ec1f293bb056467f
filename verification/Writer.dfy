/** Writing a parsed archive into the filesystem (writeEntries of site/js/store.js), and that it rebuilds the tree. */
module Writer {
  import opened Prelude
  import opened Paths
  import opened FileSystem
  import Nar
  import opened Archive

  // ---------- the writer ----------

  function FullPath(root: string, path: string): string {
    if path == "" then root else root + "/" + path
  }

  function WriteOne(nodes: Nodes, root: string, entry: Nar.Entry): Change {
    var path := FullPath(root, entry.path);
    match entry
    case Dir(rel) => if rel == "" then Done(Ensured(nodes, path)) else MkdirOf(nodes, path)
    case File(_, executable, data) =>
      (match WriteFileOf(nodes, path, data)
       case Thrown => Thrown
       case Done(after) => Done(if executable then after[path := FileSystem.File(data, true)] else after))
    case Link(_, target) => SymlinkOf(nodes, AbsoluteTargetOf(path, target), path)
  }

  /** The first call that throws ends the write, with everything before it in place. */
  datatype Written = Written(nodes: Nodes, ok: bool)

  function WriteAll(nodes: Nodes, root: string, entries: seq<Nar.Entry>): Written
    decreases |entries|
  {
    if entries == [] then Written(nodes, true)
    else
      match WriteOne(nodes, root, entries[0])
      case Thrown => Written(nodes, false)
      case Done(after) => WriteAll(after, root, entries[1..])
  }

  method WriteEntries(fs: FS, root: string, entries: seq<Nar.Entry>) returns (ok: bool)
    modifies fs
    ensures Written(fs.nodes, ok) == WriteAll(old(fs.nodes), root, entries)
  {
    ghost var whole := WriteAll(fs.nodes, root, entries);
    for i := 0 to |entries|
      invariant whole == WriteAll(fs.nodes, root, entries[i..])
    {
      assert entries[i..][0] == entries[i] && entries[i..][1..] == entries[i + 1..];
      var entry := entries[i];
      var path := FullPath(root, entry.path);
      match entry
      case Dir(rel) =>
        if rel == "" {
          EnsureDir(fs, path);
        } else {
          ok := fs.Mkdir(path);
          if !ok { return; }
        }
      case File(_, executable, data) =>
        ok := fs.WriteFile(path, data);
        if !ok { return; }
        if executable {
          fs.Chmod(path);
        }
      case Link(_, target) =>
        var absolute := AbsoluteTarget(path, target);
        ok := fs.Symlink(absolute, path);
        if !ok { return; }
    }
    ok := true;
  }

  // ---------- trees ----------

  function Names(f: Forest): seq<string> {
    match f
    case Nil => []
    case Cons(name, _, rest) => [name] + Names(rest)
  }

  /** Distinct proper names in every directory. */
  ghost predicate Proper(t: Tree)
    decreases t
  {
    t.Directory? ==> ProperForest(t.children)
  }

  ghost predicate ProperForest(f: Forest)
    decreases f
  {
    match f
    case Nil => true
    case Cons(name, node, rest) => ProperName(name) && name !in Names(rest) && Proper(node) && ProperForest(rest)
  }

  /** Distinct, non-empty, slash-free names in every directory: `.` and `..` are among those. */
  ghost predicate Siblings(t: Tree)
    decreases t
  {
    t.Directory? ==> SiblingForest(t.children)
  }

  ghost predicate SiblingForest(f: Forest)
    decreases f
  {
    match f
    case Nil => true
    case Cons(name, node, rest) =>
      name != "" && Free(name, '/') && name !in Names(rest) && Siblings(node) && SiblingForest(rest)
  }

  lemma {:induction false} ProperIsSiblings(t: Tree)
    requires Proper(t)
    ensures Siblings(t)
    decreases t
  {
    if t.Directory? {
      ProperForestIsSiblings(t.children);
    }
  }

  lemma {:induction false} ProperForestIsSiblings(f: Forest)
    requires ProperForest(f)
    ensures SiblingForest(f)
    decreases f
  {
    if f.Cons? {
      ProperIsSiblings(f.node);
      ProperForestIsSiblings(f.rest);
    }
  }

  function NodeOf(t: Tree, path: string): Node {
    match t
    case Regular(executable, contents) => FileSystem.File(contents, executable)
    case Symlink(target) => FileSystem.Link(AbsoluteTargetOf(path, target))
    case Directory(_) => FileSystem.Dir
  }

  /** The nodes a tree is, rooted at a path. */
  function Layout(t: Tree, at: seq<string>): Nodes
    decreases t
  {
    map[Abs(at) := NodeOf(t, Abs(at))] + (if t.Directory? then LayoutForest(t.children, at) else map[])
  }

  function LayoutForest(f: Forest, at: seq<string>): Nodes
    decreases f
  {
    match f
    case Nil => map[]
    case Cons(name, node, rest) => Layout(node, at + [name]) + LayoutForest(rest, at)
  }

  /** The subtree a list of names leads to. */
  function Lookup(t: Tree, names: seq<string>): Option<Tree>
    decreases |names|, 1, t
  {
    if names == [] then Some(t)
    else if t.Directory? then LookupForest(t.children, names)
    else None
  }

  function LookupForest(f: Forest, names: seq<string>): Option<Tree>
    requires names != []
    decreases |names|, 0, f
  {
    match f
    case Nil => None
    case Cons(name, node, rest) => if name == names[0] then Lookup(node, names[1..]) else LookupForest(rest, names)
  }

  // ---------- where a layout's keys are ----------

  /** The path's components begin with these names: it is that path or one below it, whatever comes after. */
  predicate Below(at: seq<string>, key: string) {
    [""] + at <= Split(key, '/')
  }

  /** Nothing at the path, nothing below it. */
  ghost predicate Vacant(nodes: Nodes, at: seq<string>) {
    forall key :: key in nodes ==> !Below(at, key)
  }

  lemma {:induction false} BelowAbs(at: seq<string>, q: seq<string>)
    requires ProperPath(q)
    ensures Below(at, Abs(q)) <==> at <= q
  {
    SplitAbs(q);
    if [""] + at <= [""] + q {
      assert at == ([""] + at)[1..] <= ([""] + q)[1..] == q;
    }
  }

  lemma {:induction false} BelowParent(at: seq<string>, name: string, key: string)
    requires Below(at + [name], key)
    ensures Below(at, key)
  {
    assert [""] + at <= [""] + (at + [name]);
  }

  lemma {:induction false} LayoutBelow(t: Tree, at: seq<string>, key: string)
    requires Proper(t) && ProperPath(at) && key in Layout(t, at)
    ensures Below(at, key)
    decreases t
  {
    BelowAbs(at, at);
    if key != Abs(at) {
      ForestBelow(t.children, at, key);
    }
  }

  lemma {:induction false} ForestBelow(f: Forest, at: seq<string>, key: string)
    requires ProperForest(f) && ProperPath(at) && key in LayoutForest(f, at)
    ensures exists name :: name in Names(f) && Below(at + [name], key)
    ensures Below(at, key)
    decreases f
  {
    if key in LayoutForest(f.rest, at) {
      ForestBelow(f.rest, at, key);
    } else {
      LayoutBelow(f.node, at + [f.name], key);
      assert f.name in Names(f);
      BelowParent(at, f.name, key);
    }
  }

  /** Different names lead to different places. */
  lemma {:induction false} BelowApart(at: seq<string>, a: string, b: string, key: string)
    requires Below(at + [a], key) && Below(at + [b], key)
    ensures a == b
  {
    assert ([""] + (at + [a]))[|at| + 1] == Split(key, '/')[|at| + 1] == ([""] + (at + [b]))[|at| + 1];
  }

  lemma {:induction false} BelowAt(at: seq<string>, name: string)
    requires ProperPath(at)
    ensures !Below(at + [name], Abs(at))
  {
    BelowAbs(at + [name], at);
  }

  // ---------- entry paths ----------

  /** A path relative to the archive's root, as the parser builds it. */
  function Rel(names: seq<string>): string {
    if names == [] || Abs(names) == "" then "" else Abs(names)[1..]
  }

  lemma {:induction false} RelOfSome(names: seq<string>)
    requires ProperPath(names) && names != []
    ensures Rel(names) != "" && "/" + Rel(names) == Abs(names)
  {
    AbsStartsWithSlash(names);
    assert names[|names| - 1] in names;
    assert "/" + Abs(names)[1..] == Abs(names);
  }

  lemma {:induction false} RelIsFull(base: seq<string>, names: seq<string>)
    requires ProperPath(names)
    ensures FullPath(Abs(base), Rel(names)) == Abs(base + names)
    ensures Rel(names) == "" <==> names == []
  {
    if names == [] {
      assert base + names == base;
    } else {
      RelOfSome(names);
      AbsConcat(base, names);
    }
  }

  lemma {:induction false} RelChild(names: seq<string>, name: string)
    requires ProperPath(names) && ProperName(name)
    ensures Nar.Child(Rel(names), name) == Rel(names + [name])
  {
    AbsStartsWithSlash(names + [name]);
    RelIsFull([], names);
    if names != [] {
      AbsStartsWithSlash(names);
      assert (Abs(names) + "/" + name)[1..] == Abs(names)[1..] + "/" + name;
    }
  }

  // ---------- writing rebuilds the tree ----------

  ghost predicate VacantChildren(nodes: Nodes, at: seq<string>, names: seq<string>) {
    forall name :: name in names ==> Vacant(nodes, at + [name])
  }

  lemma {:induction false} WriteConcat(nodes: Nodes, root: string, first: seq<Nar.Entry>, more: seq<Nar.Entry>)
    ensures WriteAll(nodes, root, first + more) ==
      var w := WriteAll(nodes, root, first); if w.ok then WriteAll(w.nodes, root, more) else w
    decreases |first|
  {
    if first == [] {
      assert first + more == more;
    } else {
      assert (first + more)[0] == first[0] && (first + more)[1..] == first[1..] + more;
      var change := WriteOne(nodes, root, first[0]);
      if change.Done? {
        WriteConcat(change.nodes, root, first[1..], more);
      }
    }
  }

  /** A node below the root: its place is vacant, its directory is there, so every call succeeds. */
  lemma {:induction false} WritesNode(nodes: Nodes, base: seq<string>, names: seq<string>, t: Tree)
    requires Proper(t) && ProperPath(base) && ProperPath(names) && names != []
    requires HasDir(nodes, Dirname(Abs(base + names))) && Vacant(nodes, base + names)
    ensures WriteAll(nodes, Abs(base), EntriesOf(t, Rel(names))) == Written(nodes + Layout(t, base + names), true)
    decreases t
  {
    WritesFirst(nodes, base, names, t);
    if t.Directory? {
      var made := nodes[Abs(base + names) := FileSystem.Dir];
      VacantBelowNew(nodes, base + names, t.children);
      WritesForest(made, base, names, t.children);
      WritesDirectory(nodes, base, names, t.children);
    } else {
      LeafLayout(nodes, base + names, t);
    }
  }

  lemma {:induction false} LeafLayout(nodes: Nodes, at: seq<string>, t: Tree)
    requires !t.Directory?
    ensures nodes[Abs(at) := NodeOf(t, Abs(at))] == nodes + Layout(t, at)
    ensures forall path :: EntriesOf(t, path) == [EntriesOf(t, path)[0]] + []
  {
  }

  lemma {:induction false} WritesDirectory(nodes: Nodes, base: seq<string>, names: seq<string>, f: Forest)
    requires WriteOne(nodes, Abs(base), Nar.Dir(Rel(names))) == Done(nodes[Abs(base + names) := FileSystem.Dir])
    requires WriteAll(nodes[Abs(base + names) := FileSystem.Dir], Abs(base), EntriesOfAll(f, Rel(names))) ==
             Written(nodes[Abs(base + names) := FileSystem.Dir] + LayoutForest(f, base + names), true)
    ensures WriteAll(nodes, Abs(base), EntriesOf(Directory(f), Rel(names))) ==
            Written(nodes + Layout(Directory(f), base + names), true)
  {
    DirectoryLayout(nodes, base + names, f);
  }

  lemma {:induction false} DirectoryLayout(nodes: Nodes, at: seq<string>, f: Forest)
    ensures nodes[Abs(at) := FileSystem.Dir] + LayoutForest(f, at) == nodes + Layout(Directory(f), at)
  {
    MapUnionAssociates(nodes, map[Abs(at) := FileSystem.Dir], LayoutForest(f, at));
  }

  lemma {:induction false} Overwritten<K, V>(m: map<K, V>, k: K, first: V, second: V)
    ensures m[k := first][k := second] == m[k := second]
  {
  }

  /** A node's own entry, where nothing is in its way. */
  lemma {:induction false} FreeTakes(nodes: Nodes, root: string, t: Tree, rel: string, path: string)
    requires rel != "" && FullPath(root, rel) == path
    requires path !in nodes && !Circular(path) && HasDir(nodes, Dirname(path))
    ensures WriteOne(nodes, root, EntriesOf(t, rel)[0]) == Done(nodes[path := NodeOf(t, path)])
  {
    if t.Regular? {
      Overwritten(nodes, path, FileSystem.File(t.contents, false), FileSystem.File(t.contents, true));
    }
  }

  /** The node itself, before anything in it. */
  lemma {:induction false} WritesFirst(nodes: Nodes, base: seq<string>, names: seq<string>, t: Tree)
    requires ProperPath(base) && ProperPath(names) && names != []
    requires HasDir(nodes, Dirname(Abs(base + names))) && Vacant(nodes, base + names)
    ensures WriteOne(nodes, Abs(base), EntriesOf(t, Rel(names))[0]) ==
            Done(nodes[Abs(base + names) := NodeOf(t, Abs(base + names))])
  {
    RelIsFull(base, names);
    BelowAbs(base + names, base + names);
    ProperIsNotCircular(base + names);
    FreeTakes(nodes, Abs(base), t, Rel(names), Abs(base + names));
  }

  lemma {:induction false} VacantBelowNew(nodes: Nodes, at: seq<string>, f: Forest)
    requires ProperPath(at) && Vacant(nodes, at)
    ensures VacantChildren(nodes[Abs(at) := FileSystem.Dir], at, Names(f))
  {
    forall name, key | name in Names(f) && key in nodes[Abs(at) := FileSystem.Dir] ensures !Below(at + [name], key) {
      if Below(at + [name], key) {
        BelowParent(at, name, key);
        BelowAt(at, name);
      }
    }
  }

  /** The entries of a directory that is there. */
  lemma {:induction false} WritesForest(nodes: Nodes, base: seq<string>, names: seq<string>, f: Forest)
    requires ProperForest(f) && ProperPath(base) && ProperPath(names) && HasDir(nodes, Abs(base + names))
    requires VacantChildren(nodes, base + names, Names(f))
    ensures WriteAll(nodes, Abs(base), EntriesOfAll(f, Rel(names))) ==
      Written(nodes + LayoutForest(f, base + names), true)
    decreases f
  {
    if f.Cons? {
      var at := base + names;
      var child := names + [f.name];
      RelChild(names, f.name);
      FirstChildFits(nodes, base, names, f);
      WritesNode(nodes, base, child, f.node);
      var after := nodes + Layout(f.node, at + [f.name]);
      SiblingsStayVacant(nodes, at, f);
      WritesForest(after, base, names, f.rest);
      ForestStep(nodes, Abs(base), Rel(names), f, at);
    }
  }

  /** Where the first child goes: its directory is there, and its place is free. */
  lemma {:induction false} FirstChildFits(nodes: Nodes, base: seq<string>, names: seq<string>, f: Forest)
    requires ProperForest(f) && f.Cons? && ProperPath(base) && ProperPath(names) && HasDir(nodes, Abs(base + names))
    requires VacantChildren(nodes, base + names, Names(f))
    ensures base + (names + [f.name]) == base + names + [f.name] && ProperPath(names + [f.name])
    ensures HasDir(nodes, Dirname(Abs(base + (names + [f.name])))) && Vacant(nodes, base + (names + [f.name]))
  {
    assert base + (names + [f.name]) == base + names + [f.name];
    DirnameJoin(Abs(base + names), f.name);
    assert f.name in Names(f);
  }

  lemma {:induction false} ForestStep(nodes: Nodes, root: string, rel: string, f: Forest, at: seq<string>)
    requires f.Cons?
    requires var after := nodes + Layout(f.node, at + [f.name]);
      && WriteAll(nodes, root, EntriesOf(f.node, Nar.Child(rel, f.name))) == Written(after, true)
      && WriteAll(after, root, EntriesOfAll(f.rest, rel)) == Written(after + LayoutForest(f.rest, at), true)
    ensures WriteAll(nodes, root, EntriesOfAll(f, rel)) == Written(nodes + LayoutForest(f, at), true)
  {
    WriteConcat(nodes, root, EntriesOf(f.node, Nar.Child(rel, f.name)), EntriesOfAll(f.rest, rel));
    MapUnionAssociates(nodes, Layout(f.node, at + [f.name]), LayoutForest(f.rest, at));
  }

  lemma {:induction false} SiblingsStayVacant(nodes: Nodes, at: seq<string>, f: Forest)
    requires ProperForest(f) && f.Cons? && ProperPath(at) && HasDir(nodes, Abs(at))
    requires VacantChildren(nodes, at, Names(f))
    ensures var after := nodes + Layout(f.node, at + [f.name]);
      HasDir(after, Abs(at)) && VacantChildren(after, at, Names(f.rest))
  {
    var layout := Layout(f.node, at + [f.name]);
    if Abs(at) in layout {
      LayoutBelow(f.node, at + [f.name], Abs(at));
      BelowAt(at, f.name);
    }
    forall name, key | name in Names(f.rest) && key in nodes + layout ensures !Below(at + [name], key) {
      assert name in Names(f);
      if key in layout && Below(at + [name], key) {
        LayoutBelow(f.node, at + [f.name], key);
        BelowApart(at, f.name, name, key);
      }
    }
  }

  /** A whole archive, onto a vacant root whose parents exist: the tree is there, and nothing else changed. */
  lemma {:induction false} WritesProper(nodes: Nodes, base: seq<string>, t: Tree)
    requires Proper(t) && ProperPath(base) && base != [] && HasParents(nodes, base) && Vacant(nodes, base)
    ensures WriteAll(nodes, Abs(base), EntriesOf(t, "")) == Written(nodes + Layout(t, base), true)
  {
    BelowAbs(base, base);
    if t.Directory? {
      EnsuredMakesLast(nodes, base);
      WritesRootForest(nodes, base, t.children);
    } else {
      LastParent(nodes, base);
      ProperIsNotCircular(base);
    }
  }

  lemma {:induction false} WritesRootForest(nodes: Nodes, base: seq<string>, f: Forest)
    requires ProperForest(f) && ProperPath(base) && Vacant(nodes, base)
    ensures WriteAll(nodes[Abs(base) := FileSystem.Dir], Abs(base), EntriesOfAll(f, "")) ==
            Written(nodes + Layout(Directory(f), base), true)
  {
    assert base + [] == base;
    VacantBelowNew(nodes, base, f);
    WritesForest(nodes[Abs(base) := FileSystem.Dir], base, [], f);
    DirectoryLayout(nodes, base, f);
  }

  lemma {:induction false} LastParent(nodes: Nodes, names: seq<string>)
    requires ProperPath(names) && names != [] && HasParents(nodes, names)
    ensures HasDir(nodes, Dirname(Abs(names)))
  {
    var init, last := names[..|names| - 1], names[|names| - 1];
    assert last in names;
    DirnameJoin(Abs(init), last);
  }

  // ---------- a write stays in its place, and depends on nothing else ----------

  ghost predicate SameAt(before: Nodes, after: Nodes, key: string) {
    (key in after <==> key in before) && (key in after ==> after[key] == before[key])
  }

  ghost predicate SameOutside(before: Nodes, after: Nodes, base: seq<string>) {
    forall key :: !Below(base, key) ==> SameAt(before, after, key)
  }

  ghost predicate SameBelow(a: Nodes, b: Nodes, base: seq<string>) {
    forall key :: Below(base, key) ==> SameAt(a, b, key)
  }

  ghost predicate Rooted(nodes: Nodes, base: seq<string>) {
    ProperPath(base) && base != [] && HasParents(nodes, base)
  }

  lemma {:induction false} PathIsBelow(base: seq<string>, rel: string)
    requires ProperPath(base)
    ensures var path := FullPath(Abs(base), rel);
      Below(base, path) && (rel != "" ==> Below(base, Dirname(path)))
  {
    var path := FullPath(Abs(base), rel);
    BelowAbs(base, base);
    if rel != "" {
      SplitAbs(base);
      SplitAt(Abs(base), rel, '/');
      assert path[|Abs(base)|] == '/';
      SplitDirname(path);
      var parts := [""] + base + Split(rel, '/');
      assert [""] + base <= parts[..|parts| - 1];
    }
  }

  lemma {:induction false} ParentsStay(before: Nodes, after: Nodes, base: seq<string>)
    requires Rooted(before, base) && SameOutside(before, after, base)
    ensures Rooted(after, base)
  {
    forall k | 0 < k < |base| ensures Abs(base[..k]) in after && after[Abs(base[..k])] == FileSystem.Dir {
      assert forall n :: n in base[..k] ==> n in base;
      BelowAbs(base, base[..k]);
    }
  }

  lemma {:induction false} OneStays(nodes: Nodes, base: seq<string>, e: Nar.Entry)
    requires Rooted(nodes, base)
    ensures var one := WriteOne(nodes, Abs(base), e); one.Done? ==> SameOutside(nodes, one.nodes, base)
  {
    PathIsBelow(base, e.path);
    if e.Dir? && e.path == "" {
      EnsuredMakesLast(nodes, base);
    }
  }

  /** The directory an entry goes into: the archive's own, or, for the root entry, one that is there. */
  lemma {:induction false} SameDirectory(a: Nodes, b: Nodes, base: seq<string>, rel: string)
    requires Rooted(a, base) && Rooted(b, base) && SameBelow(a, b, base)
    ensures var dir := Dirname(FullPath(Abs(base), rel)); HasDir(a, dir) <==> HasDir(b, dir)
  {
    var dir := Dirname(FullPath(Abs(base), rel));
    PathIsBelow(base, rel);
    if rel == "" {
      LastParent(a, base);
      LastParent(b, base);
    } else {
      assert SameAt(a, b, dir);
    }
  }

  lemma {:induction false} OneAgrees(a: Nodes, b: Nodes, base: seq<string>, e: Nar.Entry)
    requires Rooted(a, base) && Rooted(b, base) && SameBelow(a, b, base)
    ensures var x, y := WriteOne(a, Abs(base), e), WriteOne(b, Abs(base), e);
      (x.Done? <==> y.Done?) && (x.Done? ==> SameBelow(x.nodes, y.nodes, base))
  {
    PathIsBelow(base, e.path);
    SameDirectory(a, b, base, e.path);
    assert SameAt(a, b, FullPath(Abs(base), e.path));
    if e.Dir? && e.path == "" {
      EnsuredMakesLast(a, base);
      EnsuredMakesLast(b, base);
    }
  }

  /** Whatever the entries and however far the write gets, nothing changes but at the root and below it. */
  lemma {:induction false} WriteStays(nodes: Nodes, base: seq<string>, entries: seq<Nar.Entry>)
    requires Rooted(nodes, base)
    ensures SameOutside(nodes, WriteAll(nodes, Abs(base), entries).nodes, base)
    ensures Rooted(WriteAll(nodes, Abs(base), entries).nodes, base)
    decreases |entries|
  {
    if entries != [] {
      var one := WriteOne(nodes, Abs(base), entries[0]);
      if one.Done? {
        OneStays(nodes, base, entries[0]);
        ParentsStay(nodes, one.nodes, base);
        WriteStays(one.nodes, base, entries[1..]);
      }
    }
  }

  /** And nothing else matters to it: where the same is below the root, the same is written, or throws. */
  lemma {:induction false} WriteAgrees(a: Nodes, b: Nodes, base: seq<string>, entries: seq<Nar.Entry>)
    requires Rooted(a, base) && Rooted(b, base) && SameBelow(a, b, base)
    ensures var x, y := WriteAll(a, Abs(base), entries), WriteAll(b, Abs(base), entries);
      x.ok == y.ok && SameBelow(x.nodes, y.nodes, base)
    decreases |entries|
  {
    if entries != [] {
      var x, y := WriteOne(a, Abs(base), entries[0]), WriteOne(b, Abs(base), entries[0]);
      OneAgrees(a, b, base, entries[0]);
      if x.Done? {
        OneStays(a, base, entries[0]);
        OneStays(b, base, entries[0]);
        ParentsStay(a, x.nodes, base);
        ParentsStay(b, y.nodes, base);
        WriteAgrees(x.nodes, y.nodes, base, entries[1..]);
      }
    }
  }

  // ---------- what cannot be written ----------

  /** Below the root, only entries whose path names a new place are written. */
  lemma {:induction false} CircularThrows(nodes: Nodes, root: string, entries: seq<Nar.Entry>, e: Nar.Entry)
    requires e in entries && Circular(FullPath(root, e.path)) && !(e.Dir? && e.path == "")
    ensures !WriteAll(nodes, root, entries).ok
    decreases |entries|
  {
    if e != entries[0] {
      var one := WriteOne(nodes, root, entries[0]);
      if one.Done? {
        assert entries == [entries[0]] + entries[1..];
        CircularThrows(one.nodes, root, entries[1..], e);
      }
    }
  }

  /** The path of an entry named `.` or `..`. */
  ghost predicate Dotted(e: Nar.Entry, above: string, dots: string) {
    dots in {".", ".."} && e.path == Nar.Child(above, dots)
  }

  /** A tree that is not proper, although its names are told apart, has such an entry. */
  lemma {:induction false} HasDotted(t: Tree, path: string) returns (e: Nar.Entry, above: string, dots: string)
    requires Siblings(t) && !Proper(t)
    ensures e in EntriesOf(t, path) && Dotted(e, above, dots)
    decreases t
  {
    e, above, dots := ForestHasDotted(t.children, path);
  }

  lemma {:induction false} ForestHasDotted(f: Forest, path: string)
    returns (e: Nar.Entry, above: string, dots: string)
    requires SiblingForest(f) && !ProperForest(f)
    ensures e in EntriesOfAll(f, path) && Dotted(e, above, dots)
    decreases f
  {
    var here := Nar.Child(path, f.name);
    if !ProperName(f.name) {
      e, above, dots := EntriesOf(f.node, here)[0], path, f.name;
    } else if !Proper(f.node) {
      e, above, dots := HasDotted(f.node, here);
    } else {
      e, above, dots := ForestHasDotted(f.rest, path);
    }
  }

  lemma {:induction false} DottedThrows(nodes: Nodes, root: string, entries: seq<Nar.Entry>, e: Nar.Entry,
                                        above: string, dots: string)
    requires e in entries && Dotted(e, above, dots)
    ensures !WriteAll(nodes, root, entries).ok
  {
    var before := if above == "" then root else root + "/" + above;
    assert FullPath(root, e.path) == before + "/" + dots;
    SplitAt(before, dots, '/');
    SplitFree(dots, '/');
    CircularThrows(nodes, root, entries, e);
  }

  lemma {:induction false} OneKeepsKeys(nodes: Nodes, root: string, e: Nar.Entry)
    ensures var one := WriteOne(nodes, root, e); one.Done? ==> nodes.Keys <= one.nodes.Keys
    ensures var one := WriteOne(nodes, root, e);
      one.Done? && e.path != "" ==> FullPath(root, e.path) in one.nodes
  {
    if e.Dir? && e.path == "" {
      EnsuredKeepsKeys(nodes, "", NonEmpty(Split(FullPath(root, e.path), '/')));
    }
  }

  lemma {:induction false} EnsuredKeepsKeys(nodes: Nodes, current: string, parts: seq<string>)
    ensures nodes.Keys <= EnsuredFrom(nodes, current, parts).Keys
    decreases |parts|
  {
    if parts != [] {
      EnsuredKeepsKeys(Made(nodes, current + "/" + parts[0]), current + "/" + parts[0], parts[1..]);
    }
  }

  lemma {:induction false} TakenThrows(nodes: Nodes, root: string, entries: seq<Nar.Entry>, e: Nar.Entry)
    requires e in entries && !e.File? && e.path != "" && FullPath(root, e.path) in nodes
    ensures !WriteAll(nodes, root, entries).ok
    decreases |entries|
  {
    if e != entries[0] {
      var one := WriteOne(nodes, root, entries[0]);
      OneKeepsKeys(nodes, root, entries[0]);
      if one.Done? {
        assert entries == [entries[0]] + entries[1..];
        TakenThrows(one.nodes, root, entries[1..], e);
      }
    }
  }

  /** A directory or a link whose path an earlier entry has: wherever it is written, that throws. */
  lemma {:induction false} RepeatedPathThrows(nodes: Nodes, root: string, entries: seq<Nar.Entry>, i: nat, j: nat)
    requires i < j < |entries| && entries[i].path == entries[j].path != "" && !entries[j].File?
    ensures !WriteAll(nodes, root, entries).ok
    decreases |entries|
  {
    var one := WriteOne(nodes, root, entries[0]);
    if one.Done? {
      assert entries[1..][j - 1] == entries[j];
      if i == 0 {
        OneKeepsKeys(nodes, root, entries[0]);
        TakenThrows(one.nodes, root, entries[1..], entries[j]);
      } else {
        assert entries[1..][i - 1] == entries[i];
        RepeatedPathThrows(one.nodes, root, entries[1..], i - 1, j - 1);
      }
    }
  }

  /** The parser takes an archive that holds a directory twice under one name; no filesystem does. */
  lemma {:induction false} DoubledDirectoryThrows(name: string)
    requires name != "" && |name| < LENGTH_LIMIT
    ensures var empty := Directory(Nil);
      var t := Directory(Cons(name, empty, Cons(name, empty, Nil)));
      Nar.ParsedNar(Serialise(t)).Parsed? &&
      forall nodes, root :: !WriteAll(nodes, root, Nar.ParsedNar(Serialise(t)).entries).ok
  {
    var empty := Directory(Nil);
    var t := Directory(Cons(name, empty, Cons(name, empty, Nil)));
    assert Fits(empty);
    assert FitsAll(Cons(name, empty, Nil));
    ParseOfSerialised(t);
    DoubledEntries(name);
    forall nodes, root ensures !WriteAll(nodes, root, EntriesOf(t, "")).ok {
      RepeatedPathThrows(nodes, root, EntriesOf(t, ""), 1, 2);
    }
  }

  lemma {:induction false} DoubledEntries(name: string)
    ensures EntriesOf(Directory(Cons(name, Directory(Nil), Cons(name, Directory(Nil), Nil))), "") ==
            [Nar.Dir(""), Nar.Dir(name), Nar.Dir(name)]
  {
    assert EntriesOf(Directory(Nil), name) == [Nar.Dir(name)];
    assert EntriesOfAll(Cons(name, Directory(Nil), Nil), "") == [Nar.Dir(name)];
  }

  // ---------- what a layout holds, independently of how it is built ----------

  lemma {:induction false} LayoutMeans(t: Tree, at: seq<string>, names: seq<string>)
    requires Proper(t) && ProperPath(at) && ProperPath(names)
    ensures Abs(at + names) in Layout(t, at) <==> Lookup(t, names).Some?
    ensures Lookup(t, names).Some? ==> Layout(t, at)[Abs(at + names)] == NodeOf(Lookup(t, names).value, Abs(at + names))
    decreases t
  {
    if names == [] {
      assert at + names == at;
      if t.Directory? && Abs(at) in LayoutForest(t.children, at) {
        NotInForest(t.children, at);
      }
    } else {
      if Abs(at + names) == Abs(at) {
        AbsInjective(at + names, at);
      }
      if t.Directory? {
        LayoutForestMeans(t.children, at, names);
      }
    }
  }

  lemma {:induction false} NotInForest(f: Forest, at: seq<string>)
    requires ProperForest(f) && ProperPath(at)
    ensures Abs(at) !in LayoutForest(f, at)
  {
    if Abs(at) in LayoutForest(f, at) {
      ForestBelow(f, at, Abs(at));
      var name :| name in Names(f) && Below(at + [name], Abs(at));
      BelowAt(at, name);
    }
  }

  lemma {:induction false} LayoutForestMeans(f: Forest, at: seq<string>, names: seq<string>)
    requires ProperForest(f) && ProperPath(at) && ProperPath(names) && names != []
    ensures Abs(at + names) in LayoutForest(f, at) <==> LookupForest(f, names).Some?
    ensures LookupForest(f, names).Some? ==>
      LayoutForest(f, at)[Abs(at + names)] == NodeOf(LookupForest(f, names).value, Abs(at + names))
    decreases f
  {
    if f.Cons? {
      var key := Abs(at + names);
      assert names[0] in names;
      assert at + [names[0]] <= at + names;
      BelowAbs(at + [names[0]], at + names);
      if f.name == names[0] {
        assert (at + [f.name]) + names[1..] == at + names;
        LayoutMeans(f.node, at + [f.name], names[1..]);
        if key in LayoutForest(f.rest, at) {
          ForestBelow(f.rest, at, key);
          var name :| name in Names(f.rest) && Below(at + [name], key);
          BelowApart(at, name, names[0], key);
        }
      } else {
        LayoutForestMeans(f.rest, at, names);
        if key in Layout(f.node, at + [f.name]) {
          LayoutBelow(f.node, at + [f.name], key);
          BelowApart(at, f.name, names[0], key);
        }
      }
    }
  }

  /**
   * A link at a path leads, read from the root, where its target leads from the link's directory: an absolute target is
   * kept as it is, and one that stays below the root is the absolute path it resolves to.
   */
  ghost predicate LeadsAlike(at: seq<string>, target: string, written: string)
    requires at != []
  {
    var dir := at[..|at| - 1];
    && Destination([], written) == Destination(dir, target)
    && (IsAbsolute(target) ==> written == target)
    && (!IsAbsolute(target) && Resolve(dir, Split(target, '/')).Names? ==> written == Abs(Destination(dir, target)))
  }

  /** A node on disk is this node of a tree: same contents, same mode, or a link to the same place. */
  ghost predicate Renders(node: Node, t: Tree, at: seq<string>)
    requires at != []
  {
    match t
    case Regular(executable, contents) => node == FileSystem.File(contents, executable)
    case Directory(_) => node == FileSystem.Dir
    case Symlink(target) => node.Link? && LeadsAlike(at, target, node.target)
  }

  lemma {:induction false} NodeRenders(t: Tree, at: seq<string>)
    requires ProperPath(at) && at != []
    ensures Renders(NodeOf(t, Abs(at)), t, at)
  {
    if t.Symlink? {
      WrittenLeads(at, t.target, "");
      if !IsAbsolute(t.target) {
        AbsoluteTargetMeans(at, t.target);
        var r := Resolve(at[..|at| - 1], Split(t.target, '/'));
        if r.Names? {
          SplitAbs(r.names);
          ReachedByNames([], r.names);
          assert ([""] + r.names)[1..] == r.names && [] + r.names == r.names;
        }
      }
    }
  }

  /** The nodes at and below `base` are the tree's, path by path, and its links lead where they did. */
  ghost predicate HoldsTree(nodes: Nodes, base: seq<string>, t: Tree)
    requires base != []
  {
    forall names :: ProperPath(names) ==>
      (Abs(base + names) in nodes <==> Lookup(t, names).Some?)
      && (Lookup(t, names).Some? ==> Renders(nodes[Abs(base + names)], Lookup(t, names).value, base + names))
  }

  lemma {:induction false} LayoutRebuilds(nodes: Nodes, base: seq<string>, t: Tree)
    requires Proper(t) && ProperPath(base) && base != [] && Vacant(nodes, base)
    ensures HoldsTree(nodes + Layout(t, base), base, t)
  {
    var after := nodes + Layout(t, base);
    forall names | ProperPath(names)
      ensures Abs(base + names) in after <==> Lookup(t, names).Some?
      ensures Lookup(t, names).Some? ==> Renders(after[Abs(base + names)], Lookup(t, names).value, base + names)
    {
      LayoutMeans(t, base, names);
      BelowAbs(base, base + names);
      if Lookup(t, names).Some? {
        NodeRenders(Lookup(t, names).value, base + names);
      }
    }
  }

  /** Of trees whose siblings are told apart, a vacant root takes exactly those without `.` and `..` among the names. */
  lemma {:induction false} WritesArchive(nodes: Nodes, base: seq<string>, t: Tree)
    requires Siblings(t) && Rooted(nodes, base) && Vacant(nodes, base)
    ensures var written := WriteAll(nodes, Abs(base), EntriesOf(t, ""));
      && (written.ok <==> Proper(t))
      && (Proper(t) ==> written.nodes == nodes + Layout(t, base))
  {
    if Proper(t) {
      WritesProper(nodes, base, t);
    } else {
      var e, above, dots := HasDotted(t, "");
      DottedThrows(nodes, Abs(base), EntriesOf(t, ""), e, above, dots);
    }
  }

  /**
   * Serialise, parse, write: the tree is back, unless one of its names is `.` or `..`, which the parser takes and the
   * filesystem does not. Either way nothing outside it has changed.
   */
  lemma {:induction false} ArchiveRoundTrip(nodes: Nodes, base: seq<string>, t: Tree)
    requires Fits(t) && Siblings(t)
    requires Rooted(nodes, base) && Vacant(nodes, base)
    ensures var parsed := Nar.ParsedNar(Serialise(t));
      parsed.Parsed? &&
      var written := WriteAll(nodes, Abs(base), parsed.entries);
      && (written.ok <==> Proper(t))
      && (written.ok ==> HoldsTree(written.nodes, base, t))
      && SameOutside(nodes, written.nodes, base)
  {
    ParseOfSerialised(t);
    WritesArchive(nodes, base, t);
    WriteStays(nodes, base, EntriesOf(t, ""));
    if Proper(t) {
      LayoutRebuilds(nodes, base, t);
    }
  }

  // ---------- what a package has to run ----------

  const BIN_PREFIX := "bin/"

  /** Right inside bin, and either a link or marked executable. */
  predicate IsProgram(entry: Nar.Entry) {
    && |entry.path| > |BIN_PREFIX| && entry.path[..|BIN_PREFIX|] == BIN_PREFIX && '/' !in entry.path[|BIN_PREFIX|..]
    && (entry.Link? || (entry.File? && entry.executable))
  }

  function ProgramsOf(entries: seq<Nar.Entry>): seq<string> {
    if entries == [] then []
    else (if IsProgram(entries[0]) then [entries[0].path[|BIN_PREFIX|..]] else []) + ProgramsOf(entries[1..])
  }

  lemma {:induction false} InPrograms(entries: seq<Nar.Entry>, name: string)
    ensures name in ProgramsOf(entries) <==> exists e :: e in entries && IsProgram(e) && e.path == BIN_PREFIX + name
  {
    if entries != [] {
      InPrograms(entries[1..], name);
      assert entries == [entries[0]] + entries[1..];
      if IsProgram(entries[0]) {
        assert entries[0].path == BIN_PREFIX + entries[0].path[|BIN_PREFIX|..];
      }
    }
  }

  lemma {:induction false} LastOfBin(root: string, name: string)
    requires Free(name, '/')
    ensures var parts := Split(FullPath(root, BIN_PREFIX + name), '/'); parts[|parts| - 1] == name
  {
    var above: string := root + "/bin";
    assert FullPath(root, BIN_PREFIX + name) == above + ['/'] + name;
    SplitAt(above, name, '/');
    SplitFree(name, '/');
  }

  /** Whatever is written whole offers only proper names. */
  lemma {:induction false} WrittenProgramsAreProper(nodes: Nodes, root: string, entries: seq<Nar.Entry>, name: string)
    requires WriteAll(nodes, root, entries).ok && name in ProgramsOf(entries)
    ensures ProperName(name)
  {
    InPrograms(entries, name);
    var e :| e in entries && IsProgram(e) && e.path == BIN_PREFIX + name;
    assert e.path[|BIN_PREFIX|..] == name;
    LastOfBin(root, name);
    if name == "." || name == ".." {
      CircularThrows(nodes, root, entries, e);
    }
  }

  /** Something a shell can start: a file marked executable, or a link, wherever that leads. */
  predicate Starts(node: Node) {
    node.Link? || (node.File? && node.executable)
  }

  lemma {:induction false} EnsuredKeepsNodes(nodes: Nodes, current: string, parts: seq<string>)
    ensures forall key :: key in nodes ==>
      key in EnsuredFrom(nodes, current, parts) && EnsuredFrom(nodes, current, parts)[key] == nodes[key]
    decreases |parts|
  {
    if parts != [] {
      EnsuredKeepsNodes(Made(nodes, current + "/" + parts[0]), current + "/" + parts[0], parts[1..]);
    }
  }

  /** What can be started is never overwritten by anything that cannot. */
  lemma {:induction false} StartsStill(nodes: Nodes, root: string, entries: seq<Nar.Entry>, path: string)
    requires path in nodes && Starts(nodes[path])
    ensures var after := WriteAll(nodes, root, entries).nodes; path in after && Starts(after[path])
    decreases |entries|
  {
    if entries != [] {
      OneStartsStill(nodes, root, entries[0], path);
      var one := WriteOne(nodes, root, entries[0]);
      if one.Done? {
        StartsStill(one.nodes, root, entries[1..], path);
      }
    }
  }

  lemma {:induction false} OneStartsStill(nodes: Nodes, root: string, e: Nar.Entry, path: string)
    requires path in nodes && Starts(nodes[path])
    ensures var one := WriteOne(nodes, root, e); one.Done? ==> path in one.nodes && Starts(one.nodes[path])
  {
    if e.Dir? && e.path == "" {
      EnsuredKeepsNodes(nodes, "", NonEmpty(Split(FullPath(root, e.path), '/')));
    }
  }

  lemma {:induction false} FullBin(root: string, name: string)
    ensures FullPath(root, BIN_PREFIX + name) == root + "/bin/" + name
  {
    assert root + "/" + (BIN_PREFIX + name) == root + "/bin/" + name;
  }

  lemma {:induction false} OneMakesProgram(nodes: Nodes, root: string, e: Nar.Entry)
    requires IsProgram(e)
    ensures var one, path := WriteOne(nodes, root, e), FullPath(root, e.path);
      one.Done? ==> path in one.nodes && Starts(one.nodes[path])
  {
  }

  /** The programs of what has been written whole can be started, each in the package's bin directory. */
  lemma {:induction false} ProgramsStart(nodes: Nodes, root: string, entries: seq<Nar.Entry>, name: string)
    requires WriteAll(nodes, root, entries).ok && name in ProgramsOf(entries)
    ensures var after := WriteAll(nodes, root, entries).nodes;
      root + "/bin/" + name in after && Starts(after[root + "/bin/" + name])
    decreases |entries|
  {
    hide WriteOne, IsProgram, Starts, FullPath;
    var e := entries[0];
    var one := WriteOne(nodes, root, e);
    if IsProgram(e) && ProgramName(e) == name {
      OneMakesProgram(nodes, root, e);
      ProgramPath(e, name);
      FullBin(root, name);
      StartsStill(one.nodes, root, entries[1..], root + "/bin/" + name);
    } else {
      ProgramsRest(entries, name);
      ProgramsStart(one.nodes, root, entries[1..], name);
    }
  }

  ghost function ProgramName(e: Nar.Entry): string
    requires IsProgram(e)
  {
    e.path[|BIN_PREFIX|..]
  }

  lemma {:induction false} ProgramPath(e: Nar.Entry, name: string)
    requires IsProgram(e) && ProgramName(e) == name
    ensures e.path == BIN_PREFIX + name
  {
  }

  lemma {:induction false} ProgramsRest(entries: seq<Nar.Entry>, name: string)
    requires name in ProgramsOf(entries)
    ensures entries != []
    ensures !(IsProgram(entries[0]) && ProgramName(entries[0]) == name) ==> name in ProgramsOf(entries[1..])
  {
  }

  function EntryFor(t: Tree, path: string): Nar.Entry {
    match t
    case Regular(executable, contents) => Nar.File(path, executable, contents)
    case Symlink(target) => Nar.Link(path, target)
    case Directory(_) => Nar.Dir(path)
  }

  ghost predicate Holds(t: Tree, names: seq<string>, below: seq<string>, e: Nar.Entry) {
    ProperPath(below) && Lookup(t, below).Some? && e == EntryFor(Lookup(t, below).value, Rel(names + below))
  }

  /** The entries of a tree are its nodes, each under its own path. */
  lemma {:induction false} EntriesMean(t: Tree, names: seq<string>, e: Nar.Entry)
    requires Proper(t) && ProperPath(names)
    ensures e in EntriesOf(t, Rel(names)) <==> exists below :: Holds(t, names, below, e)
    decreases t
  {
    assert names + [] == names;
    if e in EntriesOf(t, Rel(names)) {
      if e == EntryFor(t, Rel(names)) {
        assert Holds(t, names, [], e);
      } else {
        var below := ForestEntryHolds(t.children, names, e);
        assert Holds(t, names, below, e);
      }
    }
    forall below | Holds(t, names, below, e) ensures e in EntriesOf(t, Rel(names)) {
      if below != [] {
        ForestHoldsEntry(t.children, names, below, e);
      }
    }
  }

  lemma {:induction false} ForestEntryHolds(f: Forest, names: seq<string>, e: Nar.Entry) returns (below: seq<string>)
    requires ProperForest(f) && ProperPath(names) && e in EntriesOfAll(f, Rel(names))
    ensures below != [] && below[0] in Names(f) && ProperPath(below) && LookupForest(f, below).Some?
    ensures e == EntryFor(LookupForest(f, below).value, Rel(names + below))
    decreases f
  {
    RelChild(names, f.name);
    if e in EntriesOf(f.node, Rel(names + [f.name])) {
      EntriesMean(f.node, names + [f.name], e);
      var rest :| Holds(f.node, names + [f.name], rest, e);
      below := [f.name] + rest;
      HoldsThroughChild(f, names, rest, e);
    } else {
      below := ForestEntryHolds(f.rest, names, e);
    }
  }

  lemma {:induction false} HoldsThroughChild(f: Forest, names: seq<string>, rest: seq<string>, e: Nar.Entry)
    requires f.Cons? && ProperName(f.name) && Holds(f.node, names + [f.name], rest, e)
    ensures var below := [f.name] + rest;
      && ProperPath(below) && LookupForest(f, below).Some?
      && e == EntryFor(LookupForest(f, below).value, Rel(names + below))
  {
    var below := [f.name] + rest;
    assert below[1..] == rest && names + below == names + [f.name] + rest;
  }

  lemma {:induction false} ConcatFirst<T>(a: seq<T>, b: seq<T>)
    requires b != []
    ensures b == [b[0]] + b[1..] && a + b == a + [b[0]] + b[1..]
  {
  }

  lemma {:induction false} ForestHoldsEntry(f: Forest, names: seq<string>, below: seq<string>, e: Nar.Entry)
    requires ProperForest(f) && ProperPath(names) && ProperPath(below) && below != [] && LookupForest(f, below).Some?
    requires e == EntryFor(LookupForest(f, below).value, Rel(names + below))
    ensures e in EntriesOfAll(f, Rel(names))
    decreases f
  {
    RelChild(names, f.name);
    if f.name == below[0] {
      ConcatFirst(names, below);
      assert Holds(f.node, names + [f.name], below[1..], e);
      EntriesMean(f.node, names + [f.name], e);
    } else {
      ForestHoldsEntry(f.rest, names, below, e);
    }
  }

  predicate Runnable(t: Tree) {
    t.Symlink? || (t.Regular? && t.executable)
  }

  lemma {:induction false} SplitBin(name: string)
    requires Free(name, '/')
    ensures Split("/bin/" + name, '/') == ["", "bin", name]
  {
    var slashBin: string, bin: string := "/bin", "bin";
    SplitAt(slashBin, name, '/');
    SplitAt("", bin, '/');
    SplitFree(bin, '/');
    SplitFree(name, '/');
    assert slashBin == "" + ['/'] + bin;
    assert "/bin/" + name == slashBin + ['/'] + name;
  }

  lemma {:induction false} BinPath(below: seq<string>, name: string)
    requires ProperPath(below) && Free(name, '/') && name != "" && Rel(below) == BIN_PREFIX + name
    ensures below == ["bin", name]
  {
    AbsOfBin(below, name);
    SplitAbs(below);
    SplitBin(name);
    assert ([""] + below)[1..] == below;
  }

  lemma {:induction false} AbsOfBin(below: seq<string>, name: string)
    requires below != [] && Rel(below) == BIN_PREFIX + name
    ensures Abs(below) == "/bin/" + name
  {
    AbsIsSlashRel(below);
  }

  lemma {:induction false} AbsIsSlashRel(names: seq<string>)
    requires names != []
    ensures Abs(names) == "/" + Rel(names)
  {
    AbsStartsWithSlash(names);
  }

  /** A tree's programs are the runnable things directly in its bin directory. */
  lemma {:induction false} ProgramsMean(t: Tree, name: string)
    requires Proper(t) && ProperName(name)
    ensures name in ProgramsOf(EntriesOf(t, "")) <==>
            Lookup(t, ["bin", name]).Some? && Runnable(Lookup(t, ["bin", name]).value)
  {
    if name in ProgramsOf(EntriesOf(t, "")) {
      ProgramIsInBin(t, name);
    }
    if Lookup(t, ["bin", name]).Some? && Runnable(Lookup(t, ["bin", name]).value) {
      InBinIsProgram(t, name);
    }
  }

  lemma {:induction false} ProgramIsInBin(t: Tree, name: string)
    requires Proper(t) && name in ProgramsOf(EntriesOf(t, ""))
    ensures ProperName(name) && Lookup(t, ["bin", name]).Some? && Runnable(Lookup(t, ["bin", name]).value)
  {
    InPrograms(EntriesOf(t, Rel([])), name);
    var e :| e in EntriesOf(t, Rel([])) && IsProgram(e) && e.path == BIN_PREFIX + name;
    EntriesMean(t, [], e);
    var below :| Holds(t, [], below, e);
    assert [] + below == below;
    ProgramPathIsBin(Lookup(t, below).value, below, name);
  }

  lemma {:induction false} ProgramPathIsBin(t: Tree, below: seq<string>, name: string)
    requires ProperPath(below)
    requires var e := EntryFor(t, Rel(below)); IsProgram(e) && e.path == BIN_PREFIX + name
    ensures below == ["bin", name] && ProperName(name) && Runnable(t)
  {
    var e := EntryFor(t, Rel(below));
    assert e.path[|BIN_PREFIX|..] == name;
    BinPath(below, name);
    assert name in below;
  }

  lemma {:induction false} InBinIsProgram(t: Tree, name: string)
    requires Proper(t) && ProperName(name)
    requires Lookup(t, ["bin", name]).Some? && Runnable(Lookup(t, ["bin", name]).value)
    ensures name in ProgramsOf(EntriesOf(t, ""))
  {
    var below: seq<string> := ["bin", name];
    var e := EntryFor(Lookup(t, below).value, BIN_PREFIX + name);
    RelOfBin(name);
    assert [] + below == below;
    assert ProperName("bin");
    assert Holds(t, [], below, e);
    EntriesMean(t, [], e);
    InPrograms(EntriesOf(t, Rel([])), name);
  }

  lemma {:induction false} RelOfBin(name: string)
    ensures Rel(["bin", name]) == BIN_PREFIX + name
  {
    assert ["bin"][..0] == [];
    assert ["bin"] + [name] == ["bin", name] && [] + ["bin"] == ["bin"];
    assert Abs(["bin", name]) == "/bin/" + name;
  }
}
