/** The in-memory filesystem as the page uses it: absolute paths mapped to nodes, and the calls that change it. */
module FileSystem {
  import opened Paths

  datatype Node = Dir | File(data: string, executable: bool) | Link(target: string)

  type Nodes = map<string, Node>

  /** The root directory, whose path as a prefix is empty, always exists. */
  predicate HasDir(nodes: Nodes, path: string) {
    path == "" || (path in nodes && nodes[path] == Dir)
  }

  /** A call that throws leaves the nodes as they were. */
  datatype Change = Thrown | Done(nodes: Nodes)

  /** Such a path names a directory that is there if its parent is: the parent itself, or the one above it. */
  predicate Circular(path: string) {
    var parts := Split(path, '/');
    parts[|parts| - 1] in {"", ".", ".."}
  }

  /** Whether a new node may be put there. */
  predicate Creatable(nodes: Nodes, path: string) {
    path !in nodes && !Circular(path) && HasDir(nodes, Dirname(path))
  }

  function MkdirOf(nodes: Nodes, path: string): Change {
    if Creatable(nodes, path) then Done(nodes[path := Dir]) else Thrown
  }

  /** A file is created or overwritten; its mode is kept. Writing over anything else throws. */
  function WriteFileOf(nodes: Nodes, path: string, data: string): Change {
    if Circular(path) || !HasDir(nodes, Dirname(path)) then Thrown
    else if path !in nodes then Done(nodes[path := File(data, false)])
    else if nodes[path].File? then Done(nodes[path := File(data, nodes[path].executable)])
    else Thrown
  }

  function SymlinkOf(nodes: Nodes, target: string, path: string): Change {
    if Creatable(nodes, path) then Done(nodes[path := Link(target)]) else Thrown
  }

  lemma {:induction false} ProperIsNotCircular(names: seq<string>)
    requires ProperPath(names) && names != []
    ensures !Circular(Abs(names))
  {
    SplitAbs(names);
    assert names[|names| - 1] in names;
  }

  class FS {
    var nodes: Nodes

    constructor ()
      ensures nodes == map[]
    {
      nodes := map[];
    }

    ghost predicate Did(change: Change, before: Nodes, ok: bool)
      reads this
    {
      ok == change.Done? && nodes == if ok then change.nodes else before
    }

    method Mkdir(path: string) returns (ok: bool)
      modifies this
      ensures Did(MkdirOf(old(nodes), path), old(nodes), ok)
    {
      ok := Creatable(nodes, path);
      if ok {
        nodes := nodes[path := Dir];
      }
    }

    method WriteFile(path: string, data: string) returns (ok: bool)
      modifies this
      ensures Did(WriteFileOf(old(nodes), path, data), old(nodes), ok)
    {
      ok := !Circular(path) && HasDir(nodes, Dirname(path)) && (path in nodes ==> nodes[path].File?);
      if ok {
        nodes := nodes[path := File(data, path in nodes && nodes[path].executable)];
      }
    }

    /** The only mode the page sets is the executable one. */
    method Chmod(path: string)
      requires path in nodes && nodes[path].File?
      modifies this
      ensures nodes == old(nodes)[path := File(old(nodes[path].data), true)]
    {
      nodes := nodes[path := File(nodes[path].data, true)];
    }

    method Symlink(target: string, path: string) returns (ok: bool)
      modifies this
      ensures Did(SymlinkOf(old(nodes), target, path), old(nodes), ok)
    {
      ok := Creatable(nodes, path);
      if ok {
        nodes := nodes[path := Link(target)];
      }
    }

    method Unlink(path: string)
      modifies this
      ensures nodes == old(nodes) - {path}
    {
      nodes := nodes - {path};
    }
  }

  // ---------- mkdir -p ----------

  function Made(nodes: Nodes, path: string): Nodes {
    match MkdirOf(nodes, path)
    case Thrown => nodes
    case Done(after) => after
  }

  function EnsuredFrom(nodes: Nodes, current: string, parts: seq<string>): Nodes
    decreases |parts|
  {
    if parts == [] then nodes
    else EnsuredFrom(Made(nodes, current + "/" + parts[0]), current + "/" + parts[0], parts[1..])
  }

  function Ensured(nodes: Nodes, path: string): Nodes {
    EnsuredFrom(nodes, "", NonEmpty(Split(path, '/')))
  }

  /** Every missing component is made; one that exists already is fine. */
  method EnsureDir(fs: FS, path: string)
    modifies fs
    ensures fs.nodes == Ensured(old(fs.nodes), path)
  {
    var current := "";
    var parts := Split(path, '/');
    ghost var whole := Ensured(fs.nodes, path);
    for i := 0 to |parts|
      invariant whole == EnsuredFrom(fs.nodes, current, NonEmpty(parts[i..]))
    {
      assert parts[i..][0] == parts[i] && parts[i..][1..] == parts[i + 1..];
      if parts[i] != "" {
        current := current + "/" + parts[i];
        var _ := fs.Mkdir(current);
      }
    }
  }

  /** The directories above a path, the root left out. */
  ghost predicate HasParents(nodes: Nodes, names: seq<string>) {
    forall k :: 0 < k < |names| ==> Abs(names[..k]) in nodes && nodes[Abs(names[..k])] == Dir
  }

  /** Every component of the path is a directory or missing. */
  ghost predicate Clear(nodes: Nodes, names: seq<string>) {
    forall k :: 0 < k <= |names| && Abs(names[..k]) in nodes ==> nodes[Abs(names[..k])] == Dir
  }

  /** The paths of the directories down a path, from the one with `from + 1` names. */
  ghost function Steps(names: seq<string>, from: nat): set<string>
    requires from <= |names|
    decreases |names| - from
  {
    if from == |names| then {} else {Abs(names[..from + 1])} + Steps(names, from + 1)
  }

  lemma {:induction false} InSteps(names: seq<string>, from: nat, key: string)
    requires from <= |names|
    ensures key in Steps(names, from) <==> exists k :: from < k <= |names| && key == Abs(names[..k])
    decreases |names| - from
  {
    if from < |names| {
      InSteps(names, from + 1, key);
      if key == Abs(names[..from + 1]) {
        assert from < from + 1 <= |names| && key == Abs(names[..from + 1]);
      }
    }
  }

  /** Each of these paths that was missing made a directory. */
  ghost function WithDirs(nodes: Nodes, keys: set<string>): Nodes {
    nodes + map key | key in keys && key !in nodes :: Dir
  }

  /** On a clear path every missing directory is made, and nothing else changes. */
  lemma {:induction false} EnsuredMeans(nodes: Nodes, names: seq<string>)
    requires ProperPath(names) && Clear(nodes, names)
    ensures Ensured(nodes, Abs(names)) == WithDirs(nodes, Steps(names, 0))
  {
    SplitAbs(names);
    NonEmptyAll(names);
    assert ([""] + names)[1..] == names;
    EnsuredStep(nodes, names, 0);
    assert names[0..] == names && names[..0] == [];
  }

  lemma {:induction false} EnsuredStep(nodes: Nodes, names: seq<string>, k: nat)
    requires ProperPath(names) && k <= |names| && Clear(nodes, names)
    requires HasDir(nodes, Abs(names[..k]))
    ensures EnsuredFrom(nodes, Abs(names[..k]), names[k..]) == WithDirs(nodes, Steps(names, k))
    decreases |names| - k
  {
    if k < |names| {
      var here := Abs(names[..k + 1]);
      var made := Made(nodes, here);
      MadeIs(nodes, names, k);
      assert names[k..][0] == names[k] && names[k..][1..] == names[k + 1..];
      EnsuredStep(made, names, k + 1);
      WithDirsStep(nodes, here, Steps(names, k + 1));
    }
  }

  lemma {:induction false} WithDirsStep(nodes: Nodes, key: string, keys: set<string>)
    ensures WithDirs(if key in nodes then nodes else nodes[key := Dir], keys) == WithDirs(nodes, {key} + keys)
  {
  }

  lemma {:induction false} MadeIs(nodes: Nodes, names: seq<string>, k: nat)
    requires ProperPath(names) && k < |names| && Clear(nodes, names) && HasDir(nodes, Abs(names[..k]))
    ensures Abs(names[..k]) + "/" + names[k] == Abs(names[..k + 1])
    ensures var here := Abs(names[..k + 1]);
      Made(nodes, here) == (if here in nodes then nodes else nodes[here := Dir])
      && HasDir(Made(nodes, here), here) && Clear(Made(nodes, here), names)
  {
    assert names[..k + 1] == names[..k] + [names[k]];
    assert names[k] in names;
    assert forall n :: n in names[..k + 1] ==> n in names;
    ProperIsNotCircular(names[..k + 1]);
    DirnameJoin(Abs(names[..k]), names[k]);
  }

  /** With its parents in place, the path becomes a directory if nothing is there, and nothing else changes. */
  lemma {:induction false} EnsuredMakesLast(nodes: Nodes, names: seq<string>)
    requires ProperPath(names) && names != [] && HasParents(nodes, names)
    ensures Ensured(nodes, Abs(names)) == if Abs(names) in nodes then nodes else nodes[Abs(names) := Dir]
  {
    SplitAbs(names);
    NonEmptyAll(names);
    assert ([""] + names)[1..] == names;
    EnsuredFromParents(nodes, names, 0);
    assert names[0..] == names && names[..0] == [];
  }

  lemma {:induction false} EnsuredFromParents(nodes: Nodes, names: seq<string>, k: nat)
    requires ProperPath(names) && k < |names| && HasParents(nodes, names)
    ensures EnsuredFrom(nodes, Abs(names[..k]), names[k..]) ==
      if Abs(names) in nodes then nodes else nodes[Abs(names) := Dir]
    decreases |names| - k
  {
    var here := Abs(names[..k + 1]);
    assert names[..k + 1] == names[..k] + [names[k]] && names[k] in names;
    assert names[k..][0] == names[k] && names[k..][1..] == names[k + 1..];
    if k + 1 < |names| {
      assert Made(nodes, here) == nodes;
      EnsuredFromParents(nodes, names, k + 1);
    } else {
      assert names[..k + 1] == names && names[k + 1..] == [];
      ProperIsNotCircular(names);
      DirnameJoin(Abs(names[..k]), names[k]);
    }
  }
}
