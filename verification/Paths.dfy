/** Strings split on a separator, and slash-separated paths as lists of names. */
module Paths {

  function Split(s: string, sep: char): (parts: seq<string>)
    ensures |parts| > 0
  {
    if s == "" then [""]
    else if s[0] == sep then [""] + Split(s[1..], sep)
    else var rest := Split(s[1..], sep); [[s[0]] + rest[0]] + rest[1..]
  }

  function Join(parts: seq<string>, sep: string): string {
    if |parts| == 0 then ""
    else if |parts| == 1 then parts[0]
    else parts[0] + sep + Join(parts[1..], sep)
  }

  /** The parts that have something in them. */
  function NonEmpty(parts: seq<string>): seq<string> {
    if parts == [] then []
    else if parts[0] == "" then NonEmpty(parts[1..])
    else [parts[0]] + NonEmpty(parts[1..])
  }

  lemma {:induction false} NonEmptyAll(parts: seq<string>)
    requires forall p :: p in parts ==> p != ""
    ensures NonEmpty(parts) == parts
  {
    if parts != [] {
      assert forall p :: p in parts[1..] ==> p in parts;
      NonEmptyAll(parts[1..]);
      assert parts[0] in parts && [parts[0]] + parts[1..] == parts;
    }
  }

  ghost predicate Free(s: string, sep: char) {
    forall i :: 0 <= i < |s| ==> s[i] != sep
  }

  lemma {:induction false} SplitFree(s: string, sep: char)
    requires Free(s, sep)
    ensures Split(s, sep) == [s]
  {
    if s != "" {
      SplitFree(s[1..], sep);
      assert [s[0]] + s[1..] == s;
    }
  }

  lemma {:induction false} SplitAt(a: string, b: string, sep: char)
    ensures Split(a + [sep] + b, sep) == Split(a, sep) + Split(b, sep)
  {
    if a == "" {
      assert a + [sep] + b == [sep] + b;
    } else {
      SplitAt(a[1..], b, sep);
      assert a == [a[0]] + a[1..];
      SplitAtCons(a[0], a[1..], b, sep);
    }
  }

  /** The parts once one more character stands before them. */
  function Headed(c: char, parts: seq<string>, sep: char): seq<string>
    requires parts != []
  {
    if c == sep then [""] + parts else [[c] + parts[0]] + parts[1..]
  }

  lemma {:induction false} SplitCons(c: char, s: string, sep: char)
    ensures Split([c] + s, sep) == Headed(c, Split(s, sep), sep)
  {
    assert ([c] + s)[1..] == s;
  }

  lemma {:induction false} HeadedConcat(c: char, left: seq<string>, right: seq<string>, sep: char)
    requires left != []
    ensures Headed(c, left + right, sep) == Headed(c, left, sep) + right
  {
  }

  lemma {:induction false} SplitAtCons(c: char, rest: string, b: string, sep: char)
    requires Split(rest + [sep] + b, sep) == Split(rest, sep) + Split(b, sep)
    ensures Split([c] + rest + [sep] + b, sep) == Split([c] + rest, sep) + Split(b, sep)
  {
    assert [c] + rest + [sep] + b == [c] + (rest + [sep] + b);
    SplitCons(c, rest, sep);
    SplitCons(c, rest + [sep] + b, sep);
    HeadedConcat(c, Split(rest, sep), Split(b, sep), sep);
  }

  lemma {:induction false} PartsAreFree(s: string, sep: char)
    ensures forall p :: p in Split(s, sep) ==> Free(p, sep)
  {
    if s != "" {
      PartsAreFree(s[1..], sep);
      var rest := Split(s[1..], sep);
      assert rest[0] in rest;
    }
  }

  /** Splitting undoes joining, on parts free of the separator... */
  lemma {:induction false} SplitJoin(parts: seq<string>, sep: char)
    requires |parts| > 0 && forall p :: p in parts ==> Free(p, sep)
    ensures Split(Join(parts, [sep]), sep) == parts
  {
    SplitFree(parts[0], sep);
    if |parts| > 1 {
      SplitJoin(parts[1..], sep);
      SplitAt(parts[0], Join(parts[1..], [sep]), sep);
    }
  }

  /** ...and joining undoes splitting, always. */
  lemma {:induction false} JoinSplit(s: string, sep: char)
    ensures Join(Split(s, sep), [sep]) == s
  {
    if s != "" {
      JoinSplit(s[1..], sep);
      var rest := Split(s[1..], sep);
      if s[0] != sep {
        assert Split(s, sep)[1..] == rest[1..];
      }
    }
  }

  // ---------- paths ----------

  /** A name a directory entry may have. */
  ghost predicate ProperName(name: string) {
    name != "" && Free(name, '/') && name != "." && name != ".."
  }

  ghost predicate ProperPath(names: seq<string>) {
    forall n :: n in names ==> ProperName(n)
  }

  /** The absolute path of a list of names: a slash before each. */
  function Abs(names: seq<string>): string {
    if names == [] then "" else Abs(names[..|names| - 1]) + "/" + names[|names| - 1]
  }

  lemma {:induction false} Regroup(a: string, b: string, c: string, d: string)
    ensures (a + b) + c + d == a + (b + c + d)
  {
  }

  lemma {:induction false} AbsConcat(a: seq<string>, b: seq<string>)
    ensures Abs(a + b) == Abs(a) + Abs(b)
  {
    if b == [] {
      assert a + b == a;
    } else {
      var b' := b[..|b| - 1];
      AbsConcat(a, b');
      assert (a + b)[..|a + b| - 1] == a + b';
      Regroup(Abs(a), Abs(b'), "/", b[|b| - 1]);
    }
  }

  lemma {:induction false} SplitAbs(names: seq<string>)
    requires ProperPath(names)
    ensures Split(Abs(names), '/') == [""] + names
  {
    if names != [] {
      var init, last := names[..|names| - 1], names[|names| - 1];
      assert names == init + [last];
      assert last in names && forall n :: n in init ==> n in names;
      SplitAbs(init);
      SplitAt(Abs(init), last, '/');
      SplitFree(last, '/');
    }
  }

  lemma {:induction false} AbsInjective(a: seq<string>, b: seq<string>)
    requires ProperPath(a) && ProperPath(b) && Abs(a) == Abs(b)
    ensures a == b
  {
    SplitAbs(a);
    SplitAbs(b);
    assert a == ([""] + a)[1..];
    assert b == ([""] + b)[1..];
  }

  /** The part of a path before its last slash. */
  function Dirname(path: string): string {
    if path == "" then ""
    else if path[|path| - 1] == '/' then path[..|path| - 1]
    else Dirname(path[..|path| - 1])
  }

  lemma {:induction false} DirnameJoin(dir: string, name: string)
    requires Free(name, '/')
    ensures Dirname(dir + "/" + name) == dir
    decreases |name|
  {
    var path := dir + "/" + name;
    if name == "" {
      assert path[..|path| - 1] == dir;
    } else {
      assert path[..|path| - 1] == dir + "/" + name[..|name| - 1];
      assert path[|path| - 1] == name[|name| - 1];
      DirnameJoin(dir, name[..|name| - 1]);
    }
  }

  /** What is after the last slash. */
  lemma {:induction false} DirnameRest(path: string) returns (last: string)
    requires '/' in path
    ensures Free(last, '/') && path == Dirname(path) + "/" + last
  {
    var init := path[..|path| - 1];
    if path[|path| - 1] == '/' {
      last := "";
    } else {
      assert path == init + [path[|path| - 1]];
      last := DirnameRest(init);
      last := last + [path[|path| - 1]];
    }
  }

  lemma {:induction false} SplitDirname(path: string)
    requires '/' in path
    ensures Split(Dirname(path), '/') == Split(path, '/')[..|Split(path, '/')| - 1]
  {
    var last := DirnameRest(path);
    SplitAt(Dirname(path), last, '/');
    SplitFree(last, '/');
  }

  // ---------- where a symbolic link points ----------

  /** One component of a relative target, against the stack of names so far. */
  function Push(stack: seq<string>, part: string): seq<string> {
    if part == "" || part == "." then stack
    else if part == ".." then (if stack == [] then [] else stack[..|stack| - 1])
    else stack + [part]
  }

  function PushAll(stack: seq<string>, parts: seq<string>): seq<string>
    decreases |parts|
  {
    if parts == [] then stack else PushAll(Push(stack, parts[0]), parts[1..])
  }

  function AbsoluteTargetOf(linkPath: string, target: string): string {
    if |target| > 0 && target[0] == '/' then target
    else
      var link := Split(linkPath, '/');
      Join(PushAll(link[..|link| - 1], Split(target, '/')), "/")
  }

  method AbsoluteTarget(linkPath: string, target: string) returns (r: string)
    ensures r == AbsoluteTargetOf(linkPath, target)
  {
    if |target| > 0 && target[0] == '/' {
      return target;
    }
    var link := Split(linkPath, '/');
    var parts := link[..|link| - 1];
    var components := Split(target, '/');
    for i := 0 to |components|
      invariant PushAll(parts, components[i..]) == PushAll(link[..|link| - 1], components)
    {
      var part := components[i];
      if part == "" || part == "." {
        continue;
      }
      if part == ".." {
        parts := if parts == [] then [] else parts[..|parts| - 1];
        continue;
      }
      parts := parts + [part];
    }
    return Join(parts, "/");
  }

  /**
   * Lexical resolution of a relative target from a directory, as a list of names: none when it climbs past the root.
   */
  datatype Resolved = Escapes | Names(names: seq<string>)

  function Resolve(dir: seq<string>, parts: seq<string>): Resolved
    decreases |parts|
  {
    if parts == [] then Names(dir)
    else if parts[0] == "" || parts[0] == "." then Resolve(dir, parts[1..])
    else if parts[0] == ".." then (if dir == [] then Escapes else Resolve(dir[..|dir| - 1], parts[1..]))
    else Resolve(dir + [parts[0]], parts[1..])
  }

  lemma {:induction false} PushAllResolves(dir: seq<string>, parts: seq<string>)
    requires Resolve(dir, parts).Names?
    ensures PushAll([""] + dir, parts) == [""] + Resolve(dir, parts).names
    decreases |parts|
  {
    if parts != [] {
      if parts[0] == "" || parts[0] == "." {
        PushAllResolves(dir, parts[1..]);
      } else if parts[0] == ".." {
        assert Push([""] + dir, parts[0]) == [""] + dir[..|dir| - 1];
        PushAllResolves(dir[..|dir| - 1], parts[1..]);
      } else {
        assert Push([""] + dir, parts[0]) == [""] + (dir + [parts[0]]);
        PushAllResolves(dir + [parts[0]], parts[1..]);
      }
    }
  }

  /** A part that can be on the stack once the root's own mark is off it. */
  ghost predicate Plain(parts: seq<string>) {
    forall p :: p in parts ==> p != "" && Free(p, '/')
  }

  lemma {:induction false} PlainPrefix(parts: seq<string>)
    requires Plain(parts) && parts != []
    ensures Plain(parts[..|parts| - 1])
  {
    var init := parts[..|parts| - 1];
    forall p | p in init ensures p != "" && Free(p, '/') {
      var i :| 0 <= i < |init| && init[i] == p;
      assert parts[i] == p && parts[i] in parts;
    }
  }

  lemma {:induction false} PushAllEscapes(dir: seq<string>, parts: seq<string>)
    requires Resolve(dir, parts).Escapes? && Plain(dir)
    requires forall p :: p in parts ==> Free(p, '/')
    ensures Plain(PushAll([""] + dir, parts))
    decreases |parts|
  {
    if parts[0] == "" || parts[0] == "." {
      PushAllEscapes(dir, parts[1..]);
    } else if parts[0] == ".." {
      if dir == [] {
        assert Push([""] + dir, parts[0]) == [];
        PushAllPlain([], parts[1..]);
      } else {
        assert Push([""] + dir, parts[0]) == [""] + dir[..|dir| - 1];
        PlainPrefix(dir);
        PushAllEscapes(dir[..|dir| - 1], parts[1..]);
      }
    } else {
      assert parts[0] in parts;
      assert Push([""] + dir, parts[0]) == [""] + (dir + [parts[0]]);
      PushAllEscapes(dir + [parts[0]], parts[1..]);
    }
  }

  lemma {:induction false} PushAllPlain(stack: seq<string>, parts: seq<string>)
    requires Plain(stack) && forall p :: p in parts ==> Free(p, '/')
    ensures Plain(PushAll(stack, parts))
    decreases |parts|
  {
    if parts != [] {
      assert parts[0] in parts;
      if stack != [] {
        PlainPrefix(stack);
      }
      PushAllPlain(Push(stack, parts[0]), parts[1..]);
    }
  }

  lemma {:induction false} JoinAbs(names: seq<string>)
    ensures Join([""] + names, "/") == Abs(names)
  {
    if names != [] {
      var init, last := names[..|names| - 1], names[|names| - 1];
      JoinAbs(init);
      JoinSnoc([""] + init, last);
      assert [""] + names == ([""] + init) + [last];
    }
  }

  lemma {:induction false} JoinSnoc(parts: seq<string>, last: string)
    requires |parts| > 0
    ensures Join(parts + [last], "/") == Join(parts, "/") + "/" + last
  {
    if |parts| == 1 {
      assert (parts + [last])[1..] == [last];
    } else {
      JoinSnoc(parts[1..], last);
      assert (parts + [last])[1..] == parts[1..] + [last];
    }
  }

  lemma {:induction false} ResolveIsProper(dir: seq<string>, parts: seq<string>)
    requires ProperPath(dir) && forall p :: p in parts ==> Free(p, '/')
    ensures Resolve(dir, parts).Names? ==> ProperPath(Resolve(dir, parts).names)
    decreases |parts|
  {
    if parts != [] {
      assert parts[0] in parts;
      if parts[0] == "" || parts[0] == "." {
        ResolveIsProper(dir, parts[1..]);
      } else if parts[0] == ".." {
        if dir != [] {
          ResolveIsProper(dir[..|dir| - 1], parts[1..]);
        }
      } else {
        ResolveIsProper(dir + [parts[0]], parts[1..]);
      }
    }
  }

  /**
   * A relative target comes out absolute exactly when it stays below the root, and then it names
   * what lexical resolution from the directory of the link names.
   */
  lemma {:induction false} AbsoluteTargetMeans(link: seq<string>, target: string)
    requires ProperPath(link) && link != [] && (target == "" || target[0] != '/')
    ensures var at := AbsoluteTargetOf(Abs(link), target);
      var r := Resolve(link[..|link| - 1], Split(target, '/'));
      && ((at != "" && at[0] == '/') <==> r.Names? && r.names != [])
      && (r.Names? ==> ProperPath(r.names) && at == Abs(r.names))
  {
    var dir, parts := link[..|link| - 1], Split(target, '/');
    SplitAbs(link);
    PartsAreFree(target, '/');
    ResolveIsProper(dir, parts);
    assert ([""] + link)[..|link|] == [""] + dir;
    if Resolve(dir, parts).Names? {
      var names := Resolve(dir, parts).names;
      PushAllResolves(dir, parts);
      JoinAbs(names);
      if names != [] {
        AbsStartsWithSlash(names);
      }
    } else {
      PushAllEscapes(dir, parts);
      var stack := PushAll([""] + dir, parts);
      if stack != [] {
        assert stack[0] in stack;
      }
    }
  }

  // ---------- where a path leads ----------

  predicate IsAbsolute(path: string) {
    path != "" && path[0] == '/'
  }

  /** One step from a directory. The root is its own parent. */
  function Stepped(dir: seq<string>, part: string): seq<string> {
    match part
    case "" => dir
    case "." => dir
    case ".." => if dir == [] then [] else dir[..|dir| - 1]
    case _ => dir + [part]
  }

  function Reached(dir: seq<string>, parts: seq<string>): seq<string>
    decreases |parts|
  {
    if parts == [] then dir else Reached(Stepped(dir, parts[0]), parts[1..])
  }

  /** What a path leads to when it is read in a directory: an absolute one starts from the root. */
  function Destination(dir: seq<string>, path: string): seq<string> {
    Reached(if IsAbsolute(path) then [] else dir, Split(path, '/'))
  }

  lemma {:induction false} ReachedByNames(dir: seq<string>, names: seq<string>)
    requires ProperPath(names)
    ensures Reached(dir, names) == dir + names
    decreases |names|
  {
    if names != [] {
      assert names[0] in names && forall n :: n in names[1..] ==> n in names;
      ReachedByNames(dir + [names[0]], names[1..]);
      assert (dir + [names[0]]) + names[1..] == dir + names;
    } else {
      assert dir + names == dir;
    }
  }

  /** The stack holds the names reached, behind the root's mark as long as that is there. */
  lemma {:induction false} StackReaches(stack: seq<string>, dir: seq<string>, parts: seq<string>)
    requires (stack == [""] + dir || stack == dir) && ProperPath(dir) && forall p :: p in parts ==> Free(p, '/')
    ensures var after, reached := PushAll(stack, parts), Reached(dir, parts);
      ProperPath(reached) && (after == [""] + reached || after == reached)
    decreases |parts|
  {
    if parts != [] {
      assert parts[0] in parts;
      if dir != [] {
        assert ([""] + dir)[..|dir|] == [""] + dir[..|dir| - 1];
      }
      assert [""] + dir + [parts[0]] == [""] + (dir + [parts[0]]);
      StackReaches(Push(stack, parts[0]), Stepped(dir, parts[0]), parts[1..]);
    }
  }

  /** A list of names put together, with the root's mark or without it, leads from the root to these names. */
  lemma {:induction false} JoinedLeads(stack: seq<string>, names: seq<string>)
    requires ProperPath(names) && (stack == [""] + names || stack == names)
    ensures Destination([], Join(stack, "/")) == names
  {
    ReachedByNames([], names);
    assert [] + names == names;
    if stack == [] {
      assert Split("", '/') == [""] && [""][1..] == [];
    } else {
      SplitJoin(stack, '/');
      assert ([""] + names)[1..] == names;
    }
  }

  /**
   * A target as it is written leads from the root where the target itself leads from the directory of its link. An
   * absolute one is written as it is, and nothing absolute changes when it is written again, for whatever link.
   */
  lemma {:induction false} WrittenLeads(link: seq<string>, target: string, other: string)
    requires ProperPath(link) && link != []
    ensures var written := AbsoluteTargetOf(Abs(link), target);
      && Destination([], written) == Destination(link[..|link| - 1], target)
      && (IsAbsolute(target) ==> written == target)
      && (IsAbsolute(written) ==> AbsoluteTargetOf(other, written) == written)
  {
    if !IsAbsolute(target) {
      var dir, parts := link[..|link| - 1], Split(target, '/');
      SplitAbs(link);
      PartsAreFree(target, '/');
      assert ([""] + link)[..|link|] == [""] + dir;
      StackReaches([""] + dir, dir, parts);
      JoinedLeads(PushAll([""] + dir, parts), Reached(dir, parts));
    }
  }

  lemma {:induction false} AbsStartsWithSlash(names: seq<string>)
    requires names != []
    ensures Abs(names) != "" && Abs(names)[0] == '/'
  {
    if |names| > 1 {
      AbsStartsWithSlash(names[..|names| - 1]);
    }
  }
}
