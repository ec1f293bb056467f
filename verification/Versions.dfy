/**
 * Version ordering and range resolution (site/js/multiverse.js, site/js/ranges.js). Reading a component as an integer
 * is left abstract: `num` says which components are integers, and which.
 */
module Versions {
  import opened Prelude

  type Numbers = string -> Option<int>

  // ---------- comparing ----------

  predicate IsSeparator(c: char) {
    c in {'.', '-', '_', '+'}
  }

  /** The runs of characters between separators. */
  function Components(v: string): seq<string> {
    if v == "" then []
    else if IsSeparator(v[0]) then Components(v[1..])
    else if |v| == 1 || IsSeparator(v[1]) then [[v[0]]] + Components(v[1..])
    else
      var rest := Components(v[1..]);
      if rest == [] then [[v[0]]] else [[v[0]] + rest[0]] + rest[1..]
  }

  /** Strings compare by their first different character; a prefix is smaller. */
  predicate Less(x: string, y: string) {
    y != "" && (x == "" || x[0] < y[0] || (x[0] == y[0] && Less(x[1..], y[1..])))
  }

  /** Two components: as integers when both are, otherwise as text. */
  function CompareOne(num: Numbers, x: string, y: string): int {
    if num(x).Some? && num(y).Some? then num(x).value - num(y).value
    else if x == y then 0 else if Less(x, y) then -1 else 1
  }

  function Compare(num: Numbers, a: seq<string>, b: seq<string>): int {
    if a == [] && b == [] then 0
    else if a == [] then -1
    else if b == [] then 1
    else if CompareOne(num, a[0], b[0]) != 0 then CompareOne(num, a[0], b[0])
    else Compare(num, a[1..], b[1..])
  }

  function CompareVersions(num: Numbers, a: string, b: string): int {
    Compare(num, Components(a), Components(b))
  }

  method CompareVersionsLoop(num: Numbers, a: string, b: string) returns (order: int)
    ensures order == CompareVersions(num, a, b)
  {
    var pa, pb := Components(a), Components(b);
    for i := 0 to (if |pa| < |pb| then |pb| else |pa|)
      invariant i <= |pa| && i <= |pb| && Compare(num, pa, pb) == Compare(num, pa[i..], pb[i..])
    {
      if i >= |pa| {
        return -1;
      }
      if i >= |pb| {
        return 1;
      }
      var nx, ny := num(pa[i]), num(pb[i]);
      if nx.Some? && ny.Some? {
        if nx.value != ny.value {
          return nx.value - ny.value;
        }
        continue;
      }
      if pa[i] != pb[i] {
        return if Less(pa[i], pb[i]) then -1 else 1;
      }
    }
    return 0;
  }

  // ---------- what the components of a version are ----------

  /** A piece of a version that nothing splits. */
  ghost predicate IsPiece(w: string) {
    w != "" && '.' !in w && '-' !in w && '_' !in w && '+' !in w
  }

  lemma {:induction false} OneComponent(w: string)
    requires IsPiece(w)
    ensures Components(w) == [w]
  {
    if |w| > 1 {
      assert w[1..] != "" && forall c :: c in w[1..] ==> c in w;
      OneComponent(w[1..]);
      assert [w[0]] + w[1..] == w;
    } else {
      assert w == [w[0]] && Components(w[1..]) == [];
    }
  }

  /** Each of the four characters splits a version, wherever it stands. */
  lemma {:induction false} ComponentsSplit(a: string, c: char, b: string)
    requires c == '.' || c == '-' || c == '_' || c == '+'
    ensures Components(a + [c] + b) == Components(a) + Components(b)
  {
    hide Components;
    var whole := a + [c] + b;
    ComponentsStep(whole);
    if a == "" {
      NoComponents();
      assert whole[1..] == b && [] + Components(b) == Components(b);
    } else {
      ComponentsSplit(a[1..], c, b);
      ComponentsStep(a);
      assert whole[0] == a[0] && whole[1..] == a[1..] + [c] + b;
      assert whole[1] == if |a| == 1 then c else a[1];
      if |a| > 1 && !IsSeparator(a[1]) {
        ComponentsNonEmpty(a[1..]);
      }
      PutBefore(a[0], |a| > 1 && !IsSeparator(a[1]), Components(a[1..]), Components(b));
    }
  }

  /** The components once one more character stands in front, and joins the first of them or stands alone. */
  function Put(c: char, joins: bool, rest: seq<string>): seq<string> {
    if joins && rest != [] then [[c] + rest[0]] + rest[1..] else [[c]] + rest
  }

  lemma {:induction false} ComponentsStep(v: string)
    requires v != ""
    ensures Components(v) ==
      if IsSeparator(v[0]) then Components(v[1..])
      else Put(v[0], |v| > 1 && !IsSeparator(v[1]), Components(v[1..]))
  {
  }

  lemma {:induction false} NoComponents()
    ensures Components("") == []
  {
  }

  lemma {:induction false} PutBefore(c: char, joins: bool, rest: seq<string>, more: seq<string>)
    requires joins ==> rest != []
    ensures Put(c, joins, rest + more) == Put(c, joins, rest) + more
  {
  }

  lemma {:induction false} ComponentsNonEmpty(v: string)
    requires v != "" && !IsSeparator(v[0])
    ensures Components(v) != []
  {
  }

  /** What follows a component: nothing, or a separator and whatever is behind it. */
  ghost predicate Ends(tail: string) {
    tail == "" || tail[0] == '.' || tail[0] == '-' || tail[0] == '_' || tail[0] == '+'
  }

  lemma {:induction false} ComponentsOf(front: string, c: char, x: string, tail: string)
    requires c == '.' || c == '-' || c == '_' || c == '+'
    requires IsPiece(x) && Ends(tail)
    ensures Components(front + [c] + x + tail) == Components(front) + ([x] + Components(tail))
  {
    hide Components;
    PieceFirst(x, tail);
    assert front + [c] + x + tail == front + [c] + (x + tail);
    ComponentsSplit(front, c, x + tail);
  }

  lemma {:induction false} PieceFirst(x: string, tail: string)
    requires IsPiece(x) && Ends(tail)
    ensures Components(x + tail) == [x] + Components(tail)
  {
    OneComponent(x);
    if tail == "" {
      assert x + tail == x;
      assert [x] + Components(tail) == [x];
    } else {
      assert x + tail == x + [tail[0]] + tail[1..];
      ComponentsSplit(x, tail[0], tail[1..]);
    }
  }

  lemma {:induction false} CompareSkips(num: Numbers, front: seq<string>, a: seq<string>, b: seq<string>)
    ensures Compare(num, front + a, front + b) == Compare(num, a, b)
  {
    if front == [] {
      assert front + a == a && front + b == b;
    } else {
      CompareSkips(num, front[1..], a, b);
      assert (front + a)[1..] == front[1..] + a && (front + b)[1..] == front[1..] + b;
    }
  }

  /**
   * Two versions alike up to a separator, with integers behind it, compare as these integers; if they are the same
   * number, as what is behind them. Which of the separators stands there makes no difference.
   */
  lemma {:induction false} NextIntegersDecide(num: Numbers, front: string, c: char, x: string, tail: string, c': char,
                                              x': string, tail': string)
    requires c == '.' || c == '-' || c == '_' || c == '+'
    requires c' == '.' || c' == '-' || c' == '_' || c' == '+'
    requires IsPiece(x) && IsPiece(x') && Ends(tail) && Ends(tail') && num(x).Some? && num(x').Some?
    ensures CompareVersions(num, front + [c] + x + tail, front + [c'] + x' + tail') ==
      if num(x) != num(x') then num(x).value - num(x').value else Compare(num, Components(tail), Components(tail'))
  {
    ComponentsOf(front, c, x, tail);
    ComponentsOf(front, c', x', tail');
    CompareSkips(num, Components(front), [x] + Components(tail), [x'] + Components(tail'));
    assert ([x] + Components(tail))[1..] == Components(tail) && ([x'] + Components(tail'))[1..] == Components(tail');
  }

  function Sign(n: int): int {
    if n < 0 then -1 else if n == 0 then 0 else 1
  }

  lemma {:induction false} LessIsTotal(x: string, y: string)
    ensures x == y <==> !Less(x, y) && !Less(y, x)
    ensures !(Less(x, y) && Less(y, x))
  {
    if x != "" && y != "" {
      LessIsTotal(x[1..], y[1..]);
      if x[0] == y[0] && x[1..] == y[1..] {
        assert x == [x[0]] + x[1..] && y == [y[0]] + y[1..];
      }
    }
  }

  /** Texts compare by the first character they differ in, or a beginning is below what it begins. */
  lemma {:induction false} LessMeans(x: string, y: string)
    ensures Less(x, y) <==> x < y || exists i :: 0 <= i < |x| && i < |y| && x[..i] == y[..i] && x[i] < y[i]
  {
    if x != "" && y != "" && x[0] == y[0] {
      var a, b := x[1..], y[1..];
      LessMeans(a, b);
      assert x == [x[0]] + a && y == [y[0]] + b;
      forall i | 0 <= i < |a| && i < |b| ensures a[..i] == b[..i] <==> x[..i + 1] == y[..i + 1] {
        assert x[..i + 1] == [x[0]] + a[..i] && y[..i + 1] == [y[0]] + b[..i];
        assert ([x[0]] + a[..i])[1..] == a[..i] && ([y[0]] + b[..i])[1..] == b[..i];
      }
      LessBehind(x, y);
    } else if x != "" && y != "" {
      assert x[..0] == y[..0];
    }
  }

  lemma {:induction false} LessBehind(x: string, y: string)
    requires x != "" && y != "" && x[0] == y[0]
    requires forall i :: 0 <= i < |x[1..]| && i < |y[1..]| ==>
      (x[1..][..i] == y[1..][..i] <==> x[..i + 1] == y[..i + 1])
    ensures (exists i :: 0 <= i < |x| && i < |y| && x[..i] == y[..i] && x[i] < y[i]) <==>
            (exists i :: 0 <= i < |x[1..]| && i < |y[1..]| && x[1..][..i] == y[1..][..i] && x[1..][i] < y[1..][i])
    ensures x < y <==> x[1..] < y[1..]
  {
    var a, b := x[1..], y[1..];
    assert x == [x[0]] + a && y == [y[0]] + b;
    if i :| 0 <= i < |x| && i < |y| && x[..i] == y[..i] && x[i] < y[i] {
      assert a[..i - 1] == b[..i - 1] && a[i - 1] < b[i - 1];
    }
    if i :| 0 <= i < |a| && i < |b| && a[..i] == b[..i] && a[i] < b[i] {
      assert x[..i + 1] == y[..i + 1] && x[i + 1] < y[i + 1];
    }
  }

  lemma {:induction false} LessIsTransitive(x: string, y: string, z: string)
    requires Less(x, y) && Less(y, z)
    ensures Less(x, z)
  {
    if x != "" && y != "" && x[0] == y[0] && y[0] == z[0] {
      LessIsTransitive(x[1..], y[1..], z[1..]);
    }
  }

  lemma {:induction false} OneIsAntisymmetric(num: Numbers, x: string, y: string)
    ensures Sign(CompareOne(num, x, y)) == -Sign(CompareOne(num, y, x))
  {
    LessIsTotal(x, y);
  }

  /** Comparing the other way round always gives the opposite sign. */
  lemma {:induction false} CompareIsAntisymmetric(num: Numbers, a: seq<string>, b: seq<string>)
    ensures Sign(Compare(num, a, b)) == -Sign(Compare(num, b, a))
  {
    if a != [] && b != [] {
      OneIsAntisymmetric(num, a[0], b[0]);
      CompareIsAntisymmetric(num, a[1..], b[1..]);
    }
  }

  // ---------- when comparing is transitive ----------

  ghost predicate OneIsTransitive(num: Numbers, kind: iset<string>) {
    forall x, y, z ::
      (x in kind && y in kind && z in kind && CompareOne(num, x, y) <= 0 && CompareOne(num, y, z) <= 0) ==>
        CompareOne(num, x, z) <= 0
  }

  /** Two integers in order, and a text that stands between them the other way round. */
  ghost predicate Crossed(num: Numbers, p: string, q: string, t: string) {
    num(p).Some? && num(q).Some? && num(t).None? && num(p).value <= num(q).value && Less(q, t) && Less(t, p)
  }

  ghost predicate Uncrossed(num: Numbers, kind: iset<string>) {
    forall p, q, t :: p in kind && q in kind && t in kind ==> !Crossed(num, p, q, t)
  }

  lemma {:induction false} UncrossedStep(num: Numbers, x: string, y: string, z: string)
    requires !Crossed(num, x, y, z) && !Crossed(num, y, z, x) && !Crossed(num, z, x, y)
    requires CompareOne(num, x, y) <= 0 && CompareOne(num, y, z) <= 0
    ensures CompareOne(num, x, z) <= 0
  {
    LessIsTotal(x, y);
    LessIsTotal(y, z);
    LessIsTotal(x, z);
    if Less(x, y) && Less(y, z) {
      LessIsTransitive(x, y, z);
    }
  }

  lemma {:induction false} CrossedBreaks(num: Numbers, p: string, q: string, t: string)
    requires Crossed(num, p, q, t)
    ensures CompareOne(num, p, q) <= 0 && CompareOne(num, q, t) <= 0 && CompareOne(num, p, t) > 0
  {
    LessIsTotal(t, p);
  }

  /** On a set of components comparing is transitive exactly when no text of it crosses two of its integers. */
  lemma {:induction false} OneIsTransitiveIff(num: Numbers, kind: iset<string>)
    ensures OneIsTransitive(num, kind) <==> Uncrossed(num, kind)
  {
    if OneIsTransitive(num, kind) {
      forall p, q, t | p in kind && q in kind && t in kind ensures !Crossed(num, p, q, t) {
        if Crossed(num, p, q, t) {
          CrossedBreaks(num, p, q, t);
        }
      }
    }
    if Uncrossed(num, kind) {
      forall x, y, z | x in kind && y in kind && z in kind && CompareOne(num, x, y) <= 0 && CompareOne(num, y, z) <= 0
        ensures CompareOne(num, x, z) <= 0
      {
        UncrossedStep(num, x, y, z);
      }
    }
  }

  /** Position by position, which components a version may have. */
  type Kinds = nat -> iset<string>

  ghost predicate Over(kinds: Kinds, a: seq<string>) {
    forall i :: 0 <= i < |a| ==> a[i] in kinds(i)
  }

  ghost predicate Transitive(num: Numbers, kinds: Kinds) {
    forall a, b, c ::
      (Over(kinds, a) && Over(kinds, b) && Over(kinds, c) && Compare(num, a, b) <= 0 && Compare(num, b, c) <= 0) ==>
        Compare(num, a, c) <= 0
  }

  /** No version gets past a position that has no components. */
  ghost predicate Reached(kinds: Kinds, i: nat) {
    exists a :: |a| == i && Over(kinds, a)
  }

  /** No position that a version can have is crossed. */
  ghost predicate Orderly(num: Numbers, kinds: Kinds) {
    forall i: nat :: Reached(kinds, i) ==> Uncrossed(num, kinds(i))
  }

  lemma {:induction false} ComparePrefixed(num: Numbers, w: seq<string>, x: string, y: string)
    ensures Compare(num, w + [x], w + [y]) == CompareOne(num, x, y)
  {
    if w != [] {
      assert (w + [x])[1..] == w[1..] + [x] && (w + [y])[1..] == w[1..] + [y];
      ComparePrefixed(num, w[1..], x, y);
    } else {
      assert [x][1..] == [] == [y][1..] && w + [x] == [x] && w + [y] == [y];
    }
  }

  lemma {:induction false} TransitiveIsUncrossed(num: Numbers, kinds: Kinds, i: nat)
    requires Transitive(num, kinds) && Reached(kinds, i)
    ensures Uncrossed(num, kinds(i))
  {
    hide Compare, CompareOne;
    var w :| |w| == i && Over(kinds, w);
    forall p, q, t | p in kinds(i) && q in kinds(i) && t in kinds(i) ensures !Crossed(num, p, q, t) {
      assert Over(kinds, w + [p]) && Over(kinds, w + [q]) && Over(kinds, w + [t]);
      ComparePrefixed(num, w, p, q);
      ComparePrefixed(num, w, q, t);
      ComparePrefixed(num, w, p, t);
      if Crossed(num, p, q, t) {
        CrossedBreaks(num, p, q, t);
      }
    }
  }

  /** Versions compare transitively exactly when no position is crossed; with antisymmetry, as a total preorder. */
  lemma {:induction false} CompareIsTransitiveIff(num: Numbers, kinds: Kinds)
    ensures Transitive(num, kinds) <==> Orderly(num, kinds)
  {
    if Orderly(num, kinds) {
      forall a, b, c | Over(kinds, a) && Over(kinds, b) && Over(kinds, c) &&
                       Compare(num, a, b) <= 0 && Compare(num, b, c) <= 0
        ensures Compare(num, a, c) <= 0
      {
        CompareIsTransitive(num, kinds, a, b, c);
      }
    }
    if Transitive(num, kinds) {
      forall i: nat | Reached(kinds, i) ensures Uncrossed(num, kinds(i)) {
        TransitiveIsUncrossed(num, kinds, i);
      }
    }
  }

  lemma {:induction false} CompareIsTransitive(num: Numbers, kinds: Kinds, a: seq<string>, b: seq<string>,
                                               c: seq<string>)
    requires Orderly(num, kinds) && Over(kinds, a) && Over(kinds, b) && Over(kinds, c)
    requires Compare(num, a, b) <= 0 && Compare(num, b, c) <= 0
    ensures Compare(num, a, c) <= 0
  {
    CompareFrom(num, kinds, [], a, b, c);
  }

  /** The same of what follows a common position. */
  lemma {:induction false} CompareFrom(num: Numbers, kinds: Kinds, w: seq<string>, a: seq<string>, b: seq<string>,
                                       c: seq<string>)
    requires Orderly(num, kinds) && Over(kinds, w)
    requires OverFrom(kinds, |w|, a) && OverFrom(kinds, |w|, b) && OverFrom(kinds, |w|, c)
    requires Compare(num, a, b) <= 0 && Compare(num, b, c) <= 0
    ensures Compare(num, a, c) <= 0
    decreases |a|
  {
    hide Less, Crossed;
    if a != [] && b != [] && c != [] {
      assert Reached(kinds, |w|);
      UncrossedStep(num, a[0], b[0], c[0]);
      OneIsAntisymmetric(num, a[0], b[0]);
      OneIsAntisymmetric(num, b[0], c[0]);
      OneIsAntisymmetric(num, a[0], c[0]);
      if CompareOne(num, a[0], c[0]) == 0 {
        EqualStays(num, a[0], b[0], c[0]);
        OverFromTail(kinds, |w|, a);
        OverFromTail(kinds, |w|, b);
        OverFromTail(kinds, |w|, c);
        CompareFrom(num, kinds, w + [a[0]], a[1..], b[1..], c[1..]);
      }
    }
  }

  /** Between equals there is nothing else. */
  lemma {:induction false} EqualStays(num: Numbers, x: string, y: string, z: string)
    requires !Crossed(num, z, x, y) && !Crossed(num, x, y, z) && !Crossed(num, y, z, x)
    requires CompareOne(num, x, y) <= 0 && CompareOne(num, y, z) <= 0 && CompareOne(num, x, z) == 0
    ensures CompareOne(num, x, y) == 0 && CompareOne(num, y, z) == 0
  {
    LessIsTotal(x, y);
    LessIsTotal(y, z);
    LessIsTotal(x, z);
    if Less(x, y) && Less(y, z) {
      LessIsTransitive(x, y, z);
    }
  }

  ghost predicate OverFrom(kinds: Kinds, n: nat, a: seq<string>) {
    forall i :: 0 <= i < |a| ==> a[i] in kinds(n + i)
  }

  lemma {:induction false} OverFromTail(kinds: Kinds, n: nat, a: seq<string>)
    requires OverFrom(kinds, n, a) && a != []
    ensures OverFrom(kinds, n + 1, a[1..])
  {
    forall i | 0 <= i < |a[1..]| ensures a[1..][i] in kinds(n + 1 + i) {
      assert a[1..][i] == a[i + 1];
    }
  }

  /** Each position an integer in every version, or in none. */
  ghost predicate Uniform(num: Numbers, integers: nat -> bool, kinds: Kinds) {
    forall i: nat, x :: x in kinds(i) ==> (num(x).Some? <==> integers(i))
  }

  lemma {:induction false} UniformIsOrderly(num: Numbers, integers: nat -> bool, kinds: Kinds)
    requires Uniform(num, integers, kinds)
    ensures Orderly(num, kinds) && Transitive(num, kinds)
  {
    forall i: nat, p, q, t | p in kinds(i) && q in kinds(i) && t in kinds(i) ensures !Crossed(num, p, q, t) {
      assert num(p).Some? <==> integers(i);
      assert num(t).Some? <==> integers(i);
    }
    CompareIsTransitiveIff(num, kinds);
  }

  /** In general it is not: 9 is below 10, 10 below 1a, and 1a below 9, for 1a crosses the two integers. */
  lemma {:induction false} CompareIsCyclic(num: Numbers)
    requires num("9") == Some(9) && num("10") == Some(10) && num("1a") == None
    ensures CompareVersions(num, "9", "10") < 0
    ensures CompareVersions(num, "10", "1a") < 0
    ensures CompareVersions(num, "1a", "9") < 0
    ensures Crossed(num, "9", "10", "1a")
  {
    assert Components("9") == ["9"];
    assert "10"[1..] == "0" && "1a"[1..] == "a";
    assert Components("0") == ["0"] && Components("a") == ["a"];
    assert ['1'] + "0" == "10" && ['1'] + "a" == "1a";
    assert Components("10") == ["10"] && Components("1a") == ["1a"];
    assert Less("0", "a") && Less("10", "1a");
    assert Less("1a", "9");
  }

  /** A version that goes on where another ends is above it: 1.2 is below 1.2-rc1. */
  lemma {:induction false} ShorterIsSmaller(num: Numbers, a: seq<string>, b: seq<string>)
    requires a < b
    ensures Compare(num, a, b) < 0
  {
    if a != [] {
      ShorterIsSmaller(num, a[1..], b[1..]);
    }
  }

  // ---------- the joined index ----------

  /** `storePath` is None for a version that shipped without one. */
  datatype Row = Row(version: string, storePath: Option<string>)

  ghost predicate AllOver(kinds: Kinds, rows: seq<Row>) {
    forall r :: r in rows ==> Over(kinds, Components(r.version))
  }

  predicate Newer(num: Numbers, r: Row, s: Row) {
    CompareVersions(num, s.version, r.version) <= 0
  }

  /** A stable sort, newest first. */
  function Insert(num: Numbers, sorted: seq<Row>, r: Row): seq<Row> {
    if sorted == [] then [r]
    else if Newer(num, sorted[|sorted| - 1], r) then sorted + [r]
    else Insert(num, sorted[..|sorted| - 1], r) + [sorted[|sorted| - 1]]
  }

  function SortNewest(num: Numbers, rows: seq<Row>): seq<Row> {
    if rows == [] then [] else Insert(num, SortNewest(num, rows[..|rows| - 1]), rows[|rows| - 1])
  }

  ghost predicate NewestFirst(num: Numbers, rows: seq<Row>) {
    forall i, j :: 0 <= i < j < |rows| ==> Newer(num, rows[i], rows[j])
  }

  lemma {:induction false} InsertKeeps(num: Numbers, sorted: seq<Row>, r: Row)
    ensures multiset(Insert(num, sorted, r)) == multiset(sorted) + multiset{r}
  {
    if sorted != [] {
      var init, last := sorted[..|sorted| - 1], sorted[|sorted| - 1];
      assert sorted == init + [last];
      InsertKeeps(num, init, r);
    }
  }

  /** Sorting keeps every row, as often as it was there. */
  lemma {:induction false} SortKeeps(num: Numbers, rows: seq<Row>)
    ensures multiset(SortNewest(num, rows)) == multiset(rows)
  {
    if rows != [] {
      var init, last := rows[..|rows| - 1], rows[|rows| - 1];
      assert rows == init + [last];
      SortKeeps(num, init);
      InsertKeeps(num, SortNewest(num, init), last);
    }
  }

  lemma {:induction false} SameMembers<T>(a: seq<T>, b: seq<T>, x: T)
    requires multiset(a) == multiset(b)
    ensures x in a <==> x in b
  {
    assert x in a <==> x in multiset(a);
    assert x in b <==> x in multiset(b);
  }

  lemma {:induction false} NewerIsTransitive(num: Numbers, kinds: Kinds, r: Row, s: Row, t: Row)
    requires Orderly(num, kinds) && Over(kinds, Components(r.version)) && Over(kinds, Components(s.version))
    requires Over(kinds, Components(t.version)) && Newer(num, r, s) && Newer(num, s, t)
    ensures Newer(num, r, t)
  {
    CompareIsTransitive(num, kinds, Components(t.version), Components(s.version), Components(r.version));
  }

  lemma {:induction false} NewerIsTotal(num: Numbers, r: Row, s: Row)
    ensures Newer(num, r, s) || Newer(num, s, r)
  {
    CompareIsAntisymmetric(num, Components(r.version), Components(s.version));
  }

  lemma {:induction false} InsertSorts(num: Numbers, kinds: Kinds, sorted: seq<Row>, r: Row)
    requires Orderly(num, kinds) && NewestFirst(num, sorted) && AllOver(kinds, sorted)
    requires Over(kinds, Components(r.version))
    ensures NewestFirst(num, Insert(num, sorted, r))
  {
    if sorted != [] {
      var init, last := sorted[..|sorted| - 1], sorted[|sorted| - 1];
      if Newer(num, last, r) {
        forall i | 0 <= i < |sorted| ensures Newer(num, sorted[i], r) {
          if i < |sorted| - 1 {
            NewerIsTransitive(num, kinds, sorted[i], last, r);
          }
        }
      } else {
        InsertSorts(num, kinds, init, r);
        InsertKeeps(num, init, r);
        var more := Insert(num, init, r);
        forall i | 0 <= i < |more| ensures Newer(num, more[i], last) {
          MemberOfInsert(num, init, r, more[i]);
          NewerIsTotal(num, last, r);
        }
      }
    }
  }

  lemma {:induction false} MemberOfInsert(num: Numbers, sorted: seq<Row>, r: Row, x: Row)
    ensures x in Insert(num, sorted, r) <==> x in sorted || x == r
  {
    InsertKeeps(num, sorted, r);
    assert multiset(sorted + [r]) == multiset(sorted) + multiset{r};
    SameMembers(Insert(num, sorted, r), sorted + [r], x);
  }

  /** On versions of orderly kinds sorting sorts. */
  lemma {:induction false} SortSorts(num: Numbers, kinds: Kinds, rows: seq<Row>)
    requires Orderly(num, kinds) && AllOver(kinds, rows)
    ensures NewestFirst(num, SortNewest(num, rows))
  {
    if rows != [] {
      var init, last := rows[..|rows| - 1], rows[|rows| - 1];
      SortSorts(num, kinds, init);
      SortKeeps(num, init);
      forall r | r in SortNewest(num, init) ensures Over(kinds, Components(r.version)) {
        SameMembers(SortNewest(num, init), init, r);
      }
      InsertSorts(num, kinds, SortNewest(num, init), last);
    }
  }

  function RowsOf(versions: seq<string>, entries: map<string, string>): seq<Row> {
    if versions == [] then []
    else
      var v := versions[|versions| - 1];
      RowsOf(versions[..|versions| - 1], entries) + [Row(v, if v in entries then Some(entries[v]) else None)]
  }

  /** `indexed` and `built` are the versions the two indexes name; `entries` gives the store paths. */
  function MergeVersions(num: Numbers, indexed: seq<string>, built: seq<string>,
                         entries: map<string, string>): seq<Row>
  {
    SortNewest(num, RowsOf(Deduplicated(indexed + built), entries))
  }

  lemma {:induction false} RowsOfMean(versions: seq<string>, entries: map<string, string>)
    ensures |RowsOf(versions, entries)| == |versions|
    ensures forall i :: 0 <= i < |versions| ==>
      RowsOf(versions, entries)[i] ==
      Row(versions[i], if versions[i] in entries then Some(entries[versions[i]]) else None)
  {
    if versions != [] {
      RowsOfMean(versions[..|versions| - 1], entries);
    }
  }

  ghost predicate RowOf(entries: map<string, string>, r: Row) {
    r.storePath == if r.version in entries then Some(entries[r.version]) else None
  }

  lemma {:induction false} RowsOfMembers(versions: seq<string>, entries: map<string, string>, r: Row)
    ensures r in RowsOf(versions, entries) <==> r.version in versions && RowOf(entries, r)
  {
    RowsOfMean(versions, entries);
    if r.version in versions {
      var i :| 0 <= i < |versions| && versions[i] == r.version;
      assert RowsOf(versions, entries)[i].version == r.version;
    }
  }

  lemma {:induction false} RowsOfOnce(versions: seq<string>, entries: map<string, string>, r: Row)
    requires Distinct(versions) && r in RowsOf(versions, entries)
    ensures multiset(RowsOf(versions, entries))[r] == 1
  {
    var init, v := versions[..|versions| - 1], versions[|versions| - 1];
    var rows, last := RowsOf(init, entries), Row(v, if v in entries then Some(entries[v]) else None);
    assert versions == init + [v];
    RowsOfMembers(init, entries, r);
    assert multiset(rows + [last]) == multiset(rows) + multiset{last};
    if r in rows {
      RowsOfOnce(init, entries, r);
    }
  }

  /** One row for each version either index names, with its store path if it has one, and no version twice. */
  lemma {:induction false} MergeMeans(num: Numbers, indexed: seq<string>, built: seq<string>,
                                      entries: map<string, string>, r: Row)
    ensures r in MergeVersions(num, indexed, built, entries) <==>
      (r.version in indexed || r.version in built) && RowOf(entries, r)
    ensures multiset(MergeVersions(num, indexed, built, entries))[r] <= 1
  {
    var versions := Deduplicated(indexed + built);
    var rows := RowsOf(versions, entries);
    DeduplicatedMeans(indexed + built);
    assert forall k :: k in versions <==> k in ToSet(versions);
    RowsOfMembers(versions, entries, r);
    SortKeeps(num, rows);
    SameMembers(SortNewest(num, rows), rows, r);
    if r in rows {
      RowsOfOnce(versions, entries, r);
    }
  }

  /** And, on versions of orderly kinds, newest first. */
  lemma {:induction false} MergeIsSorted(num: Numbers, kinds: Kinds, indexed: seq<string>, built: seq<string>,
                                         entries: map<string, string>)
    requires Orderly(num, kinds) && forall v :: v in indexed + built ==> Over(kinds, Components(v))
    ensures NewestFirst(num, MergeVersions(num, indexed, built, entries))
  {
    var versions := Deduplicated(indexed + built);
    DeduplicatedMeans(indexed + built);
    assert forall k :: k in versions <==> k in ToSet(versions);
    forall r | r in RowsOf(versions, entries) ensures Over(kinds, Components(r.version)) {
      RowsOfMembers(versions, entries, r);
    }
    SortSorts(num, kinds, RowsOf(versions, entries));
  }

  // ---------- ranges ----------

  datatype Operator = AtLeast | AtMost | Above | Below | Exactly

  datatype Spec = Spec(attr: string, operator: Option<Operator>, pattern: Option<string>)

  /** A star at the end, and a dot before it, stand for nothing. */
  function PrefixOf(pattern: string): string {
    if pattern == "" || pattern[|pattern| - 1] != '*' then pattern
    else
      var rest := pattern[..|pattern| - 1];
      if rest != "" && rest[|rest| - 1] == '.' then rest[..|rest| - 1] else rest
  }

  predicate Matches(num: Numbers, spec: Spec, version: string) {
    match spec.pattern
    case None => true
    case Some(pattern) =>
      var order := CompareVersions(num, version, pattern);
      match spec.operator
      case Some(AtLeast) => order >= 0
      case Some(AtMost) => order <= 0
      case Some(Above) => order > 0
      case Some(Below) => order < 0
      case _ => version == PrefixOf(pattern) || PrefixOf(pattern) + "." <= version
  }

  /** Without an operator a pattern is a prefix of whole components; a star at its end says the same. */
  lemma {:induction false} PrefixMatches(num: Numbers, attr: string, operator: Option<Operator>, p: string,
                                         version: string)
    requires operator.None? || operator == Some(Exactly)
    requires p == "" || p[|p| - 1] != '*'
    ensures Matches(num, Spec(attr, operator, Some(p)), version) <==>
            version == p || exists rest :: version == p + "." + rest
    ensures Matches(num, Spec(attr, operator, Some(p + ".*")), version) <==>
            Matches(num, Spec(attr, operator, Some(p)), version)
    ensures p == "" || p[|p| - 1] != '.' ==>
      (Matches(num, Spec(attr, operator, Some(p + "*")), version) <==>
       Matches(num, Spec(attr, operator, Some(p)), version))
    ensures Matches(num, Spec(attr, operator, Some(p)), version) ==> Components(p) <= Components(version)
  {
    hide Components, CompareVersions;
    PrefixesOf(p);
    if p + "." <= version {
      assert version == p + "." + version[|p| + 1..];
      ComponentsSplit(p, '.', version[|p| + 1..]);
    }
  }

  lemma {:induction false} PrefixesOf(p: string)
    requires p == "" || p[|p| - 1] != '*'
    ensures PrefixOf(p) == p && PrefixOf(p + ".*") == p
    ensures p == "" || p[|p| - 1] != '.' ==> PrefixOf(p + "*") == p
  {
    assert (p + "*")[..|p|] == p;
    assert (p + ".*")[..|p| + 1] == p + "." && (p + ".")[..|p|] == p;
  }

  /** An operator makes it a bound; behind a common front and any separators integers are compared as integers. */
  lemma {:induction false} RangeMatches(num: Numbers, attr: string, front: string, c: char, x: string, c': char,
                                        x': string)
    requires c == '.' || c == '-' || c == '_' || c == '+'
    requires c' == '.' || c' == '-' || c' == '_' || c' == '+'
    requires IsPiece(x) && IsPiece(x') && num(x).Some? && num(x').Some?
    ensures var version, bound := front + [c] + x, Some(front + [c'] + x');
      && (Matches(num, Spec(attr, Some(AtLeast), bound), version) <==> num(x).value >= num(x').value)
      && (Matches(num, Spec(attr, Some(AtMost), bound), version) <==> num(x).value <= num(x').value)
      && (Matches(num, Spec(attr, Some(Above), bound), version) <==> num(x).value > num(x').value)
      && (Matches(num, Spec(attr, Some(Below), bound), version) <==> num(x).value < num(x').value)
  {
    var version, bound := front + [c] + x, front + [c'] + x';
    assert version == version + "" && bound == bound + "";
    NextIntegersDecide(num, front, c, x, "", c', x', "");
  }

  predicate Bootable(r: Row) {
    r.storePath.Some?
  }

  predicate Wanted(num: Numbers, spec: Spec, r: Row) {
    Bootable(r) && Matches(num, spec, r.version)
  }

  function FirstWanted(num: Numbers, spec: Spec, versions: seq<Row>): Option<Row> {
    if versions == [] then None
    else if Wanted(num, spec, versions[0]) then Some(versions[0])
    else FirstWanted(num, spec, versions[1..])
  }

  method Find(num: Numbers, spec: Spec, versions: seq<Row>) returns (hit: Option<Row>)
    ensures hit == FirstWanted(num, spec, versions)
  {
    for i := 0 to |versions|
      invariant FirstWanted(num, spec, versions) == FirstWanted(num, spec, versions[i..])
    {
      assert versions[i..][1..] == versions[i + 1..];
      if Wanted(num, spec, versions[i]) {
        return Some(versions[i]);
      }
    }
    return None;
  }

  function RowsFor(index: map<string, seq<Row>>, attr: string): seq<Row> {
    if attr in index then index[attr] else []
  }

  /** What the index has of an attribute, newest first. */
  function VersionsOf(num: Numbers, index: map<string, seq<Row>>, attr: string): seq<Row> {
    SortNewest(num, RowsFor(index, attr))
  }

  /** The newest bootable version that matches. */
  ghost predicate IsNewestMatch(num: Numbers, versions: seq<Row>, spec: Spec, hit: Row) {
    && hit in versions && hit.storePath.Some? && Matches(num, spec, hit.version)
    && forall r :: r in versions && r.storePath.Some? && Matches(num, spec, r.version) && r != hit ==>
         CompareVersions(num, r.version, hit.version) <= 0
  }

  ghost predicate NoMatch(num: Numbers, versions: seq<Row>, spec: Spec) {
    forall r :: r in versions && r.storePath.Some? ==> !Matches(num, spec, r.version)
  }

  lemma {:induction false} FirstWantedMeans(num: Numbers, spec: Spec, versions: seq<Row>)
    ensures FirstWanted(num, spec, versions).None? <==> NoMatch(num, versions, spec)
    ensures FirstWanted(num, spec, versions).Some? && NewestFirst(num, versions) ==>
            IsNewestMatch(num, versions, spec, FirstWanted(num, spec, versions).value)
    ensures FirstWanted(num, spec, versions).Some? ==> FirstWanted(num, spec, versions).value in versions
  {
    hide Matches, CompareVersions;
    if versions != [] {
      var rest := versions[1..];
      assert versions == [versions[0]] + rest;
      forall i, j | 0 <= i < j < |rest| && NewestFirst(num, versions) ensures Newer(num, rest[i], rest[j]) {
        assert Newer(num, versions[i + 1], versions[j + 1]);
      }
      FirstWantedMeans(num, spec, rest);
    }
  }

  datatype Problem = NotInIndex(attr: string) | NoLiveVersion(attr: string)

  function ProblemOf(num: Numbers, index: map<string, seq<Row>>, spec: Spec): seq<Problem> {
    var versions := VersionsOf(num, index, spec.attr);
    if versions == [] then [NotInIndex(spec.attr)]
    else if FirstWanted(num, spec, versions).None? then [NoLiveVersion(spec.attr)] else []
  }

  function HitOf(num: Numbers, index: map<string, seq<Row>>, spec: Spec): seq<Row> {
    var hit := FirstWanted(num, spec, VersionsOf(num, index, spec.attr));
    if hit.Some? then [hit.value] else []
  }

  function ProblemsOf(num: Numbers, index: map<string, seq<Row>>, specs: seq<Spec>): seq<Problem> {
    if specs == [] then [] else ProblemsOf(num, index, specs[..|specs| - 1]) + ProblemOf(num, index, specs[|specs| - 1])
  }

  function HitsOf(num: Numbers, index: map<string, seq<Row>>, specs: seq<Spec>): seq<Row> {
    if specs == [] then [] else HitsOf(num, index, specs[..|specs| - 1]) + HitOf(num, index, specs[|specs| - 1])
  }

  /** Each spec adds its first wanted version to the resolved ones, or a problem, in the order of the specs. */
  method ResolveSpecs(num: Numbers, index: map<string, seq<Row>>, specs: seq<Spec>)
    returns (resolved: seq<Row>, problems: seq<Problem>)
    ensures resolved == HitsOf(num, index, specs) && problems == ProblemsOf(num, index, specs)
  {
    hide VersionsOf, Wanted;
    resolved, problems := [], [];
    for i := 0 to |specs|
      invariant resolved == HitsOf(num, index, specs[..i]) && problems == ProblemsOf(num, index, specs[..i])
    {
      assert specs[..i + 1][..i] == specs[..i];
      var spec := specs[i];
      var versions := VersionsOf(num, index, spec.attr);
      if |versions| == 0 {
        problems := problems + [NotInIndex(spec.attr)];
        continue;
      }
      var hit := Find(num, spec, versions);
      if hit.None? {
        problems := problems + [NoLiveVersion(spec.attr)];
        continue;
      }
      resolved := resolved + [hit.value];
    }
    assert specs[..|specs|] == specs;
  }

  /**
   * A spec is a problem exactly when nothing in the index can boot and match; otherwise, on versions of orderly kinds,
   * it resolves to a maximum among all that can.
   */
  lemma {:induction false} ResolvedIsMaximum(num: Numbers, kinds: Kinds, index: map<string, seq<Row>>, spec: Spec)
    requires Orderly(num, kinds) && AllOver(kinds, RowsFor(index, spec.attr))
    ensures ProblemOf(num, index, spec) == [] <==> !NoMatch(num, RowsFor(index, spec.attr), spec)
    ensures ProblemOf(num, index, spec) == [NotInIndex(spec.attr)] <==> RowsFor(index, spec.attr) == []
    ensures ProblemOf(num, index, spec) == [] <==> |HitOf(num, index, spec)| == 1
    ensures ProblemOf(num, index, spec) == [] ==>
      IsNewestMatch(num, RowsFor(index, spec.attr), spec, HitOf(num, index, spec)[0])
  {
    var rows, versions := RowsFor(index, spec.attr), VersionsOf(num, index, spec.attr);
    SortSorts(num, kinds, rows);
    SortKeeps(num, rows);
    FirstWantedMeans(num, spec, versions);
    forall r ensures r in rows <==> r in versions {
      SameMembers(versions, rows, r);
    }
  }
}
