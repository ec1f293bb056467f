/** The closure walk of site/js/closure.js and the union of walks of site/js/app.js. */
module Closure {
  import opened Prelude

  /** A store path's digest. Wrapped, so that digests are compared whole. */
  datatype Digest = Digest(text: string)

  const STORE_PREFIX := "/nix/store/"
  const DIGEST_LENGTH := 32
  const FETCH_CONCURRENCY := 20

  /** How a package's name is shortened to the key everything is looked up by. */
  function DigestOf(basename: string): Digest {
    Digest(if |basename| <= DIGEST_LENGTH then basename else basename[..DIGEST_LENGTH])
  }

  datatype Narinfo = Narinfo(storePath: string, references: seq<string>)

  /** The name of a package is its digest, a dash, and what it is called. */
  lemma {:induction false} DigestLeads(digest: string, name: string)
    requires |digest| == 32
    ensures DigestOf(digest + "-" + name) == Digest(digest)
  {
    assert (digest + "-" + name)[..32] == digest;
  }

  /** What the configured caches answer, digest by digest. A digest outside it makes a fetch throw. */
  type Index = map<Digest, Narinfo>

  function DigestsOf(references: seq<string>): set<Digest> {
    set r | r in references :: DigestOf(r)
  }

  function Refs(index: Index, d: Digest): set<Digest> {
    if d in index then DigestsOf(index[d].references) else {}
  }

  ghost predicate Closed(index: Index, s: set<Digest>) {
    forall d :: d in s ==> Refs(index, d) <= s
  }

  // ---------- reachability ----------

  ghost function Successors(index: Index, s: set<Digest>): set<Digest> {
    set d, e | d in s && e in Refs(index, d) :: e
  }

  /** Digests at most `n` references away from `root` along paths that stay out of `known`. */
  ghost function Ball(index: Index, known: set<Digest>, root: Digest, n: nat): set<Digest> {
    if n == 0 then {root} - known
    else Ball(index, known, root, n - 1) + (Successors(index, Ball(index, known, root, n - 1)) - known)
  }

  /** Everything the walk could ever queue. */
  ghost function Universe(index: Index, root: Digest): set<Digest> {
    {root} + Successors(index, index.Keys)
  }

  /** The digests reachable from `root` along paths that stay out of `known` (ReachMeans). */
  ghost function Reach(index: Index, known: set<Digest>, root: Digest): set<Digest> {
    Ball(index, known, root, |Universe(index, root)|)
  }

  /** A reference chain. */
  ghost predicate IsPath(index: Index, p: seq<Digest>, from: Digest, to: Digest) {
    |p| > 0 && p[0] == from && p[|p| - 1] == to && forall i :: 0 <= i < |p| - 1 ==> p[i + 1] in Refs(index, p[i])
  }

  lemma {:induction false} BallMonotone(index: Index, known: set<Digest>, root: Digest, m: nat, n: nat)
    requires m <= n
    ensures Ball(index, known, root, m) <= Ball(index, known, root, n)
    decreases n
  {
    if m < n {
      BallMonotone(index, known, root, m, n - 1);
    }
  }

  lemma {:induction false} BallFixpoint(index: Index, known: set<Digest>, root: Digest, k: nat, n: nat)
    requires Ball(index, known, root, k + 1) == Ball(index, known, root, k)
    ensures Ball(index, known, root, n) <= Ball(index, known, root, k)
  {
    if n <= k {
      BallMonotone(index, known, root, n, k);
    } else {
      BallFixpoint(index, known, root, k, n - 1);
      assert Successors(index, Ball(index, known, root, n - 1)) <= Successors(index, Ball(index, known, root, k));
    }
  }

  /** The step-bounded definition agrees with reference chains: every member has one... */
  lemma {:induction false} BallHasPath(index: Index, root: Digest, d: Digest, n: nat) returns (p: seq<Digest>)
    requires d in Ball(index, {}, root, n)
    ensures IsPath(index, p, root, d) && |p| <= n + 1
    decreases n
  {
    if n == 0 {
      p := [root];
    } else if d in Ball(index, {}, root, n - 1) {
      p := BallHasPath(index, root, d, n - 1);
    } else {
      var c :| c in Ball(index, {}, root, n - 1) && d in Refs(index, c);
      p := BallHasPath(index, root, c, n - 1);
      p := p + [d];
    }
  }

  /** ...and every chain stays inside the ball of its length. */
  lemma {:induction false} PathInBall(index: Index, root: Digest, d: Digest, p: seq<Digest>)
    requires IsPath(index, p, root, d)
    ensures d in Ball(index, {}, root, |p| - 1)
    decreases |p|
  {
    if |p| > 1 {
      var q := p[..|p| - 1];
      PathInBall(index, root, q[|q| - 1], q);
      assert d in Refs(index, q[|q| - 1]);
      assert d in Successors(index, Ball(index, {}, root, |p| - 2));
    }
  }

  /** So a ball holds exactly what is at most `n` references away. */
  lemma {:induction false} BallMeans(index: Index, root: Digest, d: Digest, n: nat)
    ensures d in Ball(index, {}, root, n) <==> exists p :: IsPath(index, p, root, d) && |p| <= n + 1
  {
    if d in Ball(index, {}, root, n) {
      var p := BallHasPath(index, root, d, n);
    }
    forall p | IsPath(index, p, root, d) && |p| <= n + 1 ensures d in Ball(index, {}, root, n) {
      PathInBall(index, root, d, p);
      BallMonotone(index, {}, root, |p| - 1, n);
    }
  }

  lemma {:induction false} BallInUniverse(index: Index, known: set<Digest>, root: Digest, n: nat)
    ensures Ball(index, known, root, n) <= Universe(index, root)
  {
    if n > 0 {
      BallInUniverse(index, known, root, n - 1);
    }
  }

  lemma {:induction false} BallStep(index: Index, known: set<Digest>, root: Digest, n: nat)
    requires n > 0 && Ball(index, known, root, n) == Ball(index, known, root, n - 1)
    ensures Ball(index, known, root, n + 1) == Ball(index, known, root, n)
  {
  }

  /** Balls stop growing by the time they could have filled the universe. */
  lemma {:induction false} BallsStabilise(index: Index, known: set<Digest>, root: Digest, n: nat)
    ensures Ball(index, known, root, n + 1) == Ball(index, known, root, n) || |Ball(index, known, root, n)| >= n
    decreases n
  {
    hide Ball, Successors;
    if n > 0 {
      BallMonotone(index, known, root, n - 1, n);
      BallsStabilise(index, known, root, n - 1);
      var smaller, ball := Ball(index, known, root, n - 1), Ball(index, known, root, n);
      if ball == smaller {
        BallStep(index, known, root, n);
      } else {
        ProperSubsetIsSmaller(smaller, ball);
      }
    }
  }

  lemma {:induction false} ReachIsFixpoint(index: Index, known: set<Digest>, root: Digest, n: nat)
    ensures Ball(index, known, root, n) <= Reach(index, known, root)
  {
    var size := |Universe(index, root)|;
    BallsStabilise(index, known, root, size);
    if Ball(index, known, root, size + 1) != Ball(index, known, root, size) {
      UniverseFilled(index, known, root, size);
    }
    BallFixpoint(index, known, root, size, n);
  }

  lemma {:induction false} UniverseFilled(index: Index, known: set<Digest>, root: Digest, n: nat)
    requires |Ball(index, known, root, n)| >= |Universe(index, root)|
    ensures Ball(index, known, root, n + 1) == Ball(index, known, root, n)
  {
    BallMonotone(index, known, root, n, n + 1);
    BallInUniverse(index, known, root, n);
    BallInUniverse(index, known, root, n + 1);
    if Ball(index, known, root, n) < Universe(index, root) {
      ProperSubsetIsSmaller(Ball(index, known, root, n), Universe(index, root));
    }
  }

  lemma {:induction false} ReachAtFixpoint(index: Index, known: set<Digest>, root: Digest, k: nat)
    requires Ball(index, known, root, k + 1) == Ball(index, known, root, k)
    ensures Reach(index, known, root) == Ball(index, known, root, k)
  {
    BallFixpoint(index, known, root, k, |Universe(index, root)|);
    ReachIsFixpoint(index, known, root, k);
  }

  /** With nothing known, reach is exactly the existence of a reference chain. */
  lemma {:induction false} ReachMeans(index: Index, root: Digest, d: Digest)
    ensures d in Reach(index, {}, root) <==> exists p :: IsPath(index, p, root, d)
  {
    if d in Reach(index, {}, root) {
      var p := BallHasPath(index, root, d, |Universe(index, root)|);
    }
    forall p | IsPath(index, p, root, d) ensures d in Reach(index, {}, root) {
      PathInBall(index, root, d, p);
      ReachIsFixpoint(index, {}, root, |p| - 1);
    }
  }

  /** Skipping a reference-closed set loses nothing outside it, and keeps every distance. */
  lemma {:induction false} ClosedKnownIsHarmless(index: Index, known: set<Digest>, root: Digest, n: nat)
    requires Closed(index, known)
    ensures Ball(index, known, root, n) == Ball(index, {}, root, n) - known
  {
    if n > 0 {
      ClosedKnownIsHarmless(index, known, root, n - 1);
      ClosedStep(index, known, Ball(index, known, root, n - 1), Ball(index, {}, root, n - 1));
    }
  }

  lemma {:induction false} ClosedStep(index: Index, known: set<Digest>, avoid: set<Digest>, all: set<Digest>)
    requires Closed(index, known) && avoid == all - known
    ensures avoid + (Successors(index, avoid) - known) == all + (Successors(index, all) - {}) - known
  {
    forall e | e in Successors(index, all) - known ensures e in Successors(index, avoid) {
      var d :| d in all && e in Refs(index, d);
      assert d !in known;
    }
  }

  lemma {:induction false} ReachOutsideClosed(index: Index, known: set<Digest>, root: Digest)
    requires Closed(index, known)
    ensures Reach(index, known, root) == Reach(index, {}, root) - known
  {
    ClosedKnownIsHarmless(index, known, root, |Universe(index, root)|);
  }

  /** A walk may skip `known`, from every root and losing nothing, exactly when `known` is closed. */
  lemma {:induction false} SkippingIsExactIffClosed(index: Index, known: set<Digest>)
    ensures Closed(index, known) <==>
            forall root :: Reach(index, known, root) == Reach(index, {}, root) - known
  {
    if Closed(index, known) {
      forall root ensures Reach(index, known, root) == Reach(index, {}, root) - known {
        ReachOutsideClosed(index, known, root);
      }
    } else {
      var d :| d in known && !(Refs(index, d) <= known);
      var e :| e in Refs(index, d) && e !in known;
      BallFixpoint(index, known, d, 0, |Universe(index, d)|);
      PathInBall(index, d, e, [d, e]);
      ReachIsFixpoint(index, {}, d, 1);
      assert e in Reach(index, {}, d) - known && e !in Reach(index, known, d);
    }
  }

  // ---------- the walk ----------

  datatype Walk = Walked(order: seq<Digest>, infos: Index) | Failed(missing: Digest)

  // ---------- the order of a walk ----------

  /** Of what is referenced, each digest that has not been seen, where it first occurs. */
  function Unseen(seen: set<Digest>, references: seq<string>): seq<Digest> {
    if references == [] then []
    else
      var init, last := Unseen(seen, references[..|references| - 1]), DigestOf(references[|references| - 1]);
      if last in seen || last in init then init else init + [last]
  }

  /** All references of these digests, one narinfo after the other. */
  function ReferencesOf(index: Index, digests: seq<Digest>): seq<string> {
    if digests == [] then []
    else
      var last := digests[|digests| - 1];
      ReferencesOf(index, digests[..|digests| - 1]) + if last in index then index[last].references else []
  }

  lemma {:induction false} UnseenMeans(seen: set<Digest>, references: seq<string>)
    ensures Distinct(Unseen(seen, references)) && ToSet(Unseen(seen, references)) == DigestsOf(references) - seen
  {
    if references != [] {
      var n := |references| - 1;
      UnseenMeans(seen, references[..n]);
      DigestsOfOneMore(references, n);
      assert references[..n + 1] == references;
      var init, last := Unseen(seen, references[..n]), DigestOf(references[n]);
      if last !in seen && last !in init {
        QueuedOneMore(init, last);
      }
    }
  }

  lemma {:induction false} UnseenConcat(seen: set<Digest>, a: seq<string>, b: seq<string>)
    ensures Unseen(seen, a + b) == Unseen(seen, a) + Unseen(seen + DigestsOf(a), b)
  {
    hide DigestsOf;
    if b == [] {
      assert a + b == a;
    } else {
      var init, last := b[..|b| - 1], DigestOf(b[|b| - 1]);
      UnseenConcat(seen, a, init);
      InUnseen(seen, a, last);
      assert (a + b)[..|a + b| - 1] == a + init;
      ConcatAssociates(Unseen(seen, a), Unseen(seen + DigestsOf(a), init), [last]);
    }
  }

  lemma {:induction false} InUnseen(seen: set<Digest>, references: seq<string>, d: Digest)
    ensures d in Unseen(seen, references) <==> d in DigestsOf(references) && d !in seen
  {
    UnseenMeans(seen, references);
    assert d in Unseen(seen, references) <==> d in ToSet(Unseen(seen, references));
  }

  lemma {:induction false} ReferencesAreSuccessors(index: Index, digests: seq<Digest>)
    ensures DigestsOf(ReferencesOf(index, digests)) == Successors(index, ToSet(digests))
  {
    if digests != [] {
      var init, last := digests[..|digests| - 1], digests[|digests| - 1];
      assert digests == init + [last];
      ReferencesAreSuccessors(index, init);
      ToSetConcat(init, [last]);
      SuccessorsTogether(index, ToSet(init), ToSet([last]));
      DigestsTogether(ReferencesOf(index, init), if last in index then index[last].references else []);
      assert Successors(index, ToSet([last])) == Refs(index, last);
    }
  }

  lemma {:induction false} DigestsTogether(a: seq<string>, b: seq<string>)
    ensures DigestsOf(a + b) == DigestsOf(a) + DigestsOf(b)
  {
  }

  lemma {:induction false} SuccessorsTogether(index: Index, a: set<Digest>, b: set<Digest>)
    ensures Successors(index, a + b) == Successors(index, a) + Successors(index, b)
  {
  }

  /** What has not been queued of all that a narinfo of the index refers to. */
  ghost function Left(index: Index, enqueued: set<Digest>): nat {
    |Successors(index, index.Keys) - enqueued|
  }

  lemma {:induction false} LeftShrinks(index: Index, frontier: seq<Digest>, enqueued: set<Digest>)
    requires Unseen(enqueued, ReferencesOf(index, frontier)) != []
    ensures var next := Unseen(enqueued, ReferencesOf(index, frontier));
      Left(index, enqueued + ToSet(next)) < Left(index, enqueued)
  {
    var next := Unseen(enqueued, ReferencesOf(index, frontier));
    UnseenMeans(enqueued, ReferencesOf(index, frontier));
    ReferencesAreSuccessors(index, frontier);
    assert next[0] in ToSet(next);
    assert Successors(index, ToSet(frontier)) <= Successors(index, index.Keys);
    ProperSubsetIsSmaller(Successors(index, index.Keys) - (enqueued + ToSet(next)),
                          Successors(index, index.Keys) - enqueued);
  }

  /** A frontier, then what it refers to that has not been queued, and so on. */
  ghost function OrderFrom(index: Index, frontier: seq<Digest>, enqueued: set<Digest>): seq<Digest>
    decreases Left(index, enqueued)
  {
    var next := Unseen(enqueued, ReferencesOf(index, frontier));
    if next == [] then frontier
    else
      LeftShrinks(index, frontier, enqueued);
      frontier + OrderFrom(index, next, enqueued + ToSet(next))
  }

  /** The order a walk discovers in. */
  ghost function WalkOrder(index: Index, known: set<Digest>, root: Digest): seq<Digest> {
    if root in known then [] else OrderFrom(index, [root], {root} + known)
  }

  /** The same for one root after the other. */
  ghost function RootsOrder(index: Index, known: set<Digest>, roots: seq<Digest>): seq<Digest> {
    if roots == [] then []
    else
      var order := RootsOrder(index, known, roots[..|roots| - 1]);
      order + WalkOrder(index, known + ToSet(order), roots[|roots| - 1])
  }

  // ---------- the loops ----------

  lemma {:induction false} DigestsOfOneMore(references: seq<string>, i: nat)
    requires i < |references|
    ensures DigestsOf(references[..i + 1]) == DigestsOf(references[..i]) + {DigestOf(references[i])}
  {
    assert references[..i + 1] == references[..i] + [references[i]];
  }

  lemma {:induction false} QueuedOneMore(next: seq<Digest>, digest: Digest)
    requires Distinct(next) && digest !in ToSet(next)
    ensures Distinct(next + [digest]) && ToSet(next + [digest]) == ToSet(next) + {digest}
  {
    ToSetConcat(next, [digest]);
    DistinctConcat(next, [digest]);
  }

  /** Of what is referenced, each digest that is new goes to the next frontier, once. */
  method QueueReferences(references: seq<string>, enqueued0: set<Digest>, next0: seq<Digest>)
    returns (enqueued: set<Digest>, next: seq<Digest>)
    requires Distinct(next0) && ToSet(next0) <= enqueued0
    ensures enqueued == enqueued0 + DigestsOf(references)
    ensures next == next0 + Unseen(enqueued0, references)
    ensures Distinct(next)
    ensures ToSet(next) == ToSet(next0) + (DigestsOf(references) - enqueued0)
  {
    enqueued, next := enqueued0, next0;
    for i := 0 to |references|
      invariant enqueued == enqueued0 + DigestsOf(references[..i])
      invariant next == next0 + Unseen(enqueued0, references[..i])
    {
      var digest := DigestOf(references[i]);
      UnseenOneMore(enqueued0, references, i);
      if digest !in enqueued {
        enqueued := enqueued + {digest};
        next := next + [digest];
      }
    }
    assert references[..|references|] == references;
    UnseenMeans(enqueued0, references);
    ToSetConcat(next0, Unseen(enqueued0, references));
    DistinctConcat(next0, Unseen(enqueued0, references));
  }

  lemma {:induction false} UnseenOneMore(seen: set<Digest>, references: seq<string>, i: nat)
    requires i < |references|
    ensures DigestsOf(references[..i + 1]) == DigestsOf(references[..i]) + {DigestOf(references[i])}
    ensures var digest := DigestOf(references[i]);
      Unseen(seen, references[..i + 1]) ==
        Unseen(seen, references[..i]) + if digest in seen + DigestsOf(references[..i]) then [] else [digest]
  {
    hide DigestsOf, Distinct;
    DigestsOfOneMore(references, i);
    UnseenMeans(seen, references[..i]);
    assert references[..i + 1][..i] == references[..i];
    assert DigestOf(references[i]) in Unseen(seen, references[..i]) <==>
           DigestOf(references[i]) in ToSet(Unseen(seen, references[..i]));
  }

  function InfosOf(index: Index, s: set<Digest>): Index {
    map d | d in s && d in index :: index[d]
  }

  /** What a layer has recorded and queued once the digests in `done` have been processed. */
  ghost predicate Recorded(index: Index, done: seq<Digest>, infos0: Index, enqueued0: set<Digest>,
                           infos: Index, enqueued: set<Digest>, next: seq<Digest>)
  {
    && ToSet(done) <= index.Keys
    && infos == infos0 + InfosOf(index, ToSet(done))
    && enqueued == enqueued0 + Successors(index, ToSet(done))
    && next == Unseen(enqueued0, ReferencesOf(index, done))
  }

  lemma {:induction false} RecordedMeans(index: Index, done: seq<Digest>, infos0: Index, enqueued0: set<Digest>,
                                         infos: Index, enqueued: set<Digest>, next: seq<Digest>)
    requires Recorded(index, done, infos0, enqueued0, infos, enqueued, next)
    ensures Distinct(next) && ToSet(next) == Successors(index, ToSet(done)) - enqueued0 && ToSet(next) <= enqueued
    ensures enqueued == enqueued0 + ToSet(next)
  {
    UnseenMeans(enqueued0, ReferencesOf(index, done));
    ReferencesAreSuccessors(index, done);
  }

  lemma {:induction false} RecordOne(index: Index, done: seq<Digest>, d: Digest, infos0: Index, enqueued0: set<Digest>,
                  infos: Index, enqueued: set<Digest>, next: seq<Digest>, enqueued': set<Digest>, next': seq<Digest>)
    requires Recorded(index, done, infos0, enqueued0, infos, enqueued, next)
    requires d in index
    requires enqueued' == enqueued + Refs(index, d)
    requires next' == next + Unseen(enqueued, index[d].references)
    ensures Recorded(index, done + [d], infos0, enqueued0, infos[d := index[d]], enqueued', next')
  {
    hide Unseen, ReferencesOf, Successors, InfosOf, Refs;
    ToSetConcat(done, [d]);
    assert ToSet([d]) == {d};
    SuccessorsOfOne(index, d);
    SuccessorsTogether(index, ToSet(done), {d});
    InfosOfOneMore(index, ToSet(done), d);
    assert infos[d := index[d]] == infos0 + InfosOf(index, ToSet(done))[d := index[d]];
    UnseenNext(index, done, d, enqueued0);
  }

  lemma {:induction false} SuccessorsOfOne(index: Index, d: Digest)
    ensures Successors(index, {d}) == Refs(index, d)
  {
  }

  lemma {:induction false} UnseenNext(index: Index, done: seq<Digest>, d: Digest, seen: set<Digest>)
    requires d in index
    ensures Unseen(seen, ReferencesOf(index, done + [d])) ==
      Unseen(seen, ReferencesOf(index, done)) + Unseen(seen + Successors(index, ToSet(done)), index[d].references)
  {
    hide Unseen, Successors;
    var all := done + [d];
    assert all[..|all| - 1] == done;
    UnseenConcat(seen, ReferencesOf(index, done), index[d].references);
    ReferencesAreSuccessors(index, done);
  }

  lemma {:induction false} InfosOfOneMore(index: Index, done: set<Digest>, d: Digest)
    requires d in index
    ensures InfosOf(index, done + {d}) == InfosOf(index, done)[d := index[d]]
  {
  }

  /** A batch all of which arrived: its narinfos are kept and its references lined up. */
  method RecordBatch(index: Index, batch: seq<Digest>, ghost done: seq<Digest>, ghost infos0: Index,
                     ghost enqueued0: set<Digest>, infos1: Index, enqueued1: set<Digest>, next1: seq<Digest>)
    returns (infos: Index, enqueued: set<Digest>, next: seq<Digest>)
    requires ToSet(batch) <= index.Keys
    requires Recorded(index, done, infos0, enqueued0, infos1, enqueued1, next1)
    ensures Recorded(index, done + batch, infos0, enqueued0, infos, enqueued, next)
  {
    hide Recorded, Unseen, ReferencesOf, Successors, DigestsOf;
    infos, enqueued, next := infos1, enqueued1, next1;
    ghost var recorded := done;
    assert done + batch[..0] == done;
    for j := 0 to |batch|
      invariant recorded == done + batch[..j]
      invariant Recorded(index, recorded, infos0, enqueued0, infos, enqueued, next)
    {
      assert batch[j] in ToSet(batch);
      RecordedMeans(index, recorded, infos0, enqueued0, infos, enqueued, next);
      var enqueued', next' := QueueReferences(index[batch[j]].references, enqueued, next);
      RecordOne(index, recorded, batch[j], infos0, enqueued0, infos, enqueued, next, enqueued', next');
      infos, enqueued, next := infos[batch[j] := index[batch[j]]], enqueued', next';
      recorded := recorded + [batch[j]];
      assert batch[..j + 1] == batch[..j] + [batch[j]];
    }
    assert batch[..|batch|] == batch;
  }

  /** Everything in a batch is asked for, and has to be there. */
  method FetchBatch(index: Index, batch: seq<Digest>) returns (missing: Option<Digest>)
    ensures missing.Some? ==> missing.value in batch && missing.value !in index
    ensures missing.None? ==> ToSet(batch) <= index.Keys
  {
    for i := 0 to |batch|
      invariant ToSet(batch[..i]) <= index.Keys
    {
      if batch[i] !in index {
        return Some(batch[i]);
      }
      assert batch[..i + 1] == batch[..i] + [batch[i]];
    }
    assert batch[..|batch|] == batch;
    return None;
  }

  lemma {:induction false} NothingRecorded(index: Index, infos: Index, enqueued: set<Digest>)
    ensures Recorded(index, [], infos, enqueued, infos, enqueued, [])
  {
  }

  lemma {:induction false} BatchBegins(frontier: seq<Digest>, i: nat, end: nat)
    requires i < |frontier| && i % 20 == 0 && end == Min(i + 20, |frontier|)
    ensures (end - 1) / 20 * 20 == i
    ensures frontier[..end][..i] == frontier[..i] && frontier[..end][i..] == frontier[i..end]
    ensures end % 20 == 0 || end == |frontier|
  {
  }

  /** One layer: fetch the frontier a batch at a time, record it, and collect the next frontier. */
  method WalkLayer(index: Index, frontier: seq<Digest>, infos0: Index, enqueued0: set<Digest>)
    returns (missing: Option<Digest>, fetched: seq<Digest>, infos: Index, enqueued: set<Digest>, next: seq<Digest>)
    ensures fetched <= frontier
    ensures missing.Some? ==> missing.value in frontier && missing.value !in index
    ensures missing.None? ==> fetched == frontier && ToSet(frontier) <= index.Keys
    ensures missing.Some? ==> fetched != [] && (|fetched| % 20 == 0 || fetched == frontier)
    ensures missing.Some? ==> var begun := (|fetched| - 1) / 20 * 20;
      ToSet(fetched[..begun]) <= index.Keys && missing.value in fetched[begun..]
    ensures missing.None? ==> Recorded(index, frontier, infos0, enqueued0, infos, enqueued, next)
  {
    hide Recorded, Distinct;
    infos, enqueued, next, fetched := infos0, enqueued0, [], [];
    NothingRecorded(index, infos0, enqueued0);
    var i := 0;
    while i < |frontier|
      invariant 0 <= i <= |frontier| && (i % 20 == 0 || i == |frontier|) && ToSet(frontier[..i]) <= index.Keys
      invariant fetched == frontier[..i]
      invariant Recorded(index, fetched, infos0, enqueued0, infos, enqueued, next)
    {
      var end := Min(i + FETCH_CONCURRENCY, |frontier|);
      var batch := frontier[i..end];
      ToSetConcat(fetched, batch);
      missing := FetchBatch(index, batch);
      ghost var done := fetched;
      fetched := fetched + batch;
      assert fetched == frontier[..end];
      BatchBegins(frontier, i, end);
      if missing.Some? {
        return;
      }
      infos, enqueued, next := RecordBatch(index, batch, done, infos0, enqueued0, infos, enqueued, next);
      i := end;
    }
    missing := None;
  }

  ghost function Grown(index: Index, known: set<Digest>, ball: set<Digest>): set<Digest> {
    ball + (Successors(index, ball) - known)
  }

  /** Where the walk stands when the frontier, all of `ball` beyond `inner`, is about to be fetched. */
  ghost predicate AtLayer(index: Index, known: set<Digest>, inner: set<Digest>, ball: set<Digest>,
                          order: seq<Digest>, frontier: seq<Digest>, enqueued: set<Digest>)
  {
    && ToSet(order) == inner && Distinct(order)
    && ToSet(frontier) == ball - inner && Distinct(frontier)
    && inner <= ball
    && Successors(index, inner) - known <= ball
    && enqueued == ball + known
    && inner <= index.Keys
  }

  lemma {:induction false} NextLayer(index: Index, known: set<Digest>, inner: set<Digest>, ball: set<Digest>,
                  order: seq<Digest>, frontier: seq<Digest>, enqueued: set<Digest>,
                  infos: Index, infos': Index, enqueued': set<Digest>, next: seq<Digest>)
    requires AtLayer(index, known, inner, ball, order, frontier, enqueued)
    requires Recorded(index, frontier, infos, enqueued, infos', enqueued', next)
    ensures AtLayer(index, known, ball, Grown(index, known, ball), order + frontier, next, enqueued')
    ensures infos == InfosOf(index, inner) ==> infos' == InfosOf(index, ball)
  {
    hide Distinct, Refs, Unseen, ReferencesOf;
    RecordedMeans(index, frontier, infos, enqueued, infos', enqueued', next);
    ToSetConcat(order, frontier);
    DistinctConcat(order, frontier);
    SuccessorsTogether(index, inner, ToSet(frontier));
    assert ball == inner + ToSet(frontier);
    assert Successors(index, ball) == Successors(index, inner) + Successors(index, ToSet(frontier));
  }

  /** A layer cut short by a refusal has asked only for digests of the ball, each once. */
  lemma {:induction false} AskedInBall(index: Index, known: set<Digest>, inner: set<Digest>, ball: set<Digest>,
                    order: seq<Digest>, frontier: seq<Digest>, enqueued: set<Digest>, asked: seq<Digest>)
    requires AtLayer(index, known, inner, ball, order, frontier, enqueued)
    requires asked <= frontier
    ensures Distinct(order + asked) && ToSet(order + asked) <= ball
    ensures ToSet(frontier) <= ball
  {
    DistinctConcat(order, frontier);
    assert (order + frontier)[..|order + asked|] == order + asked;
    ToSetConcat(order, asked);
    assert asked + frontier[|asked|..] == frontier;
    ToSetConcat(asked, frontier[|asked|..]);
  }

  // ---------- the layers of a walk ----------

  /** The balls met so far, one more than the layers recorded: `order` up to `marks[i]` lists ball `i`. */
  datatype Layers = Layers(balls: seq<set<Digest>>, marks: seq<nat>) {
    ghost predicate Valid(index: Index, known: set<Digest>, root: Digest, order: seq<Digest>) {
      && |balls| == |marks| + 1
      && balls[0] == {root}
      && (forall i :: 0 <= i < |marks| ==> balls[i + 1] == Grown(index, known, balls[i]))
      && (forall i :: 0 <= i < |marks| ==> marks[i] <= |order| && ToSet(order[..marks[i]]) == balls[i])
    }

    ghost function Inner(): set<Digest> requires |balls| == |marks| + 1 {
      if |marks| == 0 then {} else balls[|marks| - 1]
    }

    ghost function Ball(): set<Digest> requires |balls| == |marks| + 1 {
      balls[|marks|]
    }

    ghost function Extend(index: Index, known: set<Digest>, size: nat): Layers requires |balls| == |marks| + 1 {
      Layers(balls + [Grown(index, known, Ball())], marks + [size])
    }
  }

  lemma {:induction false} ExtendLayers(index: Index, known: set<Digest>, root: Digest, layers: Layers,
                     order: seq<Digest>, frontier: seq<Digest>, enqueued: set<Digest>)
    requires layers.Valid(index, known, root, order)
    requires AtLayer(index, known, layers.Inner(), layers.Ball(), order, frontier, enqueued)
    ensures var more := layers.Extend(index, known, |order + frontier|);
      more.Valid(index, known, root, order + frontier)
      && more.Inner() == layers.Ball() && more.Ball() == Grown(index, known, layers.Ball())
  {
    var more := layers.Extend(index, known, |order + frontier|);
    var all := order + frontier;
    ToSetConcat(order, frontier);
    assert all[..|all|] == all;
    forall i | 0 <= i < |more.marks| ensures more.marks[i] <= |all| && ToSet(all[..more.marks[i]]) == more.balls[i] {
      if i < |layers.marks| {
        assert all[..layers.marks[i]] == order[..layers.marks[i]];
      }
    }
  }

  lemma {:induction false} LayersAreBalls(index: Index, known: set<Digest>, root: Digest, layers: Layers,
                                          order: seq<Digest>, i: nat)
    requires root !in known && layers.Valid(index, known, root, order) && i < |layers.balls|
    ensures layers.balls[i] == Ball(index, known, root, i)
  {
    if i > 0 {
      LayersAreBalls(index, known, root, layers, order, i - 1);
      assert layers.balls[i - 1 + 1] == Grown(index, known, layers.balls[i - 1]);
    }
  }

  /** Everything of the universe not yet walked: what every further layer eats into. */
  ghost function Unwalked(index: Index, root: Digest, walked: set<Digest>): nat {
    |Universe(index, root) - walked|
  }

  /** A walk that goes on has processed digests of the finite universe it had not processed before. */
  lemma {:induction false} LayerGrows(index: Index, known: set<Digest>, root: Digest, layers: Layers,
                   order: seq<Digest>, frontier: seq<Digest>, enqueued: set<Digest>)
    requires root !in known && layers.Valid(index, known, root, order) && |frontier| > 0
    requires AtLayer(index, known, layers.Inner(), layers.Ball(), order, frontier, enqueued)
    ensures Unwalked(index, root, layers.Ball()) < Unwalked(index, root, layers.Inner())
  {
    LayersAreBalls(index, known, root, layers, order, |layers.marks|);
    BallInUniverse(index, known, root, |layers.marks|);
    assert frontier[0] in ToSet(frontier);
    ProperSubsetIsSmaller(Universe(index, root) - layers.Ball(), Universe(index, root) - layers.Inner());
  }

  // ---------- what a walk answers ----------

  /** `a` is no farther from the root than `b`. */
  ghost predicate NoFarther(index: Index, known: set<Digest>, root: Digest, a: Digest, b: Digest) {
    forall n: nat :: b in Ball(index, known, root, n) ==> a in Ball(index, known, root, n)
  }

  /** No digest is listed before one that is closer to the root. */
  ghost predicate ByDistance(index: Index, known: set<Digest>, root: Digest, order: seq<Digest>) {
    forall i, j :: 0 <= i < j < |order| ==> NoFarther(index, known, root, order[i], order[j])
  }

  /** Exactly what is reachable outside `known`, each digest once, nearest first, with its narinfo. */
  ghost predicate CompleteWalk(index: Index, known: set<Digest>, root: Digest, order: seq<Digest>, infos: Index) {
    && Distinct(order)
    && ToSet(order) == Reach(index, known, root)
    && ByDistance(index, known, root, order)
    && ToSet(order) <= index.Keys
    && infos == InfosOf(index, ToSet(order))
  }

  /** Stopped on a digest that is needed and that no cache answers for, having asked only for needed ones. */
  ghost predicate RefusedWalk(index: Index, known: set<Digest>, root: Digest, missing: Digest, fetched: seq<Digest>) {
    && missing !in index
    && missing in Reach(index, known, root)
    && Distinct(fetched)
    && ToSet(fetched) <= Reach(index, known, root)
  }

  lemma {:induction false} LayerRefused(index: Index, known: set<Digest>, root: Digest, layers: Layers,
                                        order: seq<Digest>,
                     frontier: seq<Digest>, enqueued: set<Digest>, asked: seq<Digest>, missing: Digest)
    requires root !in known && layers.Valid(index, known, root, order)
    requires AtLayer(index, known, layers.Inner(), layers.Ball(), order, frontier, enqueued)
    requires asked <= frontier && missing in frontier && missing !in index
    ensures RefusedWalk(index, known, root, missing, order + asked)
  {
    AskedInBall(index, known, layers.Inner(), layers.Ball(), order, frontier, enqueued, asked);
    assert missing in ToSet(frontier);
    LayersAreBalls(index, known, root, layers, order, |layers.marks|);
    ReachIsFixpoint(index, known, root, |layers.marks|);
  }

  /** With every ball a prefix of the order, an earlier digest is in every ball a later one is in. */
  lemma {:induction false} LayersOrderByDistance(index: Index, known: set<Digest>, root: Digest, layers: Layers,
                                                 order: seq<Digest>,
                              i: nat, j: nat, n: nat)
    requires root !in known && layers.Valid(index, known, root, order) && Distinct(order)
    requires |layers.marks| > 0 && ToSet(order) == Reach(index, known, root) == layers.Inner()
    requires i < j < |order| && order[j] in Ball(index, known, root, n)
    ensures order[i] in Ball(index, known, root, n)
  {
    var last := |layers.marks| - 1;
    if n <= last {
      LayersAreBalls(index, known, root, layers, order, n);
      assert order[j] in order[..layers.marks[n]];
      var j' :| 0 <= j' < layers.marks[n] && order[j'] == order[j];
      assert order[i] in ToSet(order[..layers.marks[n]]);
    } else {
      LayersAreBalls(index, known, root, layers, order, last);
      BallMonotone(index, known, root, last, n);
      assert order[i] in ToSet(order);
    }
  }

  /** An empty frontier is a fixpoint: nothing reachable is left out. */
  lemma {:induction false} WalkIsComplete(index: Index, known: set<Digest>, root: Digest, layers: Layers,
                       order: seq<Digest>, frontier: seq<Digest>, enqueued: set<Digest>)
    requires root !in known && layers.Valid(index, known, root, order) && |layers.marks| > 0 && frontier == []
    requires AtLayer(index, known, layers.Inner(), layers.Ball(), order, frontier, enqueued)
    ensures CompleteWalk(index, known, root, order, InfosOf(index, layers.Inner()))
  {
    var k := |layers.marks| - 1;
    assert layers.Ball() == layers.Inner() + (layers.Ball() - layers.Inner());
    LayersAreBalls(index, known, root, layers, order, k);
    LayersAreBalls(index, known, root, layers, order, k + 1);
    ReachAtFixpoint(index, known, root, k);
    forall i, j | 0 <= i < j < |order| ensures NoFarther(index, known, root, order[i], order[j]) {
      forall n: nat | order[j] in Ball(index, known, root, n) ensures order[i] in Ball(index, known, root, n) {
        LayersOrderByDistance(index, known, root, layers, order, i, j, n);
      }
    }
  }

  lemma {:induction false} NothingToWalk(index: Index, known: set<Digest>, root: Digest)
    requires root in known
    ensures CompleteWalk(index, known, root, [], map[])
  {
    BallFixpoint(index, known, root, 0, |Universe(index, root)|);
  }

  /** The walk at the top of its loop. */
  ghost predicate Standing(index: Index, known: set<Digest>, root: Digest, layers: Layers,
                           order: seq<Digest>, infos: Index, frontier: seq<Digest>, enqueued: set<Digest>)
  {
    && root !in known
    && layers.Valid(index, known, root, order)
    && AtLayer(index, known, layers.Inner(), layers.Ball(), order, frontier, enqueued)
    && (|layers.marks| == 0 ==> |frontier| > 0)
    && infos == InfosOf(index, layers.Inner())
    && order + OrderFrom(index, frontier, enqueued) == WalkOrder(index, known, root)
  }

  lemma {:induction false} OrderGoesOn(index: Index, order: seq<Digest>, frontier: seq<Digest>, infos: Index,
                                       enqueued: set<Digest>, infos': Index, enqueued': set<Digest>, next: seq<Digest>)
    requires Recorded(index, frontier, infos, enqueued, infos', enqueued', next)
    ensures order + OrderFrom(index, frontier, enqueued) ==
            (order + frontier) + if next == [] then [] else OrderFrom(index, next, enqueued')
    ensures frontier <= OrderFrom(index, frontier, enqueued)
  {
    hide OrderFrom, Unseen, ReferencesOf, Successors;
    RecordedMeans(index, frontier, infos, enqueued, infos', enqueued', next);
    OrderStep(index, frontier, enqueued);
    ConcatAssociates(order, frontier, if next == [] then [] else OrderFrom(index, next, enqueued'));
  }

  lemma {:induction false} OrderStep(index: Index, frontier: seq<Digest>, enqueued: set<Digest>)
    ensures var next := Unseen(enqueued, ReferencesOf(index, frontier));
      OrderFrom(index, frontier, enqueued) ==
        frontier + if next == [] then [] else OrderFrom(index, next, enqueued + ToSet(next))
  {
    hide Unseen, ReferencesOf;
  }

  lemma {:induction false} AskedInOrder(index: Index, known: set<Digest>, root: Digest, order: seq<Digest>,
                                        frontier: seq<Digest>, enqueued: set<Digest>, asked: seq<Digest>)
    requires order + OrderFrom(index, frontier, enqueued) == WalkOrder(index, known, root) && asked <= frontier
    ensures order + asked <= WalkOrder(index, known, root)
  {
    OrderStep(index, frontier, enqueued);
    var rest := OrderFrom(index, frontier, enqueued);
    assert frontier <= rest;
    assert rest == asked + rest[|asked|..];
    ConcatAssociates(order, asked, rest[|asked|..]);
  }

  lemma {:induction false} NoMoreOrder(index: Index, enqueued: set<Digest>)
    ensures OrderFrom(index, [], enqueued) == []
  {
  }

  lemma {:induction false} WalkStarts(index: Index, known: set<Digest>, root: Digest)
    requires root !in known
    ensures Standing(index, known, root, Layers([{root}], []), [], map[], [root], {root} + known)
  {
  }

  lemma {:induction false} WalkSteps(index: Index, known: set<Digest>, root: Digest, layers: Layers,
                  order: seq<Digest>, infos: Index, frontier: seq<Digest>, enqueued: set<Digest>,
                  infos': Index, enqueued': set<Digest>, next: seq<Digest>)
    requires Standing(index, known, root, layers, order, infos, frontier, enqueued) && |frontier| > 0
    requires Recorded(index, frontier, infos, enqueued, infos', enqueued', next)
    ensures var more := layers.Extend(index, known, |order + frontier|);
      Standing(index, known, root, more, order + frontier, infos', next, enqueued')
      && Unwalked(index, root, more.Inner()) < Unwalked(index, root, layers.Inner())
  {
    NextLayer(index, known, layers.Inner(), layers.Ball(), order, frontier, enqueued, infos, infos', enqueued', next);
    ExtendLayers(index, known, root, layers, order, frontier, enqueued);
    LayerGrows(index, known, root, layers, order, frontier, enqueued);
    OrderGoesOn(index, order, frontier, infos, enqueued, infos', enqueued', next);
    NoMoreOrder(index, enqueued');
  }

  /** Breadth-first from one root, layer by layer, never fetching what `known` holds. */
  method WalkClosure(index: Index, root: Digest, known: set<Digest>) returns (walk: Walk, fetched: seq<Digest>)
    ensures walk.Walked? ==> CompleteWalk(index, known, root, walk.order, walk.infos) && fetched == walk.order
    ensures walk.Walked? ==> walk.order == WalkOrder(index, known, root)
    ensures walk.Failed? ==> RefusedWalk(index, known, root, walk.missing, fetched)
    ensures fetched <= WalkOrder(index, known, root)
  {
    if root in known {
      NothingToWalk(index, known, root);
      return Walked([], map[]), [];
    }
    var order: seq<Digest>, infos: Index := [], map[];
    var enqueued := {root} + known;
    var frontier := [root];
    fetched := [];
    ghost var layers := Layers([{root}], []);
    WalkStarts(index, known, root);
    while |frontier| > 0
      invariant Standing(index, known, root, layers, order, infos, frontier, enqueued)
      invariant fetched == order
      decreases Unwalked(index, root, layers.Inner())
    {
      var missing, asked, infos', enqueued', next := WalkLayer(index, frontier, infos, enqueued);
      fetched := fetched + asked;
      if missing.Some? {
        LayerRefused(index, known, root, layers, order, frontier, enqueued, asked, missing.value);
        AskedInOrder(index, known, root, order, frontier, enqueued, asked);
        return Failed(missing.value), fetched;
      }
      WalkSteps(index, known, root, layers, order, infos, frontier, enqueued, infos', enqueued', next);
      layers := layers.Extend(index, known, |order + frontier|);
      order, infos, enqueued, frontier := order + frontier, infos', enqueued', next;
    }
    WalkIsComplete(index, known, root, layers, order, frontier, enqueued);
    NoMoreOrder(index, enqueued);
    return Walked(order, infos), fetched;
  }

  // ---------- the union of the roots' closures ----------

  ghost function ReachAll(index: Index, roots: seq<Digest>): set<Digest> {
    if roots == [] then {} else ReachAll(index, roots[..|roots| - 1]) + Reach(index, {}, roots[|roots| - 1])
  }

  lemma {:induction false} ReachIsClosed(index: Index, root: Digest)
    ensures Closed(index, Reach(index, {}, root))
  {
    var n := |Universe(index, root)|;
    ReachIsFixpoint(index, {}, root, n + 1);
    assert Successors(index, Ball(index, {}, root, n)) <= Ball(index, {}, root, n + 1);
  }

  lemma {:induction false} ReachAllIsClosed(index: Index, roots: seq<Digest>)
    ensures Closed(index, ReachAll(index, roots))
  {
    if roots != [] {
      ReachAllIsClosed(index, roots[..|roots| - 1]);
      ReachIsClosed(index, roots[|roots| - 1]);
    }
  }

  /** What walking `roots` must add to a closed `known`. */
  ghost predicate FreshWalk(index: Index, known: set<Digest>, roots: seq<Digest>, order: seq<Digest>, closure: Index) {
    && Distinct(order)
    && ToSet(order) == ReachAll(index, roots) - known
    && ToSet(order) <= index.Keys
    && closure == InfosOf(index, ToSet(order))
  }

  lemma {:induction false} FreshConcat(index: Index, known: set<Digest>, all: set<Digest>, reach: set<Digest>,
                    order: seq<Digest>, more: seq<Digest>)
    requires Distinct(order) && ToSet(order) == all - known && ToSet(order) <= index.Keys
    requires Distinct(more) && ToSet(more) == reach - (known + ToSet(order)) && ToSet(more) <= index.Keys
    ensures Distinct(order + more) && ToSet(order + more) == all + reach - known && ToSet(order + more) <= index.Keys
    ensures InfosOf(index, ToSet(order + more)) == InfosOf(index, ToSet(order)) + InfosOf(index, ToSet(more))
  {
    ToSetConcat(order, more);
    DistinctConcat(order, more);
  }

  lemma {:induction false} WalkOneMore(index: Index, known: set<Digest>, roots: seq<Digest>, i: nat, order: seq<Digest>,
                    added: Index, more: seq<Digest>, infos: Index)
    requires Closed(index, known) && i < |roots|
    requires FreshWalk(index, known, roots[..i], order, added)
    requires CompleteWalk(index, known + ToSet(order), roots[i], more, infos)
    ensures FreshWalk(index, known, roots[..i + 1], order + more, added + infos)
  {
    KnownStaysClosed(index, known, roots[..i], order, added);
    ReachOutsideClosed(index, known + ToSet(order), roots[i]);
    FreshConcat(index, known, ReachAll(index, roots[..i]), Reach(index, {}, roots[i]), order, more);
    assert roots[..i + 1] == roots[..i] + [roots[i]];
  }

  lemma {:induction false} KnownStaysClosed(index: Index, known: set<Digest>, roots: seq<Digest>, order: seq<Digest>,
                                            added: Index)
    requires Closed(index, known)
    requires FreshWalk(index, known, roots, order, added)
    ensures Closed(index, known + ToSet(order))
  {
    ReachAllIsClosed(index, roots);
    assert known + ToSet(order) == known + ReachAll(index, roots);
  }

  lemma {:induction false} ReachAllContains(index: Index, roots: seq<Digest>, i: nat)
    requires i < |roots|
    ensures Reach(index, {}, roots[i]) <= ReachAll(index, roots)
  {
    if i < |roots| - 1 {
      ReachAllContains(index, roots[..|roots| - 1], i);
    }
  }

  lemma {:induction false} RefusedIsNeeded(index: Index, known: set<Digest>, roots: seq<Digest>, i: nat,
                                           order: seq<Digest>,
                        added: Index, missing: Digest)
    requires Closed(index, known) && i < |roots|
    requires FreshWalk(index, known, roots[..i], order, added)
    requires missing in Reach(index, known + ToSet(order), roots[i])
    ensures missing in ReachAll(index, roots) - known
  {
    KnownStaysClosed(index, known, roots[..i], order, added);
    ReachOutsideClosed(index, known + ToSet(order), roots[i]);
    ReachAllContains(index, roots, i);
  }

  lemma {:induction false} OnlyAdded(known: Index, added: Index)
    requires added.Keys !! known.Keys
    ensures (known + added) - known.Keys == added
  {
  }

  lemma {:induction false} NothingFresh(index: Index, known: set<Digest>)
    ensures FreshWalk(index, known, [], [], map[]) && RootsOrder(index, known, []) == []
  {
  }

  lemma {:induction false} FreshKeys(index: Index, known: set<Digest>, roots: seq<Digest>, order: seq<Digest>,
                                     added: Index)
    requires FreshWalk(index, known, roots, order, added)
    ensures added.Keys == ToSet(order) && added.Keys !! known
  {
  }

  lemma {:induction false} RootsOrderOneMore(index: Index, known: set<Digest>, roots: seq<Digest>, i: nat)
    requires i < |roots|
    ensures var order := RootsOrder(index, known, roots[..i]);
      RootsOrder(index, known, roots[..i + 1]) == order + WalkOrder(index, known + ToSet(order), roots[i])
  {
    assert roots[..i + 1][..i] == roots[..i];
  }

  /** One walk per root, each starting from everything the ones before it found; only what is new comes back. */
  method WalkRoots(index: Index, roots: seq<Digest>, known: Index) returns (walk: Walk)
    requires Closed(index, known.Keys)
    ensures walk.Walked? ==> FreshWalk(index, known.Keys, roots, walk.order, walk.infos)
    ensures walk.Walked? ==> walk.order == RootsOrder(index, known.Keys, roots)
    ensures walk.Failed? ==> walk.missing !in index && walk.missing in ReachAll(index, roots) - known.Keys
  {
    hide WalkOrder, RootsOrder, Closed, CompleteWalk, FreshWalk, ReachAll;
    var closure := known;
    var order: seq<Digest> := [];
    ghost var added: Index := map[];
    NothingFresh(index, known.Keys);
    assert roots[..0] == [];
    for i := 0 to |roots|
      invariant FreshWalk(index, known.Keys, roots[..i], order, added)
      invariant order == RootsOrder(index, known.Keys, roots[..i])
      invariant closure == known + added
    {
      var one, _ := WalkClosure(index, roots[i], closure.Keys);
      FreshKeys(index, known.Keys, roots[..i], order, added);
      assert closure.Keys == known.Keys + ToSet(order);
      if one.Failed? {
        RefusedIsNeeded(index, known.Keys, roots, i, order, added, one.missing);
        return Failed(one.missing);
      }
      WalkOneMore(index, known.Keys, roots, i, order, added, one.order, one.infos);
      MapUnionAssociates(known, added, one.infos);
      RootsOrderOneMore(index, known.Keys, roots, i);
      closure, order, added := closure + one.infos, order + one.order, added + one.infos;
    }
    assert roots[..|roots|] == roots;
    FreshKeys(index, known.Keys, roots, order, added);
    OnlyAdded(known, added);
    return Walked(order, closure - known.Keys);
  }
}
