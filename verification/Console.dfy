/**
 * The console watcher of site/js/boot.js: a capped transcript of what the guest has written, and waiters for a marker
 * in it. What the decoder makes of raw bytes is taken as the text written.
 */
module Console {
  import opened Prelude
  import opened Text

  const TRANSCRIPT_LIMIT: nat := 65536

  /** The last characters of a text, at most as many as the limit. */
  function Last(s: string): (tail: string)
    ensures |tail| == Min(|s|, 65536)
  {
    if |s| > TRANSCRIPT_LIMIT then s[|s| - TRANSCRIPT_LIMIT..] else s
  }

  /** An occurrence ends right after the `e`-th character. */
  predicate EndsAt(marker: string, stream: string, e: int) {
    |marker| <= e <= |stream| && At(marker, stream, e - |marker|)
  }

  /** Some occurrence ends past `from`. */
  ghost predicate EndsAfter(marker: string, stream: string, from: nat) {
    exists e :: from < e <= |stream| && EndsAt(marker, stream, e)
  }

  lemma {:induction false} LastOfLast(s: string, data: string)
    ensures Last(Last(s) + data) == Last(s + data)
  {
  }

  /** What the transcript shows is what the stream has within its last characters. */
  lemma {:induction false} ShownIsRecent(marker: string, stream: string)
    ensures Occurs(marker, Last(stream)) <==>
      exists e :: EndsAt(marker, stream, e) && e - |marker| >= |stream| - TRANSCRIPT_LIMIT
  {
    var cut := |stream| - |Last(stream)|;
    assert Last(stream) == stream[cut..];
    if Occurs(marker, Last(stream)) {
      var i :| 0 <= i <= |Last(stream)| - |marker| && At(marker, Last(stream), i);
      assert Last(stream)[i..i + |marker|] == stream[cut + i..cut + i + |marker|];
      assert EndsAt(marker, stream, cut + i + |marker|);
    }
    if e :| EndsAt(marker, stream, e) && e - |marker| >= |stream| - TRANSCRIPT_LIMIT {
      var i := e - |marker| - cut;
      assert Last(stream)[i..i + |marker|] == stream[cut + i..cut + i + |marker|];
      assert At(marker, Last(stream), i);
    }
  }

  lemma {:induction false} EndsAtOfMore(marker: string, stream: string, data: string, e: int)
    requires e <= |stream|
    ensures EndsAt(marker, stream + data, e) <==> EndsAt(marker, stream, e)
  {
    if |marker| <= e {
      assert (stream + data)[e - |marker|..e] == stream[e - |marker|..e];
    }
  }

  /**
   * A marker that was not shown is shown after a write exactly when an occurrence that the write completes is not
   * already cut off by it.
   */
  lemma {:induction false} WriteShows(marker: string, stream: string, data: string)
    requires !Occurs(marker, Last(stream))
    ensures Occurs(marker, Last(stream + data)) <==>
      exists e :: |stream| < e <= |stream + data| && EndsAt(marker, stream + data, e) &&
        e - |marker| >= |stream + data| - TRANSCRIPT_LIMIT
  {
    ShownIsRecent(marker, stream);
    ShownIsRecent(marker, stream + data);
    forall e | EndsAt(marker, stream + data, e) && e - |marker| >= |stream + data| - TRANSCRIPT_LIMIT
      ensures e > |stream|
    {
      if e <= |stream| {
        EndsAtOfMore(marker, stream, data, e);
      }
    }
  }

  /** A write is short enough for a marker when no occurrence it completes is cut off. */
  predicate Fits(marker: string, data: string) {
    |data| <= TRANSCRIPT_LIMIT - |marker| + 1
  }

  lemma {:induction false} ShortWriteShows(marker: string, stream: string, data: string)
    requires !Occurs(marker, Last(stream)) && Fits(marker, data)
    ensures Occurs(marker, Last(stream + data)) <==> EndsAfter(marker, stream + data, |stream|)
  {
    WriteShows(marker, stream, data);
  }

  lemma {:induction false} LastCharacter(marker: string, s: string, e: int)
    requires marker != "" && EndsAt(marker, s, e)
    ensures s[e - 1] == marker[|marker| - 1]
  {
    assert s[e - |marker|..e][|marker| - 1] == s[e - 1];
  }

  /** And only then: a longer write can complete a marker with its first character and cut it off. */
  lemma {:induction false} LongWriteHides(marker: string, filler: string)
    requires marker != "" && |marker| <= TRANSCRIPT_LIMIT && marker[|marker| - 1] !in filler
    requires !Fits(marker, [marker[|marker| - 1]] + filler)
    ensures var stream, data := marker[..|marker| - 1], [marker[|marker| - 1]] + filler;
      EndsAt(marker, stream + data, |marker|) && !Occurs(marker, Last(stream + data))
  {
    var stream, data := marker[..|marker| - 1], [marker[|marker| - 1]] + filler;
    var whole := stream + data;
    assert whole == marker + filler;
    assert whole[0..|marker|] == marker;
    ShownIsRecent(marker, whole);
    forall e | EndsAt(marker, whole, e) ensures e <= |marker| {
      if e > |marker| {
        assert whole[e - 1] == filler[e - 1 - |marker|];
        LastCharacter(marker, whole, e);
      }
    }
  }

  datatype Waiter = Waiter(id: nat, marker: string)

  /** The waiters that go on waiting. */
  function Still(waiters: seq<Waiter>, transcript: string): (still: seq<Waiter>)
    ensures forall w :: w in still <==> w in waiters && !Occurs(w.marker, transcript)
  {
    if waiters == [] then []
    else
      var init, last := Still(waiters[..|waiters| - 1], transcript), waiters[|waiters| - 1];
      assert waiters == waiters[..|waiters| - 1] + [last];
      if Occurs(last.marker, transcript) then init else init + [last]
  }

  /** The ids of the others. */
  function SeenBy(waiters: seq<Waiter>, transcript: string): (ids: set<nat>)
    ensures forall id :: id in ids <==> exists w :: w in waiters && w.id == id && Occurs(w.marker, transcript)
  {
    if waiters == [] then {}
    else
      var init, last := SeenBy(waiters[..|waiters| - 1], transcript), waiters[|waiters| - 1];
      assert waiters == waiters[..|waiters| - 1] + [last];
      if Occurs(last.marker, transcript) then init + {last.id} else init
  }

  method AnswerWaiters(waiters: seq<Waiter>, transcript: string) returns (still: seq<Waiter>, seen: set<nat>)
    ensures still == Still(waiters, transcript) && seen == SeenBy(waiters, transcript)
  {
    still, seen := [], {};
    for i := 0 to |waiters|
      invariant still == Still(waiters[..i], transcript) && seen == SeenBy(waiters[..i], transcript)
    {
      assert waiters[..i + 1][..i] == waiters[..i];
      if Occurs(waiters[i].marker, transcript) {
        seen := seen + {waiters[i].id};
      } else {
        still := still + [waiters[i]];
      }
    }
    assert waiters[..|waiters|] == waiters;
  }

  function Answered(ids: set<nat>, answer: Answer): map<nat, Answer> {
    map id | id in ids :: answer
  }

  predicate FitsAll(waiters: seq<Waiter>, id: nat, data: string) {
    forall w :: w in waiters && w.id == id ==> Fits(w.marker, data)
  }

  datatype Answer = Seen | GaveUp

  /** A waiter's marker is not in sight, and, if every write fits, has not been completed since the waiter began. */
  ghost predicate Pending(w: Waiter, stream: string, since: map<nat, nat>, fits: map<nat, bool>) {
    && w.id in since && w.id in fits
    && since[w.id] <= |stream|
    && !Occurs(w.marker, Last(stream))
    && (fits[w.id] ==> !EndsAfter(w.marker, stream, since[w.id]))
  }

  ghost predicate AllPending(waiters: seq<Waiter>, stream: string, since: map<nat, nat>, fits: map<nat, bool>) {
    forall w :: w in waiters ==> Pending(w, stream, since, fits)
  }

  ghost predicate IdsApart(waiters: seq<Waiter>) {
    forall v, w :: v in waiters && w in waiters && v.id == w.id ==> v == w
  }

  ghost predicate Unanswered(waiters: seq<Waiter>, answered: set<nat>) {
    forall w :: w in waiters ==> w.id !in answered
  }

  function FitsAfter(fits: map<nat, bool>, waiters: seq<Waiter>, data: string): map<nat, bool> {
    map id | id in fits :: fits[id] && FitsAll(waiters, id, data)
  }

  lemma {:induction false} FitsAfterIs(fits: map<nat, bool>, waiters: seq<Waiter>, data: string, w: Waiter)
    requires IdsApart(waiters) && w in waiters && w.id in fits
    ensures w.id in FitsAfter(fits, waiters, data)
    ensures FitsAfter(fits, waiters, data)[w.id] <==> fits[w.id] && Fits(w.marker, data)
  {
  }

  /** The fitting waiters that a write answers are those whose marker it completes. */
  ghost predicate AnswersFirst(waiters: seq<Waiter>, still: seq<Waiter>, stream: string, since: map<nat, nat>,
                               fits: map<nat, bool>)
  {
    forall w :: w in waiters ==>
      w.id in fits && w.id in since && (fits[w.id] ==> (w !in still <==> EndsAfter(w.marker, stream, since[w.id])))
  }

  lemma {:induction false} WriteAnswers(waiters: seq<Waiter>, stream: string, data: string, since: map<nat, nat>,
                                        fits: map<nat, bool>)
    requires AllPending(waiters, stream, since, fits) && IdsApart(waiters)
    ensures AllPending(Still(waiters, Last(stream + data)), stream + data, since, FitsAfter(fits, waiters, data))
    ensures AnswersFirst(waiters, Still(waiters, Last(stream + data)), stream + data, since,
                         FitsAfter(fits, waiters, data))
  {
    var after, still := FitsAfter(fits, waiters, data), Still(waiters, Last(stream + data));
    forall w | w in waiters
      ensures w.id in after && w.id in since
      ensures after[w.id] ==> (w !in still <==> EndsAfter(w.marker, stream + data, since[w.id]))
    {
      assert Pending(w, stream, since, fits);
      FitsAfterIs(fits, waiters, data, w);
      if after[w.id] {
        FirstCompletion(w.marker, stream, data, since[w.id]);
      }
    }
    forall w | w in still ensures Pending(w, stream + data, since, after) {
      assert Pending(w, stream, since, fits);
    }
  }

  lemma {:induction false} StillApart(waiters: seq<Waiter>, transcript: string, answered: set<nat>)
    requires IdsApart(waiters) && Unanswered(waiters, answered)
    ensures IdsApart(Still(waiters, transcript))
    ensures Unanswered(Still(waiters, transcript), answered + SeenBy(waiters, transcript))
  {
  }

  /** Whom a write answers has not been answered before. */
  lemma {:induction false} SeenAreWaiting(waiters: seq<Waiter>, transcript: string, answered: set<nat>, nextId: nat)
    requires Unanswered(waiters, answered) && forall w :: w in waiters ==> w.id < nextId
    ensures SeenBy(waiters, transcript) !! answered
    ensures forall id :: id in SeenBy(waiters, transcript) ==> id < nextId
    ensures forall w :: w in Still(waiters, transcript) ==> w.id < nextId
  {
  }

  class Watcher {
    var transcript: string
    var waiters: seq<Waiter>
    var answers: map<nat, Answer>
    var nextId: nat
    /** Everything written; for each waiter, how much had been when it began, and whether every write since fits. */
    ghost var stream: string
    ghost var since: map<nat, nat>
    ghost var fits: map<nat, bool>

    ghost predicate Valid()
      reads this
    {
      && transcript == Last(stream)
      && AllPending(waiters, stream, since, fits)
      && IdsApart(waiters) && Unanswered(waiters, answers.Keys)
      && (forall w :: w in waiters ==> w.id < nextId) && (forall id :: id in answers ==> id < nextId)
    }

    constructor ()
      ensures Valid() && stream == "" && waiters == []
    {
      transcript, waiters, answers, nextId := "", [], map[], 0;
      stream, since, fits := "", map[], map[];
    }

    /** Answered at once when the marker is in sight. */
    method WaitFor(marker: string) returns (id: nat)
      requires Valid()
      modifies this
      ensures Valid() && stream == old(stream) && transcript == old(transcript)
      ensures id == old(nextId) && nextId == id + 1
      ensures if Occurs(marker, Last(stream)) then answers == old(answers)[id := Seen] && waiters == old(waiters)
              else answers == old(answers) && waiters == old(waiters) + [Waiter(id, marker)]
      ensures !Occurs(marker, Last(stream)) ==> id in since && since[id] == |stream|
    {
      id := nextId;
      nextId := nextId + 1;
      if Occurs(marker, transcript) {
        answers := answers[id := Seen];
      } else {
        since, fits := since[id := |stream|], fits[id := true];
        waiters := waiters + [Waiter(id, marker)];
      }
    }

    /**
     * Whoever's marker is in sight after the write is answered. As long as every write fits a waiter's marker, that is
     * the very write that completes its first occurrence since the waiter began.
     */
    method Write(data: string)
      requires Valid()
      modifies this
      ensures Valid() && stream == old(stream) + data && transcript == Last(stream)
      ensures waiters == Still(old(waiters), transcript) && nextId == old(nextId) && since == old(since)
      ensures answers.Keys == old(answers).Keys + SeenBy(old(waiters), transcript)
      ensures forall id :: id in answers ==> answers[id] == if id in old(answers) then old(answers)[id] else Seen
      ensures fits == FitsAfter(old(fits), old(waiters), data)
      ensures AnswersFirst(old(waiters), waiters, stream, since, fits)
    {
      hide Pending, EndsAfter, FitsAll, AnswersFirst, AllPending, IdsApart, Unanswered, Last, Still, SeenBy;
      LastOfLast(stream, data);
      WriteAnswers(waiters, stream, data, since, fits);
      StillApart(waiters, Last(stream + data), answers.Keys);
      transcript := Last(transcript + data);
      stream := stream + data;
      fits := FitsAfter(fits, waiters, data);
      SeenAreWaiting(waiters, transcript, answers.Keys, nextId);
      var seen;
      waiters, seen := AnswerWaiters(waiters, transcript);
      assert (answers + Answered(seen, Seen)).Keys == answers.Keys + seen;
      answers := answers + Answered(seen, Seen);
    }

    /** The handshake timeout: the waiter is answered without its marker having been seen. */
    method TimeOut(id: nat)
      requires Valid() && id < nextId
      modifies this`waiters, this`answers
      ensures Valid()
      ensures forall w :: w in waiters <==> w in old(waiters) && w.id != id
      ensures answers == if id in old(answers) then old(answers) else old(answers)[id := GaveUp]
    {
      waiters := Without(waiters, id);
      if id !in answers {
        answers := answers[id := GaveUp];
      }
    }
  }

  function Without(waiters: seq<Waiter>, id: nat): (left: seq<Waiter>)
    ensures forall w :: w in left <==> w in waiters && w.id != id
  {
    if waiters == [] then []
    else
      var init, last := Without(waiters[..|waiters| - 1], id), waiters[|waiters| - 1];
      assert waiters == waiters[..|waiters| - 1] + [last];
      if last.id == id then init else init + [last]
  }

  /** With no completed occurrence so far, one is shown after a short write exactly when the write completes one. */
  lemma {:induction false} FirstCompletion(marker: string, stream: string, data: string, from: nat)
    requires !Occurs(marker, Last(stream)) && Fits(marker, data) && from <= |stream| && !EndsAfter(marker, stream, from)
    ensures Occurs(marker, Last(stream + data)) <==> EndsAfter(marker, stream + data, from)
  {
    ShortWriteShows(marker, stream, data);
    forall e | from < e <= |stream + data| && EndsAt(marker, stream + data, e) ensures e > |stream| {
      if e <= |stream| {
        EndsAtOfMore(marker, stream, data, e);
      }
    }
  }
}
