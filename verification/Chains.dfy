/**
 * Searching a text for lines whose match takes the line feed before them with it. `ends` says where the line that
 * starts at a place ends, if one does; the line feed it ends with is not there any more for a line right behind it.
 */
module Chains {
  import opened Prelude

  type Ends = nat -> Option<nat>

  predicate InOrder(ends: Ends, p: nat, r: nat) {
    p < r && ends(p).Some? && ends(r).Some? ==> ends(p).value <= r
  }

  predicate Within(ends: Ends, size: nat, p: nat) {
    ends(p).Some? ==> p < ends(p).value <= size
  }

  /** Lines are within the text, and one after the other. */
  ghost predicate Lines(ends: Ends, size: nat) {
    (forall p :: Within(ends, size, p)) && (forall p, r :: InOrder(ends, p, r))
  }

  /** The first line at or after `from`. */
  function FirstFrom(ends: Ends, size: nat, from: nat): (p: Option<nat>)
    ensures p.Some? ==> from <= p.value <= size && ends(p.value).Some?
    ensures p.Some? ==> forall i :: from <= i < p.value ==> ends(i).None?
    ensures p.None? ==> forall i :: from <= i <= size ==> ends(i).None?
    decreases size - from
  {
    if from > size then None
    else if ends(from).Some? then Some(from)
    else if from == size then None
    else FirstFrom(ends, size, from + 1)
  }

  /** The last of the matches, each searched for from past the line feed of the one before. */
  function LastFrom(ends: Ends, size: nat, from: nat): Option<nat>
    decreases size + 1 - from
  {
    var p := FirstFrom(ends, size, from);
    if p.None? || ends(p.value).None? || ends(p.value).value < p.value then None
    else
      var rest := LastFrom(ends, size, ends(p.value).value + 1);
      if rest.Some? then rest else p
  }

  predicate Follows(ends: Ends, r: nat, p: nat) {
    ends(r) == Some(p)
  }

  /** The lines that end up one right behind the other, up to this one, are odd in number. */
  ghost predicate OddChain(ends: Ends, p: nat)
    decreases p
  {
    forall r :: 0 <= r < p && Follows(ends, r, p) ==> !OddChain(ends, r)
  }

  /** `odd` tells the odd places from the even ones. */
  ghost predicate Parity(ends: Ends, odd: nat -> bool) {
    forall p: nat :: odd(p) <==> forall r: nat :: r < p && Follows(ends, r, p) ==> !odd(r)
  }

  /** A place the search goes on from: the start, or past a line that was matched. */
  ghost predicate Resumes(ends: Ends, odd: nat -> bool, from: nat) {
    from == 0 || exists q :: 0 <= q < from && Follows(ends, q, from - 1) && odd(q)
  }

  lemma {:induction false} MatchedIsOdd(ends: Ends, odd: nat -> bool, size: nat, from: nat, p: nat)
    requires Lines(ends, size) && Parity(ends, odd) && Resumes(ends, odd, from)
    requires FirstFrom(ends, size, from) == Some(p)
    ensures odd(p)
  {
    forall r | 0 <= r < p && Follows(ends, r, p) ensures !odd(r) {
      if from > 0 {
        var q :| 0 <= q < from && Follows(ends, q, from - 1) && odd(q);
        PredecessorFollows(ends, odd, size, q, r, p, from);
      }
    }
  }

  /** Between two matches there is at most one line, and it is right behind the first. */
  lemma {:induction false} PredecessorFollows(ends: Ends, odd: nat -> bool, size: nat, q: nat, r: nat, p: nat,
                                              from: nat)
    requires Lines(ends, size) && Parity(ends, odd)
    requires q < from <= p && r < p && Follows(ends, q, from - 1) && Follows(ends, r, p)
    requires FirstFrom(ends, size, from) == Some(p) && odd(q)
    ensures !odd(r)
  {
    assert InOrder(ends, q, r) && InOrder(ends, r, q);
    if q < r {
      assert r == from - 1;
      assert Follows(ends, q, r);
    }
  }

  /** A line that is matched, with no other past the one that may be right behind it. */
  ghost predicate MatchedLast(ends: Ends, odd: nat -> bool, size: nat, m: nat) {
    && m <= size && ends(m).Some? && odd(m)
    && forall i: nat :: ends(m).value < i <= size ==> ends(i).None?
  }

  /** What the search finds from a place it goes on from. */
  ghost predicate Finds(ends: Ends, odd: nat -> bool, size: nat, from: nat, last: Option<nat>) {
    if last.None? then FirstFrom(ends, size, from).None?
    else FirstFrom(ends, size, from).Some? && MatchedLast(ends, odd, size, last.value)
  }

  lemma {:induction false} LastFromMeans(ends: Ends, odd: nat -> bool, size: nat, from: nat)
    requires Lines(ends, size) && Parity(ends, odd) && Resumes(ends, odd, from)
    ensures Finds(ends, odd, size, from, LastFrom(ends, size, from))
    decreases size + 1 - from
  {
    var first := FirstFrom(ends, size, from);
    if first.Some? {
      var p := first.value;
      MatchedIsOdd(ends, odd, size, from, p);
      assert Within(ends, size, p);
      ResumesPast(ends, odd, p);
      LastFromMeans(ends, odd, size, ends(p).value + 1);
      FindsFirst(ends, odd, size, from, p);
    }
  }

  lemma {:induction false} ResumesPast(ends: Ends, odd: nat -> bool, p: nat)
    requires ends(p).Some? && p < ends(p).value && odd(p)
    ensures Resumes(ends, odd, ends(p).value + 1)
  {
    assert Follows(ends, p, ends(p).value);
  }

  lemma {:induction false} FindsFirst(ends: Ends, odd: nat -> bool, size: nat, from: nat, p: nat)
    requires FirstFrom(ends, size, from) == Some(p) && odd(p) && Within(ends, size, p)
    requires Finds(ends, odd, size, ends(p).value + 1, LastFrom(ends, size, ends(p).value + 1))
    ensures Finds(ends, odd, size, from, LastFrom(ends, size, from))
  {
  }

  ghost predicate IsLast(ends: Ends, size: nat, p: nat) {
    p <= size && ends(p).Some? && forall i :: p < i <= size ==> ends(i).None?
  }

  lemma {:induction false} BehindIsEven(ends: Ends, m: nat, p: nat)
    requires m < p && Follows(ends, m, p) && OddChain(ends, m)
    ensures !OddChain(ends, p)
  {
  }

  /**
   * The last line is the one that is read exactly when the unbroken run of lines it ends is odd in number; otherwise
   * the line right before it is read in its place.
   */
  lemma {:induction false} LastLineIsReadIffOdd(ends: Ends, size: nat, p: nat)
    requires Lines(ends, size) && IsLast(ends, size, p)
    ensures LastFrom(ends, size, 0).Some?
    ensures LastFrom(ends, size, 0) == Some(p) <==> OddChain(ends, p)
    ensures !OddChain(ends, p) ==> Follows(ends, LastFrom(ends, size, 0).value, p)
  {
    LastFromMeans(ends, (p: nat) => OddChain(ends, p), size, 0);
    var m := LastFrom(ends, size, 0).value;
    if m < p {
      assert InOrder(ends, m, p);
      assert Follows(ends, m, p);
      BehindIsEven(ends, m, p);
    }
  }

  /** Two lines with nothing between them and none before: the first is read. */
  lemma {:induction false} FirstOfTwoIsRead(ends: Ends, size: nat, p: nat, q: nat)
    requires Lines(ends, size) && p < q && Follows(ends, p, q) && IsLast(ends, size, q)
    requires forall i: nat :: i < p ==> ends(i).None?
    ensures LastFrom(ends, size, 0) == Some(p)
  {
    assert OddChain(ends, p);
    BehindIsEven(ends, p, q);
    LastLineIsReadIffOdd(ends, size, q);
    assert InOrder(ends, p, LastFrom(ends, size, 0).value);
  }

  lemma {:induction false} OnlyLineIsRead(ends: Ends, size: nat, p: nat)
    requires Lines(ends, size) && p <= size && ends(p).Some? && forall i: nat :: i != p ==> ends(i).None?
    ensures LastFrom(ends, size, 0) == Some(p)
  {
    LastLineIsReadIffOdd(ends, size, p);
  }
}
