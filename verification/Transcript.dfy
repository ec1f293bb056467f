/**
 * What is read of a run whose console has kept only the end of it (site/js/agent.js over the watcher of
 * site/js/boot.js): `stream` is all that was ever written, and the driver sees the last characters of it.
 */
module Transcript {
  import opened Prelude
  import opened Agent
  import opened Chains
  import opened Console
  import opened Text

  /** How much is gone. */
  function Gone(stream: string): (cut: nat)
    ensures cut <= |stream| && Last(stream) == stream[cut..]
  {
    |stream| - |Last(stream)|
  }

  // ---------- lines of a suffix ----------

  lemma {:induction false} DigitsEndOfSuffix(said: string, cut: nat, p: nat)
    requires cut + p <= |said|
    ensures DigitsEnd(said, cut + p) == cut + DigitsEnd(said[cut..], p)
  {
    assert said[..cut] + said[cut..] == said;
    DigitsEndShift(said[..cut], said[cut..], p);
  }

  lemma {:induction false} ClosedOfSuffix(said: string, cut: nat, p: nat)
    requires cut + p <= |said|
    ensures Closed(said, cut + p).Some? <==> Closed(said[cut..], p).Some?
    ensures Closed(said[cut..], p).Some? ==> Closed(said, cut + p) == Some(cut + Closed(said[cut..], p).value)
  {
    assert said[..cut] + said[cut..] == said;
    ClosedBehind(said[..cut], said[cut..], p);
  }

  /** A place of the suffix starts a line where it does in the whole, or where the suffix starts. */
  lemma {:induction false} ReadsOfSuffix(said: string, cut: nat, p: nat, word: string)
    requires cut <= |said|
    ensures Reads(said[cut..], p, word) <==> Reads(said, cut + p, word)
    ensures LineStart(said[cut..], p) <==> p == 0 || LineStart(said, cut + p)
  {
    if cut + p + |word| <= |said| {
      assert said[cut..][p..p + |word|] == said[cut + p..cut + p + |word|];
    }
  }

  /** Past its first character, a suffix has the closing lines of the whole. */
  lemma {:induction false} EndLineOfSuffix(said: string, marker: string, cut: nat, p: nat)
    requires cut <= |said| && (p > 0 || LineStart(said, cut))
    ensures EndLine(said[cut..], marker, p).Some? <==> EndLine(said, marker, cut + p).Some?
    ensures EndLine(said[cut..], marker, p).Some? ==>
      var line := EndLine(said[cut..], marker, p).value;
      EndLine(said, marker, cut + p) == Some(Line(line.status, cut + line.end))
  {
    hide Reads, LineStart, DigitsEnd, Closed;
    ReadsOfSuffix(said, cut, p, marker + ":");
    ReadsWithin(said, cut + p, marker + ":");
    if Reads(said, cut + p, marker + ":") {
      ReadsWithin(said[cut..], p, marker + ":");
      StatusOfSuffix(said, cut, p + |marker| + 1);
    }
  }

  lemma {:induction false} ReadsWithin(said: string, p: nat, word: string)
    ensures Reads(said, p, word) ==> p + |word| <= |said|
  {
  }

  /** The digits at a place, and what ends the line behind them. */
  lemma {:induction false} StatusOfSuffix(said: string, cut: nat, d: nat)
    requires cut + d <= |said|
    ensures var q := DigitsEnd(said[cut..], d);
      && DigitsEnd(said, cut + d) == cut + q && said[cut..][d..q] == said[cut + d..cut + q]
      && (Closed(said, cut + q).Some? <==> Closed(said[cut..], q).Some?)
      && (Closed(said[cut..], q).Some? ==> Closed(said, cut + q) == Some(cut + Closed(said[cut..], q).value))
  {
    DigitsEndOfSuffix(said, cut, d);
    ClosedOfSuffix(said, cut, DigitsEnd(said[cut..], d));
  }

  lemma {:induction false} StartLineOfSuffix(said: string, marker: string, cut: nat, p: nat)
    requires cut <= |said| && (p > 0 || LineStart(said, cut))
    ensures StartLine(said[cut..], marker, p).Some? <==> StartLine(said, marker, cut + p).Some?
    ensures StartLine(said[cut..], marker, p).Some? ==>
      StartLine(said, marker, cut + p) == Some(cut + StartLine(said[cut..], marker, p).value)
  {
    ReadsOfSuffix(said, cut, p, marker + ":go");
    var d := p + |marker| + 3;
    if cut + d <= |said| {
      ClosedOfSuffix(said, cut, d);
    }
  }

  // ---------- the status ----------

  /** What the shown part begins with, if that reads like a closing line. */
  function AtCut(stream: string, marker: string): Option<Line> {
    EndLine(Last(stream), marker, 0)
  }

  /** Of the closing lines that are shown, all but one right at the cut are closing lines of the stream. */
  lemma {:induction false} ShownLines(stream: string, marker: string, i: nat)
    ensures i > 0 && EndLine(Last(stream), marker, i).Some? ==>
      var line := EndLine(Last(stream), marker, i).value;
      EndLine(stream, marker, Gone(stream) + i) == Some(Line(line.status, Gone(stream) + line.end))
    ensures i > 0 && EndLine(Last(stream), marker, i).None? ==> EndLine(stream, marker, Gone(stream) + i).None?
  {
    hide EndLine;
    if i > 0 {
      EndLineOfSuffix(stream, marker, Gone(stream), i);
    }
  }

  /** A closing line of the stream is shown when it is past the cut. */
  lemma {:induction false} LineIsShown(stream: string, marker: string, p: nat)
    requires EndLine(stream, marker, p).Some? && p >= Gone(stream)
    ensures var line := EndLine(stream, marker, p).value;
      EndLine(Last(stream), marker, p - Gone(stream)) ==
        Some(Line(line.status, line.end - Gone(stream)))
  {
    hide EndLine;
    StartsThere(stream, marker, p);
    EndLineOfSuffix(stream, marker, Gone(stream), p - Gone(stream));
  }

  lemma {:induction false} StartsThere(said: string, marker: string, p: nat)
    requires EndLine(said, marker, p).Some?
    ensures LineStart(said, p)
  {
  }

  /**
   * The last closing line is the last one shown, when it is shown; OwnLineIsReadIffOdd then says when it is read.
   * Otherwise nothing is shown that closes the run, but what the cut may happen to make.
   */
  lemma {:induction false} LastIsLastShown(stream: string, marker: string, p: nat)
    requires IsLastEnd(stream, marker, p)
    ensures p >= Gone(stream) ==> IsLastEnd(Last(stream), marker, p - Gone(stream))
    ensures p < Gone(stream) ==> forall i: nat :: i > 0 ==> EndLine(Last(stream), marker, i).None?
  {
    hide EndLine;
    var cut := Gone(stream);
    forall i: nat | i > 0 && cut + i > p ensures EndLine(Last(stream), marker, i).None? {
      ShownLines(stream, marker, i);
      EndLineForward(Last(stream), marker, i);
      assert cut + i <= |stream| ==> EndsIn(stream, marker)(cut + i).None?;
    }
    if p >= cut {
      LineIsShown(stream, marker, p);
      EndLineForward(stream, marker, p);
    }
  }

  /**
   * The status that is read from the end of a stream with one closing line: that line's, unless it is gone, or a line
   * that the cut has made comes right before it, in which case it is what the cut has made that is read.
   */
  lemma {:induction false} ShownStatus(stream: string, marker: string, p: nat)
    requires '\n' !in marker && OnlyEnd(stream, marker, p)
    ensures var cut, first := Gone(stream), AtCut(stream, marker);
      Completion(Last(stream), marker) ==
        if p < cut || (p > cut && first.Some? && first.value.end == p - cut)
        then if first.Some? then Some(first.value.status) else None
        else Some(EndLine(stream, marker, p).value.status)
  {
    hide EndLine;
    var cut, shown, first := Gone(stream), Last(stream), AtCut(stream, marker);
    OnlyIsLast(stream, marker, p);
    LastIsLastShown(stream, marker, p);
    if p < cut {
      ReadAtCut(shown, marker);
    } else {
      LineIsShown(stream, marker, p);
      forall i: nat | 0 < i && i != p - cut ensures EndLine(shown, marker, i).None? {
        ShownLines(stream, marker, i);
      }
      ReadAtCutOr(shown, marker, p - cut);
    }
  }

  lemma {:induction false} OnlyIsLast(said: string, marker: string, p: nat)
    requires OnlyEnd(said, marker, p)
    ensures IsLastEnd(said, marker, p)
  {
    EndLineForward(said, marker, p);
  }

  /** No closing line but perhaps at the very start. */
  lemma {:induction false} ReadAtCut(said: string, marker: string)
    requires '\n' !in marker && forall i: nat :: i > 0 ==> EndLine(said, marker, i).None?
    ensures Completion(said, marker) ==
      if EndLine(said, marker, 0).Some? then Some(EndLine(said, marker, 0).value.status) else None
  {
    hide EndLine;
    if EndLine(said, marker, 0).Some? {
      OnlyEndIsRead(said, marker, 0);
    } else {
      EndLinesAreLines(said, marker);
      assert FirstFrom(EndsIn(said, marker), |said|, 0).None?;
    }
  }

  /** One closing line, and perhaps another at the very start. */
  lemma {:induction false} ReadAtCutOr(said: string, marker: string, p: nat)
    requires '\n' !in marker && EndLine(said, marker, p).Some?
    requires forall i: nat :: 0 < i && i != p ==> EndLine(said, marker, i).None?
    ensures var first := EndLine(said, marker, 0);
      Completion(said, marker) ==
        if p > 0 && first.Some? && first.value.end == p then Some(first.value.status)
        else Some(EndLine(said, marker, p).value.status)
  {
    hide EndLine;
    EndLineForward(said, marker, p);
    assert IsLastEnd(said, marker, p);
    OwnLineIsReadIffOdd(said, marker, p);
    var ends := EndsIn(said, marker);
    if p > 0 && EndLine(said, marker, 0).Some? && EndLine(said, marker, 0).value.end == p {
      assert OddChain(ends, 0);
      assert Follows(ends, 0, p);
      BehindIsEven(ends, 0, p);
      OneBefore(said, marker, LastEnd(said, marker).value, p);
    } else {
      forall r | 0 <= r < p && Follows(ends, r, p) ensures !OddChain(ends, r) {
        assert EndLine(said, marker, r).Some?;
      }
    }
  }

  lemma {:induction false} OneBefore(said: string, marker: string, m: nat, p: nat)
    requires Follows(EndsIn(said, marker), m, p)
    requires forall i: nat :: 0 < i && i != p ==> EndLine(said, marker, i).None?
    ensures m == 0 && EndLine(said, marker, 0).Some?
  {
    EndLineForward(said, marker, m);
  }

  // ---------- the output ----------

  /** The only opening line. */
  ghost predicate OnlyStart(said: string, marker: string, s: nat) {
    StartLine(said, marker, s).Some? && forall i: nat :: i != s ==> StartLine(said, marker, i).None?
  }

  /**
   * The output that is read, when the run's own closing line is: all of it while the opening line is shown, and
   * afterwards only what is left of it, with whatever is left of the opening line in front. Nothing at the cut may read
   * like an opening line of its own.
   */
  lemma {:induction false} ShownOutput(stream: string, marker: string, s: nat, p: nat)
    requires p > Gone(stream) && LastEnd(Last(stream), marker) == Some(p - Gone(stream)) && p <= |stream|
    requires OnlyStart(stream, marker, s) && StartLine(stream, marker, s).value < p
    requires s != Gone(stream) ==> StartLine(Last(stream), marker, 0).None?
    ensures OutputOf(Last(stream), marker) == Trim(Collapse(
      if s >= Gone(stream) then stream[StartLine(stream, marker, s).value..p - 1] else stream[Gone(stream)..p - 1]))
  {
    hide EndLine, StartLine, LastEnd, OutputOf, Trim, Collapse, Last;
    var cut := Gone(stream);
    var shown := stream[cut..];
    forall i: nat | i + cut != s ensures StartLine(shown, marker, i).None? {
      if i > 0 {
        StartLineOfSuffix(stream, marker, cut, i);
      }
    }
    if s >= cut {
      ShownStart(stream, marker, s, cut);
      OutputIsBetween(shown, marker, s - cut, p - cut);
      var from := StartLine(stream, marker, s).value;
      SliceOfSuffix(stream, cut, from, p - 1);
    } else {
      OutputIsBefore(shown, marker, p - cut);
      SliceOfSuffix(stream, cut, cut, p - 1);
    }
  }

  lemma {:induction false} SliceOfSuffix(s: string, cut: nat, a: nat, b: nat)
    requires cut <= a <= b <= |s|
    ensures s[cut..][a - cut..b - cut] == s[a..b]
  {
  }

  lemma {:induction false} ShownStart(stream: string, marker: string, s: nat, cut: nat)
    requires cut <= s && cut <= |stream| && StartLine(stream, marker, s).Some?
    ensures StartLine(stream[cut..], marker, s - cut).Some?
    ensures StartLine(stream, marker, s).value == cut + StartLine(stream[cut..], marker, s - cut).value
  {
    StartLineOfSuffix(stream, marker, cut, s - cut);
  }
}
