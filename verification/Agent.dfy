/**
 * Framing a command's output on a serial console (site/js/agent.js): which line closes a run, what lies between the
 * lines, and how the command is quoted. A status is kept as its digits.
 */
module Agent {
  import opened Prelude
  import opened Chains
  import opened Text

  // ---------- lines ----------

  predicate IsDigit(c: char) {
    '0' <= c <= '9'
  }

  /** Where the run of digits at `p` ends. */
  function DigitsEnd(said: string, p: nat): (q: nat)
    requires p <= |said|
    ensures p <= q <= |said|
    decreases |said| - p
  {
    if p < |said| && IsDigit(said[p]) then DigitsEnd(said, p + 1) else p
  }

  function ReturnsEnd(said: string, p: nat): (q: nat)
    requires p <= |said|
    ensures p <= q <= |said|
    decreases |said| - p
  {
    if p < |said| && said[p] == '\r' then ReturnsEnd(said, p + 1) else p
  }

  lemma {:induction false} RunsEnd(said: string, p: nat, i: nat)
    requires p <= i
    ensures p <= |said| && i < DigitsEnd(said, p) ==> IsDigit(said[i])
    ensures p <= |said| && i < ReturnsEnd(said, p) ==> said[i] == '\r'
    decreases i - p
  {
    if p < i && p < |said| {
      RunsEnd(said, p + 1, i);
    }
  }

  /** At the start of the text or after a line feed. */
  predicate LineStart(said: string, p: nat) {
    p == 0 || (p <= |said| && said[p - 1] == '\n')
  }

  predicate Reads(said: string, p: nat, word: string) {
    p + |word| <= |said| && said[p..p + |word|] == word
  }

  datatype Line = Line(status: string, end: nat)

  /** Any carriage returns, then the line feed. */
  function Closed(said: string, p: nat): Option<nat>
    requires p <= |said|
  {
    var r := ReturnsEnd(said, p);
    if r < |said| && said[r] == '\n' then Some(r + 1) else None
  }

  /** The closing line that starts here. */
  function EndLine(said: string, marker: string, p: nat): Option<Line> {
    if !LineStart(said, p) || !Reads(said, p, marker + ":") then None
    else
      var d := p + |marker| + 1;
      var q := DigitsEnd(said, d);
      var closed := Closed(said, q);
      if q == d || closed.None? then None else Some(Line(said[d..q], closed.value))
  }

  /** Where the opening line that starts here ends. */
  function StartLine(said: string, marker: string, p: nat): Option<nat> {
    if LineStart(said, p) && Reads(said, p, marker + ":go") then Closed(said, p + |marker| + 3) else None
  }

  // ---------- a line stays what it is as more arrives ----------

  lemma {:induction false} DigitsEndOfPrefix(said: string, n: nat, p: nat)
    requires p <= n <= |said|
    ensures DigitsEnd(said[..n], p) == Min(DigitsEnd(said, p), n)
    decreases n - p
  {
    if p < n && IsDigit(said[p]) {
      DigitsEndOfPrefix(said, n, p + 1);
    }
  }

  lemma {:induction false} ReturnsEndOfPrefix(said: string, n: nat, p: nat)
    requires p <= n <= |said|
    ensures ReturnsEnd(said[..n], p) == Min(ReturnsEnd(said, p), n)
    decreases n - p
  {
    if p < n && said[p] == '\r' {
      ReturnsEndOfPrefix(said, n, p + 1);
    }
  }

  lemma {:induction false} ClosedOfPrefix(said: string, n: nat, p: nat)
    requires p <= n <= |said|
    ensures Closed(said[..n], p) ==
      if Closed(said, p).Some? && Closed(said, p).value <= n then Closed(said, p) else None
  {
    ReturnsEndOfPrefix(said, n, p);
  }

  /** A closing line is in a prefix exactly when the prefix has all of it: a status is never read short. */
  lemma {:induction false} EndLineOfPrefix(said: string, marker: string, n: nat, p: nat)
    requires n <= |said|
    ensures EndLine(said[..n], marker, p) ==
      if EndLine(said, marker, p).Some? && EndLine(said, marker, p).value.end <= n
      then EndLine(said, marker, p) else None
  {
    var d := p + |marker| + 1;
    if d <= n {
      assert said[..n][p..d] == said[p..d];
      DigitsEndOfPrefix(said, n, d);
      var q := DigitsEnd(said, d);
      if q <= n {
        ClosedOfPrefix(said, n, q);
        assert said[..n][d..q] == said[d..q];
      }
    }
  }

  lemma {:induction false} StartLineOfPrefix(said: string, marker: string, n: nat, p: nat)
    requires n <= |said|
    ensures StartLine(said[..n], marker, p) ==
      if StartLine(said, marker, p).Some? && StartLine(said, marker, p).value <= n
      then StartLine(said, marker, p) else None
  {
    var d := p + |marker| + 3;
    if d <= n {
      assert said[..n][p..d] == said[p..d];
      ClosedOfPrefix(said, n, d);
    }
  }

  /** Its only line feed is its last character. */
  lemma {:induction false} OneLineFeed(said: string, marker: string, p: nat, i: nat)
    requires '\n' !in marker && EndLine(said, marker, p).Some? && p <= i < EndLine(said, marker, p).value.end
    ensures EndLine(said, marker, p).value.end <= |said|
    ensures said[i] == '\n' <==> i == EndLine(said, marker, p).value.end - 1
  {
    var d := p + |marker| + 1;
    if i < d {
      assert said[i] == said[p..d][i - p] == (marker + ":")[i - p];
      if i < p + |marker| {
        assert said[i] == marker[i - p];
      }
    } else {
      RunsEnd(said, d, i);
      if i >= DigitsEnd(said, d) {
        RunsEnd(said, DigitsEnd(said, d), i);
      }
    }
  }

  /** Two closing lines are one after the other. */
  lemma {:induction false} LinesApart(said: string, marker: string, p: nat, r: nat)
    requires '\n' !in marker && EndLine(said, marker, p).Some? && EndLine(said, marker, r).Some? && p < r
    ensures EndLine(said, marker, p).value.end <= r
  {
    if r < EndLine(said, marker, p).value.end {
      OneLineFeed(said, marker, p, r - 1);
    }
  }

  // ---------- the last match ----------

  /** Where the closing line that starts at a place ends, if one does. */
  function EndsIn(said: string, marker: string): Ends {
    (p: nat) => if EndLine(said, marker, p).Some? then Some(EndLine(said, marker, p).value.end) else None
  }

  lemma {:induction false} EndLinesAreLines(said: string, marker: string)
    requires '\n' !in marker
    ensures Lines(EndsIn(said, marker), |said|)
  {
    forall p: nat, r: nat ensures InOrder(EndsIn(said, marker), p, r) {
      if p < r && EndLine(said, marker, p).Some? && EndLine(said, marker, r).Some? {
        LinesApart(said, marker, p, r);
      }
    }
  }

  /** The match the run is read from. */
  function LastEnd(said: string, marker: string): Option<nat> {
    LastFrom(EndsIn(said, marker), |said|, 0)
  }

  lemma {:induction false} EndLineForward(said: string, marker: string, p: nat)
    ensures EndLine(said, marker, p).Some? ==> p < EndLine(said, marker, p).value.end <= |said|
  {
  }

  /** Matches do not overlap, and a match takes the line feed before its line with it. */
  method LastMatch(said: string, marker: string) returns (last: Option<nat>)
    ensures last == LastEnd(said, marker)
  {
    hide EndLine;
    var ends := EndsIn(said, marker);
    last := None;
    var from: nat := 0;
    while true
      invariant LastEnd(said, marker) ==
        if LastFrom(ends, |said|, from).Some? then LastFrom(ends, |said|, from) else last
      decreases |said| + 1 - from
    {
      var p := FirstFrom(ends, |said|, from);
      if p.None? {
        return;
      }
      last := p;
      EndLineForward(said, marker, p.value);
      from := EndLine(said, marker, p.value).value.end + 1;
    }
  }

  ghost predicate IsLastEnd(said: string, marker: string, p: nat) {
    IsLast(EndsIn(said, marker), |said|, p)
  }

  /**
   * Of the closing lines the run's own comes last. It is the one that is read exactly when the unbroken run of closing
   * lines it ends is odd in number; otherwise the line right before it is read in its place.
   */
  lemma {:induction false} OwnLineIsReadIffOdd(said: string, marker: string, p: nat)
    requires '\n' !in marker && IsLastEnd(said, marker, p)
    ensures LastEnd(said, marker).Some?
    ensures LastEnd(said, marker) == Some(p) <==> OddChain(EndsIn(said, marker), p)
    ensures !OddChain(EndsIn(said, marker), p) ==> Follows(EndsIn(said, marker), LastEnd(said, marker).value, p)
  {
    EndLinesAreLines(said, marker);
    LastLineIsReadIffOdd(EndsIn(said, marker), |said|, p);
  }

  /** The status the last match carries, if there is one. */
  function Completion(said: string, marker: string): Option<string> {
    var last := LastEnd(said, marker);
    if last.Some? && EndLine(said, marker, last.value).Some?
    then Some(EndLine(said, marker, last.value).value.status) else None
  }

  ghost predicate OnlyEnd(said: string, marker: string, p: nat) {
    EndLine(said, marker, p).Some? && forall i: nat :: i != p ==> EndLine(said, marker, i).None?
  }

  lemma {:induction false} OnlyEndIsRead(said: string, marker: string, p: nat)
    requires '\n' !in marker && OnlyEnd(said, marker, p)
    ensures LastEnd(said, marker) == Some(p)
  {
    EndLinesAreLines(said, marker);
    assert Within(EndsIn(said, marker), |said|, p);
    OnlyLineIsRead(EndsIn(said, marker), |said|, p);
  }

  /**
   * While one run's transcript arrives, its status is unknown until its closing line is whole, and right from then on.
   */
  lemma {:induction false} StatusNeverReadShort(said: string, marker: string, p: nat, n: nat)
    requires '\n' !in marker && OnlyEnd(said, marker, p) && n <= |said|
    ensures var line := EndLine(said, marker, p).value;
      Completion(said[..n], marker) == if line.end <= n then Some(line.status) else None
  {
    forall i: nat
      ensures EndLine(said[..n], marker, i).Some? ==>
        i == p && EndLine(said[..n], marker, i) == EndLine(said, marker, p)
    {
      EndLineOfPrefix(said, marker, n, i);
    }
    EndLineOfPrefix(said, marker, n, p);
    if EndLine(said, marker, p).value.end <= n {
      OnlyEndIsRead(said[..n], marker, p);
    }
  }

  lemma {:induction false} DigitsEndIs(said: string, p: nat, q: nat)
    requires p <= q < |said| && !IsDigit(said[q]) && forall i :: p <= i < q ==> IsDigit(said[i])
    ensures DigitsEnd(said, p) == q
    decreases q - p
  {
    if p < q {
      DigitsEndIs(said, p + 1, q);
    }
  }

  lemma {:induction false} ReadsSlice(said: string, p: nat, word: string, i: nat, j: nat)
    requires Reads(said, p, word) && i <= j <= |word|
    ensures said[p + i..p + j] == word[i..j]
  {
    assert forall k :: 0 <= k < |word| ==> said[p + k] == word[k];
  }

  // ---------- lines written out ----------

  function Returns(k: nat): (text: string)
    ensures |text| == k && forall i :: 0 <= i < k ==> text[i] == '\r'
  {
    seq(k, _ => '\r')
  }

  lemma {:induction false} ReturnsEndSkips(k: nat, rest: string)
    ensures ReturnsEnd(Returns(k) + rest, 0) == k + ReturnsEnd(rest, 0)
  {
    ReturnsEndFrom(k, rest, 0);
  }

  lemma {:induction false} ReturnsEndFrom(k: nat, rest: string, p: nat)
    requires p <= k
    ensures ReturnsEnd(Returns(k) + rest, p) == k + ReturnsEnd(rest, 0)
    decreases k - p
  {
    if p < k {
      ReturnsEndFrom(k, rest, p + 1);
    } else {
      ReturnsEndShift(Returns(k), rest, 0);
    }
  }

  lemma {:induction false} ReturnsEndShift(front: string, rest: string, p: nat)
    requires p <= |rest|
    ensures ReturnsEnd(front + rest, |front| + p) == |front| + ReturnsEnd(rest, p)
    decreases |rest| - p
  {
    if p < |rest| && rest[p] == '\r' {
      ReturnsEndShift(front, rest, p + 1);
    }
  }

  ghost predicate IsStatus(status: string) {
    status != "" && forall i :: 0 <= i < |status| ==> IsDigit(status[i])
  }

  /** A closing line as a terminal passes it on. */
  function Closing(marker: string, status: string, k: nat): string {
    marker + ":" + (status + (Returns(k) + "\n"))
  }

  lemma {:induction false} StatusEnds(status: string, k: nat, rest: string)
    requires IsStatus(status)
    ensures var text := status + (Returns(k) + ("\n" + rest));
      DigitsEnd(text, 0) == |status| && Closed(text, |status|) == Some(|status| + k + 1)
  {
    var end := "\n" + rest;
    var text := status + (Returns(k) + end);
    assert !IsDigit(text[|status|]);
    DigitsEndIs(text, 0, |status|);
    ReturnsEndShift(status, Returns(k) + end, 0);
    ReturnsEndSkips(k, end);
  }

  lemma {:induction false} DigitsEndShift(front: string, rest: string, p: nat)
    requires p <= |rest|
    ensures DigitsEnd(front + rest, |front| + p) == |front| + DigitsEnd(rest, p)
    decreases |rest| - p
  {
    if p < |rest| && IsDigit(rest[p]) {
      DigitsEndShift(front, rest, p + 1);
    }
  }

  lemma {:induction false} ClosedBehind(front: string, rest: string, p: nat)
    requires p <= |rest|
    ensures Closed(front + rest, |front| + p).Some? <==> Closed(rest, p).Some?
    ensures Closed(rest, p).Some? ==> Closed(front + rest, |front| + p) == Some(|front| + Closed(rest, p).value)
  {
    ReturnsEndShift(front, rest, p);
  }

  lemma {:induction false} EndLineIs(said: string, marker: string, p: nat, status: string, end: nat)
    requires LineStart(said, p) && Reads(said, p, marker + ":") && status != ""
    requires var d := p + |marker| + 1; var q := d + |status|;
      q <= |said| && DigitsEnd(said, d) == q && said[d..q] == status && Closed(said, q) == Some(end)
    ensures EndLine(said, marker, p) == Some(Line(status, end))
  {
  }

  /** What is read behind a marker and its colon. */
  lemma {:induction false} ReadsBehind(front: string, status: string, k: nat, rest: string)
    requires IsStatus(status)
    ensures var said, d := front + (status + (Returns(k) + ("\n" + rest))), |front|;
      && DigitsEnd(said, d) == d + |status| && said[d..d + |status|] == status
      && Closed(said, d + |status|) == Some(d + |status| + k + 1)
  {
    var text := status + (Returns(k) + ("\n" + rest));
    StatusEnds(status, k, rest);
    DigitsEndShift(front, text, 0);
    ClosedBehind(front, text, |status|);
  }

  /** A status of digits, written out at the start of a line, is a closing line, whatever comes after it. */
  lemma {:induction false} WrittenLine(before: string, marker: string, status: string, k: nat, rest: string)
    requires IsStatus(status) && LineStart(before, |before|)
    ensures EndLine(before + (Closing(marker, status, k) + rest), marker, |before|) ==
            Some(Line(status, |before| + |Closing(marker, status, k)|))
  {
    hide DigitsEnd, Closed;
    var said, front := before + (Closing(marker, status, k) + rest), before + (marker + ":");
    WrittenSplits(before, marker, status, k, rest);
    ReadsBehind(front, status, k, rest);
    assert said[|before|..|front|] == marker + ":";
    EndLineIs(said, marker, |before|, status, |before| + |Closing(marker, status, k)|);
  }

  lemma {:induction false} ClosingEndsLine(before: string, marker: string, status: string, k: nat)
    ensures LineStart(before + Closing(marker, status, k), |before + Closing(marker, status, k)|)
    ensures |Closing(marker, status, k)| > 0
  {
    var line := Closing(marker, status, k);
    assert line == (marker + ":" + status + Returns(k)) + "\n";
  }

  lemma {:induction false} WrittenSplits(before: string, marker: string, status: string, k: nat, rest: string)
    ensures before + (Closing(marker, status, k) + rest) ==
            (before + (marker + ":")) + (status + (Returns(k) + ("\n" + rest)))
  {
  }

  lemma {:induction false} ReturnsAre(said: string, p: nat, k: nat)
    requires p + k <= |said| && said[p..p + k] == Returns(k)
    ensures ReturnsEnd(said, p) == ReturnsEnd(said, p + k)
    decreases k
  {
    if k > 0 {
      assert said[p] == said[p..p + k][0];
      assert said[p + 1..p + k] == said[p..p + k][1..] == Returns(k - 1);
      ReturnsAre(said, p + 1, k - 1);
    }
  }

  lemma {:induction false} ReturnsEndIs(said: string, p: nat)
    requires p <= |said|
    ensures said[p..ReturnsEnd(said, p)] == Returns(ReturnsEnd(said, p) - p)
  {
    forall i | p <= i < ReturnsEnd(said, p) ensures said[i] == '\r' {
      RunsEnd(said, p, i);
    }
  }

  /** Any number of carriage returns and a line feed, and nothing else, closes a line. */
  lemma {:induction false} ClosedMeans(said: string, p: nat, end: nat)
    requires p <= |said|
    ensures Closed(said, p) == Some(end) <==>
            exists k: nat :: p + k + 1 == end <= |said| && said[p..end] == Returns(k) + "\n"
  {
    if Closed(said, p) == Some(end) {
      ReturnsEndIs(said, p);
      var k := end - 1 - p;
      assert said[p..end] == said[p..end - 1] + [said[end - 1]] == Returns(k) + "\n";
    }
    forall k: nat | p + k + 1 == end <= |said| && said[p..end] == Returns(k) + "\n"
      ensures Closed(said, p) == Some(end)
    {
      assert said[p..p + k] == said[p..end][..k] == Returns(k);
      ReturnsAre(said, p, k);
      assert said[p + k] == said[p..end][k] == '\n';
    }
  }

  /**
   * A closing line is the marker, a colon, digits, carriage returns and a line feed, where a line starts: all of that,
   * and nothing else.
   */
  lemma {:induction false} EndLineMeans(said: string, marker: string, p: nat, status: string, end: nat)
    ensures EndLine(said, marker, p) == Some(Line(status, end)) <==>
            (p == 0 || (p <= |said| && said[p - 1] == '\n')) && p <= end <= |said|
            && status != "" && (forall i :: 0 <= i < |status| ==> '0' <= status[i] <= '9')
            && exists k: nat :: said[p..end] == marker + ":" + status + (Returns(k) + "\n")
  {
    hide EndLine;
    if EndLine(said, marker, p) == Some(Line(status, end)) {
      var k := EndLineIsWritten(said, marker, p, status, end);
    }
    if (p == 0 || (p <= |said| && said[p - 1] == '\n')) && IsStatus(status) && p <= end <= |said| {
      forall k: nat | said[p..end] == marker + ":" + status + (Returns(k) + "\n")
        ensures EndLine(said, marker, p) == Some(Line(status, end))
      {
        WrittenIsEndLine(said, marker, p, status, k, end);
      }
    }
  }

  lemma {:induction false} EndLineIsWritten(said: string, marker: string, p: nat, status: string, end: nat)
    returns (k: nat)
    requires EndLine(said, marker, p) == Some(Line(status, end))
    ensures LineStart(said, p) && IsStatus(status) && p <= end <= |said|
    ensures said[p..end] == marker + ":" + status + (Returns(k) + "\n")
  {
    var d := p + |marker| + 1;
    var q := DigitsEnd(said, d);
    StatusIsDigits(said, d);
    k := ClosedIsWritten(said, q, end);
    SliceInThree(said, p, d, q, end);
  }

  lemma {:induction false} ClosedIsWritten(said: string, p: nat, end: nat) returns (k: nat)
    requires p <= |said| && Closed(said, p) == Some(end)
    ensures p + k + 1 == end <= |said| && said[p..end] == Returns(k) + "\n"
  {
    ClosedMeans(said, p, end);
    k :| p + k + 1 == end <= |said| && said[p..end] == Returns(k) + "\n";
  }

  lemma {:induction false} SliceInThree(s: string, a: nat, b: nat, c: nat, d: nat)
    requires a <= b <= c <= d <= |s|
    ensures s[a..d] == s[a..b] + s[b..c] + s[c..d]
  {
  }

  lemma {:induction false} StatusIsDigits(said: string, d: nat)
    requires d <= |said|
    ensures forall i :: 0 <= i < DigitsEnd(said, d) - d ==> IsDigit(said[d..DigitsEnd(said, d)][i])
  {
    forall i | d <= i < DigitsEnd(said, d) ensures IsDigit(said[i]) {
      RunsEnd(said, d, i);
    }
  }

  lemma {:induction false} WrittenIsEndLine(said: string, marker: string, p: nat, status: string, k: nat, end: nat)
    requires LineStart(said, p) && IsStatus(status) && p <= end <= |said|
    requires said[p..end] == marker + ":" + status + (Returns(k) + "\n")
    ensures EndLine(said, marker, p) == Some(Line(status, end))
  {
    hide EndLine, IsStatus;
    assert said == said[..p] + (said[p..end] + said[end..]);
    assert LineStart(said[..p], p);
    assert said[p..end] == Closing(marker, status, k);
    WrittenLine(said[..p], marker, status, k, said[end..]);
  }

  // ---------- a status that is swallowed ----------

  /** No closing line, and nothing that could be the start of one. */
  ghost predicate NoEndLine(before: string, marker: string) {
    LineStart(before, |before|) && forall i: nat :: EndLine(before, marker, i).None?
  }

  /** What follows a whole line makes no line before it. */
  lemma {:induction false} NoEndLineBefore(before: string, marker: string, rest: string, i: nat)
    requires '\n' !in marker && NoEndLine(before, marker) && i < |before|
    ensures EndLine(before + rest, marker, i).None?
  {
    var said := before + rest;
    assert said[..|before|] == before;
    EndLineOfPrefix(said, marker, |before|, i);
    if EndLine(said, marker, i).Some? && EndLine(said, marker, i).value.end > |before| {
      OneLineFeed(said, marker, i, |before| - 1);
    }
  }

  /**
   * An output that ends with a closing line of its own, its line feed missing, swallows the run's: the printf's
   * leading line feed completes the output's line, and what is read is the output's status, not the run's. Before it
   * there may be anything without a closing line: the echo, the opening line, the rest of the output.
   */
  lemma {:induction false} SwallowedStatus(before: string, marker: string, faked: string, actual: string, j: nat,
                                           k: nat)
    requires '\n' !in marker && IsStatus(faked) && IsStatus(actual) && NoEndLine(before, marker)
    ensures Completion(before + (Closing(marker, faked, j) + Closing(marker, actual, k)), marker) == Some(faked)
  {
    hide EndLine, Closing, IsStatus;
    var first, second := Closing(marker, faked, j), Closing(marker, actual, k);
    ClosingEndsLine(before, marker, faked, j);
    var said, q := before + (first + second), |before| + |first|;
    WrittenLine(before, marker, faked, j, second);
    WrittenLine(before + first, marker, actual, k, "");
    assert (before + first) + (second + "") == said;
    forall i: nat | i < |before| ensures EndLine(said, marker, i).None? {
      NoEndLineBefore(before, marker, first + second, i);
    }
    FirstOfTwoEnds(said, marker, |before|, q);
  }

  /** Two closing lines with nothing between them, and none before: the first is read. */
  lemma {:induction false} FirstOfTwoEnds(said: string, marker: string, p: nat, q: nat)
    requires '\n' !in marker && p < q && EndLine(said, marker, p).Some? && EndLine(said, marker, p).value.end == q
    requires EndLine(said, marker, q).Some? && EndLine(said, marker, q).value.end == |said|
    requires forall i: nat :: i < p ==> EndLine(said, marker, i).None?
    ensures Completion(said, marker) == Some(EndLine(said, marker, p).value.status)
  {
    NothingAfter(said, marker, q);
    EndLinesAreLines(said, marker);
    assert Follows(EndsIn(said, marker), p, q);
    FirstOfTwoIsRead(EndsIn(said, marker), |said|, p, q);
  }

  lemma {:induction false} NothingAfter(said: string, marker: string, p: nat)
    requires '\n' !in marker && EndLine(said, marker, p).Some? && EndLine(said, marker, p).value.end == |said|
    ensures IsLastEnd(said, marker, p)
  {
    forall i: nat | i > p ensures EndLine(said, marker, i).None? {
      if EndLine(said, marker, i).Some? {
        LinesApart(said, marker, p, i);
      }
    }
  }

  // ---------- what the command said ----------

  function FirstStart(said: string, marker: string, from: nat): (p: Option<nat>)
    ensures p.Some? ==> from <= p.value <= |said| && StartLine(said, marker, p.value).Some?
    ensures p.Some? ==> forall i :: from <= i < p.value ==> StartLine(said, marker, i).None?
    ensures p.None? ==> forall i :: from <= i ==> StartLine(said, marker, i).None?
    decreases |said| - from
  {
    if from > |said| then None
    else if StartLine(said, marker, from).Some? then Some(from)
    else if from == |said| then None
    else FirstStart(said, marker, from + 1)
  }

  /** Carriage returns right before a line feed are dropped; others stay. */
  function Collapse(text: string): string {
    if text == "" then ""
    else if text[0] == '\r' && Closed(text, 0).Some? then Collapse(text[1..])
    else [text[0]] + Collapse(text[1..])
  }

  function TrimStart(text: string): string {
    if text != "" && IsSpace(text[0]) then TrimStart(text[1..]) else text
  }

  function TrimEnd(text: string): string {
    if text != "" && IsSpace(text[|text| - 1]) then TrimEnd(text[..|text| - 1]) else text
  }

  function Trim(text: string): string {
    TrimStart(TrimEnd(text))
  }

  predicate Blank(text: string) {
    forall i :: 0 <= i < |text| ==> IsSpace(text[i])
  }

  /** Trimming takes blanks from both ends until there is none there, and nothing else. */
  lemma {:induction false} TrimMeans(text: string) returns (front: string, back: string)
    ensures text == front + Trim(text) + back
    ensures forall c :: c in front + back ==> c in {' ', '\t', '\n', '\U{000B}', '\U{000C}', '\r'}
    ensures var t := Trim(text); t != "" ==>
      t[0] !in {' ', '\t', '\n', '\U{000B}', '\U{000C}', '\r'}
      && t[|t| - 1] !in {' ', '\t', '\n', '\U{000B}', '\U{000C}', '\r'}
  {
    var kept := TrimEnd(text);
    TrimEndIsPrefix(text);
    TrimEndIsDone(text);
    back := text[|kept|..];
    front := TrimStartIs(kept);
    assert text == kept + back;
  }

  lemma {:induction false} TrimEndIsPrefix(text: string)
    ensures TrimEnd(text) <= text && Blank(text[|TrimEnd(text)|..])
  {
    if text != "" && IsSpace(text[|text| - 1]) {
      var init := text[..|text| - 1];
      TrimEndIsPrefix(init);
      assert text[|TrimEnd(init)|..] == init[|TrimEnd(init)|..] + [text[|text| - 1]];
    }
  }

  lemma {:induction false} TrimEndIsDone(text: string)
    ensures var kept := TrimEnd(text); kept != "" ==> !IsSpace(kept[|kept| - 1])
  {
    if text != "" && IsSpace(text[|text| - 1]) {
      TrimEndIsDone(text[..|text| - 1]);
    }
  }

  lemma {:induction false} TrimStartIs(text: string) returns (front: string)
    ensures text == front + TrimStart(text) && Blank(front)
    ensures TrimStart(text) != "" ==> !IsSpace(TrimStart(text)[0])
    ensures TrimStart(text) != "" ==> TrimStart(text)[|TrimStart(text)| - 1] == text[|text| - 1]
  {
    if text != "" && IsSpace(text[0]) {
      var rest := TrimStartIs(text[1..]);
      front := [text[0]] + rest;
      assert text == [text[0]] + text[1..];
    } else {
      front := "";
    }
  }

  /** Everything before the line that closes the run, or everything so far. */
  function BeforeEnd(said: string, marker: string): string {
    var end := LastEnd(said, marker);
    if end.None? || end.value > |said| then said else if end.value == 0 then "" else said[..end.value - 1]
  }

  /** Everything after the line that opens the run. */
  function AfterStart(body: string, marker: string): string {
    var start := FirstStart(body, marker, 0);
    if start.None? then body else body[Min(StartLine(body, marker, start.value).value, |body|)..]
  }

  function OutputOf(said: string, marker: string): string {
    Trim(Collapse(AfterStart(BeforeEnd(said, marker), marker)))
  }

  /** What lies between the first opening line and the closing line that is read. */
  lemma {:induction false} OutputIsBetween(said: string, marker: string, s: nat, p: nat)
    requires LastEnd(said, marker) == Some(p) && OpensAt(said, marker, s)
    requires StartLine(said, marker, s).value < p <= |said|
    ensures OutputOf(said, marker) == Trim(Collapse(said[StartLine(said, marker, s).value..p - 1]))
  {
    hide Trim, Collapse, LastEnd, StartLine, AfterStart, BeforeEnd;
    BeforeRead(said, marker, p);
    AfterStartOfPrefix(said, marker, s, p - 1);
  }

  lemma {:induction false} BeforeRead(said: string, marker: string, p: nat)
    requires LastEnd(said, marker) == Some(p) && 0 < p <= |said|
    ensures BeforeEnd(said, marker) == said[..p - 1]
  {
    hide LastEnd;
  }

  lemma {:induction false} NoStartNoCut(body: string, marker: string)
    requires forall i: nat :: StartLine(body, marker, i).None?
    ensures AfterStart(body, marker) == body
  {
    hide StartLine;
  }

  /** With no opening line before it: everything in front of the closing line that is read. */
  lemma {:induction false} OutputIsBefore(said: string, marker: string, p: nat)
    requires LastEnd(said, marker) == Some(p) && 0 < p <= |said|
    requires forall i: nat :: StartLine(said, marker, i).Some? ==> StartLine(said, marker, i).value >= p
    ensures OutputOf(said, marker) == Trim(Collapse(said[..p - 1]))
  {
    hide Trim, Collapse, LastEnd, StartLine, AfterStart, BeforeEnd;
    var body := said[..p - 1];
    BeforeRead(said, marker, p);
    forall i: nat ensures StartLine(body, marker, i).None? {
      StartLineOfPrefix(said, marker, p - 1, i);
    }
    NoStartNoCut(body, marker);
  }

  /** The first opening line. */
  ghost predicate OpensAt(said: string, marker: string, s: nat) {
    StartLine(said, marker, s).Some? && forall i: nat :: i < s ==> StartLine(said, marker, i).None?
  }

  lemma {:induction false} AfterStartOfPrefix(said: string, marker: string, s: nat, n: nat)
    requires OpensAt(said, marker, s)
    requires StartLine(said, marker, s).value <= n <= |said|
    ensures AfterStart(said[..n], marker) == said[StartLine(said, marker, s).value..n]
  {
    FirstStartOfPrefix(said, marker, s, n);
    assert said[..n][StartLine(said, marker, s).value..] == said[StartLine(said, marker, s).value..n];
  }

  lemma {:induction false} FirstStartOfPrefix(said: string, marker: string, s: nat, n: nat)
    requires OpensAt(said, marker, s)
    requires StartLine(said, marker, s).value <= n <= |said|
    ensures FirstStart(said[..n], marker, 0) == Some(s)
    ensures StartLine(said[..n], marker, s) == StartLine(said, marker, s)
  {
    StartLineOfPrefix(said, marker, n, s);
    forall i: nat | i < s ensures StartLine(said[..n], marker, i).None? {
      StartLineOfPrefix(said, marker, n, i);
    }
  }

  /** A terminal's line discipline: `k` carriage returns before every line feed. */
  function Cooked(text: string, k: nat): string {
    if text == "" then ""
    else (if text[0] == '\n' then Returns(k) else "") + [text[0]] + Cooked(text[1..], k)
  }

  /** No line of the text ends in a carriage return of its own. */
  predicate Plain(text: string) {
    forall i :: 0 < i < |text| && text[i] == '\n' ==> text[i - 1] != '\r'
  }

  lemma {:induction false} CollapseReturns(k: nat, rest: string)
    ensures rest != "" && rest[0] == '\n' ==> Collapse(Returns(k) + rest) == Collapse(rest)
    ensures rest == "" ==> Collapse(Returns(k) + rest) == Returns(k)
  {
    if k == 0 {
      assert Returns(0) + rest == rest;
    } else {
      CollapseReturns(k - 1, rest);
      ReturnsEndSkips(k, rest);
      assert (Returns(k) + rest)[1..] == Returns(k - 1) + rest;
      assert rest == "" ==> ['\r'] + Returns(k - 1) == Returns(k);
    }
  }

  /** The first character of a cooked text. */
  lemma {:induction false} CookedStarts(text: string, k: nat, j: nat)
    requires text != "" && text[0] != '\n'
    ensures Cooked(text, k) + Returns(j) == [text[0]] + (Cooked(text[1..], k) + Returns(j))
  {
  }

  lemma {:induction false} ClosedShift(rest: string)
    ensures Closed(['\r'] + rest, 0).Some? <==> Closed(rest, 0).Some?
  {
    ReturnsEndShift(['\r'], rest, 0);
  }

  /** Whether a line feed follows is the same before the terminal and after it. */
  lemma {:induction false} CookedClosed(text: string, k: nat, j: nat)
    ensures Closed(Cooked(text, k) + Returns(j), 0).Some? <==> Closed(text, 0).Some?
  {
    var cooked := Cooked(text, k) + Returns(j);
    if text == "" {
      assert cooked == Returns(j) + "";
      ReturnsEndSkips(j, "");
    } else if text[0] == '\n' {
      assert cooked == Returns(k) + (['\n'] + (Cooked(text[1..], k) + Returns(j)));
      ReturnsEndSkips(k, ['\n'] + (Cooked(text[1..], k) + Returns(j)));
    } else {
      CookedStarts(text, k, j);
      if text[0] == '\r' {
        CookedClosed(text[1..], k, j);
        ClosedShift(Cooked(text[1..], k) + Returns(j));
        ClosedShift(text[1..]);
        assert ['\r'] + text[1..] == text;
      }
    }
  }

  lemma {:induction false} Front(c: char, a: string, b: string)
    ensures ([c] + a) + b == [c] + (a + b)
  {
  }

  /**
   * Normalising line endings does to a cooked text what it does to the text, whatever is left of a line ending behind.
   */
  lemma {:induction false} CollapseOfCooked(text: string, k: nat, j: nat)
    ensures Collapse(Cooked(text, k) + Returns(j)) == Collapse(text) + Returns(j)
    decreases |text|
  {
    if text == "" {
      assert Cooked(text, k) + Returns(j) == Returns(j) + "";
      CollapseReturns(j, "");
      assert "" + Returns(j) == Returns(j);
    } else {
      CollapseOfCooked(text[1..], k, j);
      if text[0] == '\n' {
        CollapseLineEnd(text, k, j);
      } else {
        CollapseOther(text, k, j);
      }
      Front(text[0], Collapse(text[1..]), Returns(j));
    }
  }

  lemma {:induction false} CollapseLineEnd(text: string, k: nat, j: nat)
    requires text != "" && text[0] == '\n'
    ensures Collapse(Cooked(text, k) + Returns(j)) == ['\n'] + Collapse(Cooked(text[1..], k) + Returns(j))
  {
    var rest := Cooked(text[1..], k) + Returns(j);
    var tail := ['\n'] + rest;
    assert Cooked(text, k) + Returns(j) == Returns(k) + tail;
    CollapseReturns(k, tail);
    assert tail[1..] == rest;
  }

  lemma {:induction false} CollapseOther(text: string, k: nat, j: nat)
    requires text != "" && text[0] != '\n'
    ensures var rest := Collapse(Cooked(text[1..], k) + Returns(j));
      Collapse(Cooked(text, k) + Returns(j)) ==
        if text[0] == '\r' && Closed(text, 0).Some? then rest else [text[0]] + rest
  {
    var rest := Cooked(text[1..], k) + Returns(j);
    CookedStarts(text, k, j);
    CookedClosed(text, k, j);
    assert ([text[0]] + rest)[1..] == rest;
  }

  /** A text with no line ending of its own that has a carriage return is left alone; any other gets shorter. */
  lemma {:induction false} CollapseKeepsIffPlain(text: string)
    ensures |Collapse(text)| <= |text|
    ensures Plain(text) ==> Collapse(text) == text
    ensures !Plain(text) ==> |Collapse(text)| < |text|
  {
    if text != "" {
      var rest := text[1..];
      CollapseKeepsIffPlain(rest);
      assert text == [text[0]] + rest;
      PlainCons(text);
      if text[0] == '\r' && Closed(text, 0).Some? {
        ClosedIsNotPlain(text);
      } else if |text| > 1 && text[0] == '\r' && text[1] == '\n' {
        assert ReturnsEnd(text, 1) == 1;
      }
    }
  }

  lemma {:induction false} PlainCons(text: string)
    requires text != ""
    ensures Plain(text) <==> Plain(text[1..]) && !(|text| > 1 && text[0] == '\r' && text[1] == '\n')
  {
    var rest := text[1..];
    if Plain(text) {
      forall i | 0 < i < |rest| && rest[i] == '\n' ensures rest[i - 1] != '\r' {
        assert text[i + 1] == '\n' && text[i] == rest[i - 1];
      }
    }
    if Plain(rest) && !(|text| > 1 && text[0] == '\r' && text[1] == '\n') {
      forall i | 0 < i < |text| && text[i] == '\n' ensures text[i - 1] != '\r' {
        assert i > 1 ==> rest[i - 1] == '\n' && rest[i - 2] == text[i - 1];
      }
    }
  }

  lemma {:induction false} ClosedIsNotPlain(text: string)
    requires text != "" && text[0] == '\r' && Closed(text, 0).Some?
    ensures !Plain(text)
  {
    var r := ReturnsEnd(text, 0);
    RunsEnd(text, 0, r - 1);
    assert text[r] == '\n' && text[r - 1] == '\r';
  }

  /** So normalising undoes the terminal exactly when the text had no CR LF of its own. */
  lemma {:induction false} CollapseUndoesCooking(text: string, k: nat, j: nat)
    ensures Collapse(Cooked(text, k) + Returns(j)) == text + Returns(j) <==> Plain(text)
  {
    CollapseOfCooked(text, k, j);
    CollapseKeepsIffPlain(text);
  }

  // ---------- blanks around the output ----------

  lemma {:induction false} TrimEndReturns(text: string, j: nat)
    ensures TrimEnd(text + Returns(j)) == TrimEnd(text)
  {
    if j == 0 {
      assert text + Returns(0) == text;
    } else {
      TrimEndReturns(text, j - 1);
      assert (text + Returns(j))[..|text| + j - 1] == text + Returns(j - 1);
    }
  }

  lemma {:induction false} TrimEndCons(c: char, rest: string)
    ensures TrimEnd([c] + rest) ==
      if Blank(rest) then (if IsSpace(c) then "" else [c]) else [c] + TrimEnd(rest)
  {
    var text := [c] + rest;
    if rest == "" {
      assert text[..0] == "";
    } else {
      var init, last := rest[..|rest| - 1], rest[|rest| - 1];
      assert text[..|text| - 1] == [c] + init && text[|text| - 1] == last;
      if IsSpace(last) {
        TrimEndCons(c, init);
        assert Blank(rest) <==> Blank(init);
      }
    }
  }

  lemma {:induction false} BlankTrims(text: string)
    requires Blank(text)
    ensures TrimEnd(text) == ""
  {
    if text != "" {
      BlankTrims(text[..|text| - 1]);
    }
  }

  lemma {:induction false} CollapseBlank(text: string)
    ensures Blank(Collapse(text)) <==> Blank(text)
  {
    if text != "" {
      var rest := text[1..];
      CollapseBlank(rest);
      BlankCons(text[0], rest);
      BlankCons(text[0], Collapse(rest));
      assert text == [text[0]] + rest;
    }
  }

  lemma {:induction false} BlankCons(c: char, rest: string)
    ensures Blank([c] + rest) <==> IsSpace(c) && Blank(rest)
  {
    if Blank([c] + rest) {
      assert ([c] + rest)[0] == c;
      forall i | 0 <= i < |rest| ensures IsSpace(rest[i]) {
        assert ([c] + rest)[i + 1] == rest[i];
      }
    }
  }

  /** A line ending in front of something that is not blank is not trimmed away. */
  lemma {:induction false} ClosedOfTrimmed(text: string)
    requires !Blank(text)
    ensures Closed(TrimEnd(text), 0).Some? <==> Closed(text, 0).Some?
  {
    TrimEndIsPrefix(text);
    var n := |TrimEnd(text)|;
    assert text[..n] == TrimEnd(text);
    ClosedOfPrefix(text, n, 0);
    if Closed(text, 0).Some? && Closed(text, 0).value > n {
      var v := Closed(text, 0).value;
      forall i | 0 <= i < |text| ensures IsSpace(text[i]) {
        if i < n {
          RunsEnd(text, 0, i);
        } else {
          assert text[n..][i - n] == text[i];
        }
      }
    }
  }

  lemma {:induction false} CollapseOfTrimEnd(text: string)
    ensures TrimEnd(Collapse(text)) == Collapse(TrimEnd(text))
  {
    if text != "" {
      var c, rest := text[0], text[1..];
      assert text == [c] + rest;
      CollapseOfTrimEnd(rest);
      CollapseBlank(rest);
      BlankCons(c, rest);
      TrimEndCons(c, rest);
      TrimEndCons(c, Collapse(rest));
      if Blank(text) {
        CollapseBlank(text);
        BlankTrims(Collapse(text));
      } else if Blank(rest) {
        assert Collapse([c]) == [c];
      } else {
        ClosedOfTrimmed(text);
        assert ([c] + TrimEnd(rest))[1..] == TrimEnd(rest);
      }
    }
  }

  lemma {:induction false} CollapseOfTrimStart(text: string)
    ensures TrimStart(Collapse(text)) == Collapse(TrimStart(text))
  {
    if text != "" {
      CollapseOfTrimStart(text[1..]);
      assert ([text[0]] + Collapse(text[1..]))[1..] == Collapse(text[1..]);
    }
  }

  /**
   * What a command printed through the terminal comes back trimmed, with its line endings normalised: as it was, but
   * for the blanks around it, exactly when no line of what is left had a carriage return of its own at its end.
   */
  lemma {:induction false} OutputComesBack(said: string, marker: string, s: nat, p: nat, output: string, k: nat, j: nat)
    requires LastEnd(said, marker) == Some(p) && OpensAt(said, marker, s)
    requires StartLine(said, marker, s).value < p <= |said|
    requires said[StartLine(said, marker, s).value..p - 1] == Cooked(output, k) + Returns(j)
    ensures OutputOf(said, marker) == Collapse(Trim(output))
    ensures OutputOf(said, marker) == Trim(output) <==> Plain(Trim(output))
  {
    OutputIsBetween(said, marker, s, p);
    CollapseOfCooked(output, k, j);
    TrimEndReturns(Collapse(output), j);
    CollapseOfTrimEnd(output);
    CollapseOfTrimStart(TrimEnd(output));
    CollapseKeepsIffPlain(Trim(output));
  }
}
