/**
 * One run of a command from end to end (site/js/agent.js): the line that is typed, what the guest's shell makes of it,
 * what the terminal passes on, and what is read from that. printf is that of POSIX.1-2017, as far as line feeds written
 * as escapes and string conversions go.
 */
module Driver {
  import opened Prelude
  import opened Agent
  import opened Chains
  import opened Shell
  import opened Text
  import Transcript

  // ---------- what the guest prints ----------

  /** What printf prints: an escaped n is a line feed, each conversion takes an argument, the rest stands for itself. */
  function Printed(format: string, arguments: seq<string>): string
    decreases |format|
  {
    if format == "" then ""
    else if |format| > 1 && format[0] == '\\' && format[1] == 'n' then ['\n'] + Printed(format[2..], arguments)
    else if |format| > 1 && format[0] == '%' && format[1] == 's' then
      if arguments == [] then Printed(format[2..], [])
      else arguments[0] + Printed(format[2..], arguments[1..])
    else [format[0]] + Printed(format[1..], arguments)
  }

  /** The words of the first command, up to a semicolon. */
  function FirstCommand(tokens: seq<Token>): (words: seq<string>)
    ensures |words| <= |tokens|
  {
    if tokens == [] || tokens[0].Operator? then [] else [tokens[0].text] + FirstCommand(tokens[1..])
  }

  /** A word once the shell has put the last status in. */
  function Expanded(words: seq<string>, status: string): seq<string> {
    if words == [] then [] else [if words[0] == "$?" then status else words[0]] + Expanded(words[1..], status)
  }

  /** Words that start a shell on a command line of its own. */
  predicate RunsShell(words: seq<string>, command: string) {
    words == ["sh", "-c", command]
  }

  function SaidBy(words: seq<string>, command: string, output: string, status: string): string {
    if RunsShell(words, command) then output
    else if |words| > 1 && words[0] == "printf" then Printed(words[1], Expanded(words[2..], status)) else ""
  }

  /** All that running these tokens prints, when the one command in them prints `output` and ends with `status`. */
  function Said(tokens: seq<Token>, command: string, output: string, status: string): string
    decreases |tokens|
  {
    if tokens == [] then ""
    else if tokens[0].Operator? then Said(tokens[1..], command, output, status)
    else
      var words := FirstCommand(tokens);
      SaidBy(words, command, output, status) + Said(tokens[|words|..], command, output, status)
  }

  lemma {:induction false} PrintedFeed(rest: string, arguments: seq<string>)
    ensures Printed("\\n" + rest, arguments) == ['\n'] + Printed(rest, arguments)
  {
    assert ("\\n" + rest)[2..] == rest;
  }

  lemma {:induction false} PrintedArgument(rest: string, argument: string, arguments: seq<string>)
    ensures Printed("%s" + rest, [argument] + arguments) == argument + Printed(rest, arguments)
  {
    assert ("%s" + rest)[2..] == rest && ([argument] + arguments)[1..] == arguments;
  }

  lemma {:induction false} PrintedCharacter(c: char, rest: string, arguments: seq<string>)
    requires c != '\\' && c != '%'
    ensures Printed([c] + rest, arguments) == [c] + Printed(rest, arguments)
  {
    assert ([c] + rest)[1..] == rest;
  }

  lemma {:induction false} GoPrints()
    ensures Printed(":go\\n", []) == ":go\n"
  {
    hide Printed;
    PrintedCharacter(':', "go\\n", []);
    PrintedCharacter('g', "o\\n", []);
    PrintedCharacter('o', "\\n", []);
    assert ['o'] + "\\n" == "o\\n" && ['g'] + "o\\n" == "go\\n" && [':'] + "go\\n" == ":go\\n";
    FeedPrints([]);
    assert [':'] + (['g'] + (['o'] + "\n")) == ":go\n";
  }

  lemma {:induction false} FeedPrints(arguments: seq<string>)
    ensures Printed("\\n", arguments) == "\n"
  {
    PrintedFeed("", arguments);
    assert "\\n" + "" == "\\n";
  }

  lemma {:induction false} StatusPrints(status: string)
    ensures Printed(":%s\\n", [status]) == ":" + status + "\n"
  {
    hide Printed;
    PrintedCharacter(':', "%s\\n", [status]);
    PrintedArgument("\\n", status, []);
    assert [status] + [] == [status] && [':'] + "%s\\n" == ":%s\\n" && "%s" + "\\n" == "%s\\n";
    FeedPrints([]);
    assert [':'] + (status + "\n") == ":" + status + "\n";
  }

  /** The marker's halves, put together again, behind a line feed. */
  lemma {:induction false} MarkerPrints(format: string, a: string, b: string, more: seq<string>)
    ensures Printed("\\n%s%s" + format, [a, b] + more) == "\n" + (a + b) + Printed(format, more)
  {
    hide Printed;
    var both := [a] + ([b] + more);
    assert [a, b] + more == both;
    PrintedArgument(format, b, more);
    PrintedArgument("%s" + format, a, [b] + more);
    PrintedFeed("%s" + ("%s" + format), both);
    assert "\\n" + ("%s" + ("%s" + format)) == "\\n%s%s" + format;
  }

  /** The opening printf prints the end of a line and the opening line. */
  lemma {:induction false} OpeningPrints(a: string, b: string)
    ensures Printed(OPENING, [a, b]) == "\n" + (a + b) + ":go\n"
  {
    hide Printed;
    GoPrints();
    MarkerPrints(":go\\n", a, b, []);
    assert [a, b] + [] == [a, b];
    assert "\\n%s%s" + ":go\\n" == OPENING;
  }

  /** The closing one prints the end of the output's last line and the closing line. */
  lemma {:induction false} ClosingPrints(a: string, b: string, status: string)
    ensures Printed(CLOSING, [a, b, status]) == "\n" + (a + b) + (":" + status + "\n")
  {
    hide Printed;
    StatusPrints(status);
    MarkerPrints(":%s\\n", a, b, [status]);
    assert [a, b] + [status] == [a, b, status];
    assert "\\n%s%s" + ":%s\\n" == CLOSING;
  }

  function AsTokens(words: seq<string>): seq<Token> {
    if words == [] then [] else [Word(words[0])] + AsTokens(words[1..])
  }

  ghost predicate AtOperator(rest: seq<Token>) {
    rest == [] || rest[0].Operator?
  }

  lemma {:induction false} FirstIsRead(words: seq<string>, rest: seq<Token>)
    requires AtOperator(rest)
    ensures FirstCommand(AsTokens(words) + rest) == words && |AsTokens(words)| == |words|
  {
    if words == [] {
      NothingFirst(rest);
      assert AsTokens(words) + rest == rest;
    } else {
      hide FirstCommand;
      var tail := AsTokens(words[1..]) + rest;
      FirstIsRead(words[1..], rest);
      WordFirst(words[0], tail);
      assert AsTokens(words) + rest == [Word(words[0])] + tail;
      assert words == [words[0]] + words[1..];
    }
  }

  lemma {:induction false} WordFirst(word: string, tail: seq<Token>)
    ensures FirstCommand([Word(word)] + tail) == [word] + FirstCommand(tail)
  {
    assert ([Word(word)] + tail)[1..] == tail;
  }

  lemma {:induction false} NothingFirst(rest: seq<Token>)
    requires AtOperator(rest)
    ensures FirstCommand(rest) == []
  {
  }

  lemma {:induction false} SaidFirst(words: seq<string>, rest: seq<Token>, command: string, output: string,
                                     status: string)
    requires words != [] && AtOperator(rest)
    ensures Said(AsTokens(words) + rest, command, output, status) ==
      SaidBy(words, command, output, status) + Said(rest, command, output, status)
  {
    hide SaidBy;
    FirstIsRead(words, rest);
    assert (AsTokens(words) + rest)[|words|..] == rest;
  }

  lemma {:induction false} SaidNext(rest: seq<Token>, command: string, output: string, status: string)
    ensures Said([Operator(';')] + rest, command, output, status) == Said(rest, command, output, status)
  {
    assert ([Operator(';')] + rest)[1..] == rest;
  }

  /** What the guest prints for a typed line. */
  function Transcribed(marker: string, output: string, status: string): string {
    "\n" + marker + ":go\n" + (output + ("\n" + marker + (":" + status + "\n")))
  }

  lemma {:induction false} OpeningIsSaid(marker: string, command: string, output: string, status: string)
    requires IsMarker(marker)
    ensures SaidBy(["printf", OPENING, marker[..CutOf(marker)], marker[CutOf(marker)..]], command, output, status) ==
      "\n" + marker + ":go\n"
  {
    var a, b := marker[..CutOf(marker)], marker[CutOf(marker)..];
    var words := ["printf", OPENING, a, b];
    HalvesStay(marker);
    ExpandedIs(a, b, [], status);
    assert words[2..] == [a, b] + [] && [a, b] + Expanded([], status) == [a, b];
    OpeningPrints(a, b);
    assert a + b == marker;
  }

  lemma {:induction false} ClosingIsSaid(marker: string, command: string, output: string, status: string)
    requires IsMarker(marker)
    ensures var a, b := marker[..CutOf(marker)], marker[CutOf(marker)..];
      SaidBy(["printf", CLOSING, a, b, "$?"], command, output, status) == "\n" + marker + (":" + status + "\n")
  {
    var a, b := marker[..CutOf(marker)], marker[CutOf(marker)..];
    var words := ["printf", CLOSING, a, b, "$?"];
    HalvesStay(marker);
    ExpandedIs(a, b, ["$?"], status);
    assert words[2..] == [a, b] + ["$?"];
    assert ["$?"][1..] == [] && Expanded(["$?"], status) == [status];
    assert [a, b] + [status] == [a, b, status];
    ClosingPrints(a, b, status);
    assert a + b == marker;
  }

  lemma {:induction false} ExpandedIs(a: string, b: string, more: seq<string>, status: string)
    requires a != "$?" && b != "$?"
    ensures Expanded([a, b] + more, status) == [a, b] + Expanded(more, status)
  {
    assert ([a, b] + more)[1..] == [b] + more && ([b] + more)[1..] == more;
    assert Expanded([b] + more, status) == [b] + Expanded(more, status);
    assert [a] + ([b] + Expanded(more, status)) == [a, b] + Expanded(more, status);
  }

  /** Nothing in a marker is a status to a shell. */
  lemma {:induction false} HalvesStay(marker: string)
    requires IsMarker(marker)
    ensures marker[..CutOf(marker)] != "$?" && marker[CutOf(marker)..] != "$?"
  {
    var cut := CutOf(marker);
    assert IsMarkerChar(marker[0]) && IsMarkerChar(marker[cut]);
    assert marker[..cut][0] == marker[0] && marker[cut..][0] == marker[cut];
  }

  /**
   * Running the typed line prints, in this order, the opening line, what the command prints, and the closing line with
   * the command's status, each behind a line feed.
   */
  lemma {:induction false} LinePrints(command: string, marker: string, output: string, status: string)
    requires IsMarker(marker)
    ensures Tokens(WrapCommand(command, marker)).Some?
    ensures Said(Tokens(WrapCommand(command, marker)).value, command, output, status) ==
      Transcribed(marker, output, status)
  {
    hide Said, SaidBy, IsMarker, CutOf, WrapCommand, Tokens, AsTokens, RunsShell;
    MarkerHasNoQuote(marker);
    CommandArrivesWhole(command, marker);
    var a, b := marker[..CutOf(marker)], marker[CutOf(marker)..];
    var opening, shell, closing := ["printf", OPENING, a, b], ["sh", "-c", command], ["printf", CLOSING, a, b, "$?"];
    var last := AsTokens(closing) + [];
    var middle := AsTokens(shell) + ([Operator(';')] + last);
    var tokens := AsTokens(opening) + ([Operator(';')] + middle);
    TokensAre(a, b, command);
    assert last == AsTokens(closing);
    SaidFirst(opening, [Operator(';')] + middle, command, output, status);
    SaidNext(middle, command, output, status);
    SaidFirst(shell, [Operator(';')] + last, command, output, status);
    SaidNext(last, command, output, status);
    SaidFirst(closing, [], command, output, status);
    NothingIsSaid(command, output, status);
    ShellIsSaid(command, output, status);
    OpeningIsSaid(marker, command, output, status);
    ClosingIsSaid(marker, command, output, status);
    var close := "\n" + marker + (":" + status + "\n");
    assert close + "" == close;
  }

  lemma {:induction false} NothingIsSaid(command: string, output: string, status: string)
    ensures Said([], command, output, status) == ""
  {
  }

  lemma {:induction false} ShellIsSaid(command: string, output: string, status: string)
    ensures SaidBy(["sh", "-c", command], command, output, status) == output
  {
  }

  lemma {:induction false} TokensAre(a: string, b: string, command: string)
    ensures AsTokens(["printf", OPENING, a, b]) == [Word("printf"), Word(OPENING), Word(a), Word(b)]
    ensures AsTokens(["sh", "-c", command]) == [Word("sh"), Word("-c"), Word(command)]
    ensures AsTokens(["printf", CLOSING, a, b, "$?"]) ==
      [Word("printf"), Word(CLOSING), Word(a), Word(b)] + [Word("$?")]
  {
    TokensOfFour("printf", OPENING, a, b);
    TokensOfFour("printf", CLOSING, a, b);
    TokensOfMore(["printf", CLOSING, a, b], ["$?"]);
    assert ["printf", CLOSING, a, b] + ["$?"] == ["printf", CLOSING, a, b, "$?"];
    assert ["sh", "-c", command][1..] == ["-c", command] && ["-c", command][1..] == [command];
    assert AsTokens([command]) == [Word(command)] && AsTokens(["$?"]) == [Word("$?")];
    assert AsTokens(["-c", command]) == [Word("-c"), Word(command)];
  }

  lemma {:induction false} TokensOfFour(p: string, q: string, a: string, b: string)
    ensures AsTokens([p, q, a, b]) == [Word(p), Word(q), Word(a), Word(b)]
  {
    assert [p, q, a, b][1..] == [q, a, b] && [q, a, b][1..] == [a, b] && [a, b][1..] == [b] && [b][1..] == [];
    assert AsTokens([b]) == [Word(b)] && AsTokens([a, b]) == [Word(a), Word(b)];
    assert AsTokens([q, a, b]) == [Word(q), Word(a), Word(b)];
  }

  lemma {:induction false} TokensOfMore(first: seq<string>, more: seq<string>)
    ensures AsTokens(first + more) == AsTokens(first) + AsTokens(more)
  {
    if first == [] {
      assert first + more == more;
    } else {
      TokensOfMore(first[1..], more);
      assert (first + more)[1..] == first[1..] + more;
    }
  }

  // ---------- what the terminal makes of it ----------

  lemma {:induction false} CookedConcat(a: string, b: string, k: nat)
    ensures Cooked(a + b, k) == Cooked(a, k) + Cooked(b, k)
  {
    if a == "" {
      assert a + b == b;
    } else {
      CookedConcat(a[1..], b, k);
      assert (a + b)[0] == a[0] && (a + b)[1..] == a[1..] + b;
      ConcatAssociates((if a[0] == '\n' then Returns(k) else "") + [a[0]], Cooked(a[1..], k), Cooked(b, k));
    }
  }

  lemma {:induction false} CookedOneLine(text: string, k: nat)
    requires '\n' !in text
    ensures Cooked(text, k) == text && Cooked(text + "\n", k) == text + (Returns(k) + "\n")
  {
    if text == "" {
      assert ("" + "\n")[1..] == "" && "" + "\n" == "\n";
      assert Cooked("\n", k) == Returns(k) + "\n";
    } else {
      CookedOneLine(text[1..], k);
      assert (text + "\n")[1..] == text[1..] + "\n" && text == [text[0]] + text[1..];
    }
  }

  function Feed(k: nat): string {
    Returns(k) + "\n"
  }

  function Opening(marker: string, k: nat): string {
    marker + ":go" + Feed(k)
  }

  /** Everything after the echo, as the page gets it. */
  function Arrives(marker: string, output: string, status: string, k: nat): string {
    Feed(k) + Opening(marker, k) + Cooked(output, k) + Feed(k) + Closing(marker, status, k)
  }

  lemma {:induction false} DigitsHaveNoFeed(status: string)
    requires IsStatus(status)
    ensures '\n' !in status
  {
  }

  lemma {:induction false} TranscribedArrives(marker: string, output: string, status: string, k: nat)
    requires '\n' !in marker && IsStatus(status)
    ensures Cooked(Transcribed(marker, output, status), k) == Arrives(marker, output, status, k)
  {
    hide Cooked;
    DigitsHaveNoFeed(status);
    var start, close: string := marker + ":go", marker + (":" + status);
    CookedOneLine("", k);
    CookedOneLine(start, k);
    CookedOneLine(close, k);
    CookedConcat("\n", start + "\n", k);
    CookedConcat("\n", close + "\n", k);
    CookedConcat(output, "\n" + (close + "\n"), k);
    CookedConcat("\n" + (start + "\n"), output + ("\n" + (close + "\n")), k);
    assert "" + "\n" == "\n" && "" + (Returns(k) + "\n") == Feed(k);
    TranscribedIs(marker, output, status);
    assert close + Feed(k) == Closing(marker, status, k);
  }

  lemma {:induction false} TranscribedIs(marker: string, output: string, status: string)
    ensures Transcribed(marker, output, status) ==
      ("\n" + ((marker + ":go") + "\n")) + (output + ("\n" + ((marker + (":" + status)) + "\n")))
  {
    assert "\n" + marker + ":go\n" == "\n" + ((marker + ":go") + "\n");
    assert "\n" + marker + (":" + status + "\n") == "\n" + ((marker + (":" + status)) + "\n");
  }

  // ---------- where the fences are ----------

  /** A place before the first line feed behind the echo. */
  lemma {:induction false} NoFenceInEcho(command: string, marker: string, echo: string, rest: string, i: nat)
    requires IsMarker(marker) && !Occurs(marker, command) && Broken(WrapCommand(command, marker) + ['\n'], echo)
    requires rest != "" && rest[0] in {'\r', '\n'} && i <= |echo|
    ensures EndLine(echo + rest, marker, i).None? && StartLine(echo + rest, marker, i).None?
  {
    hide WrapCommand, IsMarker, Broken;
    MarkerIsSeparable(marker);
    if Reads(echo + rest, i, marker) {
      ReadsInEcho(marker, echo, rest, i);
      EchoHidesMarker(command, marker, echo);
    }
    FenceReadsMarker(echo + rest, marker, i);
  }

  lemma {:induction false} FenceReadsMarker(said: string, marker: string, p: nat)
    ensures EndLine(said, marker, p).Some? || StartLine(said, marker, p).Some? ==> Reads(said, p, marker)
  {
    if EndLine(said, marker, p).Some? || StartLine(said, marker, p).Some? {
      var word := if EndLine(said, marker, p).Some? then marker + ":" else marker + ":go";
      assert Reads(said, p, word);
      ReadsSlice(said, p, word, 0, |marker|);
      assert word[0..|marker|] == marker;
    }
  }

  lemma {:induction false} ReadsAt(said: string, i: nat, word: string, at: nat)
    requires Reads(said, i, word) && i <= at < i + |word|
    ensures said[at] == word[at - i]
  {
    assert said[i..i + |word|][at - i] == said[at];
  }

  lemma {:induction false} ReadsInEcho(marker: string, echo: string, rest: string, i: nat)
    requires Separable(marker) && Reads(echo + rest, i, marker) && i <= |echo|
    requires rest != "" && rest[0] in {'\r', '\n'}
    ensures Occurs(marker, echo)
  {
    var said := echo + rest;
    if i + |marker| <= |echo| {
      assert echo[i..i + |marker|] == said[i..i + |marker|];
      assert At(marker, echo, i);
    } else {
      ReadsAt(said, i, marker, |echo|);
    }
  }

  lemma {:induction false} EchoHidesMarker(command: string, marker: string, echo: string)
    requires IsMarker(marker) && !Occurs(marker, command) && Broken(WrapCommand(command, marker) + ['\n'], echo)
    ensures !Occurs(marker, echo)
  {
    hide IsMarker;
    MarkerIsSeparable(marker);
    if Occurs(marker, echo) {
      var line := WrapCommand(command, marker);
      BrokenHasNoMore(marker, line + ['\n'], echo);
      assert line + ['\n'] == line + ['\n'] + "";
      OccursAround(marker, line, '\n', "");
      if Occurs(marker, line) {
        LineHidesMarker(command, marker);
      }
    }
  }

  /** The opening line written out at the start of a line. */
  lemma {:induction false} WrittenStart(before: string, marker: string, k: nat, rest: string)
    requires LineStart(before, |before|)
    ensures StartLine(before + (Opening(marker, k) + rest), marker, |before|) ==
            Some(|before| + |Opening(marker, k)|)
  {
    var front := before + (marker + ":go");
    var said := before + (Opening(marker, k) + rest);
    var tail := "\n" + rest;
    assert said == front + (Returns(k) + tail);
    assert said[|before|..|front|] == marker + ":go";
    ReturnsEndShift(front, Returns(k) + tail, 0);
    ReturnsEndSkips(k, tail);
  }

  /** No line closes the run within its opening line. */
  lemma {:induction false} OpeningClosesNothing(before: string, marker: string, k: nat, rest: string, i: nat)
    requires '\n' !in marker && |before| <= i < |before| + |Opening(marker, k)|
    ensures EndLine(before + (Opening(marker, k) + rest), marker, i).None?
  {
    var line := Opening(marker, k);
    var said := before + (line + rest);
    if i == |before| {
      var d := |before| + |marker| + 1;
      assert said[d] == line[|marker| + 1] == 'g';
    } else {
      var c := line[i - 1 - |before|];
      assert said[i - 1] == c;
      assert c != '\n';
    }
  }

  // ---------- a whole run ----------

  /** What the page has in hand once the closing line is there, and whatever comes after it. */
  datatype Run = Run(marker: string, echo: string, output: string, status: string, k: nat, after: string) {
    function Text(): string {
      echo + (Feed(k) + (Opening(marker, k) + (Cooked(output, k) + (Feed(k) + (Closing(marker, status, k) + after)))))
    }

    /** Where the opening line, the output and the closing line begin. */
    function OpensHere(): nat {
      |echo| + |Feed(k)|
    }

    function SaysHere(): nat {
      OpensHere() + |Opening(marker, k)|
    }

    function ClosesHere(): nat {
      SaysHere() + |Cooked(output, k)| + |Feed(k)|
    }

    /** The command was typed and echoed, line breaks put in anywhere; nothing after the closing line is another. */
    ghost predicate Of(command: string) {
      && IsMarker(marker) && !Occurs(marker, command) && Broken(WrapCommand(command, marker) + ['\n'], echo)
      && IsStatus(status) && forall i: nat :: EndLine(after, marker, i).None?
    }

    /** No whole line of the output closes the run. */
    ghost predicate SaysNothingClosing() {
      forall i: nat :: EndLine(Cooked(output + "\n", k), marker, i).None?
    }
  }

  lemma {:induction false} FeedEnds(a: string, k: nat)
    ensures LineStart(a + Feed(k), |a + Feed(k)|)
  {
    assert (a + Feed(k))[|a| + k] == '\n';
  }

  lemma {:induction false} RunCloses(run: Run, command: string)
    requires run.Of(command)
    ensures EndLine(run.Text(), run.marker, run.ClosesHere()) ==
      Some(Agent.Line(run.status, run.ClosesHere() + |Closing(run.marker, run.status, run.k)|))
    ensures IsLastEnd(run.Text(), run.marker, run.ClosesHere())
  {
    hide EndLine, IsMarker, WrapCommand, Broken, Cooked, Closing, Opening, IsStatus;
    MarkerIsSeparable(run.marker);
    var before := run.echo + Feed(run.k) + Opening(run.marker, run.k) + Cooked(run.output, run.k);
    var close := Closing(run.marker, run.status, run.k);
    FeedEnds(before, run.k);
    WrittenLine(before + Feed(run.k), run.marker, run.status, run.k, run.after);
    assert run.Text() == (before + Feed(run.k)) + (close + run.after) == (before + Feed(run.k) + close) + run.after;
    assert |before + Feed(run.k)| == run.ClosesHere();
    ClosingEndsLine(before + Feed(run.k), run.marker, run.status, run.k);
    LastOfWritten(before + Feed(run.k) + close, run.after, run.marker, run.ClosesHere());
  }

  /** A closing line that the first part ends with is the last one, when there is none in what follows. */
  lemma {:induction false} LastOfWritten(first: string, after: string, marker: string, p: nat)
    requires '\n' !in marker && LineStart(first, |first|) && |first| > 0
    requires EndLine(first + after, marker, p).Some? && EndLine(first + after, marker, p).value.end == |first|
    requires forall i: nat :: EndLine(after, marker, i).None?
    ensures IsLastEnd(first + after, marker, p)
  {
    hide EndLine;
    var said := first + after;
    EndLineForward(said, marker, p);
    assert LineStart(said, |first|) && said[|first|..] == after;
    forall i: nat | i > p ensures EndLine(said, marker, i).None? {
      if EndLine(said, marker, i).Some? {
        LinesApart(said, marker, p, i);
        Transcript.EndLineOfSuffix(said, marker, |first|, i - |first|);
      }
    }
  }

  lemma {:induction false} RunOpens(run: Run, command: string)
    requires run.Of(command)
    ensures OpensAt(run.Text(), run.marker, run.OpensHere())
    ensures StartLine(run.Text(), run.marker, run.OpensHere()) == Some(run.SaysHere())
    ensures forall i: nat :: i < run.OpensHere() ==> EndLine(run.Text(), run.marker, i).None?
  {
    hide EndLine, StartLine, IsMarker, WrapCommand, Broken, Cooked, Closing, Opening, IsStatus;
    var said := run.Text();
    var rest := Cooked(run.output, run.k) + (Feed(run.k) + (Closing(run.marker, run.status, run.k) + run.after));
    FeedEnds(run.echo, run.k);
    assert said == (run.echo + Feed(run.k)) + (Opening(run.marker, run.k) + rest);
    WrittenStart(run.echo + Feed(run.k), run.marker, run.k, rest);
    forall i: nat | i < run.OpensHere()
      ensures EndLine(said, run.marker, i).None? && StartLine(said, run.marker, i).None?
    {
      NoFenceBefore(run, command, i);
    }
  }

  lemma {:induction false} NoFenceBefore(run: Run, command: string, i: nat)
    requires run.Of(command) && i < run.OpensHere()
    ensures EndLine(run.Text(), run.marker, i).None? && StartLine(run.Text(), run.marker, i).None?
  {
    hide IsMarker, WrapCommand, Broken, Cooked, Closing, Opening, IsStatus, EndLine, StartLine;
    var rest := Feed(run.k) + (Opening(run.marker, run.k) + (Cooked(run.output, run.k) +
                (Feed(run.k) + (Closing(run.marker, run.status, run.k) + run.after))));
    if i <= |run.echo| {
      NoFenceInEcho(command, run.marker, run.echo, rest, i);
    } else {
      MarkerIsSeparable(run.marker);
      assert run.Text()[i] == Feed(run.k)[i - |run.echo|];
      FenceReadsMarker(run.Text(), run.marker, i);
      if Reads(run.Text(), i, run.marker) {
        ReadsAt(run.Text(), i, run.marker, i);
      }
    }
  }

  /** With nothing in the output to close the run, its own closing line is the only one. */
  lemma {:induction false} RunClosesOnce(run: Run, command: string)
    requires run.Of(command) && run.SaysNothingClosing()
    ensures OnlyEnd(run.Text(), run.marker, run.ClosesHere())
  {
    hide EndLine, IsMarker, WrapCommand, Broken, Cooked, Closing, Opening, IsStatus;
    RunCloses(run, command);
    RunOpens(run, command);
    forall i: nat | i != run.ClosesHere() ensures EndLine(run.Text(), run.marker, i).None? {
      if run.OpensHere() <= i < run.SaysHere() {
        NothingClosesInOpening(run, command, i);
      } else if run.SaysHere() <= i < run.ClosesHere() {
        NothingClosesInOutput(run, command, i);
      } else if i > |run.Text()| {
        EndLineForward(run.Text(), run.marker, i);
      } else if i > run.ClosesHere() {
        assert EndsIn(run.Text(), run.marker)(i).None?;
      }
    }
  }

  lemma {:induction false} NothingClosesInOpening(run: Run, command: string, i: nat)
    requires run.Of(command) && run.OpensHere() <= i < run.SaysHere()
    ensures EndLine(run.Text(), run.marker, i).None?
  {
    hide EndLine, IsMarker, WrapCommand, Broken, Cooked, Closing, IsStatus;
    MarkerIsSeparable(run.marker);
    var rest := Cooked(run.output, run.k) + (Feed(run.k) + (Closing(run.marker, run.status, run.k) + run.after));
    assert run.Text() == (run.echo + Feed(run.k)) + (Opening(run.marker, run.k) + rest);
    OpeningClosesNothing(run.echo + Feed(run.k), run.marker, run.k, rest, i);
  }

  lemma {:induction false} NothingClosesInOutput(run: Run, command: string, i: nat)
    requires run.Of(command) && run.SaysNothingClosing() && run.SaysHere() <= i < run.ClosesHere()
    ensures EndLine(run.Text(), run.marker, i).None?
  {
    hide EndLine, IsMarker, WrapCommand, Broken, Closing, IsStatus;
    var said, o, p := run.Text(), run.SaysHere(), run.ClosesHere();
    RunCloses(run, command);
    MarkerIsSeparable(run.marker);
    OutputStarts(run);
    if EndLine(said, run.marker, i).Some? {
      LinesApart(said, run.marker, i, p);
      Transcript.EndLineOfSuffix(said, run.marker, o, i - o);
      EndLineOfPrefix(said[o..], run.marker, p - o, i - o);
    }
  }

  /** The output starts a line, and with its line feed it is all there is up to the closing line. */
  lemma {:induction false} OutputStarts(run: Run)
    ensures run.SaysHere() <= run.ClosesHere() <= |run.Text()|
    ensures LineStart(run.Text(), run.SaysHere())
    ensures run.Text()[run.SaysHere()..][..run.ClosesHere() - run.SaysHere()] == Cooked(run.output + "\n", run.k)
    ensures run.Text()[run.SaysHere()..run.ClosesHere() - 1] == Cooked(run.output, run.k) + Returns(run.k)
  {
    hide Cooked, Closing;
    var said := run.Text();
    var front := run.echo + Feed(run.k) + (run.marker + ":go");
    var tail := Feed(run.k) + (Closing(run.marker, run.status, run.k) + run.after);
    FeedEnds(front, run.k);
    assert said == (front + Feed(run.k)) + (Cooked(run.output, run.k) + tail);
    assert said[run.SaysHere()..] == Cooked(run.output, run.k) + tail;
    CookedConcat(run.output, "\n", run.k);
    CookedOneLine("", run.k);
    assert "" + "\n" == "\n" && "" + (Returns(run.k) + "\n") == Feed(run.k);
  }

  /**
   * From end to end: whatever the command says, its own status and its output, trimmed and with its line endings
   * normalised, are what is read exactly when the unbroken run of closing lines that its own ends is odd in number; and
   * that is so when no whole line of the output closes the run.
   */
  lemma {:induction false} RunComesBack(run: Run, command: string)
    requires run.Of(command)
    ensures LastEnd(run.Text(), run.marker) == Some(run.ClosesHere()) <==>
            OddChain(EndsIn(run.Text(), run.marker), run.ClosesHere())
    ensures LastEnd(run.Text(), run.marker) == Some(run.ClosesHere()) ==>
      && Completion(run.Text(), run.marker) == Some(run.status)
      && OutputOf(run.Text(), run.marker) == Collapse(Trim(run.output))
    ensures run.SaysNothingClosing() ==> LastEnd(run.Text(), run.marker) == Some(run.ClosesHere())
  {
    hide EndLine, StartLine, IsMarker, WrapCommand, Broken, Cooked, Closing, Opening, LastEnd, OutputOf, Collapse, Trim;
    MarkerIsSeparable(run.marker);
    RunCloses(run, command);
    RunOpens(run, command);
    OutputStarts(run);
    OwnLineIsReadIffOdd(run.Text(), run.marker, run.ClosesHere());
    if LastEnd(run.Text(), run.marker) == Some(run.ClosesHere()) {
      OutputComesBack(run.Text(), run.marker, run.OpensHere(), run.ClosesHere(), run.output, run.k, run.k);
    }
    if run.SaysNothingClosing() {
      RunClosesOnce(run, command);
      OnlyEndIsRead(run.Text(), run.marker, run.ClosesHere());
    }
  }

  /** And this text is what arrives when the typed line is run. */
  lemma {:induction false} RunArrives(run: Run, command: string)
    requires run.Of(command)
    ensures Tokens(WrapCommand(command, run.marker)).Some?
    ensures
      var said := Said(Tokens(WrapCommand(command, run.marker)).value, command, run.output, run.status);
      run.Text() == run.echo + Cooked(said, run.k) + run.after
  {
    hide Said, Tokens, WrapCommand, Broken, Cooked, Closing, Opening, Transcribed;
    MarkerIsSeparable(run.marker);
    LinePrints(command, run.marker, run.output, run.status);
    TranscribedArrives(run.marker, run.output, run.status, run.k);
  }
}
