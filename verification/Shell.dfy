/**
 * The line a command is typed as (wrapCommand in site/js/agent.js), read the way a shell reads it, and its echo.
 * Quoting follows section 2.2 of the POSIX.1-2017 Shell Command Language.
 */
module Shell {
  import opened Prelude
  import opened Agent
  import opened Text

  // ---------- what a shell reads ----------

  predicate IsBlank(c: char) {
    c == ' ' || c == '\t'
  }

  predicate IsOperator(c: char) {
    c in {';', '&', '|', '<', '>', '(', ')', '\n'}
  }

  predicate EndsWord(c: char) {
    IsBlank(c) || IsOperator(c)
  }

  /** A word after quote removal, and what follows it. */
  datatype Lexed = Lexed(word: string, rest: string)

  function Grown(c: char, lexed: Option<Lexed>): Option<Lexed> {
    match lexed
    case None => None
    case Some(l) => Some(Lexed([c] + l.word, l.rest))
  }

  /**
   * Between single quotes every character stands for itself; outside them a backslash makes the next one do so. Double
   * quotes and command substitution are not read; a dollar sign is kept as it is.
   */
  function LexWord(s: string, quoted: bool): (lexed: Option<Lexed>)
    ensures lexed.Some? ==> |lexed.value.rest| <= |s|
    ensures lexed.Some? && s != "" && (quoted || !EndsWord(s[0])) ==> |lexed.value.rest| < |s|
    decreases |s|
  {
    if s == "" then if quoted then None else Some(Lexed("", ""))
    else if s[0] == '\'' then LexWord(s[1..], !quoted)
    else if quoted then Grown(s[0], LexWord(s[1..], true))
    else if EndsWord(s[0]) then Some(Lexed("", s))
    else if s[0] == '\\' then
      if |s| == 1 then None
      else if s[1] == '\n' then LexWord(s[2..], false)
      else Grown(s[1], LexWord(s[2..], false))
    else if s[0] == '"' || s[0] == '`' then None
    else Grown(s[0], LexWord(s[1..], false))
  }

  datatype Token = Word(text: string) | Operator(c: char)

  function Tokens(s: string): Option<seq<Token>>
    decreases |s|
  {
    if s == "" then Some([])
    else if IsBlank(s[0]) then Tokens(s[1..])
    else if IsOperator(s[0]) then Then(Operator(s[0]), Tokens(s[1..]))
    else
      var lexed := LexWord(s, false);
      if lexed.None? then None else Then(Word(lexed.value.word), Tokens(lexed.value.rest))
  }

  function Then(first: Token, rest: Option<seq<Token>>): Option<seq<Token>> {
    if rest.None? then None else Some([first] + rest.value)
  }

  // ---------- quoting ----------

  /** Every quote closes the quotes, stands for itself, and opens them again. */
  function Escaped(command: string): string {
    if command == "" then ""
    else (if command[0] == '\'' then "'\\''" else [command[0]]) + Escaped(command[1..])
  }

  function Quoted(command: string): string {
    "'" + Escaped(command) + "'"
  }

  lemma {:induction false} NothingToEscape(word: string)
    requires '\'' !in word
    ensures Escaped(word) == word && Quoted(word) == "'" + word + "'"
  {
    if word != "" {
      NothingToEscape(word[1..]);
      assert word == [word[0]] + word[1..];
    }
  }

  ghost predicate AtWordEnd(rest: string) {
    rest == "" || EndsWord(rest[0])
  }

  lemma {:induction false} EndIsRead(rest: string)
    requires AtWordEnd(rest)
    ensures LexWord("'" + rest, true) == Some(Lexed("", rest))
  {
    assert ("'" + rest)[1..] == rest;
  }

  lemma {:induction false} CharacterIsRead(c: char, tail: string)
    requires c != '\''
    ensures LexWord([c] + tail, true) == Grown(c, LexWord(tail, true))
  {
    assert ([c] + tail)[1..] == tail;
  }

  lemma {:induction false} EscapedIsRead(command: string, rest: string)
    requires AtWordEnd(rest)
    ensures LexWord(Escaped(command) + "'" + rest, true) == Some(Lexed(command, rest))
    decreases |command|
  {
    hide LexWord, AtWordEnd;
    var more := Escaped(command) + "'" + rest;
    if command == "" {
      assert more == "'" + rest;
      EndIsRead(rest);
    } else {
      var tail := Escaped(command[1..]) + "'" + rest;
      EscapedIsRead(command[1..], rest);
      if command[0] == '\'' {
        assert more == "'\\''" + tail;
        QuoteIsRead(tail);
      } else {
        assert more == [command[0]] + tail;
        CharacterIsRead(command[0], tail);
      }
      assert [command[0]] + command[1..] == command;
    }
  }

  lemma {:induction false} QuoteIsRead(tail: string)
    ensures LexWord("'\\''" + tail, true) == Grown('\'', LexWord(tail, true))
  {
    var s := "'\\''" + tail;
    var t := "\\''" + tail;
    assert s[1..] == t;
    assert t[2..] == "'" + tail;
    assert ("'" + tail)[1..] == tail;
    assert LexWord("'" + tail, false) == LexWord(tail, true);
    assert LexWord(t, false) == Grown('\'', LexWord(t[2..], false));
  }

  /** A shell reads the quoted command back as one word, whatever is in it. */
  lemma {:induction false} QuotedIsRead(command: string, rest: string)
    requires AtWordEnd(rest)
    ensures LexWord(Quoted(command) + rest, false) == Some(Lexed(command, rest))
  {
    EscapedIsRead(command, rest);
    assert (Quoted(command) + rest)[1..] == Escaped(command) + "'" + rest;
  }

  predicate IsPlain(c: char) {
    !EndsWord(c) && c !in {'\'', '\\', '"', '`'}
  }

  lemma {:induction false} BareIsRead(word: string, rest: string)
    requires AtWordEnd(rest) && forall i :: 0 <= i < |word| ==> IsPlain(word[i])
    ensures LexWord(word + rest, false) == Some(Lexed(word, rest))
  {
    if word == "" {
      assert word + rest == rest;
    } else {
      BareIsRead(word[1..], rest);
      assert (word + rest)[1..] == word[1..] + rest;
      assert [word[0]] + word[1..] == word;
      assert IsPlain(word[0]);
    }
  }

  // ---------- the line ----------

  /**
   * A line as it is put together, piece by piece: what is put between quotes is escaped for it, or goes there as it is.
   */
  datatype Line =
    | Done
    | Bare(word: string, next: Line)
    | InQuotes(word: string, next: Line)
    | AsItIs(word: string, next: Line)
    | Blank(next: Line)
    | Semicolon(next: Line)

  function Render(line: Line): string {
    match line
    case Done => ""
    case Bare(word, next) => word + Render(next)
    case InQuotes(word, next) => Quoted(word) + Render(next)
    case AsItIs(word, next) => "'" + word + "'" + Render(next)
    case Blank(next) => [' '] + Render(next)
    case Semicolon(next) => [';'] + Render(next)
  }

  predicate BareWord(word: string) {
    word != "" && forall i :: 0 <= i < |word| ==> IsPlain(word[i])
  }

  /** What follows a word is not a word. */
  predicate Apart(next: Line) {
    next.Done? || next.Blank? || next.Semicolon?
  }

  /** Words are apart, and those without quotes need none. */
  predicate Spaced(line: Line) {
    match line
    case Done => true
    case Bare(word, next) => BareWord(word) && Apart(next) && Spaced(next)
    case InQuotes(word, next) => Apart(next) && Spaced(next)
    case AsItIs(word, next) => '\'' !in word && Apart(next) && Spaced(next)
    case Blank(next) => Spaced(next)
    case Semicolon(next) => Spaced(next)
  }

  function TokensOf(line: Line): seq<Token> {
    match line
    case Done => []
    case Bare(word, next) => [Word(word)] + TokensOf(next)
    case InQuotes(word, next) => [Word(word)] + TokensOf(next)
    case AsItIs(word, next) => [Word(word)] + TokensOf(next)
    case Blank(next) => TokensOf(next)
    case Semicolon(next) => [Operator(';')] + TokensOf(next)
  }

  /** A shell reads the pieces one by one. */
  lemma {:induction false} LineIsRead(line: Line)
    requires Spaced(line)
    ensures Tokens(Render(line)) == Some(TokensOf(line))
  {
    if !line.Done? {
      LineIsRead(line.next);
      var rest := Render(line.next);
      match line {
        case Bare(word, next) =>
          BareIsRead(word, rest);
          assert IsPlain(word[0]) && (word + rest)[0] == word[0];
        case InQuotes(word, next) =>
          QuotedIsRead(word, rest);
          assert (Quoted(word) + rest)[0] == '\'';
        case AsItIs(word, next) =>
          NothingToEscape(word);
          QuotedIsRead(word, rest);
          assert (Quoted(word) + rest)[0] == '\'';
        case Blank(next) => assert ([' '] + rest)[1..] == rest;
        case Semicolon(next) => assert ([';'] + rest)[1..] == rest;
      }
    }
  }

  /** The marker's last underscore; the two printfs take what is before and after it as separate arguments. */
  function CutOf(marker: string): (at: nat)
    ensures at <= |marker|
    ensures '_' in marker ==> at > 0 && marker[at - 1] == '_'
    ensures '_' !in marker[at..]
  {
    if marker == "" then 0 else if marker[|marker| - 1] == '_' then |marker| else CutOf(marker[..|marker| - 1])
  }

  const OPENING := "\\n%s%s:go\\n"
  const CLOSING := "\\n%s%s:%s\\n"

  function Halves(marker: string, next: Line): Line {
    AsItIs(marker[..CutOf(marker)], Blank(AsItIs(marker[CutOf(marker)..], next)))
  }

  function Printf(format: string, marker: string, next: Line): Line {
    Bare("printf", Blank(AsItIs(format, Blank(Halves(marker, next)))))
  }

  function Sh(command: string, next: Line): Line {
    Bare("sh", Blank(Bare("-c", Blank(InQuotes(command, next)))))
  }

  function Wrapped(command: string, marker: string): Line {
    Printf(OPENING, marker, Semicolon(Blank(Sh(command, Semicolon(Blank(
    Printf(CLOSING, marker, Blank(Bare("$?", Done)))))))))
  }

  function WrapCommand(command: string, marker: string): string {
    Render(Wrapped(command, marker))
  }

  /** What a marker is made of: it has an underscore, and something after the last. */
  predicate IsMarker(marker: string) {
    && 0 < CutOf(marker) < |marker|
    && '_' in marker[..CutOf(marker)]
    && forall i :: 0 <= i < |marker| ==> IsMarkerChar(marker[i])
  }

  predicate IsMarkerChar(c: char) {
    c == '_' || 'a' <= c <= 'z' || 'A' <= c <= 'Z' || '0' <= c <= '9'
  }

  function Fence(format: string, marker: string): seq<Token> {
    [Word("printf"), Word(format), Word(marker[..CutOf(marker)]), Word(marker[CutOf(marker)..])]
  }

  lemma {:induction false} BlankReads(next: Line)
    ensures TokensOf(Blank(next)) == TokensOf(next) && Spaced(Blank(next)) == Spaced(next)
  {
  }

  lemma {:induction false} HalvesSpaced(marker: string, next: Line)
    requires Spaced(next) && Apart(next) && '\'' !in marker
    ensures Spaced(Halves(marker, next))
    ensures TokensOf(Halves(marker, next)) ==
      [Word(marker[..CutOf(marker)]), Word(marker[CutOf(marker)..])] + TokensOf(next)
  {
    var second := AsItIs(marker[CutOf(marker)..], next);
    assert TokensOf(second) == [Word(marker[CutOf(marker)..])] + TokensOf(next);
    BlankReads(second);
  }

  lemma {:induction false} PrintfSpaced(format: string, marker: string, next: Line)
    requires Spaced(next) && Apart(next) && '\'' !in marker && '\'' !in format
    ensures Spaced(Printf(format, marker, next))
    ensures TokensOf(Printf(format, marker, next)) == Fence(format, marker) + TokensOf(next)
  {
    HalvesSpaced(marker, next);
    var tail := AsItIs(format, Blank(Halves(marker, next)));
    BlankReads(Halves(marker, next));
    BlankReads(tail);
    assert BareWord("printf");
  }

  lemma {:induction false} ShSpaced(command: string, next: Line)
    requires Spaced(next) && Apart(next)
    ensures Spaced(Sh(command, next))
    ensures TokensOf(Sh(command, next)) == [Word("sh"), Word("-c"), Word(command)] + TokensOf(next)
  {
    var argument := InQuotes(command, next);
    var option := Bare("-c", Blank(argument));
    assert BareWord("-c") && BareWord("sh");
    BlankReads(argument);
    BlankReads(option);
  }

  /**
   * Whatever the command, and for every marker without a single quote, the guest's shell reads three commands: a printf
   * of the marker's halves, `sh -c` with the command as its one argument, and a printf of the halves and the status.
   */
  lemma {:induction false} CommandArrivesWhole(command: string, marker: string)
    requires '\'' !in marker
    ensures Tokens(WrapCommand(command, marker)) == Some(
      Fence(OPENING, marker) + ([Operator(';')] + ([Word("sh"), Word("-c"), Word(command)] + ([Operator(';')] +
      (Fence(CLOSING, marker) + [Word("$?")])))))
    ensures marker[..CutOf(marker)] + marker[CutOf(marker)..] == marker
  {
    var status := Blank(Bare("$?", Done));
    assert BareWord("$?");
    assert TokensOf(Bare("$?", Done)) == [Word("$?")];
    BlankReads(Bare("$?", Done));
    var closing := Printf(CLOSING, marker, status);
    PrintfSpaced(CLOSING, marker, status);
    BlankReads(closing);
    var shell := Sh(command, Semicolon(Blank(closing)));
    ShSpaced(command, Semicolon(Blank(closing)));
    BlankReads(shell);
    PrintfSpaced(OPENING, marker, Semicolon(Blank(shell)));
    LineIsRead(Wrapped(command, marker));
  }

  // ---------- the echo ----------

  ghost predicate Separable(w: string) {
    w != "" && forall i :: 0 <= i < |w| ==> w[i] !in {'\'', '\\', ' ', ';', '\r', '\n'}
  }

  /** Quoting a command does not make a marker appear in it. */
  lemma {:induction false} MoveOne(before: string, text: string)
    requires text != ""
    ensures before + text == (before + [text[0]]) + text[1..]
  {
  }

  lemma {:induction false} OccursInEscaped(w: string, before: string, command: string)
    requires Separable(w) && '\'' !in before && Occurs(w, before + Escaped(command))
    ensures Occurs(w, before + command)
    decreases |command|
  {
    hide Occurs;
    if command == "" {
    } else if command[0] == '\'' {
      var rest := Escaped(command[1..]);
      assert before + Escaped(command) == before + ['\''] + ("\\" + ['\''] + ("" + ['\''] + rest));
      OccursAround(w, before, '\'', "\\" + ['\''] + ("" + ['\''] + rest));
      if Occurs(w, before) {
        OccursInPrefix(w, before, command);
      } else {
        OccursPastQuotes(w, rest);
        OccursInEscaped(w, "", command[1..]);
        assert "" + command[1..] == command[1..];
        OccursInSuffix(w, before + [command[0]], command[1..]);
        MoveOne(before, command);
      }
    } else {
      MoveOne(before, Escaped(command));
      assert Escaped(command)[1..] == Escaped(command[1..]) && Escaped(command)[0] == command[0];
      OccursInEscaped(w, before + [command[0]], command[1..]);
      MoveOne(before, command);
    }
  }

  lemma {:induction false} OccursPastQuotes(w: string, rest: string)
    requires Separable(w) && Occurs(w, "\\" + ['\''] + ("" + ['\''] + rest))
    ensures Occurs(w, "" + rest)
  {
    assert "" + rest == rest;
    OccursAround(w, "\\", '\'', "" + ['\''] + rest);
    if Occurs(w, "\\") {
      OccursHas(w, "\\", w[0]);
    } else {
      OccursAround(w, "", '\'', rest);
    }
  }

  /** What goes between quotes as it is. */
  lemma {:induction false} OccursPastAsItIs(w: string, word: string, next: Line)
    requires Separable(w) && '\'' !in word && Occurs(w, Render(AsItIs(word, next))) && !Occurs(w, word)
    ensures Occurs(w, Render(next))
  {
    NothingToEscape(word);
    OccursPastQuoted(w, word, next);
  }

  /** A marker that occurs in a line, but not in its first word, occurs in the rest. */
  lemma {:induction false} OccursPastQuoted(w: string, word: string, next: Line)
    requires Separable(w) && Occurs(w, Render(InQuotes(word, next))) && !Occurs(w, word)
    ensures Occurs(w, Render(next))
  {
    var rest := Render(next);
    assert Quoted(word) + rest == "" + ['\''] + (Escaped(word) + ['\''] + rest);
    OccursAround(w, "", '\'', Escaped(word) + ['\''] + rest);
    OccursAround(w, Escaped(word), '\'', rest);
    if Occurs(w, Escaped(word)) {
      assert "" + Escaped(word) == Escaped(word) && "" + word == word;
      OccursInEscaped(w, "", word);
    }
  }

  lemma {:induction false} OccursPastSeparator(w: string, line: Line)
    requires Separable(w) && (line.Blank? || line.Semicolon?) && Occurs(w, Render(line))
    ensures Occurs(w, Render(line.next))
  {
    var c := if line.Blank? then ' ' else ';';
    assert Render(line) == "" + [c] + Render(line.next);
    OccursAround(w, "", c, Render(line.next));
  }

  lemma {:induction false} OccursPastBare(w: string, word: string, next: Line)
    requires Separable(w) && (next.Blank? || next.Semicolon?) && Occurs(w, Render(Bare(word, next))) && !Occurs(w, word)
    ensures Occurs(w, Render(next.next))
  {
    var c := if next.Blank? then ' ' else ';';
    assert Render(Bare(word, next)) == word + [c] + Render(next.next);
    OccursAround(w, word, c, Render(next.next));
  }

  lemma {:induction false} MarkerIsSeparable(marker: string)
    requires IsMarker(marker)
    ensures Separable(marker)
  {
    forall i | 0 <= i < |marker| ensures marker[i] !in {'\'', '\\', ' ', ';', '\r', '\n'} {
      assert IsMarkerChar(marker[i]);
    }
  }

  lemma {:induction false} MarkerHasNoQuote(marker: string)
    requires IsMarker(marker)
    ensures '\'' !in marker
  {
    MarkerIsSeparable(marker);
  }

  lemma {:induction false} NotInText(marker: string, text: string)
    requires IsMarker(marker) && '_' !in text
    ensures !Occurs(marker, text)
  {
    if Occurs(marker, text) {
      OccursHas(marker, text, '_');
    }
  }

  lemma {:induction false} OccursPastPrintf(marker: string, format: string, next: Line)
    requires IsMarker(marker) && '_' !in format && '\'' !in format
    requires Occurs(marker, Render(Printf(format, marker, next)))
    ensures Occurs(marker, Render(next))
  {
    hide Occurs;
    MarkerIsSeparable(marker);
    NotInText(marker, format);
    NotInText(marker, "printf");
    OccursPastBare(marker, "printf", Blank(AsItIs(format, Blank(Halves(marker, next)))));
    OccursPastAsItIs(marker, format, Blank(Halves(marker, next)));
    OccursPastSeparator(marker, Blank(Halves(marker, next)));
    OccursPastHalves(marker, next);
  }

  lemma {:induction false} OccursPastHalves(marker: string, next: Line)
    requires IsMarker(marker) && Occurs(marker, Render(Halves(marker, next)))
    ensures Occurs(marker, Render(next))
  {
    MarkerIsSeparable(marker);
    MarkerHasNoQuote(marker);
    var second := AsItIs(marker[CutOf(marker)..], next);
    OccursPastAsItIs(marker, marker[..CutOf(marker)], Blank(second));
    OccursPastSeparator(marker, Blank(second));
    OccursPastAsItIs(marker, marker[CutOf(marker)..], next);
  }

  lemma {:induction false} OccursPastSh(marker: string, command: string, next: Line)
    requires IsMarker(marker) && !Occurs(marker, command) && Occurs(marker, Render(Sh(command, next)))
    ensures Occurs(marker, Render(next))
  {
    MarkerIsSeparable(marker);
    OccursPastBare(marker, "sh", Blank(Bare("-c", Blank(InQuotes(command, next)))));
    OccursPastBare(marker, "-c", Blank(InQuotes(command, next)));
    OccursPastQuoted(marker, command, next);
  }

  lemma {:induction false} EndsInStatus(marker: string)
    requires IsMarker(marker)
    ensures !Occurs(marker, Render(Bare("$?", Done)))
  {
    assert Render(Bare("$?", Done)) == "$?";
  }

  /** The line that is typed has the marker in it only if the command does. */
  lemma {:induction false} LineHidesMarker(command: string, marker: string)
    requires IsMarker(marker) && Occurs(marker, WrapCommand(command, marker))
    ensures Occurs(marker, command)
  {
    hide Occurs, IsMarker, Render, CutOf;
    MarkerIsSeparable(marker);
    if !Occurs(marker, command) {
      var status := Blank(Bare("$?", Done));
      var close := Semicolon(Blank(Printf(CLOSING, marker, status)));
      OccursPastPrintf(marker, OPENING, Semicolon(Blank(Sh(command, close))));
      OccursPastSeparator(marker, Semicolon(Blank(Sh(command, close))));
      OccursPastSeparator(marker, Blank(Sh(command, close)));
      OccursPastSh(marker, command, close);
      OccursPastSeparator(marker, close);
      OccursPastSeparator(marker, close.next);
      OccursPastPrintf(marker, CLOSING, status);
      OccursPastSeparator(marker, status);
      EndsInStatus(marker);
    }
  }

  /** An echo: the line with line breaks put in anywhere. */
  predicate Broken(line: string, echo: string)
    decreases |echo|
  {
    if echo == "" then line == ""
    else
      || (line != "" && echo[0] == line[0] && Broken(line[1..], echo[1..]))
      || (echo[0] in {'\r', '\n'} && Broken(line, echo[1..]))
  }

  lemma {:induction false} BrokenStartsWith(w: string, line: string, echo: string)
    requires Broken(line, echo) && At(w, echo, 0) && forall i :: 0 <= i < |w| ==> w[i] !in {'\r', '\n'}
    ensures At(w, line, 0)
  {
    if w != "" {
      assert echo[0] == echo[0..|w|][0] == w[0];
      assert echo[1..][0..|w| - 1] == echo[0..|w|][1..] == w[1..];
      BrokenStartsWith(w[1..], line[1..], echo[1..]);
      assert line[0..|w|] == [line[0]] + line[1..][0..|w| - 1];
      assert w == [w[0]] + w[1..];
    }
  }

  lemma {:induction false} BrokenHasNoMore(w: string, line: string, echo: string)
    requires Separable(w) && Broken(line, echo) && Occurs(w, echo)
    ensures Occurs(w, line)
    decreases |echo|
  {
    if At(w, echo, 0) {
      BrokenStartsWith(w, line, echo);
      assert At(w, line, 0);
    } else {
      var i :| 0 <= i <= |echo| - |w| && At(w, echo, i);
      assert echo[1..][i - 1..i - 1 + |w|] == echo[i..i + |w|];
      assert At(w, echo[1..], i - 1);
      if line != "" && echo[0] == line[0] && Broken(line[1..], echo[1..]) {
        BrokenHasNoMore(w, line[1..], echo[1..]);
        OccursInSuffix(w, [line[0]], line[1..]);
        assert [line[0]] + line[1..] == line;
      } else {
        BrokenHasNoMore(w, line, echo[1..]);
      }
    }
  }

  lemma {:induction false} FenceHasMarker(said: string, marker: string, p: nat)
    requires EndLine(said, marker, p).Some? || StartLine(said, marker, p).Some?
    ensures Occurs(marker, said)
  {
    var word := if EndLine(said, marker, p).Some? then marker + ":" else marker + ":go";
    assert Reads(said, p, word);
    ReadsSlice(said, p, word, 0, |marker|);
    assert word[0..|marker|] == marker;
    assert At(marker, said, p);
  }

  /**
   * However the terminal breaks the echo of the line, no line of it opens or closes the run, unless the command says
   * so.
   */
  lemma {:induction false} EchoIsNoFence(command: string, marker: string, echo: string, p: nat)
    requires IsMarker(marker) && !Occurs(marker, command) && Broken(WrapCommand(command, marker) + ['\n'], echo)
    ensures EndLine(echo, marker, p).None? && StartLine(echo, marker, p).None?
  {
    MarkerIsSeparable(marker);
    if EndLine(echo, marker, p).Some? || StartLine(echo, marker, p).Some? {
      FenceHasMarker(echo, marker, p);
      BrokenHasNoMore(marker, WrapCommand(command, marker) + ['\n'], echo);
      assert WrapCommand(command, marker) + ['\n'] == WrapCommand(command, marker) + ['\n'] + "";
      OccursAround(marker, WrapCommand(command, marker), '\n', "");
      if Occurs(marker, WrapCommand(command, marker)) {
        LineHidesMarker(command, marker);
      }
    }
  }
}
