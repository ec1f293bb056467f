/** Reading a narinfo (parseNarinfo in site/js/closure.js). Sizes are kept as their text. */
module Narinfo {
  import opened Prelude
  import opened Paths

  const SIG := "Sig"
  const BZIP2 := "bzip2"

  /** What is before and after the first colon with a blank behind it. */
  function KeyAndValue(line: string): Option<(string, string)> {
    if |line| < 2 then None
    else if line[0] == ':' && line[1] == ' ' then Some(("", line[2..]))
    else
      var rest := KeyAndValue(line[1..]);
      if rest.None? then None else Some(([line[0]] + rest.value.0, rest.value.1))
  }

  predicate CutsAt(line: string, i: nat) {
    i + 1 < |line| && line[i] == ':' && line[i + 1] == ' '
  }

  /** A line is cut at its first colon with a blank behind it, and one without any is no field. */
  lemma {:induction false} KeyAndValueMeans(line: string)
    ensures KeyAndValue(line).None? <==> forall i: nat :: !CutsAt(line, i)
    ensures KeyAndValue(line).Some? ==> var (key, value) := KeyAndValue(line).value;
      line == key + ": " + value && forall i: nat :: i < |key| ==> !CutsAt(line, i)
  {
    if CutsAt(line, 0) {
      assert line == "" + ": " + line[2..];
    } else if |line| >= 2 {
      var rest := line[1..];
      KeyAndValueMeans(rest);
      assert line == [line[0]] + rest;
      forall i: nat ensures CutsAt(line, i) <==> i > 0 && CutsAt(rest, i - 1) {
      }
      if KeyAndValue(rest).Some? {
        var (key, value) := KeyAndValue(rest).value;
        assert line == ([line[0]] + key) + ": " + value;
        assert CutsAt(rest, |key|);
        assert CutsAt(line, |key| + 1);
      } else {
        forall i: nat ensures !CutsAt(line, i) {
          assert i > 0 ==> !CutsAt(rest, i - 1);
        }
      }
    }
  }

  /** The values of all lines with this key, in order. */
  function Values(lines: seq<string>, key: string): seq<string> {
    if lines == [] then []
    else
      var last := KeyAndValue(lines[|lines| - 1]);
      Values(lines[..|lines| - 1], key) + if last.Some? && last.value.0 == key then [last.value.1] else []
  }

  /** A field that several lines give has the last one's value. */
  function Field(lines: seq<string>, key: string): Option<string> {
    var values := Values(lines, key);
    if values == [] then None else Some(values[|values| - 1])
  }

  function Words(s: string): seq<string> {
    NonEmpty(Split(s, ' '))
  }

  datatype Info = Info(storePath: Option<string>, url: Option<string>, compression: string, fileSize: string,
                       narSize: string,
                       narHash: Option<string>, sigs: seq<string>, references: seq<string>)

  function OrElse(field: Option<string>, other: string): string {
    if field.Some? then field.value else other
  }

  /** No compression, or an empty one, is bzip2. */
  function CompressionOf(field: Option<string>): string {
    if field.None? || field.value == "" then BZIP2 else field.value
  }

  function InfoOf(lines: seq<string>): Info {
    Info(Field(lines, "StorePath"), Field(lines, "URL"), CompressionOf(Field(lines, "Compression")),
         OrElse(Field(lines, "FileSize"), "0"), OrElse(Field(lines, "NarSize"), "0"), Field(lines, "NarHash"),
         Values(lines, SIG), Words(OrElse(Field(lines, "References"), "")))
  }

  /** The map the loop fills is the last value of each key, and the list is every signature. */
  ghost predicate Filled(lines: seq<string>, fields: map<string, string>, sigs: seq<string>) {
    && sigs == Values(lines, SIG)
    && forall key :: key != SIG ==> Get(fields, key) == Field(lines, key)
  }

  function Get(fields: map<string, string>, key: string): Option<string> {
    if key in fields then Some(fields[key]) else None
  }

  lemma {:induction false} ValuesSnoc(lines: seq<string>, line: string, key: string)
    ensures var cut := KeyAndValue(line);
      if cut.Some? && cut.value.0 == key
      then
        && Values(lines + [line], key) == Values(lines, key) + [cut.value.1]
        && Field(lines + [line], key) == Some(cut.value.1)
      else Values(lines + [line], key) == Values(lines, key) && Field(lines + [line], key) == Field(lines, key)
  {
    assert (lines + [line])[..|lines|] == lines;
  }

  /** One line of the narinfo. */
  method ReadLine(line: string, fields0: map<string, string>, sigs0: seq<string>, ghost before: seq<string>)
    returns (fields: map<string, string>, sigs: seq<string>)
    requires Filled(before, fields0, sigs0)
    ensures Filled(before + [line], fields, sigs)
  {
    fields, sigs := fields0, sigs0;
    var cut := KeyAndValue(line);
    ValuesSnoc(before, line, SIG);
    if cut.Some? {
      if cut.value.0 == SIG {
        sigs := sigs + [cut.value.1];
      } else {
        fields := fields[cut.value.0 := cut.value.1];
      }
    }
    forall key | key != SIG ensures Get(fields, key) == Field(before + [line], key) {
      ValuesSnoc(before, line, key);
    }
  }

  function Built(fields: map<string, string>, sigs: seq<string>): Info {
    Info(Get(fields, "StorePath"), Get(fields, "URL"), CompressionOf(Get(fields, "Compression")),
         OrElse(Get(fields, "FileSize"), "0"), OrElse(Get(fields, "NarSize"), "0"), Get(fields, "NarHash"),
         sigs, Words(OrElse(Get(fields, "References"), "")))
  }

  lemma {:induction false} BuiltIs(lines: seq<string>, fields: map<string, string>, sigs: seq<string>)
    requires Filled(lines, fields, sigs)
    ensures Built(fields, sigs) == InfoOf(lines)
  {
    GetIs(lines, fields, sigs, "StorePath");
    GetIs(lines, fields, sigs, "URL");
    GetIs(lines, fields, sigs, "Compression");
    GetIs(lines, fields, sigs, "FileSize");
    GetIs(lines, fields, sigs, "NarSize");
    GetIs(lines, fields, sigs, "NarHash");
    GetIs(lines, fields, sigs, "References");
  }

  lemma {:induction false} GetIs(lines: seq<string>, fields: map<string, string>, sigs: seq<string>, key: string)
    requires Filled(lines, fields, sigs) && (|key| != |SIG| || key[0] != SIG[0])
    ensures Get(fields, key) == Field(lines, key)
  {
  }

  /** Every field is its last line's value, every signature line is kept, and any other line means nothing. */
  method ParseNarinfo(text: string) returns (info: Info)
    ensures info == InfoOf(Split(text, '\n'))
  {
    var lines := Split(text, '\n');
    var fields: map<string, string>, sigs: seq<string> := map[], [];
    for i := 0 to |lines|
      invariant Filled(lines[..i], fields, sigs)
    {
      fields, sigs := ReadLine(lines[i], fields, sigs, lines[..i]);
      assert lines[..i + 1] == lines[..i] + [lines[i]];
    }
    assert lines[..|lines|] == lines;
    BuiltIs(lines, fields, sigs);
    info := Built(fields, sigs);
  }

  // ---------- the narinfo a cache writes ----------

  datatype Entry = Entry(key: string, value: string)

  function LineOf(entry: Entry): string {
    entry.key + [':', ' '] + entry.value
  }

  function LinesOf(entries: seq<Entry>): seq<string> {
    if entries == [] then [] else LinesOf(entries[..|entries| - 1]) + [LineOf(entries[|entries| - 1])]
  }

  function Given(entries: seq<Entry>, key: string): seq<string> {
    if entries == [] then []
    else
      var last := entries[|entries| - 1];
      Given(entries[..|entries| - 1], key) + if last.key == key then [last.value] else []
  }

  ghost predicate Writable(entry: Entry) {
    Free(entry.key, ':') && Free(entry.key, '\n') && Free(entry.value, '\n')
  }

  lemma {:induction false} LineIsRead(key: string, value: string)
    requires Free(key, ':')
    ensures KeyAndValue(key + [':', ' '] + value) == Some((key, value))
  {
    var line := key + [':', ' '] + value;
    if key == "" {
      assert line[2..] == value;
    } else {
      LineIsRead(key[1..], value);
      assert line[1..] == key[1..] + [':', ' '] + value;
      assert [key[0]] + key[1..] == key;
    }
  }

  lemma {:induction false} LinesAreRead(entries: seq<Entry>, key: string)
    requires forall i :: 0 <= i < |entries| ==> Writable(entries[i])
    ensures Values(LinesOf(entries), key) == Given(entries, key)
    ensures forall l :: l in LinesOf(entries) ==> Free(l, '\n')
  {
    if entries != [] {
      var init, last := entries[..|entries| - 1], entries[|entries| - 1];
      LinesAreRead(init, key);
      LineIsRead(last.key, last.value);
      assert LinesOf(entries)[..|LinesOf(init)|] == LinesOf(init);
    }
  }

  lemma {:induction false} WordsOfJoined(words: seq<string>)
    requires forall w :: w in words ==> w != "" && Free(w, ' ')
    ensures Words(Join(words, " ")) == words
  {
    if words == [] {
      assert Split("", ' ') == [""] && [""][1..] == [];
    } else {
      SplitJoin(words, ' ');
      NonEmptyAll(words);
    }
  }

  /** A field is the value of the last line that gives it, or missing when none does. */
  ghost predicate IsGiven(entries: seq<Entry>, key: string, field: Option<string>) {
    var given := Given(entries, key);
    if given == [] then field == None else field == Some(given[|given| - 1])
  }

  /** What the last line with a key gives, and something else when there is none. */
  function GivenOr(entries: seq<Entry>, key: string, other: string): string {
    var given := Given(entries, key);
    if given == [] then other else given[|given| - 1]
  }

  /** A cache's lines, in whatever order, are read as what they say: all signatures, and its references one by one. */
  lemma {:induction false} NarinfoIsRead(entries: seq<Entry>, references: seq<string>)
    requires entries != [] && forall i :: 0 <= i < |entries| ==> Writable(entries[i])
    requires Given(entries, "References") == [Join(references, " ")]
    requires forall r :: r in references ==> r != "" && Free(r, ' ')
    ensures var info := InfoOf(Split(Join(LinesOf(entries), "\n"), '\n'));
      && info.sigs == Given(entries, SIG)
      && info.references == references
      && IsGiven(entries, "StorePath", info.storePath) && IsGiven(entries, "URL", info.url)
      && IsGiven(entries, "NarHash", info.narHash)
      && info.narSize == GivenOr(entries, "NarSize", "0") && info.fileSize == GivenOr(entries, "FileSize", "0")
      && info.compression ==
           if GivenOr(entries, "Compression", "") == "" then "bzip2" else GivenOr(entries, "Compression", "")
  {
    LinesAreRead(entries, SIG);
    LinesAreRead(entries, "References");
    LinesAreRead(entries, "StorePath");
    LinesAreRead(entries, "URL");
    LinesAreRead(entries, "NarHash");
    LinesAreRead(entries, "Compression");
    LinesAreRead(entries, "NarSize");
    LinesAreRead(entries, "FileSize");
    SplitJoin(LinesOf(entries), '\n');
    WordsOfJoined(references);
  }
}
