/**
 * Form encoding of a parameter list, as section 5 of the WHATWG URL Standard has it, with whatever characters the
 * printer leaves alone. Text is its UTF-8 bytes, one character each.
 */
module Form {
  import opened Prelude
  import opened Paths

  predicate IsByte(c: char) {
    c as int < 256
  }

  predicate IsBytes(s: string) {
    forall i :: 0 <= i < |s| ==> IsByte(s[i])
  }

  function HexDigit(n: nat): char
    requires n < 16
  {
    if n < 10 then (48 + n) as char else (55 + n) as char
  }

  function HexValue(c: char): Option<nat> {
    if '0' <= c <= '9' then Some(c as int - 48)
    else if 'A' <= c <= 'F' then Some(c as int - 55)
    else if 'a' <= c <= 'f' then Some(c as int - 87)
    else None
  }

  /** A blank is a plus, a kept character itself, any other a percent sign and two digits. */
  function EncodeByte(c: char, keep: set<char>): string {
    if c == ' ' then "+"
    else if c in keep then [c]
    else ['%', HexDigit(c as int / 16 % 16), HexDigit(c as int % 16)]
  }

  function Encode(s: string, keep: set<char>): string {
    if s == "" then "" else EncodeByte(s[0], keep) + Encode(s[1..], keep)
  }

  function Decode(s: string): string
    decreases |s|
  {
    if s == "" then ""
    else if s[0] == '+' then [' '] + Decode(s[1..])
    else if s[0] == '%' && |s| >= 3 && HexValue(s[1]).Some? && HexValue(s[2]).Some?
    then [(16 * HexValue(s[1]).value + HexValue(s[2]).value) as char] + Decode(s[3..])
    else [s[0]] + Decode(s[1..])
  }

  /** What a printer may leave alone. */
  ghost predicate MayKeep(keep: set<char>) {
    keep !! {'%', '+', '&', '=', '#'}
  }

  lemma {:induction false} DecodeByte(c: char, keep: set<char>, rest: string)
    requires MayKeep(keep) && IsByte(c)
    ensures Decode(EncodeByte(c, keep) + rest) == [c] + Decode(rest)
  {
    var s := EncodeByte(c, keep) + rest;
    if c == ' ' || c in keep {
      assert s[1..] == rest;
    } else {
      assert s[3..] == rest;
    }
  }

  const HEX := "0123456789ABCDEF"

  /** A plus is a blank, and a percent sign and two digits, of either case, are the byte they write. */
  lemma {:induction false} WrittenByte(n: nat, rest: string)
    requires n < 256
    ensures Decode("+" + rest) == " " + Decode(rest) && EncodeByte(' ', {}) == "+"
    ensures Decode("%" + [HEX[n / 16], HEX[n % 16]] + rest) == [n as char] + Decode(rest)
    ensures n != 32 ==> EncodeByte(n as char, {}) == "%" + [HEX[n / 16], HEX[n % 16]]
  {
    assert ("+" + rest)[1..] == rest;
    assert ("%" + [HEX[n / 16], HEX[n % 16]] + rest)[3..] == rest;
    HexIsRead(n / 16);
    HexIsRead(n % 16);
  }

  lemma {:induction false} HexIsRead(d: nat)
    requires d < 16
    ensures HexValue(HEX[d]) == Some(d) && HexDigit(d) == HEX[d]
  {
    if d < 10 {
      assert "0123456789"[d] as int == 48 + d && HexDigit(d) as int == 48 + d;
      assert HEX[..10] == "0123456789" && HEX[d] == HEX[..10][d];
    } else {
      assert "ABCDEF"[d - 10] as int == 55 + d && HexDigit(d) as int == 55 + d;
      assert HEX[10..] == "ABCDEF" && HEX[d] == HEX[10..][d - 10];
    }
  }

  /** Decoding undoes encoding, whatever is left alone. */
  lemma {:induction false} DecodeEncode(s: string, keep: set<char>)
    requires MayKeep(keep) && IsBytes(s)
    ensures Decode(Encode(s, keep)) == s
  {
    if s != "" {
      DecodeEncode(s[1..], keep);
      DecodeByte(s[0], keep, Encode(s[1..], keep));
    }
  }

  /** No character that separates parameters, or ends a query, is left by encoding. */
  lemma {:induction false} EncodeIsFree(s: string, keep: set<char>, sep: char)
    requires MayKeep(keep) && sep in {'&', '=', '#'}
    ensures Free(Encode(s, keep), sep)
  {
    if s != "" {
      EncodeIsFree(s[1..], keep, sep);
    }
  }

  // ---------- parameter lists ----------

  datatype Param = Param(name: string, value: string)

  predicate ParamBytes(params: seq<Param>) {
    forall i :: 0 <= i < |params| ==> IsBytes(params[i].name) && IsBytes(params[i].value)
  }

  function Printed(param: Param, keep: set<char>): string {
    Encode(param.name, keep) + "=" + Encode(param.value, keep)
  }

  function PrintedAll(params: seq<Param>, keep: set<char>): seq<string> {
    if params == [] then [] else [Printed(params[0], keep)] + PrintedAll(params[1..], keep)
  }

  function Serialise(params: seq<Param>, keep: set<char>): string {
    Join(PrintedAll(params, keep), "&")
  }

  /** What is before and after the first separator; all of it is before when there is none. */
  function Cut(part: string, sep: char): (string, string) {
    if part == "" then ("", "")
    else if part[0] == sep then ("", part[1..])
    else var rest := Cut(part[1..], sep); ([part[0]] + rest.0, rest.1)
  }

  function ParsePart(part: string): Param {
    Param(Decode(Cut(part, '=').0), Decode(Cut(part, '=').1))
  }

  /** Empty parts are no parameters. */
  function ParseParts(parts: seq<string>): seq<Param> {
    if parts == [] then []
    else (if parts[0] == "" then [] else [ParsePart(parts[0])]) + ParseParts(parts[1..])
  }

  function Parse(query: string): seq<Param> {
    ParseParts(Split(query, '&'))
  }

  lemma {:induction false} CutJoined(a: string, b: string, sep: char)
    requires Free(a, sep)
    ensures Cut(a + [sep] + b, sep) == (a, b)
  {
    var s := a + [sep] + b;
    if a == "" {
      assert s[1..] == b;
    } else {
      CutJoined(a[1..], b, sep);
      assert s[1..] == a[1..] + [sep] + b;
      assert [a[0]] + a[1..] == a;
    }
  }

  lemma {:induction false} ParsePrinted(param: Param, keep: set<char>)
    requires MayKeep(keep) && IsBytes(param.name) && IsBytes(param.value)
    ensures ParsePart(Printed(param, keep)) == param && Free(Printed(param, keep), '&') && Printed(param, keep) != ""
  {
    EncodeIsFree(param.name, keep, '=');
    EncodeIsFree(param.name, keep, '&');
    EncodeIsFree(param.value, keep, '&');
    CutJoined(Encode(param.name, keep), Encode(param.value, keep), '=');
    DecodeEncode(param.name, keep);
    DecodeEncode(param.value, keep);
  }

  lemma {:induction false} ParsePrintedAll(params: seq<Param>, keep: set<char>)
    requires MayKeep(keep) && ParamBytes(params)
    ensures ParseParts(PrintedAll(params, keep)) == params
    ensures forall p :: p in PrintedAll(params, keep) ==> Free(p, '&')
    ensures |PrintedAll(params, keep)| == |params|
  {
    if params != [] {
      ParsePrinted(params[0], keep);
      ParsePrintedAll(params[1..], keep);
      assert [params[0]] + params[1..] == params;
    }
  }

  /** A printed parameter list is read back, whichever printer it was. */
  lemma {:induction false} ParseSerialise(params: seq<Param>, keep: set<char>)
    requires MayKeep(keep) && ParamBytes(params)
    ensures Parse(Serialise(params, keep)) == params
  {
    ParsePrintedAll(params, keep);
    if params == [] {
      assert Split("", '&') == [""];
      assert ParseParts([""]) == [] + ParseParts([""][1..]);
    } else {
      SplitJoin(PrintedAll(params, keep), '&');
    }
  }

  lemma {:induction false} PrintedIsFree(param: Param, keep: set<char>)
    requires MayKeep(keep)
    ensures Free(Printed(param, keep), '#')
  {
    EncodeIsFree(param.name, keep, '#');
    EncodeIsFree(param.value, keep, '#');
  }

  /** A query has no fragment in it. */
  lemma {:induction false} SerialiseHasNoFragment(params: seq<Param>, keep: set<char>)
    requires MayKeep(keep)
    ensures Free(Serialise(params, keep), '#')
  {
    if params != [] {
      SerialiseHasNoFragment(params[1..], keep);
      PrintedIsFree(params[0], keep);
      var printed := PrintedAll(params, keep);
      assert printed[1..] == PrintedAll(params[1..], keep);
      assert |params| == 1 ==> printed[1..] == [];
    }
  }
}
