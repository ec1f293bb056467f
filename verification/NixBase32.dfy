/**
 * Nix's base32 (site/js/hash.js), whose decoder works backwards and or-s five bits at a time into an array of bytes.
 * The specification is positional value, in base 32 on one side and base 256 on the other.
 */
module NixBase32 {
  import opened Prelude

  const ALPHABET := "0123456789abcdfghijklmnpqrsvwxyz"
  const BITS_PER_DIGIT := 5
  const BITS_PER_BYTE := 8

  /** The first place the alphabet has this character, or -1. */
  function IndexOf(alphabet: string, c: char): (i: int)
    ensures -1 <= i < |alphabet|
    ensures i >= 0 ==> alphabet[i] == c && c !in alphabet[..i]
    ensures i == -1 <==> c !in alphabet
  {
    if alphabet == "" then -1
    else if alphabet[0] == c then 0
    else
      var rest := IndexOf(alphabet[1..], c);
      assert alphabet == [alphabet[0]] + alphabet[1..];
      if rest < 0 then -1 else rest + 1
  }

  /** What a character counts; one outside the alphabet counts nothing. */
  function DigitOf(alphabet: string, c: char): (digit: nat)
    ensures c in alphabet ==> digit < |alphabet| && alphabet[digit] == c
  {
    if IndexOf(alphabet, c) < 0 then 0 else IndexOf(alphabet, c)
  }

  predicate Over(alphabet: string, text: string) {
    forall k :: 0 <= k < |text| ==> text[k] in alphabet
  }

  predicate InAlphabet(text: string) {
    Over(ALPHABET, text)
  }

  /** The digits and the letters but for e, o, t and u are the alphabet. */
  lemma {:induction false} AlphabetIs(c: char)
    ensures c in ALPHABET <==> ('0' <= c <= '9' || 'a' <= c <= 'z') && c != 'e' && c != 'o' && c != 't' && c != 'u'
  {
    AlphabetParts();
    InParts("0123456789", "abcdfghijklmnpqrsvwxyz", c);
    NumeralsAre(c);
    LettersAre(c);
  }

  lemma {:induction false} AlphabetParts()
    ensures ALPHABET == "0123456789" + "abcdfghijklmnpqrsvwxyz"
  {
  }

  lemma {:induction false} NumeralsAre(c: char)
    ensures c in "0123456789" <==> '0' <= c <= '9'
  {
  }

  lemma {:induction false} LettersAre(c: char)
    ensures c in "abcdfghijklmnpqrsvwxyz" <==> 'a' <= c <= 'z' && c != 'e' && c != 'o' && c != 't' && c != 'u'
  {
    InParts("abcdfghijkl", "mnpqrsvwxyz", c);
    assert "abcdfghijklmnpqrsvwxyz" == "abcdfghijkl" + "mnpqrsvwxyz";
  }

  lemma {:induction false} InParts(a: string, b: string, c: char)
    ensures c in a + b <==> c in a || c in b
  {
  }

  // ---------- positional values ----------

  function Pow(base: nat, n: nat): (p: nat)
    ensures base > 0 ==> p > 0
  {
    if n == 0 then 1 else Pow(base, n - 1) * base
  }

  /** The number digits write: the last counts ones, the one before it thirty-twos. */
  function Number(digits: seq<nat>): nat {
    if digits == [] then 0 else 32 * Number(digits[..|digits| - 1]) + digits[|digits| - 1]
  }

  function DigitsOf(alphabet: string, text: string): (digits: seq<nat>)
    ensures |digits| == |text|
  {
    seq(|text|, k requires 0 <= k < |text| => DigitOf(alphabet, text[k]))
  }

  predicate AllDigits(digits: seq<nat>) {
    forall k :: 0 <= k < |digits| ==> digits[k] < 32
  }

  function Value(text: string): nat {
    Number(DigitsOf(ALPHABET, text))
  }

  predicate AllBytes(bytes: seq<nat>) {
    forall k :: 0 <= k < |bytes| ==> bytes[k] < 256
  }

  /** The number bytes write, least significant first. */
  function LittleEndian(bytes: seq<nat>): nat {
    if bytes == [] then 0 else bytes[0] + 256 * LittleEndian(bytes[1..])
  }

  function BytesOf(value: nat, size: nat): (bytes: seq<nat>)
    ensures |bytes| == size && AllBytes(bytes)
  {
    if size == 0 then [] else [value % 256] + BytesOf(value / 256, size - 1)
  }

  function TextOf(alphabet: string, value: nat, length: nat): (text: string)
    requires |alphabet| == 32
    ensures |text| == length
  {
    if length == 0 then "" else TextOf(alphabet, value / 32, length - 1) + [alphabet[value % 32]]
  }

  /** How long the text of so many bytes is. */
  function LengthFor(size: nat): nat {
    (size * BITS_PER_BYTE + BITS_PER_DIGIT - 1) / BITS_PER_DIGIT
  }

  /** What decoding a text of the right length gives. */
  function DecodeOf(text: string, size: nat): Option<seq<nat>> {
    if InAlphabet(text) && Value(text) < Pow(256, size) then Some(BytesOf(Value(text), size)) else None
  }

  function EncodeOf(bytes: seq<nat>): string {
    TextOf(ALPHABET, LittleEndian(bytes), LengthFor(|bytes|))
  }

  // ---------- bits ----------

  function Or(a: nat, b: nat): nat {
    if a == 0 then b else if b == 0 then a
    else (if a % 2 == 1 || b % 2 == 1 then 1 else 0) + 2 * Or(a / 2, b / 2)
  }

  lemma {:induction false} PowAdds(base: nat, m: nat, n: nat)
    ensures Pow(base, m + n) == Pow(base, m) * Pow(base, n)
  {
    if n > 0 {
      PowAdds(base, m, n - 1);
      assert Pow(base, m + n) == Pow(base, m + (n - 1)) * base;
    }
  }

  lemma {:induction false} PowPow(base: nat, m: nat, n: nat)
    ensures Pow(Pow(base, m), n) == Pow(base, m * n)
  {
    if n > 0 {
      PowPow(base, m, n - 1);
      PowAdds(base, m * (n - 1), m);
      assert m * (n - 1) + m == m * n;
    }
  }

  lemma {:induction false} PowStarts(base: nat)
    ensures Pow(base, 0) == 1
  {
  }

  lemma {:induction false} PowStep(base: nat, n: nat)
    requires n > 0
    ensures Pow(base, n) == Pow(base, n - 1) * base
  {
  }

  lemma {:induction false} MulCommutes(a: nat, b: nat)
    ensures a * (b * 2) == 2 * (a * b)
  {
  }

  lemma {:induction false} OrZero(a: nat)
    ensures Or(a, 0) == Or(0, a) == a
  {
  }

  lemma {:induction false} OrStep(low: nat, top: nat)
    requires Or(low / 2, top) == low / 2 + top
    ensures Or(low, 2 * top) == low + 2 * top
  {
    assert (2 * top) / 2 == top && (2 * top) % 2 == 0;
  }

  /** Or-ing into bits that are clear is adding. */
  lemma {:induction false} OrDisjoint(low: nat, high: nat, j: nat)
    requires low < Pow(2, j)
    ensures Or(low, high * Pow(2, j)) == low + high * Pow(2, j)
  {
    hide Or, Pow;
    OrZero(low);
    OrZero(high * Pow(2, j));
    PowStarts(2);
    if j > 0 && low > 0 && high > 0 {
      PowStep(2, j);
      OrDisjoint(low / 2, high, j - 1);
      OrStep(low, high * Pow(2, j - 1));
      MulCommutes(high, Pow(2, j - 1));
    }
  }

  /** The part of a shifted digit that stays in its byte, and the carry. */
  lemma {:induction false} ShiftParts(digit: nat, j: nat)
    requires digit < 32 && j < 8
    ensures digit * Pow(2, j) % 256 == digit % Pow(2, 8 - j) * Pow(2, j)
    ensures digit * Pow(2, j) % 256 + 256 * (digit / Pow(2, 8 - j)) == digit * Pow(2, j)
    ensures digit / Pow(2, 8 - j) < (if j < 3 then 1 else Pow(2, j - 3))
  {
    assert Pow(2, 0) == 1 && Pow(2, 1) == 2 && Pow(2, 2) == 4 && Pow(2, 3) == 8;
    assert Pow(2, 4) == 16 && Pow(2, 5) == 32 && Pow(2, 6) == 64 && Pow(2, 7) == 128 && Pow(2, 8) == 256;
    if j == 0 {} else if j == 1 {} else if j == 2 {} else if j == 3 {}
    else if j == 4 {} else if j == 5 {} else if j == 6 {} else {}
  }

  // ---------- one digit poured into the bytes ----------

  /** Only the first 5 * n bits are in use. */
  ghost predicate Filled(bytes: seq<nat>, n: nat) {
    && AllBytes(bytes)
    && forall k :: 0 <= k < |bytes| ==> BitsUsed(bytes[k], 5 * n - 8 * k)
  }

  ghost predicate BitsUsed(byte: nat, used: int) {
    (used <= 0 ==> byte == 0) && (0 < used < 8 ==> byte < Pow(2, used))
  }

  lemma {:induction false} LittleEndianUpdate(bytes: seq<nat>, i: nat, byte: nat)
    requires i < |bytes|
    ensures LittleEndian(bytes[i := byte]) == LittleEndian(bytes) - bytes[i] * Pow(256, i) + byte * Pow(256, i)
  {
    if i == 0 {
      assert bytes[0 := byte][1..] == bytes[1..];
    } else {
      LittleEndianUpdate(bytes[1..], i - 1, byte);
      assert bytes[i := byte][1..] == bytes[1..][i - 1 := byte];
      OnePlaceUp(bytes[i], i - 1);
      OnePlaceUp(byte, i - 1);
    }
  }

  lemma {:induction false} OnePlaceUp(n: nat, i: nat)
    ensures 256 * (n * Pow(256, i)) == n * Pow(256, i + 1)
  {
    var p := Pow(256, i);
    assert Pow(256, i + 1) == p * 256;
    assert 256 * (n * p) == n * (p * 256);
  }

  lemma {:induction false} LittleEndianBound(bytes: seq<nat>)
    requires AllBytes(bytes)
    ensures LittleEndian(bytes) < Pow(256, |bytes|)
  {
    if bytes != [] {
      LittleEndianBound(bytes[1..]);
    }
  }

  lemma {:induction false} LittleEndianOfZeros(bytes: seq<nat>)
    requires forall k :: 0 <= k < |bytes| ==> bytes[k] == 0
    ensures LittleEndian(bytes) == 0
  {
    if bytes != [] {
      LittleEndianOfZeros(bytes[1..]);
    }
  }

  lemma {:induction false} SmallPowers()
    ensures Pow(2, 5) == 32 && Pow(2, 8) == 256
  {
    assert Pow(2, 3) == 8;
    assert Pow(2, 5) == 32;
  }

  /** A digit's place: 32^n is 256^i times the power of two left over. */
  lemma {:induction false} PlaceOf(n: nat, i: nat, j: nat)
    requires 5 * n == 8 * i + j
    ensures Pow(32, n) == Pow(2, j) * Pow(256, i)
  {
    hide Pow;
    SmallPowers();
    PowPow(2, 5, n);
    PowPow(2, 8, i);
    PowAdds(2, 8 * i, j);
  }

  /** The byte the digit starts in, after the digit. */
  function Low(byte: nat, digit: nat, j: nat): nat {
    Or(byte, digit * Pow(2, j) % 256)
  }

  function Carry(digit: nat, j: nat): nat
    requires j < 8
  {
    digit / Pow(2, 8 - j)
  }

  lemma {:induction false} LowAdds(byte: nat, digit: nat, j: nat)
    requires digit < 32 && j < 8 && BitsUsed(byte, j)
    ensures Low(byte, digit, j) == byte + digit * Pow(2, j) % 256
    ensures Low(byte, digit, j) + 256 * Carry(digit, j) == byte + digit * Pow(2, j)
    ensures Low(byte, digit, j) < 256
    ensures j < 3 ==> Low(byte, digit, j) < Pow(2, j + 5) && Carry(digit, j) == 0
    ensures j >= 3 ==> Carry(digit, j) < Pow(2, j - 3)
  {
    ShiftParts(digit, j);
    OrDisjoint(byte, digit % Pow(2, 8 - j), j);
    LowBound(byte, digit, j);
  }

  lemma {:induction false} LowBound(byte: nat, digit: nat, j: nat)
    requires digit < 32 && j < 8 && byte < Pow(2, j)
    ensures byte + digit % Pow(2, 8 - j) * Pow(2, j) < 256
    ensures j < 3 ==> byte + digit % Pow(2, 8 - j) * Pow(2, j) < Pow(2, j + 5)
  {
    assert Pow(2, 0) == 1 && Pow(2, 1) == 2 && Pow(2, 2) == 4 && Pow(2, 3) == 8;
    assert Pow(2, 4) == 16 && Pow(2, 5) == 32 && Pow(2, 6) == 64 && Pow(2, 7) == 128 && Pow(2, 8) == 256;
    if j == 0 {} else if j == 1 {} else if j == 2 {} else if j == 3 {}
    else if j == 4 {} else if j == 5 {} else if j == 6 {} else {}
  }

  /** The bytes after one more digit, its carry dropped where there is no next byte. */
  function Poured(bytes: seq<nat>, digit: nat, i: nat, j: nat): seq<nat>
    requires j < 8 && i < |bytes|
  {
    var low := bytes[i := Low(bytes[i], digit, j)];
    if i + 1 < |bytes| then low[i + 1 := Or(bytes[i + 1], Carry(digit, j))] else low
  }

  lemma {:induction false} PouredFilled(bytes: seq<nat>, digit: nat, n: nat, i: nat, j: nat)
    requires Filled(bytes, n) && digit < 32 && j < 8 && 5 * n == 8 * i + j && i < |bytes|
    requires i + 1 < |bytes| || Carry(digit, j) == 0
    ensures Filled(Poured(bytes, digit, i, j), n + 1)
  {
    assert BitsUsed(bytes[i], 5 * n - 8 * i);
    LowAdds(bytes[i], digit, j);
    var after := Poured(bytes, digit, i, j);
    SmallPow(if j < 3 then 0 else j - 3);
    forall k | 0 <= k < |bytes| ensures after[k] < 256 && BitsUsed(after[k], 5 * (n + 1) - 8 * k) {
      assert BitsUsed(bytes[k], 5 * n - 8 * k);
    }
  }

  lemma {:induction false} SmallPow(j: nat)
    requires j < 8
    ensures Pow(2, j) < 256
  {
    PowAdds(2, j, 8 - j);
    assert Pow(2, 4) == 16 && Pow(2, 8) == 256 && Pow(2, 7) == 128 && Pow(2, 6) == 64;
    if j == 0 {} else if j == 1 {} else if j == 2 {} else if j == 3 {} else if j == 4 {} else {}
  }

  lemma {:induction false} PouredValue(bytes: seq<nat>, digit: nat, n: nat, i: nat, j: nat)
    requires Filled(bytes, n) && digit < 32 && j < 8 && 5 * n == 8 * i + j && i < |bytes|
    requires i + 1 < |bytes| || Carry(digit, j) == 0
    ensures LittleEndian(Poured(bytes, digit, i, j)) == LittleEndian(bytes) + digit * Pow(32, n)
  {
    assert BitsUsed(bytes[i], 5 * n - 8 * i);
    LowAdds(bytes[i], digit, j);
    PlaceOf(n, i, j);
    var low := Low(bytes[i], digit, j);
    LittleEndianUpdate(bytes, i, low);
    if i + 1 < |bytes| {
      assert BitsUsed(bytes[i + 1], 5 * n - 8 * (i + 1));
      LittleEndianUpdate(bytes[i := low], i + 1, Carry(digit, j));
    }
    Distribute(bytes[i], low, Carry(digit, j), digit, Pow(2, j), Pow(256, i));
  }

  lemma {:induction false} Distribute(byte: nat, low: nat, carry: nat, digit: nat, shift: nat, place: nat)
    requires low + 256 * carry == byte + digit * shift
    ensures low * place + carry * (place * 256) == byte * place + digit * (shift * place)
  {
    calc {
      low * place + carry * (place * 256);
      (low + 256 * carry) * place;
      (byte + digit * shift) * place;
      byte * place + digit * (shift * place);
    }
  }

  lemma {:induction false} MulAssociates(a: nat, b: nat, c: nat)
    ensures a * (b * c) == (a * b) * c
  {
  }

  /** A carry out of the last byte is a value too large for the bytes. */
  lemma {:induction false} StrayBits(bytes: seq<nat>, digit: nat, n: nat, j: nat)
    requires |bytes| > 0 && digit < 32 && j < 8 && 5 * n == 8 * (|bytes| - 1) + j && Carry(digit, j) > 0
    ensures digit * Pow(32, n) >= Pow(256, |bytes|)
  {
    var i := |bytes| - 1;
    PlaceOf(n, i, j);
    ShiftParts(digit, j);
    MulMonotone(256, digit * Pow(2, j), Pow(256, i));
    MulAssociates(digit, Pow(2, j), Pow(256, i));
  }

  lemma {:induction false} MulMonotone(a: nat, b: nat, c: nat)
    requires a <= b
    ensures a * c <= b * c
  {
  }

  lemma {:induction false} ShiftPlace(value: nat, digit: nat, place: nat, rest: nat, last: nat)
    requires value == digit * place + rest
    ensures 32 * value + last == digit * (place * 32) + (32 * rest + last)
  {
  }

  lemma {:induction false} NumberCons(digit: nat, rest: seq<nat>)
    ensures Number([digit] + rest) == digit * Pow(32, |rest|) + Number(rest)
  {
    if rest == [] {
      assert [digit] + rest == [digit];
    } else {
      var init, last := rest[..|rest| - 1], rest[|rest| - 1];
      NumberCons(digit, init);
      assert ([digit] + rest)[..|rest|] == [digit] + init;
      ShiftPlace(Number([digit] + init), digit, Pow(32, |init|), Number(init), last);
    }
  }

  // ---------- the decoder ----------

  /** The last `n` digits. */
  function Tail(digits: seq<nat>, n: nat): seq<nat>
    requires n <= |digits|
  {
    digits[|digits| - n..]
  }

  /** The digits that start within the bytes. */
  function Kept(digits: seq<nat>, size: nat): seq<nat> {
    Tail(digits, Min(|digits|, LengthFor(size)))
  }

  /** Past the last byte only a carry is looked at: these digits leave none. */
  predicate Silent(digits: seq<nat>, size: nat) {
    forall n :: LengthFor(size) <= n < |digits| ==> Carry(digits[|digits| - 1 - n], 5 * n % 8) == 0
  }

  lemma {:induction false} LengthForMeans(n: nat, size: nat)
    ensures n < LengthFor(size) <==> 5 * n < 8 * size
  {
  }

  lemma {:induction false} TailStep(digits: seq<nat>, n: nat)
    requires n < |digits|
    ensures Number(Tail(digits, n + 1)) == Number(Tail(digits, n)) + digits[|digits| - 1 - n] * Pow(32, n)
  {
    assert Tail(digits, n + 1) == [digits[|digits| - 1 - n]] + Tail(digits, n);
    NumberCons(digits[|digits| - 1 - n], Tail(digits, n));
  }

  lemma {:induction false} TailGrows(digits: seq<nat>, m: nat, n: nat)
    requires m <= n <= |digits|
    ensures Number(Tail(digits, m)) <= Number(Tail(digits, n))
  {
    if m < n {
      TailGrows(digits, m, n - 1);
      TailStep(digits, n - 1);
    }
  }

  lemma {:induction false} BytesOfLittleEndian(bytes: seq<nat>)
    requires AllBytes(bytes)
    ensures BytesOf(LittleEndian(bytes), |bytes|) == bytes
  {
    if bytes != [] {
      BytesOfLittleEndian(bytes[1..]);
      RemainderOfByte(bytes[0], LittleEndian(bytes[1..]));
    }
  }

  lemma {:induction false} RemainderOfByte(byte: nat, rest: nat)
    requires byte < 256
    ensures (byte + 256 * rest) % 256 == byte && (byte + 256 * rest) / 256 == rest
  {
  }

  /** What the last `n` digits have put into the bytes. */
  ghost predicate Decoding(bytes: seq<nat>, digits: seq<nat>, size: nat, n: nat)
    requires n <= |digits|
  {
    && |bytes| == size
    && (forall m :: LengthFor(size) <= m < n ==> Carry(digits[|digits| - 1 - m], 5 * m % 8) == 0)
    && Filled(bytes, Min(n, LengthFor(size)))
    && LittleEndian(bytes) == Number(Tail(digits, Min(n, LengthFor(size))))
  }

  lemma {:induction false} DecodingStarts(bytes: seq<nat>, digits: seq<nat>)
    requires forall k :: 0 <= k < |bytes| ==> bytes[k] == 0
    ensures Decoding(bytes, digits, |bytes|, 0)
  {
    LittleEndianOfZeros(bytes);
  }

  lemma {:induction false} EightsAndRest(bit: nat, i: nat, j: nat)
    requires bit == 8 * i + j && j < 8
    ensures bit % 8 == j
  {
  }

  lemma {:induction false} DecodingGoesOn(bytes: seq<nat>, digits: seq<nat>, size: nat, n: nat, i: nat, j: nat)
    requires n < |digits| && Decoding(bytes, digits, size, n) && AllDigits(digits)
    requires 5 * n == 8 * i + j && j < 8
    requires i + 1 < size || Carry(digits[|digits| - 1 - n], j) == 0
    ensures Decoding(if i < size then Poured(bytes, digits[|digits| - 1 - n], i, j) else bytes, digits, size, n + 1)
  {
    LengthForMeans(n, size);
    if i < size {
      TailStep(digits, n);
      PouredFilled(bytes, digits[|digits| - 1 - n], n, i, j);
      PouredValue(bytes, digits[|digits| - 1 - n], n, i, j);
    } else {
      EightsAndRest(5 * n, i, j);
    }
  }

  lemma {:induction false} DecodingStops(bytes: seq<nat>, digits: seq<nat>, size: nat, n: nat, i: nat, j: nat)
    requires n < |digits| && Decoding(bytes, digits, size, n) && AllDigits(digits)
    requires 5 * n == 8 * i + j && j < 8
    requires i + 1 >= size && Carry(digits[|digits| - 1 - n], j) > 0
    ensures !(Silent(digits, size) && Number(Kept(digits, size)) < Pow(256, size))
  {
    LengthForMeans(n, size);
    if i < size {
      StrayBits(bytes, digits[|digits| - 1 - n], n, j);
      TailStep(digits, n);
      TailGrows(digits, n + 1, Min(|digits|, LengthFor(size)));
    } else {
      EightsAndRest(5 * n, i, j);
    }
  }

  /** Whatever is decoded: the digits that start within the bytes, if they fit and the others are silent. */
  function DecodeDigits(digits: seq<nat>, size: nat): Option<seq<nat>> {
    if Silent(digits, size) && Number(Kept(digits, size)) < Pow(256, size)
    then Some(BytesOf(Number(Kept(digits, size)), size)) else None
  }

  lemma {:induction false} DecodingEnds(bytes: seq<nat>, digits: seq<nat>, size: nat)
    requires Decoding(bytes, digits, size, |digits|)
    ensures DecodeDigits(digits, size) == Some(bytes)
  {
    LittleEndianBound(bytes);
    BytesOfLittleEndian(bytes);
  }

  /** One digit or-ed in; where there is no byte any more, nothing happens. */
  method PourDigit(bytes: array<nat>, digit: nat, i: nat, j: nat) returns (ok: bool)
    requires j < 8
    modifies bytes
    ensures ok <==> i + 1 < bytes.Length || Carry(digit, j) == 0
    ensures ok ==> bytes[..] == if i < bytes.Length then Poured(old(bytes[..]), digit, i, j) else old(bytes[..])
  {
    if i < bytes.Length {
      bytes[i] := Or(bytes[i], digit * Pow(2, j) % 256);
    }
    var carry := digit / Pow(2, BITS_PER_BYTE - j);
    ok := true;
    if i < bytes.Length - 1 {
      bytes[i + 1] := Or(bytes[i + 1], carry);
    } else if carry != 0 {
      ok := false;
    }
  }

  lemma {:induction false} RightLength(digits: seq<nat>, size: nat)
    requires |digits| <= LengthFor(size)
    ensures Kept(digits, size) == digits && Silent(digits, size)
  {
  }

  lemma {:induction false} DigitsAreDigits(alphabet: string, text: string)
    requires 0 < |alphabet| <= 32
    ensures AllDigits(DigitsOf(alphabet, text))
  {
  }

  method DecodeDigit(bytes: array<nat>, digit: nat, ghost digits: seq<nat>, n: nat) returns (ok: bool)
    requires n < |digits| && digit == digits[|digits| - 1 - n] && AllDigits(digits)
    requires Decoding(bytes[..], digits, bytes.Length, n)
    modifies bytes
    ensures ok ==> Decoding(bytes[..], digits, bytes.Length, n + 1)
    ensures !ok ==> DecodeDigits(digits, bytes.Length) == None
  {
    var bit := n * BITS_PER_DIGIT;
    var i, j := bit / BITS_PER_BYTE, bit % BITS_PER_BYTE;
    ghost var before, size := bytes[..], bytes.Length;
    ok := PourDigit(bytes, digit, i, j);
    if ok {
      DecodingGoesOn(before, digits, size, n, i, j);
    } else {
      DecodingStops(before, digits, size, n, i, j);
    }
  }

  method DecodeOver(alphabet: string, text: string, size: nat) returns (decoded: Option<seq<nat>>)
    requires 0 < |alphabet| <= 32
    ensures decoded == if Over(alphabet, text) then DecodeDigits(DigitsOf(alphabet, text), size) else None
  {
    hide Decoding, DecodeDigits;
    ghost var digits := DigitsOf(alphabet, text);
    DigitsAreDigits(alphabet, text);
    var bytes := new nat[size](_ => 0);
    DecodingStarts(bytes[..], digits);
    for n := 0 to |text|
      invariant forall k :: |text| - n <= k < |text| ==> text[k] in alphabet
      invariant Decoding(bytes[..], digits, size, n)
    {
      var digit := IndexOf(alphabet, text[|text| - 1 - n]);
      if digit == -1 {
        return None;
      }
      var ok := DecodeDigit(bytes, digit, digits, n);
      if !ok {
        return None;
      }
    }
    DecodingEnds(bytes[..], digits, size);
    return Some(bytes[..]);
  }

  /**
   * Decoding or-s digits into the bytes from the end of the text. A text of the right length decodes exactly when its
   * value fits; of a longer one, only the digits that start within the bytes are in the result.
   */
  method DecodeNixBase32(text: string, size: nat) returns (decoded: Option<seq<nat>>)
    ensures |text| <= LengthFor(size) ==> decoded == DecodeOf(text, size)
    ensures decoded == if InAlphabet(text) then DecodeDigits(DigitsOf(ALPHABET, text), size) else None
  {
    if |text| <= LengthFor(size) {
      RightLength(DigitsOf(ALPHABET, text), size);
    }
    decoded := DecodeOver(ALPHABET, text, size);
  }

  // ---------- what decoding means ----------

  /** Every character of the alphabet counts its own place. */
  ghost predicate Unambiguous(alphabet: string) {
    forall d :: 0 <= d < |alphabet| ==> alphabet[d] !in alphabet[..d]
  }

  /** And they stand in ascending order. */
  lemma {:induction false} AlphabetAscends()
    ensures |ALPHABET| == 32 && forall d :: 0 <= d < 31 ==> ALPHABET[d] < ALPHABET[d + 1]
  {
  }

  lemma {:induction false} AlphabetIsUnambiguous()
    ensures |ALPHABET| == 32 && Unambiguous(ALPHABET)
  {
    AlphabetAscends();
    IncreasingIsUnambiguous(ALPHABET);
  }

  lemma {:induction false} IncreasingIsUnambiguous(alphabet: string)
    requires forall d :: 0 <= d < |alphabet| - 1 ==> alphabet[d] < alphabet[d + 1]
    ensures Unambiguous(alphabet)
  {
    forall d, e | 0 <= e < d < |alphabet| ensures alphabet[e] < alphabet[d] {
      Increasing(alphabet, e, d);
    }
  }

  lemma {:induction false} Increasing(alphabet: string, e: nat, d: nat)
    requires forall d :: 0 <= d < |alphabet| - 1 ==> alphabet[d] < alphabet[d + 1]
    requires e < d < |alphabet|
    ensures alphabet[e] < alphabet[d]
  {
    if e + 1 < d {
      Increasing(alphabet, e, d - 1);
    }
    assert alphabet[d - 1] < alphabet[d - 1 + 1];
  }

  lemma {:induction false} DigitOfItself(alphabet: string, d: nat)
    requires Unambiguous(alphabet) && d < |alphabet|
    ensures DigitOf(alphabet, alphabet[d]) == d
  {
    assert alphabet[d] in alphabet;
  }

  lemma {:induction false} DigitsOfSnoc(alphabet: string, text: string, c: char)
    ensures DigitsOf(alphabet, text + [c])[..|text|] == DigitsOf(alphabet, text)
    ensures DigitsOf(alphabet, text + [c])[|text|] == DigitOf(alphabet, c)
  {
  }

  lemma {:induction false} DividedDown(value: nat, bound: nat)
    requires value < bound * 32
    ensures value / 32 < bound && 32 * (value / 32) + value % 32 == value
  {
  }

  /** A number's text writes the number. */
  lemma {:induction false} TextOfNumber(alphabet: string, value: nat, length: nat)
    requires |alphabet| == 32 && Unambiguous(alphabet) && value < Pow(32, length)
    ensures Over(alphabet, TextOf(alphabet, value, length))
    ensures Number(DigitsOf(alphabet, TextOf(alphabet, value, length))) == value
  {
    if length > 0 {
      var init, last := TextOf(alphabet, value / 32, length - 1), alphabet[value % 32];
      DividedDown(value, Pow(32, length - 1));
      TextOfNumber(alphabet, value / 32, length - 1);
      DigitsOfSnoc(alphabet, init, last);
      DigitOfItself(alphabet, value % 32);
    }
  }

  /** A text is the text of the number it writes. */
  lemma {:induction false} NumberOfText(alphabet: string, text: string)
    requires |alphabet| == 32 && Over(alphabet, text)
    ensures Number(DigitsOf(alphabet, text)) < Pow(32, |text|)
    ensures TextOf(alphabet, Number(DigitsOf(alphabet, text)), |text|) == text
  {
    if text != "" {
      var init, last := text[..|text| - 1], text[|text| - 1];
      NumberOfText(alphabet, init);
      assert text == init + [last];
      DigitsOfSnoc(alphabet, init, last);
      var number, digit := Number(DigitsOf(alphabet, init)), DigitOf(alphabet, last);
      assert (32 * number + digit) / 32 == number && (32 * number + digit) % 32 == digit;
    }
  }

  lemma {:induction false} LittleEndianOfBytes(value: nat, size: nat)
    requires value < Pow(256, size)
    ensures LittleEndian(BytesOf(value, size)) == value
  {
    if size > 0 {
      LittleEndianOfBytes(value / 256, size - 1);
    }
  }

  lemma {:induction false} BytesFitTheText(size: nat)
    ensures Pow(256, size) <= Pow(32, LengthFor(size))
  {
    hide Pow;
    SmallPowers();
    PowPow(2, 8, size);
    PowPow(2, 5, LengthFor(size));
    PowAdds(2, 8 * size, 5 * LengthFor(size) - 8 * size);
    MulMonotone(1, Pow(2, 5 * LengthFor(size) - 8 * size), Pow(2, 8 * size));
  }

  /** Decoding undoes encoding. */
  lemma {:induction false} DecodeOfEncode(bytes: seq<nat>)
    requires AllBytes(bytes)
    ensures |EncodeOf(bytes)| == LengthFor(|bytes|)
    ensures DecodeOf(EncodeOf(bytes), |bytes|) == Some(bytes)
  {
    LittleEndianBound(bytes);
    BytesFitTheText(|bytes|);
    AlphabetIsUnambiguous();
    TextOfNumber(ALPHABET, LittleEndian(bytes), LengthFor(|bytes|));
    BytesOfLittleEndian(bytes);
  }

  /** What decodes reads, little-endian, as the value of the text, and is encoded by that text. */
  lemma {:induction false} EncodeOfDecode(text: string, size: nat)
    requires |text| == LengthFor(size) && DecodeOf(text, size).Some?
    ensures LittleEndian(DecodeOf(text, size).value) == Value(text)
    ensures EncodeOf(DecodeOf(text, size).value) == text
  {
    LittleEndianOfBytes(Value(text), size);
    NumberOfText(ALPHABET, text);
  }

  /** Hence no two texts of one digest size decode alike. */
  lemma {:induction false} DecodeIsInjective(a: string, b: string, size: nat)
    requires |a| == |b| == LengthFor(size)
    requires DecodeOf(a, size).Some? && DecodeOf(a, size) == DecodeOf(b, size)
    ensures a == b
  {
    EncodeOfDecode(a, size);
    EncodeOfDecode(b, size);
  }

  // ---------- texts that are too long ----------

  function FromEnd(digits: seq<nat>, n: nat): nat
    requires n < |digits|
  {
    digits[|digits| - 1 - n]
  }

  /** The digits that start past the bytes are zeroes. */
  ghost predicate DropsZeros(digits: seq<nat>, size: nat) {
    forall n :: LengthFor(size) <= n < |digits| ==> FromEnd(digits, n) == 0
  }

  lemma {:induction false} PowGrows(m: nat, n: nat)
    requires m <= n
    ensures Pow(32, m) <= Pow(32, n)
  {
    if m < n {
      PowGrows(m, n - 1);
    }
  }

  lemma {:induction false} ZerosAddNothing(digits: seq<nat>, m: nat, n: nat)
    requires m <= n <= |digits| && forall k :: m <= k < n ==> FromEnd(digits, k) == 0
    ensures Number(Tail(digits, n)) == Number(Tail(digits, m))
  {
    hide Number, Tail, Pow;
    if m < n {
      ZerosAddNothing(digits, m, n - 1);
      TailStep(digits, n - 1);
      assert FromEnd(digits, n - 1) == 0;
    }
  }

  /** A digit that starts past the bytes, and is not zero, makes the value too large for them. */
  lemma {:induction false} DroppedIsLarge(digits: seq<nat>, size: nat, n: nat)
    requires LengthFor(size) <= n < |digits| && FromEnd(digits, n) > 0
    ensures Number(digits) >= Pow(256, size)
  {
    hide Number, Pow, LengthFor;
    TailStep(digits, n);
    TailGrows(digits, n + 1, |digits|);
    MulMonotone(1, FromEnd(digits, n), Pow(32, n));
    PowGrows(LengthFor(size), n);
    BytesFitTheText(size);
    assert Tail(digits, |digits|) == digits;
  }

  /** Zeroes leave no carry and are not missed... */
  lemma {:induction false} DropsNothing(digits: seq<nat>, size: nat)
    requires DropsZeros(digits, size)
    ensures Silent(digits, size) && Number(Kept(digits, size)) == Number(digits)
  {
    forall n | LengthFor(size) <= n < |digits| ensures Carry(digits[|digits| - 1 - n], 5 * n % 8) == 0 {
      assert FromEnd(digits, n) == 0;
    }
    ZerosAddNothing(digits, Min(|digits|, LengthFor(size)), |digits|);
    assert Tail(digits, |digits|) == digits;
  }

  /** ...and without them nothing is left out that would fit. */
  lemma {:induction false} KeptIsLess(digits: seq<nat>, size: nat)
    ensures Number(Kept(digits, size)) <= Number(digits)
    ensures DropsZeros(digits, size) || Number(digits) >= Pow(256, size)
  {
    hide Number, Pow, LengthFor;
    TailGrows(digits, Min(|digits|, LengthFor(size)), |digits|);
    assert Tail(digits, |digits|) == digits;
    if n :| LengthFor(size) <= n < |digits| && FromEnd(digits, n) != 0 {
      DroppedIsLarge(digits, size, n);
    }
  }

  /**
   * Of a text over the alphabet, however long, the decoder gives the value or refuses it because it does not fit,
   * exactly when what starts past the bytes is all zeroes, or leaves a carry, or what is left does not fit either. In
   * every other case digits are lost.
   */
  lemma {:induction false} OverlongDecodesRightIff(text: string, size: nat)
    requires InAlphabet(text)
    ensures var digits := DigitsOf(ALPHABET, text);
      DecodeDigits(digits, size) == DecodeOf(text, size) <==>
        DropsZeros(digits, size) || !Silent(digits, size) || Number(Kept(digits, size)) >= Pow(256, size)
  {
    hide Number, Pow, LengthFor, BytesOf, Silent, DigitsOf, InAlphabet, Kept, DropsZeros;
    var digits := DigitsOf(ALPHABET, text);
    KeptIsLess(digits, size);
    if DropsZeros(digits, size) {
      DropsNothing(digits, size);
    }
  }
}
