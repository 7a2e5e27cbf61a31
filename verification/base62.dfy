/**
  Strings as numerals: the bytes of a string are read as one big-endian number, which is
  written in base 62 and read back.
 */
module Base62 {

  type Byte = x: int | 0 <= x < 256
  type Data = seq<Byte>

  datatype Parsed = NotANumeral | Number(value: nat)

  // ----- numerals in any base

  /** The digits of a number, the most significant first; zero has none. */
  function Digits(n: nat, base: nat): (d: seq<nat>)
    requires base >= 2
    ensures forall i | 0 <= i < |d| :: d[i] < base
    ensures d == [] <==> n == 0
    decreases n
  {
    if n == 0 then [] else Shrinks(n, base); Digits(n / base, base) + [n % base]
  }

  lemma Shrinks(n: nat, base: nat)
    requires n > 0 && base >= 2
    ensures 0 <= n / base < n && 0 <= n % base < base && n == n / base * base + n % base
  {
  }

  function Value(d: seq<nat>, base: nat): nat {
    if d == [] then 0 else Value(d[..|d| - 1], base) * base + d[|d| - 1]
  }

  lemma {:induction false} ValueOfDigits(n: nat, base: nat)
    requires base >= 2
    ensures Value(Digits(n, base), base) == n
    decreases n
  {
    if n > 0 {
      Shrinks(n, base);
      ValueOfDigits(n / base, base);
      var d := Digits(n, base);
      assert d[..|d| - 1] == Digits(n / base, base);
    }
  }

  lemma DivideStep(v: nat, d: nat, base: nat)
    requires d < base
    ensures (v * base + d) / base == v && (v * base + d) % base == d
  {
    var q, r := (v * base + d) / base, (v * base + d) % base;
    assert v * base + d == q * base + r;
    assert (v - q) * base == r - d;
    Scale(v - q, base);
  }

  lemma Scale(x: int, base: nat)
    ensures x >= 1 ==> x * base >= base
    ensures x <= -1 ==> x * base + base <= 0
  {
  }

  /** Leading zeros are all that is lost. */
  function WithoutZeros(d: seq<nat>): seq<nat> {
    if d != [] && d[0] == 0 then WithoutZeros(d[1..]) else d
  }

  lemma {:induction false} WithoutZerosSnoc(d: seq<nat>, x: nat)
    ensures WithoutZeros(d + [x]) ==
            if WithoutZeros(d) != [] then WithoutZeros(d) + [x] else if x == 0 then [] else [x]
  {
    if d != [] && d[0] == 0 {
      assert (d + [x])[1..] == d[1..] + [x];
      WithoutZerosSnoc(d[1..], x);
    } else if d == [] {
      assert d + [x] == [x];
    }
  }

  lemma {:induction false} DigitsOfValue(d: seq<nat>, base: nat)
    requires base >= 2 && forall i | 0 <= i < |d| :: d[i] < base
    ensures Digits(Value(d, base), base) == WithoutZeros(d)
  {
    if d != [] {
      var k := |d| - 1;
      var v := Value(d[..k], base);
      assert d == d[..k] + [d[k]];
      DigitsOfValue(d[..k], base);
      WithoutZerosSnoc(d[..k], d[k]);
      DivideStep(v, d[k], base);
      assert v > 0 ==> v * base + d[k] > 0;
    }
  }

  // ----- base 62 text

  function CharOf(d: nat): char
    requires d < 62
  {
    if d < 10 then '0' + d as char else if d < 36 then 'a' + (d - 10) as char else 'A' + (d - 36) as char
  }

  /** The digit a character stands for; 62 for none. */
  function DigitOf(c: char): (d: nat)
    ensures d <= 62
    ensures d < 62 ==> CharOf(d) == c
  {
    if '0' <= c <= '9' then (c - '0') as nat
    else if 'a' <= c <= 'z' then (c - 'a') as nat + 10
    else if 'A' <= c <= 'Z' then (c - 'A') as nat + 36
    else 62
  }

  lemma DigitOfChar(d: nat)
    requires d < 62
    ensures DigitOf(CharOf(d)) == d
  {
  }

  function Text(n: nat): string {
    if n == 0 then "0" else var d := Digits(n, 62); seq(|d|, i requires 0 <= i < |d| => CharOf(d[i]))
  }

  function DigitsIn(s: string): seq<nat> {
    seq(|s|, i requires 0 <= i < |s| => DigitOf(s[i]))
  }

  /** A numeral may carry a sign, which the magnitude does not keep; it needs at least one digit. */
  function Magnitude(s: string): Parsed {
    var digits := if s != "" && (s[0] == '+' || s[0] == '-') then s[1..] else s;
    if digits == "" || exists c :: c in digits && DigitOf(c) == 62 then NotANumeral
    else Number(Value(DigitsIn(digits), 62))
  }

  lemma MagnitudeOfText(n: nat)
    ensures Magnitude(Text(n)) == Number(n)
  {
    var s := Text(n);
    if n == 0 {
      assert DigitsIn("0") == [0];
      assert Value([0], 62) == 0 by { assert [0][..0] == []; }
    } else {
      var d := Digits(n, 62);
      forall i | 0 <= i < |d| ensures DigitOf(s[i]) == d[i] && s[i] != '+' && s[i] != '-' {
        DigitOfChar(d[i]);
      }
      assert DigitsIn(s) == d;
      ValueOfDigits(n, 62);
    }
  }

  /** The characters in the order of their values: the digits, then lower case, then upper case. */
  const ALPHABET: string := "0123456789" + LOWER + UPPER
  const LOWER: string := "abcdefghijklmnopqrstuvwxyz"
  const UPPER: string := "ABCDEFGHIJKLMNOPQRSTUVWXYZ"

  lemma InAlphabet(d: nat)
    requires d < 62
    ensures CharOf(d) == ALPHABET[d]
  {
    if d < 10 {
      assert ALPHABET[d] == "0123456789"[d];
    } else if d < 36 {
      assert ALPHABET[d] == LOWER[d - 10];
    } else {
      assert ALPHABET[d] == UPPER[d - 36];
    }
  }

  /** A number below 62 is written as one character of the alphabet ... */
  lemma TextOfDigit(d: nat)
    requires d < 62
    ensures Text(d) == [ALPHABET[d]]
  {
    InAlphabet(d);
    if d > 0 {
      Shrinks(d, 62);
      assert d / 62 == 0 && Digits(0, 62) == [];
      assert Digits(d, 62) == [d];
    }
  }

  /** ... and any other with the character of its lowest digit last. */
  lemma TextGrows(n: nat, d: nat)
    requires n > 0 && d < 62
    ensures Text(62 * n + d) == Text(n) + [ALPHABET[d]]
  {
    InAlphabet(d);
    DivideStep(n, d, 62);
    assert (62 * n + d) / 62 == n && (62 * n + d) % 62 == d;
    assert Digits(62 * n + d, 62) == Digits(n, 62) + [d];
  }

  /** A name that is safe to give a file: it has a character, and none but those of the alphabet. */
  ghost predicate IsName(s: string) {
    s != "" && forall c | c in s :: c in ALPHABET
  }

  lemma TextIsName(n: nat)
    ensures IsName(Text(n))
  {
    if n < 62 {
      TextOfDigit(n);
    } else {
      var d := Digits(n, 62);
      forall i | 0 <= i < |d| ensures Text(n)[i] in ALPHABET {
        InAlphabet(d[i]);
      }
    }
  }

  // ----- byte strings

  /** The bytes of a string as digits in base 256. */
  function AsDigits(b: Data): seq<nat> {
    seq(|b|, i requires 0 <= i < |b| => b[i] as nat)
  }

  function AsBytes(d: seq<nat>): Data
    requires forall i | 0 <= i < |d| :: d[i] < 256
  {
    seq(|d|, i requires 0 <= i < |d| => d[i] as Byte)
  }

  function Encode(b: Data): string {
    Text(Value(AsDigits(b), 256))
  }

  /** Text that is no numeral decodes to the empty string. */
  function Decode(s: string): Data {
    match Magnitude(s)
    case NotANumeral => []
    case Number(n) => AsBytes(Digits(n, 256))
  }

  function Stripped(b: Data): Data {
    if b != [] && b[0] == 0 then Stripped(b[1..]) else b
  }

  lemma {:induction false} StrippedDigits(b: Data)
    ensures WithoutZeros(AsDigits(b)) == AsDigits(Stripped(b))
  {
    if b != [] && b[0] == 0 {
      assert AsDigits(b)[1..] == AsDigits(b[1..]);
      StrippedDigits(b[1..]);
    }
  }

  /** Decoding gives back the string without its leading zero bytes. */
  lemma DecodeOfEncode(b: Data)
    ensures Decode(Encode(b)) == Stripped(b)
  {
    var d := AsDigits(b);
    MagnitudeOfText(Value(d, 256));
    DigitsOfValue(d, 256);
    StrippedDigits(b);
    assert AsBytes(AsDigits(Stripped(b))) == Stripped(b);
  }

  lemma ValueGrows(b: Data, x: Byte)
    ensures Value(AsDigits(b + [x]), 256) == 256 * Value(AsDigits(b), 256) + x
  {
    var d := AsDigits(b + [x]);
    assert d[..|b|] == AsDigits(b) && d[|b|] == x;
  }

  /** One more byte makes the encoded number 256 times as large, and is added to it. */
  lemma EncodeGrows(b: Data, x: Byte, n: nat)
    requires Encode(b) == Text(n)
    ensures Encode([]) == "0" && Encode(b + [x]) == Text(256 * n + x)
  {
    hide Text, AsDigits, Value;
    ValueGrows(b, x);
    TextInjective(Value(AsDigits(b), 256), n);
    EncodeNothing();
  }

  lemma TextInjective(m: nat, n: nat)
    requires Text(m) == Text(n)
    ensures m == n
  {
    hide Text, Magnitude;
    MagnitudeOfText(m);
    MagnitudeOfText(n);
  }

  lemma EncodeNothing()
    ensures Encode([]) == "0"
  {
    assert AsDigits([]) == [];
  }

  ghost predicate NoLeadingZero(b: Data) {
    b == [] || b[0] != 0
  }

  lemma {:induction false} StrippedIsShorter(b: Data)
    ensures |Stripped(b)| <= |b| && (Stripped(b) == b <==> NoLeadingZero(b))
  {
    if b != [] && b[0] == 0 {
      StrippedIsShorter(b[1..]);
    }
  }

  /** The round trip is exact for exactly the strings that do not start with a zero byte, the empty one included. */
  lemma RoundTrip(b: Data)
    ensures Decode(Encode(b)) == b <==> NoLeadingZero(b)
  {
    DecodeOfEncode(b);
    StrippedIsShorter(b);
  }

  /** Two strings have the same encoding exactly when they differ at most in leading zero bytes. */
  lemma EncodeCollides(a: Data, b: Data)
    ensures Encode(a) == Encode(b) <==> Stripped(a) == Stripped(b)
  {
    DecodeOfEncode(a);
    DecodeOfEncode(b);
    if Stripped(a) == Stripped(b) {
      StrippedDigits(a);
      StrippedDigits(b);
      ValueWithoutZeros(AsDigits(a), 256);
      ValueWithoutZeros(AsDigits(b), 256);
    }
  }

  lemma {:induction false} ValueWithoutZeros(d: seq<nat>, base: nat)
    ensures Value(WithoutZeros(d), base) == Value(d, base)
  {
    if d != [] {
      var k := |d| - 1;
      assert d == d[..k] + [d[k]];
      ValueWithoutZeros(d[..k], base);
      WithoutZerosSnoc(d[..k], d[k]);
      var z := WithoutZeros(d[..k]);
      if z != [] {
        assert (z + [d[k]])[..|z|] == z;
      } else {
        assert Value(d[..k], base) == 0;
        assert [d[k]][..0] == [];
      }
    }
  }
}
