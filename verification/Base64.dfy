/** Base64 with the standard alphabet, canonical padding and no stray bits (section 4 of RFC 4648). */
module Base64 {
  import opened Sequences

  type Byte = b: int | 0 <= b < 256

  type Bytes = seq<Byte>

  type Sextet = v: int | 0 <= v < 64

  function Digit(v: Sextet): char {
    if v < 26 then (v + 'A' as int) as char
    else if v < 52 then (v - 26 + 'a' as int) as char
    else if v < 62 then (v - 52 + '0' as int) as char
    else if v == 62 then '+' else '/'
  }

  function ValueOf(c: char): Option<Sextet> {
    if 'A' <= c <= 'Z' then Some(c as int - 'A' as int)
    else if 'a' <= c <= 'z' then Some(c as int - 'a' as int + 26)
    else if '0' <= c <= '9' then Some(c as int - '0' as int + 52)
    else if c == '+' then Some(62)
    else if c == '/' then Some(63)
    else None
  }

  lemma DigitsMatch(v: Sextet, c: char)
    ensures Digit(v) == c <==> ValueOf(c) == Some(v)
    ensures Digit(v) != '='
  {
  }

  // ----- Groups of four characters -----

  function Quad(a: Byte, b: Byte, c: Byte): string {
    [Digit(a / 4), Digit(a % 4 * 16 + b / 16), Digit(b % 16 * 4 + c / 64), Digit(c % 64)]
  }

  function PaddedPair(a: Byte, b: Byte): string {
    [Digit(a / 4), Digit(a % 4 * 16 + b / 16), Digit(b % 16 * 4), '=']
  }

  function PaddedSingle(a: Byte): string {
    [Digit(a / 4), Digit(a % 4 * 16), '=', '=']
  }

  function FromSextets(a: Sextet, b: Sextet, c: Sextet, d: Sextet): Bytes {
    [a * 4 + b / 16, b % 16 * 16 + c / 4, c % 4 * 64 + d]
  }

  function FullGroup(t: string): Option<Bytes>
    requires |t| == 4
  {
    var a, b, c, d := ValueOf(t[0]), ValueOf(t[1]), ValueOf(t[2]), ValueOf(t[3]);
    if a.None? || b.None? || c.None? || d.None? then None
    else Some(FromSextets(a.value, b.value, c.value, d.value))
  }

  /** The last group may stand for one or two bytes; the bits its digits do not use must be zero. */
  function LastGroup(t: string): Option<Bytes>
    requires |t| == 4
  {
    var a, b, c := ValueOf(t[0]), ValueOf(t[1]), ValueOf(t[2]);
    if t[3] != '=' then FullGroup(t)
    else if a.None? || b.None? then None
    else if t[2] == '=' then
      if b.value % 16 == 0 then Some([a.value * 4 + b.value / 16]) else None
    else if c.Some? && c.value % 4 == 0 then
      Some([a.value * 4 + b.value / 16, b.value % 16 * 16 + c.value / 4])
    else None
  }

  // ----- Texts -----

  function Encode(bytes: Bytes): string {
    if bytes == [] then ""
    else if |bytes| == 1 then PaddedSingle(bytes[0])
    else if |bytes| == 2 then PaddedPair(bytes[0], bytes[1])
    else Quad(bytes[0], bytes[1], bytes[2]) + Encode(bytes[3..])
  }

  function Decode(text: string): Option<Bytes> {
    if text == "" then Some([])
    else if |text| < 4 then None
    else if |text| == 4 then LastGroup(text)
    else
      var first, rest := FullGroup(text[..4]), Decode(text[4..]);
      if first.None? || rest.None? then None else Some(first.value + rest.value)
  }

  lemma BytesBack(a: Byte, b: Byte, c: Byte)
    ensures FromSextets(a / 4, a % 4 * 16 + b / 16, b % 16 * 4 + c / 64, c % 64) == [a, b, c]
  {
  }

  lemma SextetsBack(s0: Sextet, s1: Sextet, s2: Sextet, s3: Sextet, a: Byte, b: Byte, c: Byte)
    requires a == s0 * 4 + s1 / 16 && b == s1 % 16 * 16 + s2 / 4 && c == s2 % 4 * 64 + s3
    ensures s0 == a / 4 && s1 == a % 4 * 16 + b / 16 && s2 == b % 16 * 4 + c / 64 && s3 == c % 64
  {
  }

  lemma FullGroupOfQuad(a: Byte, b: Byte, c: Byte)
    ensures FullGroup(Quad(a, b, c)) == Some([a, b, c]) && Quad(a, b, c)[3] != '='
  {
    var t := Quad(a, b, c);
    DigitsMatch(a / 4, t[0]);
    DigitsMatch(a % 4 * 16 + b / 16, t[1]);
    DigitsMatch(b % 16 * 4 + c / 64, t[2]);
    DigitsMatch(c % 64, t[3]);
    BytesBack(a, b, c);
  }

  lemma QuadOfSextets(s0: Sextet, s1: Sextet, s2: Sextet, s3: Sextet, a: Byte, b: Byte, c: Byte)
    requires FromSextets(s0, s1, s2, s3) == [a, b, c]
    ensures Quad(a, b, c) == [Digit(s0), Digit(s1), Digit(s2), Digit(s3)]
  {
    var g := FromSextets(s0, s1, s2, s3);
    assert g[0] == a && g[1] == b && g[2] == c;
    SextetsBack(s0, s1, s2, s3, a, b, c);
  }

  lemma QuadOfFullGroup(t: string)
    requires |t| == 4 && FullGroup(t).Some?
    ensures var g := FullGroup(t).value; Quad(g[0], g[1], g[2]) == t
  {
    var a, b, c, d := ValueOf(t[0]).value, ValueOf(t[1]).value, ValueOf(t[2]).value, ValueOf(t[3]).value;
    DigitsMatch(a, t[0]);
    DigitsMatch(b, t[1]);
    DigitsMatch(c, t[2]);
    DigitsMatch(d, t[3]);
    var g := FullGroup(t).value;
    assert g == [g[0], g[1], g[2]];
    QuadOfSextets(a, b, c, d, g[0], g[1], g[2]);
    assert t == [t[0], t[1], t[2], t[3]];
  }

  lemma PairBits(a: Byte, b: Byte)
    ensures b % 16 * 4 % 4 == 0
    ensures a / 4 * 4 + (a % 4 * 16 + b / 16) / 16 == a
    ensures (a % 4 * 16 + b / 16) % 16 * 16 + b % 16 * 4 / 4 == b
  {
  }

  lemma LastGroupOfPair(a: Byte, b: Byte)
    ensures LastGroup(PaddedPair(a, b)) == Some([a, b])
  {
    var x, y, z: Sextet := a / 4, a % 4 * 16 + b / 16, b % 16 * 4;
    PairBits(a, b);
    LastGroupOfThree(x, y, z, a, b);
  }

  lemma LastGroupOfThree(x: Sextet, y: Sextet, z: Sextet, a: Byte, b: Byte)
    requires z % 4 == 0 && a == x * 4 + y / 16 && b == y % 16 * 16 + z / 4
    ensures LastGroup([Digit(x), Digit(y), Digit(z), '=']) == Some([a, b])
  {
    DigitsMatch(x, Digit(x));
    DigitsMatch(y, Digit(y));
    DigitsMatch(z, Digit(z));
  }

  lemma LastGroupOfSingle(a: Byte)
    ensures LastGroup(PaddedSingle(a)) == Some([a])
  {
    var t := PaddedSingle(a);
    DigitsMatch(a / 4, t[0]);
    DigitsMatch(a % 4 * 16, t[1]);
  }

  lemma PaddedOfLastGroup(t: string)
    requires |t| == 4 && t[3] == '=' && LastGroup(t).Some?
    ensures var g := LastGroup(t).value;
            if t[2] == '=' then |g| == 1 && PaddedSingle(g[0]) == t else |g| == 2 && PaddedPair(g[0], g[1]) == t
  {
    var a, b := ValueOf(t[0]).value, ValueOf(t[1]).value;
    DigitsMatch(a, t[0]);
    DigitsMatch(b, t[1]);
    if t[2] == '=' {
      SextetsBack(a, b, 0, 0, LastGroup(t).value[0], 0, 0);
    } else {
      var c := ValueOf(t[2]).value;
      DigitsMatch(c, t[2]);
      SextetsBack(a, b, c, 0, LastGroup(t).value[0], LastGroup(t).value[1], 0);
    }
  }

  // ----- The two directions -----

  lemma {:induction false} DecodeOfEncode(bytes: Bytes)
    ensures Decode(Encode(bytes)) == Some(bytes)
  {
    if |bytes| == 1 {
      LastGroupOfSingle(bytes[0]);
      assert bytes == [bytes[0]];
    } else if |bytes| == 2 {
      LastGroupOfPair(bytes[0], bytes[1]);
      assert bytes == [bytes[0], bytes[1]];
    } else if |bytes| > 2 {
      var first, rest := Quad(bytes[0], bytes[1], bytes[2]), Encode(bytes[3..]);
      FullGroupOfQuad(bytes[0], bytes[1], bytes[2]);
      DecodeOfEncode(bytes[3..]);
      DecodeJoined(first, rest);
      assert bytes == [bytes[0], bytes[1], bytes[2]] + bytes[3..];
    }
  }

  lemma DecodeJoined(first: string, rest: string)
    requires |first| == 4 && first[3] != '=' && FullGroup(first).Some? && Decode(rest).Some?
    ensures Decode(first + rest) == Some(FullGroup(first).value + Decode(rest).value)
  {
    if rest == "" {
      assert first + rest == first;
      assert FullGroup(first).value + [] == FullGroup(first).value;
    } else {
      assert (first + rest)[..4] == first && (first + rest)[4..] == rest;
    }
  }

  lemma {:induction false} EncodeOfDecode(text: string)
    requires Decode(text).Some?
    ensures Encode(Decode(text).value) == text
  {
    if |text| == 4 {
      if text[3] == '=' {
        PaddedOfLastGroup(text);
      } else {
        QuadOfFullGroup(text);
      }
    } else if |text| > 4 {
      var first, rest := FullGroup(text[..4]).value, Decode(text[4..]).value;
      QuadOfFullGroup(text[..4]);
      EncodeOfDecode(text[4..]);
      assert (first + rest)[3..] == rest;
      assert text == text[..4] + text[4..];
    }
  }

  /** Decoding undoes encoding, and a text that decodes is the one encoding of its bytes. */
  lemma DecodeIffEncode(text: string, bytes: Bytes)
    ensures Decode(text) == Some(bytes) <==> Encode(bytes) == text
  {
    DecodeOfEncode(bytes);
    if Decode(text) == Some(bytes) {
      EncodeOfDecode(text);
    }
  }

  lemma Quarter(n: nat)
    requires n % 4 == 0
    ensures (n + 4) % 4 == 0 && (n + 4) / 4 == n / 4 + 1
  {
  }

  /** A text stands for three bytes per four characters, less at most two for padding. */
  lemma {:induction false} DecodedLength(text: string)
    requires Decode(text).Some?
    ensures |text| % 4 == 0
    ensures |text| / 4 * 3 - 2 <= |Decode(text).value| <= |text| / 4 * 3
  {
    if |text| > 4 {
      DecodedLength(text[4..]);
      Quarter(|text| - 4);
    }
  }

  // ----- The shape of an encoding -----

  lemma Thirds(n: nat)
    requires n > 2
    ensures n % 3 == (n - 3) % 3 && (n + 2) / 3 == (n - 3 + 2) / 3 + 1
  {
  }

  lemma QuadIsDigits(a: Byte, b: Byte, c: Byte)
    ensures forall x :: x in Quad(a, b, c) ==> ValueOf(x).Some?
  {
    var t := Quad(a, b, c);
    DigitsMatch(a / 4, t[0]);
    DigitsMatch(a % 4 * 16 + b / 16, t[1]);
    DigitsMatch(b % 16 * 4 + c / 64, t[2]);
    DigitsMatch(c % 64, t[3]);
  }

  lemma EncodeStep(bytes: Bytes)
    requires |bytes| > 2
    ensures exists quad: string :: |quad| == 4 && (forall x :: x in quad ==> ValueOf(x).Some?)
              && Encode(bytes) == quad + Encode(bytes[3..])
  {
    QuadIsDigits(bytes[0], bytes[1], bytes[2]);
    assert Encode(bytes) == Quad(bytes[0], bytes[1], bytes[2]) + Encode(bytes[3..]);
  }

  lemma ShortEncodings(a: Byte, b: Byte)
    ensures '=' in PaddedSingle(a) && '=' in PaddedPair(a, b)
    ensures forall x :: x in PaddedSingle(a) || x in PaddedPair(a, b) ==> x == '=' || ValueOf(x).Some?
  {
    var single, pair := PaddedSingle(a), PaddedPair(a, b);
    assert single[3] == '=' && pair[3] == '=';
    DigitsMatch(a / 4, single[0]);
    DigitsMatch(a % 4 * 16, single[1]);
    DigitsMatch(a % 4 * 16 + b / 16, pair[1]);
    DigitsMatch(b % 16 * 4, pair[2]);
  }

  /**
   Four characters for every three bytes or fewer, all of them digits but for the padding, and
   padding if and only if the bytes do not come in threes.
   */
  lemma {:induction false} EncodedShape(bytes: Bytes)
    ensures |Encode(bytes)| == (|bytes| + 2) / 3 * 4
    ensures forall x :: x in Encode(bytes) ==> x == '=' || ValueOf(x).Some?
    ensures '=' in Encode(bytes) <==> |bytes| % 3 != 0
  {
    if |bytes| == 1 {
      ShortEncodings(bytes[0], 0);
    } else if |bytes| == 2 {
      ShortEncodings(bytes[0], bytes[1]);
    } else if |bytes| > 2 {
      EncodedShape(bytes[3..]);
      Thirds(|bytes|);
      EncodeStep(bytes);
      var quad: string :| |quad| == 4 && (forall x :: x in quad ==> ValueOf(x).Some?)
        && Encode(bytes) == quad + Encode(bytes[3..]);
    }
  }
}
