/** The leading-zero test of both sides, what it means as a number, and the client's nonce search. */
module ProofOfWork {

  type HashBytes = seq<bv8>

  /** A SHA-256 output. */
  type Digest = d: HashBytes | |d| == 32 witness seq(32, _ => 0)

  function Pow2(n: nat): nat {
    if n == 0 then 1 else 2 * Pow2(n - 1)
  }

  /** The big-endian value of a byte string. */
  function Value(bytes: HashBytes): nat {
    if bytes == [] then 0 else bytes[0] as nat * Pow2(8 * (|bytes| - 1)) + Value(bytes[1..])
  }

  /** The numeric meaning of "at least d leading zero bits". */
  predicate LeadingZeros(hash: HashBytes, d: nat) {
    d <= 8 * |hash| && Value(hash) < Pow2(8 * |hash| - d)
  }

  /** The high r bits of a byte. */
  function Mask(r: nat): bv8
    requires 1 <= r <= 7
  {
    (0xFF as bv8) << (8 - r)
  }

  /** The server's test; it indexes the hash and expects it to be long enough. */
  method ServerHasLeadingZeroBits(hash: HashBytes, requiredBits: nat) returns (ok: bool)
    requires requiredBits <= 8 * |hash|
    ensures ok <==> LeadingZeros(hash, requiredBits)
  {
    var fullBytes, remainingBits := requiredBits / 8, requiredBits % 8;
    BytesMean(hash, requiredBits);
    for i := 0 to fullBytes
      invariant forall k :: 0 <= k < i ==> hash[k] == 0
    {
      if hash[i] != 0 {
        return false;
      }
    }
    if remainingBits > 0 {
      var mask := Mask(remainingBits);
      if hash[fullBytes] & mask != 0 {
        return false;
      }
    }
    return true;
  }

  /** The client's test accepts any lengths and fails when the hash is too short. */
  method ClientHasLeadingZeroBits(hash: HashBytes, bits: nat) returns (ok: bool)
    ensures ok <==> LeadingZeros(hash, bits)
  {
    var fullBytes, remainingBits := bits / 8, bits % 8;
    if |hash| < fullBytes + (if remainingBits > 0 then 1 else 0) {
      return false;
    }
    BytesMean(hash, bits);
    for i := 0 to fullBytes
      invariant forall k :: 0 <= k < i ==> hash[k] == 0
    {
      if hash[i] != 0 {
        return false;
      }
    }
    if remainingBits > 0 {
      var mask := Mask(remainingBits);
      if hash[fullBytes] & mask != 0 {
        return false;
      }
    }
    return true;
  }

  // ----- HashBytes and masks against numbers -----

  lemma {:induction false} Pow2Add(a: nat, b: nat)
    ensures Pow2(a + b) == Pow2(a) * Pow2(b)
  {
    if a > 0 {
      Pow2Add(a - 1, b);
    }
  }

  lemma {:induction false} Pow2Monotone(a: nat, b: nat)
    requires a <= b
    ensures 1 <= Pow2(a) <= Pow2(b)
  {
    if b > 0 {
      Pow2Monotone(if a < b then a else a - 1, b - 1);
    }
  }

  lemma MaskMeans(b: bv8, r: nat)
    requires 1 <= r <= 7
    ensures b & Mask(r) == 0 <==> b as nat < Pow2(8 - r)
  {
    assert Pow2(1) == 2 && Pow2(2) == 4 && Pow2(3) == 8;
    assert Pow2(4) == 16 && Pow2(5) == 32 && Pow2(6) == 64 && Pow2(7) == 128;
    if r == 1 { assert b & 0x80 == 0 <==> b < 0x80; }
    else if r == 2 { assert b & 0xC0 == 0 <==> b < 0x40; }
    else if r == 3 { assert b & 0xE0 == 0 <==> b < 0x20; }
    else if r == 4 { assert b & 0xF0 == 0 <==> b < 0x10; }
    else if r == 5 { assert b & 0xF8 == 0 <==> b < 0x08; }
    else if r == 6 { assert b & 0xFC == 0 <==> b < 0x04; }
    else { assert b & 0xFE == 0 <==> b < 0x02; }
  }

  lemma LeadingDigit(b: nat, p: nat, v: nat, q: nat)
    requires v < p
    ensures b * p + v < q * p <==> b < q
  {
    if b < q {
      assert (b + 1) * p <= q * p;
    } else {
      assert b * p >= q * p;
    }
  }

  lemma ByteBound(b: bv8)
    ensures b as nat < Pow2(8)
  {
    assert Pow2(8) == 2 * Pow2(7) && Pow2(7) == 2 * Pow2(6) && Pow2(6) == 2 * Pow2(5);
    assert Pow2(5) == 32;
  }

  lemma {:induction false} ValueBound(bytes: HashBytes)
    ensures Value(bytes) < Pow2(8 * |bytes|)
  {
    if bytes != [] {
      var p := Pow2(8 * (|bytes| - 1));
      ValueBound(bytes[1..]);
      ByteBound(bytes[0]);
      LeadingDigit(bytes[0] as nat, p, Value(bytes[1..]), Pow2(8));
      Pow2Add(8, 8 * (|bytes| - 1));
    }
  }

  /** What the byte loop and the masked byte check together. */
  predicate BytesZero(hash: HashBytes, d: nat)
    requires d <= 8 * |hash|
  {
    && (forall k :: 0 <= k < d / 8 ==> hash[k] == 0)
    && (d % 8 > 0 ==> hash[d / 8] & Mask(d % 8) == 0)
  }

  lemma WholeByte(hash: HashBytes, e: nat)
    requires hash != [] && e <= 8 * (|hash| - 1)
    ensures Value(hash) < Pow2(e) <==> hash[0] == 0 && Value(hash[1..]) < Pow2(e)
  {
    var p := Pow2(8 * (|hash| - 1));
    Pow2Monotone(e, 8 * (|hash| - 1));
    if hash[0] != 0 {
      assert hash[0] as nat >= 1;
      assert hash[0] as nat * p >= p;
    }
  }

  lemma PartByte(hash: HashBytes, r: nat)
    requires hash != [] && 1 <= r <= 7
    ensures Value(hash) < Pow2(8 * |hash| - r) <==> hash[0] & Mask(r) == 0
  {
    var p := Pow2(8 * (|hash| - 1));
    ValueBound(hash[1..]);
    LeadingDigit(hash[0] as nat, p, Value(hash[1..]), Pow2(8 - r));
    Pow2Add(8 - r, 8 * (|hash| - 1));
    MaskMeans(hash[0], r);
  }

  lemma ShiftMean(hash: HashBytes, d: nat)
    requires 8 <= d <= 8 * |hash|
    requires BytesZero(hash[1..], d - 8) <==> Value(hash[1..]) < Pow2(8 * |hash[1..]| - (d - 8))
    ensures BytesZero(hash, d) <==> Value(hash) < Pow2(8 * |hash| - d)
  {
    assert 8 * |hash[1..]| - (d - 8) == 8 * |hash| - d;
    ShiftZero(hash, d);
    WholeByte(hash, 8 * |hash| - d);
  }

  lemma {:induction false} BytesMean(hash: HashBytes, d: nat)
    requires d <= 8 * |hash|
    ensures BytesZero(hash, d) <==> Value(hash) < Pow2(8 * |hash| - d)
  {
    if d >= 8 {
      BytesMean(hash[1..], d - 8);
      ShiftMean(hash, d);
    } else if d > 0 {
      PartByte(hash, d);
    } else {
      ValueBound(hash);
    }
  }

  lemma ShiftZero(hash: HashBytes, d: nat)
    requires 8 <= d <= 8 * |hash|
    ensures BytesZero(hash, d) <==> hash[0] == 0 && BytesZero(hash[1..], d - 8)
  {
    var rest := hash[1..];
    assert (d - 8) / 8 == d / 8 - 1 && (d - 8) % 8 == d % 8;
    assert forall k :: 0 <= k < |rest| ==> rest[k] == hash[k + 1];
    if hash[0] == 0 && BytesZero(rest, d - 8) {
      forall k | 0 <= k < d / 8 ensures hash[k] == 0 {
        if k > 0 {
          assert rest[k - 1] == 0;
        }
      }
    }
  }

  /** Meeting a difficulty means meeting every easier one. */
  lemma EasierToo(hash: HashBytes, d: nat, e: nat)
    requires LeadingZeros(hash, d) && e <= d
    ensures LeadingZeros(hash, e)
  {
    Pow2Monotone(8 * |hash| - d, 8 * |hash| - e);
  }

  // ----- Nonces -----

  function Digit(n: nat): char
    requires n < 10
  {
    '0' + n as char
  }

  /** A number as the decimal text both sides use. */
  function Decimal(n: nat): (text: string)
    ensures text != []
  {
    if n < 10 then [Digit(n)] else Decimal(n / 10) + [Digit(n % 10)]
  }

  lemma {:induction false} DecimalInjective(a: nat, b: nat)
    requires Decimal(a) == Decimal(b)
    ensures a == b
  {
    var s, t := Decimal(a), Decimal(b);
    assert s[|s| - 1] == Digit(a % 10) && t[|t| - 1] == Digit(b % 10);
    assert a % 10 == b % 10;
    if a >= 10 && b >= 10 {
      assert s[..|s| - 1] == Decimal(a / 10) && t[..|t| - 1] == Decimal(b / 10);
      DecimalInjective(a / 10, b / 10);
    }
  }

  type Hash = string -> Digest

  const U64_LIMIT := 0x1_0000_0000_0000_0000

  predicate Solves(hash: Hash, prefix: string, difficulty: nat, n: nat) {
    LeadingZeros(hash(prefix + Decimal(n)), difficulty)
  }

  ghost predicate Least(hash: Hash, prefix: string, difficulty: nat, n: nat) {
    && Solves(hash, prefix, difficulty, n)
    && (forall m: nat :: m < n ==> !Solves(hash, prefix, difficulty, m))
  }

  /**
   The background search: the fixed prefix is absorbed once and each attempt extends a copy.
   It ends only if some 64-bit nonce solves the puzzle; the ghost argument is one.
   */
  method GrindWithPrefix(hash: Hash, username: string, challenge: string, difficulty: nat, ghost solution: nat)
    returns (nonce: string)
    requires solution < U64_LIMIT && Solves(hash, username + challenge, difficulty, solution)
    ensures exists n: nat :: n < U64_LIMIT && nonce == Decimal(n) && Least(hash, username + challenge, difficulty, n)
  {
    var prefixHasher := username;
    prefixHasher := prefixHasher + challenge;
    var counter: nat := 0;
    while true
      invariant counter <= solution
      invariant forall m: nat :: m < counter ==> !Solves(hash, username + challenge, difficulty, m)
      decreases solution - counter
    {
      var nonceBuf := Decimal(counter);
      var hasher := prefixHasher;
      hasher := hasher + nonceBuf;
      var found := ClientHasLeadingZeroBits(hash(hasher), difficulty);
      if found {
        assert Least(hash, username + challenge, difficulty, counter);
        return Decimal(counter);
      }
      counter := counter + 1;
    }
  }

  /** The foreground search hashes the whole formatted input every time. */
  method GrindFormatted(hash: Hash, recipient: string, challenge: string, difficulty: nat, ghost solution: nat)
    returns (nonce: string)
    requires solution < U64_LIMIT && Solves(hash, recipient + challenge, difficulty, solution)
    ensures exists n: nat :: n < U64_LIMIT && nonce == Decimal(n) && Least(hash, recipient + challenge, difficulty, n)
  {
    var counter: nat := 0;
    while true
      invariant counter <= solution
      invariant forall m: nat :: m < counter ==> !Solves(hash, recipient + challenge, difficulty, m)
      decreases solution - counter
    {
      var input := recipient + challenge + Decimal(counter);
      var found := ClientHasLeadingZeroBits(hash(input), difficulty);
      if found {
        assert Least(hash, recipient + challenge, difficulty, counter);
        return Decimal(counter);
      }
      counter := counter + 1;
    }
  }
}
