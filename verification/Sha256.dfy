/** The FIPS 180-4 digest that the native archive reader computes (csrc/kga_sha256.c).

The first half is the standard: the functions of section 4.1.2, the padding of section 5.1.1
and the hash computation of section 6.2.2, written as recursive definitions over byte
sequences.  The second half is the streaming context of the C file, a class that updates its
arrays in place, proved to compute the standard's digest. */
module Sha256 {
  import opened Collections

  newtype Byte = x: int | 0 <= x < 256

  /** uint32_t; a sum wraps, and a shift by whole bytes is a power of 256. */
  newtype Word = x: int | 0 <= x < 0x1_0000_0000

  const BLOCK_SIZE := 64
  const LENGTH_OFFSET := 56
  const STATE_WORDS := 8
  const DIGEST_SIZE := 32
  const TWO_64 := 0x1_0000_0000_0000_0000

  function RoundConstants(): (table: seq<Word>)
    ensures |table| == 64
  {
    [0x428a2f98, 0x71374491, 0xb5c0fbcf, 0xe9b5dba5, 0x3956c25b, 0x59f111f1, 0x923f82a4, 0xab1c5ed5,
     0xd807aa98, 0x12835b01, 0x243185be, 0x550c7dc3, 0x72be5d74, 0x80deb1fe, 0x9bdc06a7, 0xc19bf174] +
    [0xe49b69c1, 0xefbe4786, 0x0fc19dc6, 0x240ca1cc, 0x2de92c6f, 0x4a7484aa, 0x5cb0a9dc, 0x76f988da,
     0x983e5152, 0xa831c66d, 0xb00327c8, 0xbf597fc7, 0xc6e00bf3, 0xd5a79147, 0x06ca6351, 0x14292967] +
    [0x27b70a85, 0x2e1b2138, 0x4d2c6dfc, 0x53380d13, 0x650a7354, 0x766a0abb, 0x81c2c92e, 0x92722c85,
     0xa2bfe8a1, 0xa81a664b, 0xc24b8b70, 0xc76c51a3, 0xd192e819, 0xd6990624, 0xf40e3585, 0x106aa070] +
    [0x19a4c116, 0x1e376c08, 0x2748774c, 0x34b0bcb5, 0x391c0cb3, 0x4ed8aa4a, 0x5b9cca4f, 0x682e6ff3,
     0x748f82ee, 0x78a5636f, 0x84c87814, 0x8cc70208, 0x90befffa, 0xa4506ceb, 0xbef9a3f7, 0xc67178f2]
  }

  function InitialHash(): (hash: seq<Word>)
    ensures |hash| == STATE_WORDS
  {
    [
    0x6a09e667, 0xbb67ae85, 0x3c6ef372, 0xa54ff53a, 0x510e527f, 0x9b05688c, 0x1f83d9ab, 0x5be0cd19]
  }

  // ---- The standard ----

  function Add(x: Word, y: Word): Word { ((x as int + y as int) % 0x1_0000_0000) as Word }

  function Bits(x: Word): bv32 { x as bv32 }

  function FromBits(x: bv32): Word { x as Word }

  function Shr(x: bv32, n: bv6): bv32
    requires n < 32
  {
    x >> n
  }

  function Shl(x: bv32, n: bv6): bv32
    requires n < 32
  {
    x << n
  }

  function Or(x: bv32, y: bv32): bv32 { x | y }

  /** ROTR of section 3.2, which is also the C rotate_right. */
  function RotateRight(value: bv32, shift: bv6): bv32
    requires 0 < shift < 32
  {
    Or(Shr(value, shift), Shl(value, 32 - shift))
  }

  function Xor(x: bv32, y: bv32, z: bv32): bv32 { x ^ y ^ z }

  function Choose(x: bv32, y: bv32, z: bv32): bv32 { (x & y) ^ (!x & z) }

  function Majority(x: bv32, y: bv32, z: bv32): bv32 { (x & y) ^ (x & z) ^ (y & z) }

  function Ch(x: Word, y: Word, z: Word): Word { FromBits(Choose(Bits(x), Bits(y), Bits(z))) }

  function Maj(x: Word, y: Word, z: Word): Word { FromBits(Majority(Bits(x), Bits(y), Bits(z))) }

  function BigSigma0(x: Word): Word {
    FromBits(Xor(RotateRight(Bits(x), 2), RotateRight(Bits(x), 13), RotateRight(Bits(x), 22)))
  }

  function BigSigma1(x: Word): Word {
    FromBits(Xor(RotateRight(Bits(x), 6), RotateRight(Bits(x), 11), RotateRight(Bits(x), 25)))
  }

  function SmallSigma0(x: Word): Word {
    FromBits(Xor(RotateRight(Bits(x), 7), RotateRight(Bits(x), 18), Shr(Bits(x), 3)))
  }

  function SmallSigma1(x: Word): Word {
    FromBits(Xor(RotateRight(Bits(x), 17), RotateRight(Bits(x), 19), Shr(Bits(x), 10)))
  }

  /** Word `t` of a block, big-endian. */
  function WordAt(block: seq<Byte>, t: nat): Word
    requires 4 * t + 4 <= |block|
  {
    (0x100_0000 * block[4 * t] as int + 0x1_0000 * block[4 * t + 1] as int +
     0x100 * block[4 * t + 2] as int + block[4 * t + 3] as int) as Word
  }

  /** The message schedule of section 6.2.2, step 1. */
  function Schedule(block: seq<Byte>, t: nat): Word
    requires |block| == BLOCK_SIZE
  {
    if t < 16 then WordAt(block, t)
    else Add(Add(Add(SmallSigma1(Schedule(block, t - 2)), Schedule(block, t - 7)),
                 SmallSigma0(Schedule(block, t - 15))), Schedule(block, t - 16))
  }

  datatype Working = Working(a: Word, b: Word, c: Word, d: Word, e: Word, f: Word, g: Word, h: Word)

  function Load(hash: seq<Word>): Working
    requires |hash| == STATE_WORDS
  {
    Working(hash[0], hash[1], hash[2], hash[3], hash[4], hash[5], hash[6], hash[7])
  }

  function T1(e: Word, f: Word, g: Word, h: Word, constant: Word, word: Word): Word {
    Add(Add(Add(Add(h, BigSigma1(e)), Ch(e, f, g)), constant), word)
  }

  function T2(a: Word, b: Word, c: Word): Word { Add(BigSigma0(a), Maj(a, b, c)) }

  /** The working variables after `t` rounds of section 6.2.2, step 3. */
  function Rounds(start: Working, block: seq<Byte>, t: nat): Working
    requires |block| == BLOCK_SIZE && t <= 64
  {
    if t == 0 then start
    else
      var v := Rounds(start, block, t - 1);
      var t1 := T1(v.e, v.f, v.g, v.h, RoundConstants()[t - 1], Schedule(block, t - 1));
      var t2 := T2(v.a, v.b, v.c);
      Working(Add(t1, t2), v.a, v.b, v.c, Add(v.d, t1), v.e, v.f, v.g)
  }

  function Compress(hash: seq<Word>, block: seq<Byte>): (r: seq<Word>)
    requires |hash| == STATE_WORDS && |block| == BLOCK_SIZE
    ensures |r| == STATE_WORDS
  {
    var v := Rounds(Load(hash), block, 64);
    [Add(hash[0], v.a), Add(hash[1], v.b), Add(hash[2], v.c), Add(hash[3], v.d),
     Add(hash[4], v.e), Add(hash[5], v.f), Add(hash[6], v.g), Add(hash[7], v.h)]
  }

  function HashBlocks(message: seq<Byte>): (hash: seq<Word>)
    requires |message| % BLOCK_SIZE == 0
    ensures |hash| == STATE_WORDS
  {
    if message == [] then InitialHash()
    else
      var rest := |message| - BLOCK_SIZE;
      Compress(HashBlocks(message[..rest]), message[rest..])
  }

  function Zeros(n: nat): (z: seq<Byte>)
    ensures |z| == n
  {
    seq(n, _ => 0)
  }

  /** Byte `k` of a 64-bit value, counted from the least significant one. */
  function LengthByte(bits: nat, k: nat): (b: Byte)
    requires k < 8
    ensures b as nat == bits / Pow256(k) % 256
  {
    ((bits / Pow256(k)) % 256) as Byte
  }

  function LengthField(bits: nat): (field: seq<Byte>)
    ensures |field| == 8
  {
    seq(8, i requires 0 <= i < 8 => LengthByte(bits, 7 - i))
  }

  function PadCount(size: nat): (k: nat)
    ensures k < BLOCK_SIZE
  {
    (LENGTH_OFFSET - 1 - size) % BLOCK_SIZE
  }

  /** Section 5.1.1 for a message of whole bytes. */
  function Pad(message: seq<Byte>): (padded: seq<Byte>)
    ensures |padded| % BLOCK_SIZE == 0
  {
    message + [0x80] + Zeros(PadCount(|message|)) + LengthField(8 * |message|)
  }

  function WordBytes(word: Word): (bytes: seq<Byte>)
    ensures |bytes| == 4
  {
    [(word / 0x100_0000) as Byte, (word / 0x1_0000 % 256) as Byte,
     (word / 0x100 % 256) as Byte, (word % 256) as Byte]
  }

  function DigestBytes(hash: seq<Word>): (bytes: seq<Byte>)
    ensures |bytes| == 4 * |hash|
  {
    if hash == [] then [] else DigestBytes(hash[..|hash| - 1]) + WordBytes(hash[|hash| - 1])
  }

  /** The digest that FIPS 180-4 assigns to a message shorter than 2^64 bits. */
  function Digest(message: seq<Byte>): (digest: seq<Byte>)
    ensures |digest| == DIGEST_SIZE
  {
    DigestBytes(HashBlocks(Pad(message)))
  }

  /** The bit count of the zero padding is the smallest one the standard allows: 8*size bits, a one
  bit and `zeros` zero bits fill all but the last 64 bits of a 512-bit block. */
  lemma PaddingIsMinimal(size: nat, zeros: nat)
    requires (8 * size + 1 + zeros) % 512 == 448
    ensures (8 * size + 1 + (8 * PadCount(size) + 7)) % 512 == 448
    ensures 8 * PadCount(size) + 7 <= zeros
  {
    var k := PadCount(size);
    var q := (55 - size) / 64;
    assert 55 - size == 64 * q + k;
    assert 8 * size + 1 + (8 * k + 7) == 448 + 512 * (-q);
    var p := (8 * size + 1 + zeros) / 512;
    assert 8 * size + 1 + zeros == 512 * p + 448;
    assert 8 * k + 7 - zeros == 512 * (-q - p);
  }

  // ---- Padding is injective ----

  /** The value of a big-endian length field. */
  function LengthValue(field: seq<Byte>): nat
  {
    if field == [] then 0 else 256 * LengthValue(field[..|field| - 1]) + field[|field| - 1] as nat
  }

  lemma {:induction false} DivideTwice(n: nat, k: nat)
    ensures (n / 256) / Pow256(k) == n / Pow256(k + 1)
  {
    var p := Pow256(k);
    var q := n / 256;
    var s := q / p;
    assert q == s * p + q % p;
    var low := 256 * (q % p) + n % 256;
    assert n == 256 * q + n % 256;
    assert 256 * (s * p + q % p) == 256 * (s * p) + 256 * (q % p);
    assert 256 * (s * p) == s * (256 * p);
    assert n == s * (256 * p) + low;
    assert 0 <= low < 256 * p;
    QuotientIsUnique(n, 256 * p, s, low);
  }

  lemma QuotientIsUnique(n: nat, d: nat, q: nat, r: nat)
    requires d > 0 && n == q * d + r && r < d
    ensures n / d == q && n % d == r
  {
    var gap := n / d - q;
    assert n == (n / d) * d + n % d;
    assert gap * d == r - n % d by {
      assert gap * d == (n / d) * d - q * d;
    }
    assert gap >= 1 ==> gap * d >= d;
    assert gap <= -1 ==> gap * d <= -1 * d;
  }

  /** The last `count` bytes of a length field, which hold the value modulo 256^count. */
  function LowBytes(bits: nat, count: nat): (bytes: seq<Byte>)
    requires count <= 8
    ensures |bytes| == count
  {
    seq(count, i requires 0 <= i < count => LengthByte(bits, count - 1 - i))
  }

  lemma LengthByteShift(bits: nat, k: nat)
    requires k < 7
    ensures LengthByte(bits, k + 1) == LengthByte(bits / 256, k)
  {
    DivideTwice(bits, k);
  }

  lemma LowBytesSplit(bits: nat, count: nat)
    requires 0 < count <= 8
    ensures LowBytes(bits, count)[..count - 1] == LowBytes(bits / 256, count - 1)
    ensures LowBytes(bits, count)[count - 1] as nat == bits % 256
  {
    var bytes, rest := LowBytes(bits, count), LowBytes(bits / 256, count - 1);
    forall i | 0 <= i < count - 1 ensures bytes[i] == rest[i] {
      LengthByteShift(bits, count - 2 - i);
    }
    assert bytes[count - 1] == LengthByte(bits, 0);
  }

  lemma {:induction false} LowBytesValue(bits: nat, count: nat)
    requires count <= 8 && bits < Pow256(count)
    ensures LengthValue(LowBytes(bits, count)) == bits
  {
    if count > 0 {
      LowBytesSplit(bits, count);
      LowBytesValue(bits / 256, count - 1);
    }
  }

  /** Distinct messages that FIPS 180-4 admits have distinct padded forms: the message can be
  recovered from the blocks that are hashed. */
  lemma PadIsInjective(left: seq<Byte>, right: seq<Byte>)
    requires 8 * |left| < TWO_64 && 8 * |right| < TWO_64
    requires Pad(left) == Pad(right)
    ensures left == right
  {
    Pow256Of8();
    LowBytesValue(8 * |left|, 8);
    LowBytesValue(8 * |right|, 8);
    var padded := Pad(left);
    assert padded[|padded| - 8..] == LengthField(8 * |left|) == LowBytes(8 * |left|, 8);
    assert padded[|padded| - 8..] == LengthField(8 * |right|) == LowBytes(8 * |right|, 8);
    assert |left| == |right|;
    assert left == padded[..|left|];
    assert right == padded[..|left|];
  }

  // ---- The functions of section 4.1.2, bit by bit ----

  /** Bit i of a word, counted from the least significant one. */
  predicate Bit(x: Word, i: bv6)
    requires i < 32
  {
    ((x as bv32) >> i) & 1 == 1
  }

  predicate BitOf(x: bv32, i: bv6)
    requires i < 32
  {
    (x >> i) & 1 == 1
  }

  /** The place n above i, from the top back to the bottom. */
  function Around(i: bv6, n: bv6): (place: bv6)
    requires i < 32 && n < 32
    ensures place < 32
  {
    if i + n < 32 then i + n else i + n - 32
  }

  predicate Odd(a: bool, b: bool, c: bool) {
    a != (b != c)
  }

  lemma RoundTrip(b: bv32)
    ensures FromBits(b) as bv32 == b
  {
  }

  lemma FromBitsBit(b: bv32, i: bv6)
    requires i < 32
    ensures Bit(FromBits(b), i) == BitOf(b, i)
  {
    hide FromBits;
    RoundTrip(b);
  }

  lemma WordBit(x: Word)
    ensures forall i: bv6 :: i < 32 ==> Bit(x, i) == BitOf(Bits(x), i)
  {
  }

  lemma XorBit(x: bv32, y: bv32, z: bv32, i: bv6)
    requires i < 32
    ensures BitOf(Xor(x, y, z), i) == Odd(BitOf(x, i), BitOf(y, i), BitOf(z, i))
  {
    assert Xor(x, y, z) == x ^ y ^ z;
    BitsDiffer(x, y, z, i);
    hide BitOf;
  }

  lemma BitsDiffer(x: bv32, y: bv32, z: bv32, i: bv6)
    requires i < 32
    ensures BitOf(x ^ y ^ z, i) == (BitOf(x, i) != (BitOf(y, i) != BitOf(z, i)))
  {
  }

  lemma OrBit(x: bv32, y: bv32, i: bv6)
    requires i < 32
    ensures BitOf(Or(x, y), i) == (BitOf(x, i) || BitOf(y, i))
  {
    assert Or(x, y) == x | y;
    EitherBit(x, y, i);
    hide BitOf;
  }

  lemma EitherBit(x: bv32, y: bv32, i: bv6)
    requires i < 32
    ensures BitOf(x | y, i) == (BitOf(x, i) || BitOf(y, i))
  {
  }

  lemma ShiftedRight(x: bv32, n: bv6, i: bv6)
    requires i < 32 && n < 32
    ensures BitOf(Shr(x, n), i) == (i + n < 32 && BitOf(x, i + n))
  {
    assert Shr(x, n) == x >> n;
    RightBit(x, n, i);
    hide BitOf;
  }

  lemma RightBit(x: bv32, n: bv6, i: bv6)
    requires i < 32 && n < 32
    ensures BitOf(x >> n, i) == (i + n < 32 && BitOf(x, i + n))
  {
  }

  lemma ShiftedLeft(x: bv32, n: bv6, i: bv6)
    requires i < 32 && 0 < n < 32
    ensures BitOf(Shl(x, n), i) == (i >= n && BitOf(x, i - n))
  {
    assert Shl(x, n) == x << n;
    LeftBit(x, n, i);
    hide BitOf;
  }

  lemma LeftBit(x: bv32, n: bv6, i: bv6)
    requires i < 32 && 0 < n < 32
    ensures BitOf(x << n, i) == (i >= n && BitOf(x, i - n))
  {
  }

  lemma Places(n: bv6, i: bv6)
    requires i < 32 && 0 < n < 32
    ensures if i + n < 32 then Around(i, n) == i + n && i < 32 - n else Around(i, n) == i - (32 - n) && i >= 32 - n
  {
  }

  /** Rotation moves every bit down by the amount and around. */
  lemma Rotations(x: bv32, n: bv6, i: bv6)
    requires i < 32 && 0 < n < 32
    ensures BitOf(RotateRight(x, n), i) == BitOf(x, Around(i, n))
  {
    hide BitOf, Shr, Shl, Or, Around;
    OrBit(Shr(x, n), Shl(x, 32 - n), i);
    ShiftedRight(x, n, i);
    ShiftedLeft(x, 32 - n, i);
    Places(n, i);
  }

  lemma ChosenBit(x: bv32, y: bv32, z: bv32, i: bv6)
    requires i < 32
    ensures BitOf(Choose(x, y, z), i) == if BitOf(x, i) then BitOf(y, i) else BitOf(z, i)
  {
    assert Choose(x, y, z) == (x & y) ^ (!x & z);
    BitChosen(x, y, z, i);
    hide BitOf;
  }

  lemma BitChosen(x: bv32, y: bv32, z: bv32, i: bv6)
    requires i < 32
    ensures BitOf((x & y) ^ (!x & z), i) == if BitOf(x, i) then BitOf(y, i) else BitOf(z, i)
  {
  }

  lemma MajorityBit(x: bv32, y: bv32, z: bv32, i: bv6)
    requires i < 32
    ensures BitOf(Majority(x, y, z), i) <==>
      (BitOf(x, i) && BitOf(y, i)) || (BitOf(x, i) && BitOf(z, i)) || (BitOf(y, i) && BitOf(z, i))
  {
    assert Majority(x, y, z) == (x & y) ^ (x & z) ^ (y & z);
    BitOfMajority(x, y, z, i);
    hide BitOf;
  }

  lemma BitOfMajority(x: bv32, y: bv32, z: bv32, i: bv6)
    requires i < 32
    ensures BitOf((x & y) ^ (x & z) ^ (y & z), i) <==>
      (BitOf(x, i) && BitOf(y, i)) || (BitOf(x, i) && BitOf(z, i)) || (BitOf(y, i) && BitOf(z, i))
  {
  }

  /** Each bit of the first word chooses between the bits of the others. */
  lemma ChBits(x: Word, y: Word, z: Word, i: bv6)
    requires i < 32
    ensures Bit(Ch(x, y, z), i) == if Bit(x, i) then Bit(y, i) else Bit(z, i)
  {
    hide Bits, FromBits, Bit, BitOf, Choose;
    FromBitsBit(Choose(Bits(x), Bits(y), Bits(z)), i);
    ChosenBit(Bits(x), Bits(y), Bits(z), i);
    WordBit(x);
    WordBit(y);
    WordBit(z);
  }

  /** Each bit is the one that at least two of the words have. */
  lemma MajBits(x: Word, y: Word, z: Word, i: bv6)
    requires i < 32
    ensures Bit(Maj(x, y, z), i) <==> (Bit(x, i) && Bit(y, i)) || (Bit(x, i) && Bit(z, i)) || (Bit(y, i) && Bit(z, i))
  {
    hide Bits, FromBits, Bit, BitOf, Majority;
    FromBitsBit(Majority(Bits(x), Bits(y), Bits(z)), i);
    MajorityBit(Bits(x), Bits(y), Bits(z), i);
    WordBit(x);
    WordBit(y);
    WordBit(z);
  }

  lemma BigSigma0Bits(x: Word, i: bv6)
    requires i < 32
    ensures Bit(BigSigma0(x), i) <==> Odd(Bit(x, Around(i, 2)), Bit(x, Around(i, 13)), Bit(x, Around(i, 22)))
  {
    hide Bits, FromBits, RotateRight, Bit, BitOf, Xor, Odd, Around, Shr;
    var b := Bits(x);
    FromBitsBit(Xor(RotateRight(b, 2), RotateRight(b, 13), RotateRight(b, 22)), i);
    XorBit(RotateRight(b, 2), RotateRight(b, 13), RotateRight(b, 22), i);
    Rotations(b, 2, i);
    Rotations(b, 13, i);
    Rotations(b, 22, i);
    WordBit(x);
  }

  lemma BigSigma1Bits(x: Word, i: bv6)
    requires i < 32
    ensures Bit(BigSigma1(x), i) <==> Odd(Bit(x, Around(i, 6)), Bit(x, Around(i, 11)), Bit(x, Around(i, 25)))
  {
    hide Bits, FromBits, RotateRight, Bit, BitOf, Xor, Odd, Around, Shr;
    var b := Bits(x);
    FromBitsBit(Xor(RotateRight(b, 6), RotateRight(b, 11), RotateRight(b, 25)), i);
    XorBit(RotateRight(b, 6), RotateRight(b, 11), RotateRight(b, 25), i);
    Rotations(b, 6, i);
    Rotations(b, 11, i);
    Rotations(b, 25, i);
    WordBit(x);
  }

  lemma SmallSigma0Bits(x: Word, i: bv6)
    requires i < 32
    ensures Bit(SmallSigma0(x), i) <==> Odd(Bit(x, Around(i, 7)), Bit(x, Around(i, 18)), i + 3 < 32 && Bit(x, i + 3))
  {
    hide Bits, FromBits, RotateRight, Bit, BitOf, Xor, Odd, Around, Shr;
    var b := Bits(x);
    FromBitsBit(Xor(RotateRight(b, 7), RotateRight(b, 18), Shr(b, 3)), i);
    XorBit(RotateRight(b, 7), RotateRight(b, 18), Shr(b, 3), i);
    Rotations(b, 7, i);
    Rotations(b, 18, i);
    ShiftedRight(b, 3, i);
    WordBit(x);
  }

  lemma SmallSigma1Bits(x: Word, i: bv6)
    requires i < 32
    ensures Bit(SmallSigma1(x), i) <==> Odd(Bit(x, Around(i, 17)), Bit(x, Around(i, 19)), i + 10 < 32 && Bit(x, i + 10))
  {
    hide Bits, FromBits, RotateRight, Bit, BitOf, Xor, Odd, Around, Shr;
    var b := Bits(x);
    FromBitsBit(Xor(RotateRight(b, 17), RotateRight(b, 19), Shr(b, 10)), i);
    XorBit(RotateRight(b, 17), RotateRight(b, 19), Shr(b, 10), i);
    Rotations(b, 17, i);
    Rotations(b, 19, i);
    ShiftedRight(b, 10, i);
    WordBit(x);
  }

  /** A sum of words is the sum of the numbers, or what is left of it when it does not fit. */
  lemma SumWraps(x: Word, y: Word)
    ensures Add(x, y) as int == if x as int + y as int < 0x1_0000_0000 then x as int + y as int
      else x as int + y as int - 0x1_0000_0000
  {
  }

  // ---- The streaming context ----

  lemma HashOfNothing()
    ensures HashBlocks([]) == InitialHash()
  {
  }

  lemma {:induction false} HashAppend(full: seq<Byte>, block: seq<Byte>)
    requires |full| % BLOCK_SIZE == 0 && |block| == BLOCK_SIZE
    ensures HashBlocks(full + block) == Compress(HashBlocks(full), block)
  {
    var message := full + block;
    assert message[..|message| - BLOCK_SIZE] == full;
    assert message[|message| - BLOCK_SIZE..] == block;
  }

  /** When the bytes left over leave room for the length, one more block is hashed. */
  lemma PadInOneBlock(message: seq<Byte>, left: nat)
    requires left == |message| % BLOCK_SIZE < LENGTH_OFFSET
    ensures var full := |message| - left;
      message[..full] + (message[full..] + [0x80] + Zeros(LENGTH_OFFSET - 1 - left) + LengthField(8 * |message|))
      == Pad(message)
  {
    hide LengthField;
    assert PadCount(|message|) == LENGTH_OFFSET - 1 - left;
  }

  /** Otherwise the padding spills into a second block. */
  lemma PadInTwoBlocks(message: seq<Byte>, left: nat)
    requires left == |message| % BLOCK_SIZE >= LENGTH_OFFSET
    ensures var full := |message| - left;
      message[..full] + (message[full..] + [0x80] + Zeros(BLOCK_SIZE - 1 - left)) +
        (Zeros(LENGTH_OFFSET) + LengthField(8 * |message|))
      == Pad(message)
  {
    hide LengthField;
    assert PadCount(|message|) == BLOCK_SIZE - 1 - left + LENGTH_OFFSET;
    assert Zeros(PadCount(|message|)) == Zeros(BLOCK_SIZE - 1 - left) + Zeros(LENGTH_OFFSET);
  }

  lemma SplitAt(whole: seq<Byte>, left: seq<Byte>, right: seq<Byte>)
    requires whole == left + right
    ensures whole[..|left|] == left && whole[|left|..] == right
  {
  }

  /** sha256_context_t, with the bytes absorbed so far kept as a ghost. */
  class Context {
    const state: array<Word>
    const buffer: array<Byte>
    var bitLength: nat
    var bufferSize: nat
    ghost var absorbed: seq<Byte>
    ghost var blocks: nat

    ghost predicate Valid()
      reads this, state, buffer
    {
      Consistent() && bufferSize < BLOCK_SIZE
    }

    /** Valid, except that the buffer may be full. */
    ghost predicate Consistent()
      reads this, state, buffer
    {
      && state.Length == STATE_WORDS && buffer.Length == BLOCK_SIZE
      && state as object != buffer
      && bufferSize <= BLOCK_SIZE && |absorbed| == BLOCK_SIZE * blocks + bufferSize
      && state[..] == HashBlocks(absorbed[..BLOCK_SIZE * blocks])
      && buffer[..bufferSize] == absorbed[BLOCK_SIZE * blocks..]
      && bitLength == 8 * BLOCK_SIZE * blocks % TWO_64
    }

    constructor Initialize()
      ensures Valid() && fresh(state) && fresh(buffer)
      ensures absorbed == []
    {
      hide HashBlocks, InitialHash;
      var initial := InitialHash();
      state := new Word[8](i requires 0 <= i < 8 => initial[i]);
      buffer := new Byte[64](i => 0);
      bitLength := 0;
      bufferSize := 0;
      absorbed, blocks := [], 0;
      new;
      HashOfNothing();
      assert state[..] == initial;
    }

    method Transform(data: array<Byte>)
      requires state.Length == STATE_WORDS && data.Length == BLOCK_SIZE
      requires state as object != data
      modifies state
      ensures state[..] == Compress(old(state[..]), old(data[..]))
    {
      hide T1, T2, Schedule, Add, RoundConstants;
      ghost var block := data[..];
      var constants := RoundConstants();
      var words := ExpandBlock(data);
      var a, b, c, d := state[0], state[1], state[2], state[3];
      var e, f, g, h := state[4], state[5], state[6], state[7];
      ghost var start := Load(state[..]);
      for index := 0 to 64
        invariant Working(a, b, c, d, e, f, g, h) == Rounds(start, block, index)
        invariant forall t :: 0 <= t < 64 ==> words[t] == Schedule(block, t)
        invariant state[..] == old(state[..])
      {
        var first := FirstTerm(e, f, g, h, constants[index], words[index]);
        var second := SecondTerm(a, b, c);
        h := g;
        g := f;
        f := e;
        e := Add(d, first);
        d := c;
        c := b;
        b := a;
        a := Add(first, second);
      }
      state[0] := Add(state[0], a);
      state[1] := Add(state[1], b);
      state[2] := Add(state[2], c);
      state[3] := Add(state[3], d);
      state[4] := Add(state[4], e);
      state[5] := Add(state[5], f);
      state[6] := Add(state[6], g);
      state[7] := Add(state[7], h);
    }

    /** The loops that fill `words`. */
    method ExpandBlock(data: array<Byte>) returns (words: array<Word>)
      requires data.Length == BLOCK_SIZE
      ensures fresh(words) && words.Length == 64
      ensures forall t :: 0 <= t < 64 ==> words[t] == Schedule(data[..], t)
    {
      hide WordAt, SmallSigma0, SmallSigma1, Add;
      words := new Word[64];
      for index := 0 to 16
        invariant forall t :: 0 <= t < index ==> words[t] == Schedule(data[..], t)
      {
        words[index] := ReadWord(data, index * 4);
      }
      for index := 16 to 64
        invariant forall t :: 0 <= t < index ==> words[t] == Schedule(data[..], t)
      {
        var s1 := SigmaOne(words[index - 2]);
        var s0 := SigmaZero(words[index - 15]);
        words[index] := Add(Add(Add(s1, words[index - 7]), s0), words[index - 16]);
      }
    }

    method ReadWord(data: array<Byte>, offset: nat) returns (word: Word)
      requires offset + 4 <= data.Length && offset % 4 == 0
      ensures word == WordAt(data[..], offset / 4)
    {
      word := (0x100_0000 * data[offset] as int + 0x1_0000 * data[offset + 1] as int +
               0x100 * data[offset + 2] as int + data[offset + 3] as int) as Word;
    }

    method FirstTerm(e: Word, f: Word, g: Word, h: Word, constant: Word, word: Word) returns (first: Word)
      ensures first == T1(e, f, g, h, constant, word)
    {
      hide BigSigma1, Ch, Add;
      var sum := SumOne(e);
      first := Add(Add(Add(Add(h, sum), Ch(e, f, g)), constant), word);
    }

    method SecondTerm(a: Word, b: Word, c: Word) returns (second: Word)
      ensures second == T2(a, b, c)
    {
      hide BigSigma0, Maj, Add;
      var sum := SumZero(a);
      second := Add(sum, Maj(a, b, c));
    }

    method SumZero(value: Word) returns (r: Word)
      ensures r == BigSigma0(value)
    {
      hide Bits, FromBits, RotateRight, Xor, Shr;
      r := FromBits(Xor(RotateRight(Bits(value), 2), RotateRight(Bits(value), 13), RotateRight(Bits(value), 22)));
    }

    method SumOne(value: Word) returns (r: Word)
      ensures r == BigSigma1(value)
    {
      hide Bits, FromBits, RotateRight, Xor, Shr;
      r := FromBits(Xor(RotateRight(Bits(value), 6), RotateRight(Bits(value), 11), RotateRight(Bits(value), 25)));
    }

    method SigmaZero(value: Word) returns (r: Word)
      ensures r == SmallSigma0(value)
    {
      hide Bits, FromBits, RotateRight, Xor, Shr;
      r := FromBits(Xor(RotateRight(Bits(value), 7), RotateRight(Bits(value), 18), Shr(Bits(value), 3)));
    }

    method SigmaOne(value: Word) returns (r: Word)
      ensures r == SmallSigma1(value)
    {
      hide Bits, FromBits, RotateRight, Xor, Shr;
      r := FromBits(Xor(RotateRight(Bits(value), 17), RotateRight(Bits(value), 19), Shr(Bits(value), 10)));
    }

    /** Absorbs `data`; only the concatenation of the pieces absorbed so far matters. */
    method Update(data: seq<Byte>)
      requires Valid()
      modifies this, state, buffer
      ensures Valid()
      ensures absorbed == old(absorbed) + data
    {
      hide Compress, HashBlocks;
      ghost var before := absorbed;
      for index := 0 to |data|
        invariant Valid()
        invariant absorbed == before + data[..index]
      {
        AbsorbByte(data[index]);
        assert data[..index + 1] == data[..index] + [data[index]];
      }
      assert data[..|data|] == data;
    }

    /** One turn of the update loop. */
    method AbsorbByte(byte: Byte)
      requires Valid()
      modifies this, state, buffer
      ensures Valid()
      ensures absorbed == old(absorbed) + [byte]
    {
      hide Compress, HashBlocks;
      ghost var full, left := absorbed[..BLOCK_SIZE * blocks], absorbed[BLOCK_SIZE * blocks..];
      buffer[bufferSize] := byte;
      bufferSize := bufferSize + 1;
      absorbed := absorbed + [byte];
      assert buffer[..bufferSize] == left + [byte];
      SplitAt(absorbed, full, left + [byte]);
      if bufferSize == BLOCK_SIZE {
        TransformBuffer();
      }
    }

    method TransformBuffer()
      requires Consistent() && bufferSize == BLOCK_SIZE
      modifies this, state
      ensures Valid() && absorbed == old(absorbed)
    {
      hide Compress, HashBlocks;
      ghost var full := absorbed[..BLOCK_SIZE * blocks];
      assert buffer[..] == buffer[..bufferSize];
      HashAppend(full, buffer[..]);
      assert absorbed == full + buffer[..];
      Transform(buffer);
      bitLength := (bitLength + BLOCK_SIZE * 8) % TWO_64;
      bufferSize := 0;
      blocks := blocks + 1;
      assert absorbed[..BLOCK_SIZE * blocks] == absorbed;
    }

    /** Writes the standard's digest of everything absorbed. */
    method Finalize(output: array<Byte>)
      requires Valid()
      requires output.Length == DIGEST_SIZE && output != buffer && output as object != state
      requires 8 * |absorbed| < TWO_64
      modifies this, state, buffer, output
      ensures output[..] == Digest(old(absorbed))
    {
      hide Compress, HashBlocks, LengthField, DigestBytes, Pad;
      ghost var message := absorbed;
      ghost var hashed := PadBuffer();
      ghost var head := buffer[..LENGTH_OFFSET];
      WriteLength();
      assert buffer[..] == head + LengthField(8 * |message|);
      assert hashed + buffer[..] == Pad(message);
      HashAppend(hashed, buffer[..]);
      Transform(buffer);
      WriteDigest(output);
    }

    /** The length of the message, and the byte that begins with the one bit. */
    method MarkEnd() returns (index: nat)
      requires Valid() && 8 * |absorbed| < TWO_64
      modifies this`bitLength, buffer
      ensures index == bufferSize + 1 <= buffer.Length == BLOCK_SIZE && bitLength == 8 * |absorbed|
      ensures bufferSize <= |absorbed| && buffer[..index] == absorbed[|absorbed| - bufferSize..] + [0x80]
    {
      hide Compress, HashBlocks, LengthField, Pad;
      bitLength := (bitLength + bufferSize * 8) % TWO_64;
      index := bufferSize;
      buffer[index] := 0x80;
      index := index + 1;
    }

    /** Ends the message with the one bit and zeros, hashing a full block when the length no longer
    fits; `hashed` is everything given to Transform so far. */
    method PadBuffer() returns (ghost hashed: seq<Byte>)
      requires Valid() && 8 * |absorbed| < TWO_64
      modifies this, state, buffer
      ensures |hashed| % BLOCK_SIZE == 0 && state[..] == HashBlocks(hashed)
      ensures bitLength == 8 * |old(absorbed)|
      ensures hashed + (buffer[..LENGTH_OFFSET] + LengthField(8 * |old(absorbed)|)) == Pad(old(absorbed))
    {
      hide Compress, HashBlocks, LengthField, Pad;
      ghost var message, left := absorbed, bufferSize;
      hashed := message[..|message| - left];
      ghost var tail := message[|message| - left..] + [0x80];
      var index := MarkEnd();
      if index > LENGTH_OFFSET {
        hashed := HashTail(index, hashed, tail);
        index := 0;
        PadInTwoBlocks(message, left);
      } else {
        PadInOneBlock(message, left);
      }
      Fill(index, LENGTH_OFFSET);
      assert buffer[..LENGTH_OFFSET] == buffer[..index] + buffer[index..LENGTH_OFFSET];
    }

    /** The block that the end mark fills up with zeros. */
    method HashTail(index: nat, ghost full: seq<Byte>, ghost tail: seq<Byte>) returns (ghost hashed: seq<Byte>)
      requires state.Length == STATE_WORDS && buffer.Length == BLOCK_SIZE && state as object != buffer
      requires index <= BLOCK_SIZE && buffer[..index] == tail
      requires |full| % BLOCK_SIZE == 0 && state[..] == HashBlocks(full)
      modifies state, buffer
      ensures hashed == full + (tail + Zeros(BLOCK_SIZE - index)) && |hashed| % BLOCK_SIZE == 0
      ensures state[..] == HashBlocks(hashed)
    {
      hide Compress, HashBlocks;
      Fill(index, BLOCK_SIZE);
      assert buffer[..] == buffer[..index] + buffer[index..];
      HashAppend(full, buffer[..]);
      hashed := full + buffer[..];
      Transform(buffer);
    }

    method WriteLength()
      requires buffer.Length == BLOCK_SIZE
      modifies buffer
      ensures buffer[..] == old(buffer[..LENGTH_OFFSET]) + LengthField(bitLength)
    {
      hide LengthByte;
      for k := 0 to 8
        invariant buffer[..LENGTH_OFFSET] == old(buffer[..LENGTH_OFFSET])
        invariant forall j :: 0 <= j < k ==> buffer[BLOCK_SIZE - 1 - j] == LengthByte(bitLength, j)
      {
        buffer[BLOCK_SIZE - 1 - k] := LengthByte(bitLength, k);
      }
      forall i | 0 <= i < 8 ensures buffer[LENGTH_OFFSET + i] == LengthField(bitLength)[i] {
        assert buffer[BLOCK_SIZE - 1 - (7 - i)] == LengthByte(bitLength, 7 - i);
      }
      assert buffer[LENGTH_OFFSET..] == LengthField(bitLength);
      assert buffer[..] == buffer[..LENGTH_OFFSET] + buffer[LENGTH_OFFSET..];
    }

    /** memset(buffer + from, 0, to - from) */
    method Fill(from: nat, to: nat)
      requires from <= to <= buffer.Length
      modifies buffer
      ensures buffer[..from] == old(buffer[..from]) && buffer[to..] == old(buffer[to..])
      ensures buffer[from..to] == Zeros(to - from)
    {
      for i := from to to
        invariant buffer[..from] == old(buffer[..from]) && buffer[to..] == old(buffer[to..])
        invariant forall j :: from <= j < i ==> buffer[j] == 0
      {
        buffer[i] := 0;
      }
    }

    method WriteDigest(output: array<Byte>)
      requires state.Length == STATE_WORDS && output.Length == DIGEST_SIZE
      requires output as object != state
      modifies output
      ensures output[..] == DigestBytes(state[..])
    {
      for word := 0 to STATE_WORDS
        invariant output[..4 * word] == DigestBytes(state[..word])
      {
        output[word * 4] := (state[word] / 0x100_0000) as Byte;
        output[word * 4 + 1] := (state[word] / 0x1_0000 % 256) as Byte;
        output[word * 4 + 2] := (state[word] / 0x100 % 256) as Byte;
        output[word * 4 + 3] := (state[word] % 256) as Byte;
        assert state[..word + 1][..word] == state[..word];
        assert output[4 * word..4 * (word + 1)] == WordBytes(state[word]);
        assert 4 * (word + 1) == 4 * word + 4;
        assert output[..4 * (word + 1)] == output[..4 * word] + output[4 * word..4 * (word + 1)];
      }
      assert state[..STATE_WORDS] == state[..];
      assert output[..4 * STATE_WORDS] == output[..];
    }
  }

  method Sha256(data: seq<Byte>, output: array<Byte>)
    requires output.Length == DIGEST_SIZE
    requires 8 * |data| < TWO_64
    modifies output
    ensures output[..] == Digest(data)
  {
    hide Compress, HashBlocks, Digest;
    var context := new Context.Initialize();
    context.Update(data);
    assert context.absorbed == data;
    context.Finalize(output);
  }

  /** Splitting the message over two calls gives the digest of the whole. */
  method Sha256InTwoUpdates(first: seq<Byte>, second: seq<Byte>, output: array<Byte>)
    requires output.Length == DIGEST_SIZE
    requires 8 * |first + second| < TWO_64
    modifies output
    ensures output[..] == Digest(first + second)
  {
    hide Compress, HashBlocks, Digest;
    var context := new Context.Initialize();
    context.Update(first);
    context.Update(second);
    assert context.absorbed == first + second;
    context.Finalize(output);
  }
}
