// SHA-1 as FIPS 180-4 defines it, written from the standard and not from the program:
// the reference that the streaming implementation in module Sha1 is proved against.
module Sha1Spec {

  const TWO32 := 0x1_0000_0000

  type Byte = x: int | 0 <= x < 0x100
  type Word = x: int | 0 <= x < TWO32

  const BLOCK := 64  // bytes in a 512-bit block

  function Bits(x: Word): bv32 { x as bv32 }

  function Num(v: bv32): Word { v as int }

  // The bitwise operations on words, and addition modulo 2^32 (sections 2.2.2 and 3.2).
  function And(x: Word, y: Word): Word { Num(Bits(x) & Bits(y)) }

  function Xor(x: Word, y: Word): Word { Num(Bits(x) ^ Bits(y)) }

  function Not(x: Word): Word { Num(!Bits(x)) }

  function RotL(x: Word, n: nat): Word
    requires n < 32
  {
    Num(Bits(x).RotateLeft(n))
  }

  function Plus(x: Word, y: Word): Word { (x + y) % TWO32 }

  // The five working variables, and also the five words of a hash value.
  datatype Hash = Hash(a: Word, b: Word, c: Word, d: Word, e: Word)

  // Section 5.3.1: the initial hash value.
  const INITIAL := Hash(0x67452301, 0xefcdab89, 0x98badcfe, 0x10325476, 0xc3d2e1f0)

  // Section 4.1.1.
  function Ch(x: Word, y: Word, z: Word): Word { Xor(And(x, y), And(Not(x), z)) }

  function Parity(x: Word, y: Word, z: Word): Word { Xor(Xor(x, y), z) }

  function Maj(x: Word, y: Word, z: Word): Word { Xor(Xor(And(x, y), And(x, z)), And(y, z)) }

  function F(t: nat, x: Word, y: Word, z: Word): Word {
    if t < 20 then Ch(x, y, z) else if t < 40 then Parity(x, y, z)
    else if t < 60 then Maj(x, y, z) else Parity(x, y, z)
  }

  // Section 4.2.1.
  function K(t: nat): Word {
    if t < 20 then 0x5a827999 else if t < 40 then 0x6ed9eba1
    else if t < 60 then 0x8f1bbcdc else 0xca62c1d6
  }

  // Section 3.1: four bytes as the word with value 2^24*b0 + 2^16*b1 + 2^8*b2 + b3.
  function WordOf(b0: Byte, b1: Byte, b2: Byte, b3: Byte): Word {
    b0 * 0x1000000 + b1 * 0x10000 + b2 * 0x100 + b3
  }

  // Section 6.1.2, step 1: the message schedule of one block.
  function W(block: seq<Byte>, t: nat): Word
    requires |block| == BLOCK
  {
    if t < 16 then
      WordOf(block[4 * t], block[4 * t + 1], block[4 * t + 2], block[4 * t + 3])
    else
      RotL(Xor(Xor(Xor(W(block, t - 3), W(block, t - 8)), W(block, t - 14)), W(block, t - 16)), 1)
  }

  // Section 6.1.2, step 3, for one t.
  function Round(h: Hash, t: nat, w: Word): Hash {
    Hash((RotL(h.a, 5) + F(t, h.b, h.c, h.d) + h.e + K(t) + w) % TWO32,
         h.a, RotL(h.b, 30), h.c, h.d)
  }

  function Schedule(block: seq<Byte>): seq<Word>
    requires |block| == BLOCK
  {
    seq(80, t requires 0 <= t < 80 => W(block, t))
  }

  // Section 6.1.2, step 3: the working variables after one round for each of the words.
  function Rounds(h: Hash, words: seq<Word>): Hash {
    if |words| == 0 then h
    else
      var t := |words| - 1;
      Round(Rounds(h, words[..t]), t, words[t])
  }

  function Add(h: Hash, r: Hash): Hash {
    Hash(Plus(h.a, r.a), Plus(h.b, r.b), Plus(h.c, r.c), Plus(h.d, r.d), Plus(h.e, r.e))
  }

  // Section 6.1.2: one block.
  function Compress(h: Hash, block: seq<Byte>): Hash
    requires |block| == BLOCK
  {
    Add(h, Rounds(h, Schedule(block)))
  }

  // Section 6.1.2: all blocks of a message whose length is a multiple of the block length.
  function HashBlocks(data: seq<Byte>): Hash
    requires |data| % BLOCK == 0
  {
    if |data| == 0 then INITIAL
    else
      var n := |data| - BLOCK;
      Compress(HashBlocks(data[..n]), data[n..])
  }

  // The 64-bit big-endian representation of a length in bits.
  function LengthBytes(bits: nat): (s: seq<Byte>)
    ensures |s| == 8
  {
    [Octet(bits / 0x100_0000_0000_0000), Octet(bits / 0x1_0000_0000_0000),
     Octet(bits / 0x100_0000_0000), Octet(bits / 0x1_0000_0000),
     Octet(bits / 0x100_0000), Octet(bits / 0x1_0000), Octet(bits / 0x100), Octet(bits)]
  }

  function Octet(n: nat): Byte { n % 0x100 }

  // Section 5.1.1: k zero bytes fill a message of this length, 0x80 and the length up to whole blocks.
  predicate FillsBlocks(length: nat, k: nat) { (length + 1 + k + 8) % BLOCK == 0 }

  // Section 5.1.1: the number of zero bytes k between the byte 0x80 and the length.
  function ZeroBytes(length: nat): (k: nat)
    ensures FillsBlocks(length, k)
    ensures forall j: nat :: j < k ==> !FillsBlocks(length, j)
  {
    (55 - length) % BLOCK
  }

  function Zeros(n: nat): seq<Byte> { seq(n, i => 0) }

  function Pad(message: seq<Byte>): (p: seq<Byte>)
    ensures |p| % BLOCK == 0
  {
    message + [0x80] + Zeros(ZeroBytes(|message|)) + LengthBytes(8 * |message|)
  }

  function Digest(message: seq<Byte>): Hash { HashBlocks(Pad(message)) }

  // The four bytes of a word, most significant first; and the 20 bytes of a hash value.
  function WordBytes(w: Word): (s: seq<Byte>)
    ensures |s| == 4
  {
    [Octet(w / 0x100_0000), Octet(w / 0x1_0000), Octet(w / 0x100), Octet(w)]
  }

  function HashBytes(h: Hash): seq<Byte> {
    WordBytes(h.a) + WordBytes(h.b) + WordBytes(h.c) + WordBytes(h.d) + WordBytes(h.e)
  }

  const DIGITS := "0123456789ABCDEF"

  // The eight upper-case hexadecimal digits of a word, most significant first.
  function WordHex(w: Word): string {
    [Digit(w / 0x1000_0000), Digit(w / 0x100_0000), Digit(w / 0x10_0000), Digit(w / 0x1_0000),
     Digit(w / 0x1000), Digit(w / 0x100), Digit(w / 0x10), Digit(w)]
  }

  function Digit(n: nat): char { DIGITS[n % 16] }

  function Hex(h: Hash): string {
    WordHex(h.a) + WordHex(h.b) + WordHex(h.c) + WordHex(h.d) + WordHex(h.e)
  }
}
