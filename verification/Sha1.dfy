// The streaming SHA-1 of src/Utilities/utilities.cpp: a 64-byte buffer, a bit counter made of
// two 32-bit words with a manual carry, in-place padding, and the hexadecimal text.
module Sha1 {
  import opened Sha1Spec

  // The macro ROTLEFT, at the three amounts that the program uses.
  function RotLeft1(x: Word): (r: Word)
    ensures r == RotL(x, 1)
  {
    Num((Bits(x) << 1) | (Bits(x) >> 31))
  }

  function RotLeft5(x: Word): (r: Word)
    ensures r == RotL(x, 5)
  {
    Num((Bits(x) << 5) | (Bits(x) >> 27))
  }

  function RotLeft30(x: Word): (r: Word)
    ensures r == RotL(x, 30)
  {
    Num((Bits(x) << 30) | (Bits(x) >> 2))
  }

  // The first two loops of sha1_transform.
  method Expand(data: array<Byte>) returns (m: array<Word>)
    requires data.Length == BLOCK
    ensures fresh(m) && m.Length == 80
    ensures m[..] == Schedule(data[..])
  {
    hide Xor, RotL, RotLeft1, Num, Bits;
    ghost var block := data[..];
    m := new Word[80];
    var i, j := 0, 0;
    while i < 16
      invariant 0 <= i <= 16 && j == 4 * i
      invariant forall k :: 0 <= k < i ==> m[k] == W(block, k)
    {
      m[i] := (data[j] as int) * 0x100_0000 + (data[j + 1] as int) * 0x1_0000
        + (data[j + 2] as int) * 0x100 + data[j + 3];
      i, j := i + 1, j + 4;
    }
    while i < 80
      invariant 16 <= i <= 80
      invariant forall k :: 0 <= k < i ==> m[k] == W(block, k)
    {
      m[i] := Xor(Xor(Xor(m[i - 3], m[i - 8]), m[i - 14]), m[i - 16]);
      m[i] := RotLeft1(m[i]);
      i := i + 1;
    }
  }

  // The 80 rounds of sha1_transform, in four loops with their own function and constant.
  method RunRounds(h: Hash, m: array<Word>)
    returns (a: Word, b: Word, c: Word, d: Word, e: Word)
    requires m.Length == 80
    ensures Hash(a, b, c, d, e) == Rounds(h, m[..])
  {
    hide And, Xor, Not, RotL, RotLeft5, RotLeft30, Num, Bits;
    a, b, c, d, e := h.a, h.b, h.c, h.d, h.e;
    var i := 0;
    while i < 20
      invariant 0 <= i <= 20
      invariant Hash(a, b, c, d, e) == Rounds(h, m[..i])
    {
      assert m[..i + 1][..i] == m[..i];
      var t := (RotLeft5(a) + Xor(And(b, c), And(Not(b), d)) + e + 0x5a827999 + m[i]) % TWO32;
      e, d, c, b, a := d, c, RotLeft30(b), a, t;
      i := i + 1;
    }
    while i < 40
      invariant 20 <= i <= 40
      invariant Hash(a, b, c, d, e) == Rounds(h, m[..i])
    {
      assert m[..i + 1][..i] == m[..i];
      var t := (RotLeft5(a) + Xor(Xor(b, c), d) + e + 0x6ed9eba1 + m[i]) % TWO32;
      e, d, c, b, a := d, c, RotLeft30(b), a, t;
      i := i + 1;
    }
    while i < 60
      invariant 40 <= i <= 60
      invariant Hash(a, b, c, d, e) == Rounds(h, m[..i])
    {
      assert m[..i + 1][..i] == m[..i];
      var t := (RotLeft5(a) + Xor(Xor(And(b, c), And(b, d)), And(c, d)) + e + 0x8f1bbcdc + m[i]) % TWO32;
      e, d, c, b, a := d, c, RotLeft30(b), a, t;
      i := i + 1;
    }
    while i < 80
      invariant 60 <= i <= 80
      invariant Hash(a, b, c, d, e) == Rounds(h, m[..i])
    {
      assert m[..i + 1][..i] == m[..i];
      var t := (RotLeft5(a) + Xor(Xor(b, c), d) + e + 0xca62c1d6 + m[i]) % TWO32;
      e, d, c, b, a := d, c, RotLeft30(b), a, t;
      i := i + 1;
    }
    assert m[..80] == m[..];
  }

  // Addition modulo 2^64 of a count of bits.
  lemma ModSum(n: nat, c: nat)
    ensures (n % (TWO32 * TWO32) + c) % (TWO32 * TWO32) == (n + c) % (TWO32 * TWO32)
  {
  }

  lemma OneBlockMore(n: nat)
    requires n % BLOCK == 0
    ensures (n + BLOCK) % BLOCK == 0
  {
  }

  lemma AppendBlock(whole: seq<Byte>, block: seq<Byte>)
    requires |whole| % BLOCK == 0 && |block| == BLOCK
    ensures |whole + block| % BLOCK == 0
    ensures HashBlocks(whole + block) == Compress(HashBlocks(whole), block)
  {
    hide Compress;
    OneBlockMore(|whole|);
    var all := whole + block;
    assert all[..|all| - BLOCK] == whole && all[|all| - BLOCK..] == block;
  }

  // The padded message is the hashed blocks followed by one more block, or by two when the
  // buffer has no room for the byte 0x80 and the length.
  lemma PaddingRoom(whole: nat, rest: nat)
    requires whole % BLOCK == 0 && rest < BLOCK
    ensures ZeroBytes(whole + rest) == if rest < 56 then 55 - rest else 119 - rest
  {
    var q := whole / BLOCK;
    assert whole == BLOCK * q;
  }

  lemma PaddedByOneBlock(message: seq<Byte>, whole: seq<Byte>, rest: seq<Byte>, last: seq<Byte>)
    requires message == whole + rest && |whole| % BLOCK == 0 && |rest| < 56
    requires last == rest + [0x80] + Zeros(55 - |rest|) + LengthBytes(8 * |message|)
    ensures |last| == BLOCK && Digest(message) == Compress(HashBlocks(whole), last)
  {
    hide Compress, HashBlocks, LengthBytes, Octet;
    PaddingRoom(|whole|, |rest|);
    assert Pad(message) == whole + last;
    AppendBlock(whole, last);
  }

  lemma ZerosSplit(m: nat, n: nat)
    ensures Zeros(m + n) == Zeros(m) + Zeros(n) && |Zeros(m)| == m && |Zeros(n)| == n
  {
  }

  lemma Regroup(a: seq<Byte>, b: seq<Byte>, c: seq<Byte>, d: seq<Byte>, e: seq<Byte>, f: seq<Byte>)
    ensures (a + b) + c + (d + e) + f == (a + (b + c + d)) + (e + f)
  {
  }

  lemma PaddedByTwoBlocks(message: seq<Byte>, whole: seq<Byte>, rest: seq<Byte>,
                          next: seq<Byte>, last: seq<Byte>)
    requires message == whole + rest && |whole| % BLOCK == 0 && 56 <= |rest| < BLOCK
    requires next == rest + [0x80] + Zeros(63 - |rest|)
    requires last == Zeros(56) + LengthBytes(8 * |message|)
    ensures |next| == |last| == BLOCK
    ensures Digest(message) == Compress(Compress(HashBlocks(whole), next), last)
  {
    hide Compress, HashBlocks, LengthBytes, Octet;
    PaddingRoom(|whole|, |rest|);
    ZerosSplit(63 - |rest|, 56);
    hide ZeroBytes, Zeros;
    Regroup(whole, rest, [0x80], Zeros(63 - |rest|), Zeros(56), LengthBytes(8 * |message|));
    AppendBlock(whole, next);
    AppendBlock(whole + next, last);
  }

  lemma Product(d: int, k: int)
    requires d > 0 && k > 0
    ensures d * k >= d
  {
  }

  lemma Quotient(n: int, d: int, q: int, r: int)
    requires n == d * q + r && 0 <= r < d
    ensures n / d == q
  {
    var k := n / d;
    assert n == d * k + n % d;
    if k < q {
      Product(d, q - k);
    } else if k > q {
      Product(d, k - q);
    }
  }

  // The two counter words give the eight octets of the length.
  lemma CounterOctets(n: nat, hi: Word, lo: Word)
    requires hi * TWO32 + lo == n % (TWO32 * TWO32)
    ensures LengthBytes(n) == WordBytes(hi) + WordBytes(lo)
  {
    hide Octet;
    var q := n / (TWO32 * TWO32);
    Quotient(n, TWO32, q * TWO32 + hi, lo);
    HighOctets(n / TWO32, q, hi);
    HighOctets(n, n / TWO32, lo);
    NestedQuotients(n);
  }

  lemma NestedQuotients(n: nat)
    ensures n / 0x100_0000_0000 == n / TWO32 / 0x100
    ensures n / 0x1_0000_0000_0000 == n / TWO32 / 0x1_0000
    ensures n / 0x100_0000_0000_0000 == n / TWO32 / 0x100_0000
  {
  }

  lemma OctetShift(k: nat, x: nat)
    ensures Octet(k * 0x100 + x) == Octet(x)
  {
  }

  // The four octets of the low word of a number.
  lemma HighOctets(n: nat, high: nat, low: Word)
    requires n == high * TWO32 + low
    ensures Octet(n / 0x100_0000) == Octet(low / 0x100_0000)
    ensures Octet(n / 0x1_0000) == Octet(low / 0x1_0000)
    ensures Octet(n / 0x100) == Octet(low / 0x100)
    ensures Octet(n) == Octet(low)
  {
    hide Octet;
    Quotient(n, 0x100_0000, high * 0x100 + low / 0x100_0000, low % 0x100_0000);
    Quotient(n, 0x1_0000, high * 0x1_0000 + low / 0x1_0000, low % 0x1_0000);
    Quotient(n, 0x100, high * 0x100_0000 + low / 0x100, low % 0x100);
    OctetShift(high, low / 0x100_0000);
    OctetShift(high * 0x100, low / 0x1_0000);
    OctetShift(high * 0x1_0000, low / 0x100);
    OctetShift(high * 0x100_0000, low);
  }

  // Byte i of a word: (w >> (24 - 8 * i)) & 0xff
  function ByteAt(w: Word, i: nat): (b: Byte)
    requires i < 4
    ensures b == WordBytes(w)[i]
  {
    (w / (if i == 0 then 0x100_0000 else if i == 1 then 0x1_0000 else if i == 2 then 0x100 else 1)) % 0x100
  }

  class Context {
    const data: array<Byte>
    var datalen: nat
    var bitlen0: nat
    var bitlen1: nat
    const state: array<Word>
    ghost var fed: seq<Byte>  // every byte given to Update so far

    ghost function Current(): Hash
      requires state.Length == 5
      reads this, state
    {
      Hash(state[0], state[1], state[2], state[3], state[4])
    }

    ghost predicate Shape()
      reads this
    {
      data.Length == BLOCK && state.Length == 5 && bitlen0 < TWO32 && bitlen1 < TWO32
    }

    // Blocks hashed, followed by the buffered bytes, are the message so far; and the two
    // counter words together hold the number of hashed bits, modulo 2^64.
    ghost predicate Buffering()
      reads this, data, state
    {
      && Shape()
      && datalen <= BLOCK && datalen <= |fed|
      && Hashed() % BLOCK == 0
      && fed[Hashed()..] == data[..datalen]
      && Current() == HashBlocks(fed[..Hashed()])
      && (bitlen1 * TWO32 + bitlen0) == (8 * Hashed()) % (TWO32 * TWO32)
    }

    ghost function Hashed(): int
      reads this
    {
      |fed| - datalen
    }

    // Between two calls, the buffer is never full.
    ghost predicate Valid()
      reads this, data, state
    {
      Buffering() && datalen < BLOCK
    }

    constructor Init()
      ensures Valid() && fed == []
      ensures fresh(data) && fresh(state)
    {
      data := new Byte[BLOCK];
      state := new Word[][0x67452301, 0xEFCDAB89, 0x98BADCFE, 0x10325476, 0xc3d2e1f0];
      datalen, bitlen0, bitlen1, fed := 0, 0, 0, [];
      new;
      assert fed[..Hashed()] == [] && Current() == INITIAL;
    }

    // DBL_INT_ADD
    method CountBits(c: nat)
      requires Shape() && c < TWO32
      modifies this`bitlen0, this`bitlen1
      ensures Shape()
      ensures bitlen1 * TWO32 + bitlen0 == (old(bitlen1 * TWO32 + bitlen0) + c) % (TWO32 * TWO32)
    {
      if bitlen0 > 0xffffffff - c {
        bitlen1 := (bitlen1 + 1) % TWO32;
      }
      bitlen0 := (bitlen0 + c) % TWO32;
    }

    // sha1_transform, always called on the buffer of the context
    method Transform()
      requires Shape()
      modifies state
      ensures Current() == Compress(old(Current()), data[..])
    {
      hide W, Round, Rounds, Schedule;
      var m := Expand(data);
      var a, b, c, d, e := RunRounds(Hash(state[0], state[1], state[2], state[3], state[4]), m);
      state[0] := (state[0] + a) % TWO32;
      state[1] := (state[1] + b) % TWO32;
      state[2] := (state[2] + c) % TWO32;
      state[3] := (state[3] + d) % TWO32;
      state[4] := (state[4] + e) % TWO32;
    }

    // sha1_update
    method Update(bytes: seq<Byte>, len: Word)
      requires Valid() && len <= |bytes|
      modifies this, data, state
      ensures Valid() && fed == old(fed) + bytes[..len]
    {
      hide Valid;
      var i := 0;
      while i < len
        invariant 0 <= i <= len
        invariant Valid() && fed == old(fed) + bytes[..i]
      {
        UpdateByte(bytes[i]);
        assert bytes[..i + 1] == bytes[..i] + [bytes[i]];
        i := i + 1;
      }
    }

    // The body of the loop of sha1_update.
    method UpdateByte(byte: Byte)
      requires Valid()
      modifies this, data, state
      ensures Valid() && fed == old(fed) + [byte]
    {
      hide HashBlocks;
      ghost var whole := fed[..Hashed()];
      data[datalen] := byte;
      datalen := datalen + 1;
      fed := fed + [byte];
      assert fed[..Hashed()] == whole;
      if datalen == 64 {
        FlushBuffer();
      }
    }

    // The branch of sha1_update that is taken when the buffer is full.
    method FlushBuffer()
      requires Buffering() && datalen == BLOCK
      modifies this`bitlen0, this`bitlen1, this`datalen, state
      ensures Valid()
    {
      hide Compress, HashBlocks;
      ghost var whole := fed[..Hashed()];
      assert data[..] == data[..64];
      assert fed == whole + data[..];
      AppendBlock(whole, data[..]);
      Transform();
      ModSum(8 * Hashed(), 512);
      CountBits(512);
      datalen := 0;
      assert fed[..|fed|] == fed;
    }

    // The padding of sha1_final: the branches that depend on the room left in the buffer.
    method FillBuffer()
      requires Valid()
      modifies data, state
      ensures datalen < 56 ==> unchanged(state)
      ensures datalen < 56 ==> data[..56] == old(data[..datalen]) + [0x80] + Zeros(55 - datalen)
      ensures datalen >= 56 ==> data[..56] == Zeros(56)
      ensures datalen >= 56 ==>
        Current() == Compress(old(Current()), old(data[..datalen]) + [0x80] + Zeros(63 - datalen))
    {
      hide Compress, HashBlocks;
      ghost var rest := data[..datalen];
      var i := datalen;
      var end := if datalen < 56 then 56 else 64;
      data[i] := 0x80;
      i := i + 1;
      assert data[..i] == rest + [0x80] + Zeros(0);
      while i < end
        invariant datalen < i <= end
        invariant data[..i] == rest + [0x80] + Zeros(i - datalen - 1)
        modifies data
      {
        data[i] := 0;
        i := i + 1;
        assert data[..i] == data[..i - 1] + [0];
      }
      if datalen >= 56 {
        assert data[..] == data[..64];
        Transform();
        forall k | 0 <= k < 56 { data[k] := 0; }
        assert data[..56] == Zeros(56);
      }
    }

    // sha1_final
    method Final(hash: array<Byte>)
      requires Valid() && hash.Length == 20 && hash != data
      modifies this, data, state, hash
      ensures hash[..] == HashBytes(Digest(old(fed)))
    {
      hide Compress, HashBlocks, LengthBytes, WordBytes, Digest, HashBytes, ByteAt, ZeroBytes;
      ghost var whole, rest := fed[..Hashed()], fed[Hashed()..];
      FillBuffer();
      ModSum(8 * Hashed(), 8 * datalen);
      CountBits(8 * datalen);
      CounterOctets(8 * |fed|, bitlen1, bitlen0);
      AppendLength();
      assert data[..] == data[..56] + data[56..];
      if datalen < 56 {
        PaddedByOneBlock(fed, whole, rest, data[..]);
      } else {
        PaddedByTwoBlocks(fed, whole, rest, rest + [0x80] + Zeros(63 - datalen), data[..]);
      }
      Transform();
      Output(hash);
    }

    method AppendLength()
      requires Shape()
      modifies data
      ensures data[..56] == old(data[..56]) && data[56..] == WordBytes(bitlen1) + WordBytes(bitlen0)
    {
      data[63] := bitlen0 % 0x100;
      data[62] := (bitlen0 / 0x100) % 0x100;
      data[61] := (bitlen0 / 0x1_0000) % 0x100;
      data[60] := (bitlen0 / 0x100_0000) % 0x100;
      data[59] := bitlen1 % 0x100;
      data[58] := (bitlen1 / 0x100) % 0x100;
      data[57] := (bitlen1 / 0x1_0000) % 0x100;
      data[56] := (bitlen1 / 0x100_0000) % 0x100;
    }

    // The last loop of sha1_final: four bytes of each state word, most significant first.
    method Output(hash: array<Byte>)
      requires Shape() && hash.Length == 20
      modifies hash
      ensures hash[..] == HashBytes(Current())
    {
      hide ByteAt, WordBytes;
      var i := 0;
      while i < 4
        invariant 0 <= i <= 4
        invariant forall k :: 0 <= k < 20 && k % 4 < i ==> hash[k] == ByteAt(state[k / 4], k % 4)
      {
        hash[i] := ByteAt(state[0], i);
        hash[i + 4] := ByteAt(state[1], i);
        hash[i + 8] := ByteAt(state[2], i);
        hash[i + 12] := ByteAt(state[3], i);
        hash[i + 16] := ByteAt(state[4], i);
        i := i + 1;
      }
    }
  }

  // FL_generate_sha1: the length of the text is passed as a 32-bit unsigned integer.
  method GenerateSha1(content: seq<Byte>) returns (key: string)
    ensures key == Hex(Digest(content[..|content| % TWO32]))
  {
    hide Hex, Digest, HashBytes, BytesHex, Context.Valid;
    var context := new Context.Init();
    var obuf := new Byte[20];
    context.Update(content, |content| % TWO32);
    assert context.fed == content[..|content| % TWO32];
    context.Final(obuf);
    HashHex(Digest(content[..|content| % TWO32]));
    key := HexText(obuf);
  }

  // The last loop of FL_generate_sha1.
  method HexText(obuf: array<Byte>) returns (key: string)
    requires obuf.Length == 20
    ensures key == BytesHex(obuf[..])
  {
    hide BytesHex;
    key := "";
    var i := 0;
    assert obuf[..0] == [];
    ByteHex(0);
    while i < 20
      invariant 0 <= i <= 20
      invariant key == BytesHex(obuf[..i])
    {
      assert obuf[..i + 1] == obuf[..i] + [obuf[i]];
      BytesHexAppend(obuf[..i], [obuf[i]]);
      ByteHex(obuf[i]);
      key := key + [DIGITS[obuf[i] / 16]];
      key := key + [DIGITS[obuf[i] % 16]];
      i := i + 1;
    }
    assert obuf[..20] == obuf[..];
  }

  // Two digits for each byte.
  function BytesHex(bytes: seq<Byte>): string {
    if bytes == [] then "" else [Digit(bytes[0] / 16), Digit(bytes[0])] + BytesHex(bytes[1..])
  }

  lemma ByteHex(b: Byte)
    ensures BytesHex([b]) == [DIGITS[b / 16], DIGITS[b % 16]] && BytesHex([]) == ""
  {
    assert [b][1..] == [];
  }

  lemma {:induction false} BytesHexAppend(s: seq<Byte>, t: seq<Byte>)
    ensures BytesHex(s + t) == BytesHex(s) + BytesHex(t)
  {
    if s == [] {
      assert s + t == t;
    } else {
      assert (s + t)[1..] == s[1..] + t;
      BytesHexAppend(s[1..], t);
    }
  }

  lemma OctetDigits(n: nat)
    ensures Octet(n) / 16 == n / 16 % 16 && Octet(n) % 16 == n % 16
  {
    var q, r := n / 0x100, n % 0x100;
    Quotient(n, 16, 16 * q + r / 16, r % 16);
    Quotient(n / 16, 16, q, r / 16);
  }

  lemma OctetHex(n: nat)
    ensures BytesHex([Octet(n)]) == [Digit(n / 16), Digit(n)]
  {
    hide Octet;
    OctetDigits(n);
    assert [Octet(n)][1..] == [] && BytesHex([]) == "";
    assert BytesHex([Octet(n)]) == [Digit(Octet(n) / 16), Digit(Octet(n))] + BytesHex([Octet(n)][1..]);
  }

  // Two digits of each byte of a word are the eight digits of the word.
  lemma WordHexByBytes(w: Word)
    ensures BytesHex(WordBytes(w)) == WordHex(w)
  {
    hide BytesHex, Octet, Digit;
    var b := WordBytes(w);
    assert b == [b[0]] + [b[1]] + [b[2]] + [b[3]];
    BytesHexAppend([b[0]] + [b[1]] + [b[2]], [b[3]]);
    BytesHexAppend([b[0]] + [b[1]], [b[2]]);
    BytesHexAppend([b[0]], [b[1]]);
    OctetHex(w / 0x100_0000);
    OctetHex(w / 0x1_0000);
    OctetHex(w / 0x100);
    OctetHex(w);
    assert w / 0x100_0000 / 16 == w / 0x1000_0000;
    assert w / 0x1_0000 / 16 == w / 0x10_0000;
    assert w / 0x100 / 16 == w / 0x1000;
  }

  lemma HashHex(h: Hash)
    ensures BytesHex(HashBytes(h)) == Hex(h)
  {
    hide WordBytes, WordHex, BytesHex;
    var a, b, c, d, e := WordBytes(h.a), WordBytes(h.b), WordBytes(h.c), WordBytes(h.d), WordBytes(h.e);
    BytesHexAppend(a + b + c + d, e);
    BytesHexAppend(a + b + c, d);
    BytesHexAppend(a + b, c);
    BytesHexAppend(a, b);
    WordHexByBytes(h.a);
    WordHexByBytes(h.b);
    WordHexByBytes(h.c);
    WordHexByBytes(h.d);
    WordHexByBytes(h.e);
  }
}
