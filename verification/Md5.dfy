/**
 * MD5 (src/md5.cpp): the incremental context with its buffer and two-word counter, against the one-shot definition of
 * RFC 1321, for a little-endian host.
 */
module Md5 {
  import opened Arith
  import opened Bytes
  import opened Md5Transform

  const WORD: int := 0x1_0000_0000
  const LONG: int := 0x1_0000_0000_0000_0000

  /** A word stored lowest byte first. */
  function WordAt(block: seq<Byte>, k: nat): bv32
    requires 4 * k + 4 <= |block|
  {
    (block[4 * k] as int + 0x100 * block[4 * k + 1] as int + 0x1_0000 * block[4 * k + 2] as int
      + 0x100_0000 * block[4 * k + 3] as int) as bv32
  }

  function WordsOf(block: seq<Byte>): (m: seq<bv32>)
    requires |block| == 64
    ensures |m| == 16
  {
    seq(16, k requires 0 <= k < 16 => WordAt(block, k))
  }

  /** A word of a block in question. */
  predicate AskedWord(k: nat) {
    true
  }

  /** The words of a block, one by one. */
  ghost predicate Read(block: seq<Byte>, m: seq<bv32>)
    requires |block| == 64
  {
    |m| == 16 && forall k: nat {:trigger AskedWord(k)} :: AskedWord(k) && k < 16 ==> m[k] == WordAt(block, k)
  }

  lemma ReadWords(block: seq<Byte>) returns (m: seq<bv32>)
    requires |block| == 64
    ensures Read(block, m)
  {
    m := WordsOf(block);
  }

  /** The hash after one more block of 64 bytes; padding and counting are the same for every such function. */
  type Transform = (Digest, seq<Byte>) -> Digest

  const MD5: Transform := (h: Digest, block: seq<Byte>) => if |block| == 64 then Hashed(h, WordsOf(block)) else h

  /** A transformation in question at a block and its words. */
  predicate Asked(h: Digest, block: seq<Byte>, m: seq<bv32>) {
    true
  }

  ghost predicate IsMd5(f: Transform) {
    forall h: Digest, block: seq<Byte>, m: seq<bv32> {:trigger Asked(h, block, m)} ::
      Asked(h, block, m) && |block| == 64 && Read(block, m) ==> f(h, block) == Hashed(h, m)
  }

  lemma ReadOnce(block: seq<Byte>, m: seq<bv32>)
    requires |block| == 64 && Read(block, m)
    ensures m == WordsOf(block)
  {
    forall k: nat | k < 16 ensures m[k] == WordsOf(block)[k] {
      assert AskedWord(k);
    }
  }

  lemma Md5IsMd5()
    ensures IsMd5(MD5)
  {
    forall h: Digest, block: seq<Byte>, m: seq<bv32> | |block| == 64 && Read(block, m)
      ensures MD5(h, block) == Hashed(h, m)
    {
      ReadOnce(block, m);
    }
  }

  /** The hash of a message of whole blocks. */
  function Fold(f: Transform, h: Digest, m: seq<Byte>): Digest
    requires |m| % 64 == 0
    decreases |m|
  {
    if |m| == 0 then h else Fold(f, f(h, m[..64]), m[64..])
  }

  lemma {:induction false} FoldAppend(f: Transform, h: Digest, m: seq<Byte>, block: seq<Byte>)
    requires |m| % 64 == 0 && |block| == 64
    ensures Fold(f, h, m + block) == f(Fold(f, h, m), block)
    decreases |m|
  {
    if |m| == 0 {
      assert m + block == block && block[..64] == block;
      assert Fold(f, f(h, block), block[64..]) == f(h, block);
    } else {
      assert (m + block)[..64] == m[..64] && (m + block)[64..] == m[64..] + block;
      FoldAppend(f, f(h, m[..64]), m[64..], block);
    }
  }

  // Padding, sections 3.1 and 3.2 of RFC 1321.

  function Zeros(n: nat): (z: seq<Byte>)
    ensures |z| == n
  {
    seq(n, _ => 0 as Byte)
  }

  /** The number of zero bytes after the first padding byte. */
  function PadZeros(n: nat): nat {
    if n % 64 <= 55 then 55 - n % 64 else 119 - n % 64
  }

  function WordBytes(w: nat): (b: seq<Byte>)
    ensures |b| == 4
  {
    [(w % 0x100) as Byte, (w / 0x100 % 0x100) as Byte, (w / 0x1_0000 % 0x100) as Byte, (w / 0x100_0000 % 0x100) as Byte]
  }

  /** The length in bits as two words, low word first. */
  function LengthBytes(n: nat): (b: seq<Byte>)
    ensures |b| == 8
  {
    WordBytes(8 * n % WORD) + WordBytes(8 * n / WORD % WORD)
  }

  function Padded(m: seq<Byte>): seq<Byte> {
    m + [0x80 as Byte] + Zeros(PadZeros(|m|)) + LengthBytes(|m|)
  }

  /** The padding is the least that leaves room for the length at the end of a block. */
  lemma PaddedLength(m: seq<Byte>, k: nat)
    ensures |Padded(m)| % 64 == 0
    ensures (|m| + 1 + k) % 64 == 56 ==> k >= PadZeros(|m|)
  {
    var q, r := |m| / 64, |m| % 64;
    assert |Padded(m)| == |m| + 9 + PadZeros(|m|);
    if r <= 55 {
      DivModIs(|Padded(m)|, 64, q + 1, 0);
      if k < PadZeros(|m|) {
        DivModIs(|m| + 1 + k, 64, q, r + 1 + k);
      }
    } else {
      DivModIs(|Padded(m)|, 64, q + 2, 0);
      if k < PadZeros(|m|) {
        if r + 1 + k < 64 {
          DivModIs(|m| + 1 + k, 64, q, r + 1 + k);
        } else {
          DivModIs(|m| + 1 + k, 64, q + 1, r + 1 + k - 64);
        }
      }
    }
  }

  function Encode(h: Digest): seq<Byte> {
    WordBytes(h.a as int) + WordBytes(h.b as int) + WordBytes(h.c as int) + WordBytes(h.d as int)
  }

  /** The digest of a message. */
  function Sum(f: Transform, m: seq<Byte>): seq<Byte> {
    PaddedLength(m, 0);
    Encode(Fold(f, INIT, Padded(m)))
  }

  lemma BackToWord(w: bv32, x: int)
    requires w as int == x
    ensures x as bv32 == w
  {
  }

  lemma WordValue(block: seq<Byte>, m: seq<bv32>, k: nat, x: int)
    requires |block| == 64 && k < 16 && Read(block, m)
    requires x == block[4 * k] as int + 0x100 * block[4 * k + 1] as int + 0x1_0000 * block[4 * k + 2] as int
                  + 0x100_0000 * block[4 * k + 3] as int
    ensures 0 <= x < WORD && m[k] == x as bv32
  {
    assert AskedWord(k);
  }

  /** The word that four bytes stand for. */
  lemma WordIs(block: seq<Byte>, m: seq<bv32>, k: nat, w: bv32, b0: int, b1: int, b2: int, b3: int)
    requires |block| == 64 && k < 16 && Read(block, m)
    requires block[4 * k] as int == b0 && block[4 * k + 1] as int == b1
    requires block[4 * k + 2] as int == b2 && block[4 * k + 3] as int == b3
    requires w as int == b0 + 0x100 * b1 + 0x1_0000 * b2 + 0x100_0000 * b3
    ensures m[k] == w
  {
    WordValue(block, m, k, w as int);
    BackToWord(w, w as int);
  }

  lemma BytesOfWord(w: int, b0: int, b1: int, b2: int, b3: int)
    requires 0 <= b0 < 256 && 0 <= b1 < 256 && 0 <= b2 < 256 && 0 <= b3 < 256
    requires w == b0 + 0x100 * b1 + 0x1_0000 * b2 + 0x100_0000 * b3
    ensures WordBytes(w) == [b0 as Byte, b1 as Byte, b2 as Byte, b3 as Byte]
  {
    DivModIs(w, 0x100, b1 + 0x100 * b2 + 0x1_0000 * b3, b0);
    DivModIs(b1 + 0x100 * b2 + 0x1_0000 * b3, 0x100, b2 + 0x100 * b3, b1);
    DivModIs(w, 0x1_0000, b2 + 0x100 * b3, b0 + 0x100 * b1);
    DivModIs(b2 + 0x100 * b3, 0x100, b3, b2);
    DivModIs(w, 0x100_0000, b3, b0 + 0x100 * b1 + 0x1_0000 * b2);
  }

  lemma OneBlock(f: Transform, h: Digest, block: seq<Byte>)
    requires |block| == 64
    ensures Fold(f, h, block) == f(h, block)
  {
    FoldAppend(f, h, [], block);
    assert [] + block == block;
  }

  lemma ZeroWord(block: seq<Byte>, m: seq<bv32>, k: nat)
    requires |block| == 64 && k < 16 && Read(block, m)
    requires block[4 * k] == block[4 * k + 1] == block[4 * k + 2] == block[4 * k + 3] == 0
    ensures m[k] == 0
  {
    WordIs(block, m, k, 0, 0, 0, 0, 0);
  }

  /** A block of four bytes, zeros, and a length in bits. */
  lemma ShortWords(block: seq<Byte>, m: seq<bv32>, first: bv32, bits: bv32)
    requires |block| == 64 && Read(block, m) && (forall i | 4 <= i < 56 :: block[i] == 0)
    requires m[0] == first && m[14] == bits && forall i | 60 <= i < 64 :: block[i] == 0
    ensures Short(m, first, bits)
  {
    ZeroWord(block, m, 1); ZeroWord(block, m, 2); ZeroWord(block, m, 3); ZeroWord(block, m, 4);
    ZeroWord(block, m, 5); ZeroWord(block, m, 6); ZeroWord(block, m, 7); ZeroWord(block, m, 8);
    ZeroWord(block, m, 9); ZeroWord(block, m, 10); ZeroWord(block, m, 11); ZeroWord(block, m, 12);
    ZeroWord(block, m, 13); ZeroWord(block, m, 15);
  }

  /** The digest of a message that fits one block with its padding, from the hash of that block. */
  lemma SumOfBlock(f: Transform, message: seq<Byte>, m: seq<bv32>, h: Digest)
    requires IsMd5(f) && |Padded(message)| == 64 && Read(Padded(message), m) && Hashed(INIT, m) == h
    ensures Sum(f, message) == Encode(h)
  {
    OneBlock(f, INIT, Padded(message));
    assert Asked(INIT, Padded(message), m);
  }

  lemma NoWords() returns (m: seq<bv32>)
    ensures |Padded([])| == 64 && Read(Padded([]), m) && Short(m, 0x80, 0)
  {
    var block := Padded([]);
    m := ReadWords(block);
    WordIs(block, m, 0, 0x00000080, 0x80, 0, 0, 0);
    ZeroWord(block, m, 14);
    ShortWords(block, m, 0x80, 0);
  }

  lemma EncodedNothing()
    ensures Encode(Digest(0xd98c1dd4, 0x04b2008f, 0x980980e9, 0x7e42f8ec)) ==
      [0xd4, 0x1d, 0x8c, 0xd9, 0x8f, 0x00, 0xb2, 0x04, 0xe9, 0x80, 0x09, 0x98, 0xec, 0xf8, 0x42, 0x7e]
  {
    BytesOfWord(0xd98c1dd4, 0xd4, 0x1d, 0x8c, 0xd9);
    BytesOfWord(0x04b2008f, 0x8f, 0x00, 0xb2, 0x04);
    BytesOfWord(0x980980e9, 0xe9, 0x80, 0x09, 0x98);
    BytesOfWord(0x7e42f8ec, 0xec, 0xf8, 0x42, 0x7e);
  }

  /** The digest of the empty message in appendix A.5 of RFC 1321. */
  lemma SumOfNothing(f: Transform)
    requires IsMd5(f)
    ensures Sum(f, []) ==
      [0xd4, 0x1d, 0x8c, 0xd9, 0x8f, 0x00, 0xb2, 0x04, 0xe9, 0x80, 0x09, 0x98, 0xec, 0xf8, 0x42, 0x7e]
  {
    var m := NoWords();
    HashOfNothing(m);
    SumOfBlock(f, [], m, Digest(0xd98c1dd4, 0x04b2008f, 0x980980e9, 0x7e42f8ec));
    EncodedNothing();
  }

  lemma AbcWords(block: seq<Byte>) returns (m: seq<bv32>)
    requires block == [0x61, 0x62, 0x63, 0x80] + Zeros(52) + [24] + Zeros(7)
    ensures |block| == 64 && Read(block, m) && Short(m, 0x8063_6261, 24)
  {
    m := ReadWords(block);
    WordIs(block, m, 0, 0x80636261, 0x61, 0x62, 0x63, 0x80);
    WordIs(block, m, 14, 0x00000018, 24, 0, 0, 0);
    ShortWords(block, m, 0x8063_6261, 24);
  }

  lemma PaddedAbc()
    ensures Padded([0x61, 0x62, 0x63]) == [0x61, 0x62, 0x63, 0x80] + Zeros(52) + [24] + Zeros(7)
  {
    assert LengthBytes(3) == [24] + Zeros(7);
  }

  lemma EncodedAbc()
    ensures Encode(Digest(0x98500190, 0xb04fd23c, 0x7d3f96d6, 0x727fe128)) ==
      [0x90, 0x01, 0x50, 0x98, 0x3c, 0xd2, 0x4f, 0xb0, 0xd6, 0x96, 0x3f, 0x7d, 0x28, 0xe1, 0x7f, 0x72]
  {
    BytesOfWord(0x98500190, 0x90, 0x01, 0x50, 0x98);
    BytesOfWord(0xb04fd23c, 0x3c, 0xd2, 0x4f, 0xb0);
    BytesOfWord(0x7d3f96d6, 0xd6, 0x96, 0x3f, 0x7d);
    BytesOfWord(0x727fe128, 0x28, 0xe1, 0x7f, 0x72);
  }

  /** The digest of "abc". */
  lemma SumOfAbc(f: Transform)
    requires IsMd5(f)
    ensures Sum(f, [0x61, 0x62, 0x63]) ==
      [0x90, 0x01, 0x50, 0x98, 0x3c, 0xd2, 0x4f, 0xb0, 0xd6, 0x96, 0x3f, 0x7d, 0x28, 0xe1, 0x7f, 0x72]
  {
    PaddedAbc();
    var m := AbcWords(Padded([0x61, 0x62, 0x63]));
    HashOfAbc(m);
    SumOfBlock(f, [0x61, 0x62, 0x63], m, Digest(0x98500190, 0xb04fd23c, 0x7d3f96d6, 0x727fe128));
    EncodedAbc();
  }

  /** A message that starts with the capital letters, the small letters and the digits. */
  predicate Alphanumeric(m: seq<Byte>) {
    |m| >= 62 && forall i | 0 <= i < 62 :: m[i] as int == if i < 26 then 65 + i else if i < 52 then 71 + i else i - 4
  }

  lemma FirstWords1(block: seq<Byte>, m: seq<bv32>)
    requires |block| == 64 && Read(block, m) && Alphanumeric(block)
    ensures m[0] == 0x44434241 && m[1] == 0x48474645 && m[2] == 0x4c4b4a49 && m[3] == 0x504f4e4d
  {
    WordIs(block, m, 0, 0x44434241, 0x41, 0x42, 0x43, 0x44);
    WordIs(block, m, 1, 0x48474645, 0x45, 0x46, 0x47, 0x48);
    WordIs(block, m, 2, 0x4c4b4a49, 0x49, 0x4a, 0x4b, 0x4c);
    WordIs(block, m, 3, 0x504f4e4d, 0x4d, 0x4e, 0x4f, 0x50);
  }

  lemma FirstWords2(block: seq<Byte>, m: seq<bv32>)
    requires |block| == 64 && Read(block, m) && Alphanumeric(block)
    ensures m[4] == 0x54535251 && m[5] == 0x58575655 && m[6] == 0x62615a59 && m[7] == 0x66656463
  {
    WordIs(block, m, 4, 0x54535251, 0x51, 0x52, 0x53, 0x54);
    WordIs(block, m, 5, 0x58575655, 0x55, 0x56, 0x57, 0x58);
    WordIs(block, m, 6, 0x62615a59, 0x59, 0x5a, 0x61, 0x62);
    WordIs(block, m, 7, 0x66656463, 0x63, 0x64, 0x65, 0x66);
  }

  lemma FirstWords3(block: seq<Byte>, m: seq<bv32>)
    requires |block| == 64 && Read(block, m) && Alphanumeric(block)
    ensures m[8] == 0x6a696867 && m[9] == 0x6e6d6c6b && m[10] == 0x7271706f && m[11] == 0x76757473
  {
    WordIs(block, m, 8, 0x6a696867, 0x67, 0x68, 0x69, 0x6a);
    WordIs(block, m, 9, 0x6e6d6c6b, 0x6b, 0x6c, 0x6d, 0x6e);
    WordIs(block, m, 10, 0x7271706f, 0x6f, 0x70, 0x71, 0x72);
    WordIs(block, m, 11, 0x76757473, 0x73, 0x74, 0x75, 0x76);
  }

  lemma FirstWords4(block: seq<Byte>, m: seq<bv32>)
    requires |block| == 64 && Read(block, m) && Alphanumeric(block) && block[62] == 0x80 && block[63] == 0
    ensures m[12] == 0x7a797877 && m[13] == 0x33323130 && m[14] == 0x37363534 && m[15] == 0x00803938
  {
    WordIs(block, m, 12, 0x7a797877, 0x77, 0x78, 0x79, 0x7a);
    WordIs(block, m, 13, 0x33323130, 0x30, 0x31, 0x32, 0x33);
    WordIs(block, m, 14, 0x37363534, 0x34, 0x35, 0x36, 0x37);
    WordIs(block, m, 15, 0x00803938, 0x38, 0x39, 0x80, 0x00);
  }

  lemma FirstWords(block: seq<Byte>) returns (m: seq<bv32>)
    requires |block| == 64 && Alphanumeric(block) && block[62] == 0x80 && block[63] == 0
    ensures Read(block, m) && Letters(m)
  {
    m := ReadWords(block);
    FirstWords1(block, m);
    FirstWords2(block, m);
    FirstWords3(block, m);
    FirstWords4(block, m);
  }

  // The counter.

  function Low(low: int, len: int): int {
    (low + len) % WORD
  }

  function High(low: int, high: int, len: int): int {
    if Low(low, len) < low then (high + 1) % WORD else high
  }

  /** The two-word counter adds the length modulo 2^64. */
  lemma Counted(low: int, high: int, len: int, n: int)
    requires 0 <= low < WORD && 0 <= high < WORD && 0 <= len < WORD && low + WORD * high == n % LONG
    ensures Low(low, len) + WORD * High(low, high, len) == (n + len) % LONG
    ensures 0 <= Low(low, len) < WORD && 0 <= High(low, high, len) < WORD
  {
    AddMod(n, len, LONG);
    var sum := low + WORD * high + len;
    if low + len < WORD {
      DivModIs(low + len, WORD, 0, low + len);
      DivModIs(sum, LONG, 0, sum);
    } else {
      DivModIs(low + len, WORD, 1, low + len - WORD);
      if high + 1 < WORD {
        DivModIs(high + 1, WORD, 0, high + 1);
        DivModIs(sum, LONG, 0, sum);
      } else {
        DivModIs(high + 1, WORD, 1, 0);
        DivModIs(sum, LONG, 1, sum - LONG);
      }
    }
  }

  /** The low word of the counter tells how full the buffer is. */
  lemma Buffered(low: int, high: int, n: int)
    requires 0 <= low < WORD && low + WORD * high == n % LONG
    ensures low % 64 == n % 64
  {
    DivMod(low, 64);
    DivMod(n, LONG);
    DivModIs(n, 64, n / LONG * 0x400_0000_0000_0000 + high * 0x400_0000 + low / 64, low % 64);
  }

  /** The length in bits, from the counter of bytes. */
  lemma BitLength(low: int, high: int, n: int)
    requires 0 <= low < WORD && 0 <= high < WORD && low + WORD * high == n % LONG
    ensures 8 * n % WORD == 8 * low % WORD
    ensures 8 * n / WORD % WORD == 8 * high % WORD + low / 0x2000_0000
  {
    DivMod(n, LONG);
    DivMod(low, 0x2000_0000);
    DivMod(high, 0x2000_0000);
    var q, a, b := n / LONG, low / 0x2000_0000, low % 0x2000_0000;
    var c, d := high / 0x2000_0000, high % 0x2000_0000;
    DivModIs(8 * low, WORD, a, 8 * b);
    DivModIs(8 * high, WORD, c, 8 * d);
    DivModIs(8 * n, WORD, 8 * q * WORD + 8 * high + a, 8 * b);
    DivModIs(8 * q * WORD + 8 * high + a, WORD, 8 * q + c, 8 * d + a);
  }

  // A message cut at the last whole block.

  function Whole(m: seq<Byte>): (w: seq<Byte>)
    ensures |w| % 64 == 0
  {
    DivModIs(|m| - |m| % 64, 64, |m| / 64, 0);
    m[..|m| - |m| % 64]
  }

  function Tail(m: seq<Byte>): (t: seq<Byte>)
    ensures |t| == |m| % 64 && Whole(m) + t == m
  {
    m[|m| - |m| % 64..]
  }

  /** A message that ends inside the same block. */
  lemma SameBlock(m: seq<Byte>, more: seq<Byte>)
    requires |m| % 64 + |more| < 64
    ensures Whole(m + more) == Whole(m) && Tail(m + more) == Tail(m) + more
  {
    DivModIs(|m + more|, 64, |m| / 64, |m| % 64 + |more|);
  }

  /** A message that is some whole blocks and a rest. */
  lemma WholeAndRest(blocks: seq<Byte>, rest: seq<Byte>)
    requires |blocks| % 64 == 0 && |rest| < 64
    ensures Whole(blocks + rest) == blocks && Tail(blocks + rest) == rest
  {
    DivModIs(|blocks + rest|, 64, |blocks| / 64, |rest|);
  }

  lemma Extended(m: seq<Byte>, chunk: seq<Byte>, p: nat, q: nat)
    requires p <= q <= |chunk|
    ensures m + chunk[..q] == (m + chunk[..p]) + chunk[p..q]
  {
  }

  lemma FilledBlock(f: Transform, h: Digest, m: seq<Byte>, data: seq<Byte>)
    requires |m| % 64 + |data| == 64
    ensures |m + data| % 64 == 0 && Fold(f, h, m + data) == f(Fold(f, h, Whole(m)), Tail(m) + data)
  {
    assert m + data == Whole(m) + (Tail(m) + data);
    FoldAppend(f, h, Whole(m), Tail(m) + data);
    DivModIs(|m + data|, 64, |m| / 64 + 1, 0);
  }

  /** Padding that fits into the last block. */
  lemma PaddedInBlock(f: Transform, h: Digest, m: seq<Byte>)
    requires |m| % 64 <= 55
    ensures |Padded(m)| % 64 == 0
    ensures |Tail(m) + [0x80 as Byte] + Zeros(55 - |m| % 64) + LengthBytes(|m|)| == 64
    ensures Fold(f, h, Padded(m)) ==
      f(Fold(f, h, Whole(m)), Tail(m) + [0x80 as Byte] + Zeros(55 - |m| % 64) + LengthBytes(|m|))
  {
    var data := [0x80 as Byte] + Zeros(55 - |m| % 64) + LengthBytes(|m|);
    FilledBlock(f, h, m, data);
    assert Padded(m) == m + data;
    assert Tail(m) + data == Tail(m) + [0x80 as Byte] + Zeros(55 - |m| % 64) + LengthBytes(|m|);
  }

  lemma TwoBlocks(m: seq<Byte>)
    requires |m| % 64 > 55
    ensures Padded(m) == m + ([0x80 as Byte] + Zeros(63 - |m| % 64)) + (Zeros(56) + LengthBytes(|m|))
  {
    assert Zeros(119 - |m| % 64) == Zeros(63 - |m| % 64) + Zeros(56);
  }

  /** Padding that needs one more block. */
  lemma PaddedInTwo(f: Transform, h: Digest, m: seq<Byte>, first: seq<Byte>, last: seq<Byte>)
    requires |m| % 64 > 55
    requires first == Tail(m) + [0x80 as Byte] + Zeros(63 - |m| % 64) && last == Zeros(56) + LengthBytes(|m|)
    ensures |Padded(m)| % 64 == 0 && |first| == |last| == 64
    ensures Fold(f, h, Padded(m)) == f(f(Fold(f, h, Whole(m)), first), last)
  {
    var data := [0x80 as Byte] + Zeros(63 - |m| % 64);
    assert first == Tail(m) + data;
    FilledBlock(f, h, m, data);
    FoldAppend(f, h, m + data, last);
    TwoBlocks(m);
    PaddedLength(m, 0);
  }

  lemma EncodedLetters()
    ensures Encode(Digest(0x98ab74d1, 0xf5d977d2, 0x2c1c61a5, 0x9f9d419f)) ==
      [0xd1, 0x74, 0xab, 0x98, 0xd2, 0x77, 0xd9, 0xf5, 0xa5, 0x61, 0x1c, 0x2c, 0x9f, 0x41, 0x9d, 0x9f]
  {
    BytesOfWord(0x98ab74d1, 0xd1, 0x74, 0xab, 0x98);
    BytesOfWord(0xf5d977d2, 0xd2, 0x77, 0xd9, 0xf5);
    BytesOfWord(0x2c1c61a5, 0xa5, 0x61, 0x1c, 0x2c);
    BytesOfWord(0x9f9d419f, 0x9f, 0x41, 0x9d, 0x9f);
  }

  lemma LengthWords(block: seq<Byte>) returns (m: seq<bv32>)
    requires block == Zeros(56) + [0xf0, 1] + Zeros(6)
    ensures |block| == 64 && Read(block, m) && Short(m, 0, 496)
  {
    m := ReadWords(block);
    ZeroWord(block, m, 0);
    WordIs(block, m, 14, 0x000001f0, 0xf0, 1, 0, 0);
    ShortWords(block, m, 0, 496);
  }

  lemma HashOfFirstBlock(f: Transform, block: seq<Byte>)
    requires IsMd5(f) && |block| == 64 && Alphanumeric(block) && block[62] == 0x80 && block[63] == 0
    ensures f(INIT, block) == Digest(0x83fd320b, 0xdefbe5cf, 0xa9b1642f, 0xfa6f932a)
  {
    var m := FirstWords(block);
    HashOfLetters(m);
    assert Asked(INIT, block, m);
  }

  lemma HashOfLastBlock(f: Transform, h: Digest, block: seq<Byte>)
    requires IsMd5(f) && block == Zeros(56) + [0xf0, 1] + Zeros(6)
    requires h == Digest(0x83fd320b, 0xdefbe5cf, 0xa9b1642f, 0xfa6f932a)
    ensures f(h, block) == Digest(0x98ab74d1, 0xf5d977d2, 0x2c1c61a5, 0x9f9d419f)
  {
    var m := LengthWords(block);
    HashOfLength(m);
    assert Asked(h, block, m);
  }

  /** The digest of the letters and digits, which needs two blocks. */
  lemma SumOfLetters(f: Transform, m: seq<Byte>)
    requires IsMd5(f) && Alphanumeric(m) && |m| == 62
    ensures Sum(f, m) ==
      [0xd1, 0x74, 0xab, 0x98, 0xd2, 0x77, 0xd9, 0xf5, 0xa5, 0x61, 0x1c, 0x2c, 0x9f, 0x41, 0x9d, 0x9f]
  {
    var first, last := m + [0x80, 0], Zeros(56) + [0xf0, 1] + Zeros(6);
    assert Whole(m) == [] && Tail(m) == m;
    assert first == Tail(m) + [0x80 as Byte] + Zeros(63 - |m| % 64);
    assert last == Zeros(56) + LengthBytes(|m|);
    PaddedInTwo(f, INIT, m, first, last);
    HashOfFirstBlock(f, first);
    HashOfLastBlock(f, f(INIT, first), last);
    EncodedLetters();
  }

  method HashBytes(h: Digest, block: seq<Byte>, ghost f: Transform) returns (r: Digest)
    requires IsMd5(f) && |block| == 64
    ensures r == f(h, block)
  {
    var m := WordsOf(block);
    assert Asked(h, block, m);
    r := HashWords(h, m);
  }

  class Context {
    var buf: Digest
    var low: int
    var high: int
    const input: array<Byte>
    ghost const f: Transform

    /** The context after a message: whole blocks hashed, the rest buffered, the bytes counted modulo 2^64. */
    ghost predicate Holds(m: seq<Byte>)
      reads this, input
    {
      && IsMd5(f) && input.Length == 64 && 0 <= low < WORD && 0 <= high < WORD
      && low + WORD * high == |m| % LONG
      && buf == Fold(f, INIT, Whole(m))
      && input[..|m| % 64] == Tail(m)
    }

    constructor (ghost f: Transform)
      requires IsMd5(f)
      ensures Holds([]) && fresh(input) && this.f == f
    {
      this.f := f;
      buf := INIT;
      low, high := 0, 0;
      input := new Byte[64](_ => 0 as Byte);
    }

    method Copy(at: nat, data: seq<Byte>)
      requires at + |data| <= input.Length
      modifies input
      ensures input[..] == old(input[..at]) + data + old(input[at + |data|..])
    {
      forall i | 0 <= i < |data| {
        input[at + i] := data[i];
      }
    }

    method Count(len: int)
      modifies `low, `high
      ensures low == Low(old(low), len) && high == High(old(low), old(high), len)
    {
      var t := low;
      low := (t + len) % WORD;
      if low < t {
        high := (high + 1) % WORD;
      }
    }

    method HashInput()
      requires IsMd5(f) && input.Length == 64
      modifies `buf
      ensures buf == f(old(buf), input[..])
    {
      buf := HashBytes(buf, input[..], f);
    }

    /** Fill the buffer up to a block and hash it. */
    method FillInput(data: seq<Byte>, ghost m: seq<Byte>)
      requires IsMd5(f) && input.Length == 64 && buf == Fold(f, INIT, Whole(m)) && input[..|m| % 64] == Tail(m)
      requires |m| % 64 + |data| == 64
      modifies input, `buf
      ensures |m + data| % 64 == 0 && buf == Fold(f, INIT, m + data)
    {
      Copy(64 - |data|, data);
      assert input[..] == Tail(m) + data;
      FilledBlock(f, INIT, m, data);
      HashInput();
    }

    /** Hash one more block. */
    method HashBlock(block: seq<Byte>, ghost done: seq<Byte>)
      requires IsMd5(f) && input.Length == |block| == 64 && |done| % 64 == 0 && buf == Fold(f, INIT, done)
      modifies input, `buf
      ensures |done + block| % 64 == 0 && buf == Fold(f, INIT, done + block)
    {
      Copy(0, block);
      assert input[..] == block;
      FoldAppend(f, INIT, done, block);
      DivModIs(|done + block|, 64, |done| / 64 + 1, 0);
      HashInput();
    }

    /** Buffer what is left after the last whole block. */
    method KeepRest(rest: seq<Byte>, ghost done: seq<Byte>)
      requires input.Length == 64 && |rest| < 64 && |done| % 64 == 0 && buf == Fold(f, INIT, done)
      modifies input
      ensures buf == Fold(f, INIT, Whole(done + rest)) && input[..|done + rest| % 64] == Tail(done + rest)
    {
      Copy(0, rest);
      WholeAndRest(done, rest);
    }

    /** Hash the whole blocks of a chunk and buffer what is left. */
    method HashBlocks(chunk: seq<Byte>, start: nat, ghost m: seq<Byte>)
      requires IsMd5(f) && input.Length == 64 && start <= |chunk|
      requires |m + chunk[..start]| % 64 == 0 && buf == Fold(f, INIT, m + chunk[..start])
      modifies input, `buf
      ensures buf == Fold(f, INIT, Whole(m + chunk)) && input[..|m + chunk| % 64] == Tail(m + chunk)
    {
      var p := start;
      while |chunk| - p >= 64
        invariant p <= |chunk| && |m + chunk[..p]| % 64 == 0 && buf == Fold(f, INIT, m + chunk[..p])
      {
        Extended(m, chunk, p, p + 64);
        HashBlock(chunk[p..p + 64], m + chunk[..p]);
        p := p + 64;
      }
      KeepRest(chunk[p..], m + chunk[..p]);
      Extended(m, chunk, p, |chunk|);
      assert chunk[..|chunk|] == chunk && chunk[p..|chunk|] == chunk[p..];
    }

    /** Buffer a chunk that does not fill the block. */
    method KeepChunk(at: nat, chunk: seq<Byte>, ghost m: seq<Byte>)
      requires input.Length == 64 && at == |m| % 64
      requires buf == Fold(f, INIT, Whole(m)) && input[..|m| % 64] == Tail(m) && |m| % 64 + |chunk| < 64
      modifies input
      ensures buf == Fold(f, INIT, Whole(m + chunk)) && input[..|m + chunk| % 64] == Tail(m + chunk)
    {
      SameBlock(m, chunk);
      Copy(at, chunk);
    }

    /** Any next piece of the message. */
    method Update(chunk: seq<Byte>, ghost m: seq<Byte>)
      requires Holds(m) && |chunk| < WORD
      modifies this, input
      ensures Holds(m + chunk)
    {
      Counted(low, high, |chunk|, |m|);
      Buffered(low, high, |m|);
      var t := low;
      Count(|chunk|);
      t := 64 - t % 64;
      if t > |chunk| {
        KeepChunk(64 - t, chunk, m);
        return;
      }
      FillInput(chunk[..t], m);
      HashBlocks(chunk, t, m);
    }

    /** The first padding byte, after the n bytes in the buffer, and zeros up to position end. */
    method Pad(n: nat, end: nat)
      requires input.Length == 64 && n < end <= 64
      modifies input
      ensures input[..] == old(input[..n]) + [0x80 as Byte] + Zeros(end - n - 1) + old(input[end..])
    {
      Copy(n, [0x80 as Byte]);
      Copy(n + 1, Zeros(end - n - 1));
    }

    /** The length in bits at the end of the block. */
    method PutLength(ghost n: nat)
      requires input.Length == 64 && 0 <= low < WORD && 0 <= high < WORD && low + WORD * high == n % LONG
      modifies input
      ensures input[..] == old(input[..56]) + LengthBytes(n)
    {
      BitLength(low, high, n);
      Copy(56, WordBytes(low * 8 % WORD));
      Copy(60, WordBytes(high * 8 % WORD + low / 0x2000_0000));
    }

    method FinishInBlock(count: nat, ghost m: seq<Byte>)
      requires Holds(m) && count == |m| % 64 <= 55
      modifies `buf, input
      ensures |Padded(m)| % 64 == 0 && buf == Fold(f, INIT, Padded(m))
    {
      PaddedInBlock(f, INIT, m);
      Pad(count, 56);
      assert input[..56] == Tail(m) + [0x80 as Byte] + Zeros(55 - count);
      PutLength(|m|);
      HashInput();
    }

    /** A block of zeros with the length. */
    method HashLength(ghost n: nat)
      requires IsMd5(f) && input.Length == 64
      requires 0 <= low < WORD && 0 <= high < WORD && low + WORD * high == n % LONG
      modifies `buf, input
      ensures buf == f(old(buf), Zeros(56) + LengthBytes(n))
    {
      Copy(0, Zeros(56));
      assert input[..56] == Zeros(56);
      PutLength(n);
      HashInput();
    }

    method FinishInTwo(count: nat, ghost m: seq<Byte>)
      requires Holds(m) && count == |m| % 64 > 55
      modifies `buf, input
      ensures |Padded(m)| % 64 == 0 && buf == Fold(f, INIT, Padded(m))
    {
      ghost var first, last := Tail(m) + [0x80 as Byte] + Zeros(63 - count), Zeros(56) + LengthBytes(|m|);
      PaddedInTwo(f, INIT, m, first, last);
      Pad(count, 64);
      assert input[..] == first;
      HashInput();
      HashLength(|m|);
    }

    /** Pad the message and hash the last block or two. */
    method Finish(ghost m: seq<Byte>)
      requires Holds(m)
      modifies `buf, input
      ensures |Padded(m)| % 64 == 0 && buf == Fold(f, INIT, Padded(m))
    {
      Buffered(low, high, |m|);
      var count := low % 64;
      if 55 - count < 0 {
        FinishInTwo(count, m);
      } else {
        FinishInBlock(count, m);
      }
    }

    /** The digest of the whole message; the context is cleared. */
    method Final(ghost m: seq<Byte>) returns (digest: seq<Byte>)
      requires Holds(m)
      modifies this, input
      ensures digest == Sum(f, m)
      ensures buf == Digest(0, 0, 0, 0) && low == high == 0 && input[..] == Zeros(64)
    {
      Finish(m);
      digest := Encode(buf);
      buf := Digest(0, 0, 0, 0);
      low, high := 0, 0;
      Copy(0, Zeros(64));
    }
  }

  method SumOf(m: seq<Byte>, ghost f: Transform) returns (digest: seq<Byte>)
    requires IsMd5(f) && |m| < WORD
    ensures digest == Sum(f, m)
  {
    var c := new Context(f);
    c.Update(m, []);
    assert [] + m == m;
    digest := c.Final(m);
  }

  /** The bytes of a buffer that an update with a 32-bit length sees. */
  function Seen(buf: seq<Byte>): (part: seq<Byte>)
    ensures |part| < WORD && (|buf| < WORD ==> part == buf)
  {
    buf[..|buf| % WORD]
  }

  /** The digest of a buffer; the size is cut to 32 bits on its way to the update. */
  method ComputeSum(buf: seq<Byte>) returns (digest: seq<Byte>)
    ensures digest == Sum(MD5, buf[..|buf| % 0x1_0000_0000])
  {
    Md5IsMd5();
    digest := SumOf(Seen(buf), MD5);
  }

  function Flatten(chunks: seq<seq<Byte>>): seq<Byte> {
    if chunks == [] then [] else Flatten(chunks[..|chunks| - 1]) + chunks[|chunks| - 1]
  }

  lemma FlattenOneMore(chunks: seq<seq<Byte>>, i: nat)
    requires i < |chunks|
    ensures Flatten(chunks[..i + 1]) == Flatten(chunks[..i]) + chunks[i]
  {
    assert chunks[..i + 1][..i] == chunks[..i];
  }

  /** However a message is cut into chunks, the digest is that of the message. */
  method SumOfChunks(chunks: seq<seq<Byte>>, ghost f: Transform) returns (digest: seq<Byte>)
    requires IsMd5(f) && forall i | 0 <= i < |chunks| :: |chunks[i]| < WORD
    ensures digest == Sum(f, Flatten(chunks))
  {
    var c := new Context(f);
    for i := 0 to |chunks|
      invariant c.f == f && c.Holds(Flatten(chunks[..i])) && fresh(c) && fresh(c.input)
    {
      FlattenOneMore(chunks, i);
      c.Update(chunks[i], Flatten(chunks[..i]));
    }
    assert chunks[..|chunks|] == chunks;
    digest := c.Final(Flatten(chunks));
  }
}
