/**
 * The transformation of one block by MD5 (src/md5.cpp): 64 steps on four registers, in the order of section 3.4 of
 * RFC 1321, and the hashes of the blocks of three of the messages in its appendix A.5.
 */
module Md5Transform {

  /** The four words of the running hash. */
  datatype Digest = Digest(a: bv32, b: bv32, c: bv32, d: bv32)

  const INIT := Digest(0x67452301, 0xefcdab89, 0x98badcfe, 0x10325476)

  // The auxiliary functions as the program computes them.

  function F1(x: bv32, y: bv32, z: bv32): bv32 {
    z ^ (x & (y ^ z))
  }

  function F2(x: bv32, y: bv32, z: bv32): bv32 {
    F1(z, x, y)
  }

  function F3(x: bv32, y: bv32, z: bv32): bv32 {
    x ^ y ^ z
  }

  function F4(x: bv32, y: bv32, z: bv32): bv32 {
    y ^ (x | !z)
  }

  /** The first two are the functions F and G of section 3.4 of RFC 1321; H and I are computed as written there. */
  lemma AuxiliaryFunctions(x: bv32, y: bv32, z: bv32)
    ensures F1(x, y, z) == (x & y) | (!x & z)
    ensures F2(x, y, z) == (x & z) | (y & !z)
  {
  }

  /** One step: a register mixed with a message word and its constant, rotated, and added to another. */
  function Mix(f: bv32, w: bv32, x: bv32, v: bv32, s: bv32): bv32
    requires 0 < s < 32
  {
    var t := w + (f + v);
    ((t << s) | (t >> (32 - s))) + x
  }

  // Four steps of each round, and the rounds.

  function Four1(h: Digest, v0: bv32, v1: bv32, v2: bv32, v3: bv32): Digest {
    var a := Mix(F1(h.b, h.c, h.d), h.a, h.b, v0, 7);
    var d := Mix(F1(a, h.b, h.c), h.d, a, v1, 12);
    var c := Mix(F1(d, a, h.b), h.c, d, v2, 17);
    Digest(a, Mix(F1(c, d, a), h.b, c, v3, 22), c, d)
  }

  function Four2(h: Digest, v0: bv32, v1: bv32, v2: bv32, v3: bv32): Digest {
    var a := Mix(F2(h.b, h.c, h.d), h.a, h.b, v0, 5);
    var d := Mix(F2(a, h.b, h.c), h.d, a, v1, 9);
    var c := Mix(F2(d, a, h.b), h.c, d, v2, 14);
    Digest(a, Mix(F2(c, d, a), h.b, c, v3, 20), c, d)
  }

  function Four3(h: Digest, v0: bv32, v1: bv32, v2: bv32, v3: bv32): Digest {
    var a := Mix(F3(h.b, h.c, h.d), h.a, h.b, v0, 4);
    var d := Mix(F3(a, h.b, h.c), h.d, a, v1, 11);
    var c := Mix(F3(d, a, h.b), h.c, d, v2, 16);
    Digest(a, Mix(F3(c, d, a), h.b, c, v3, 23), c, d)
  }

  function Four4(h: Digest, v0: bv32, v1: bv32, v2: bv32, v3: bv32): Digest {
    var a := Mix(F4(h.b, h.c, h.d), h.a, h.b, v0, 6);
    var d := Mix(F4(a, h.b, h.c), h.d, a, v1, 10);
    var c := Mix(F4(d, a, h.b), h.c, d, v2, 15);
    Digest(a, Mix(F4(c, d, a), h.b, c, v3, 21), c, d)
  }

  function Round1(h: Digest, m: seq<bv32>): Digest
    requires |m| == 16
  {
    var h1 := Four1(h, m[0] + 0xd76aa478, m[1] + 0xe8c7b756, m[2] + 0x242070db, m[3] + 0xc1bdceee);
    var h2 := Four1(h1, m[4] + 0xf57c0faf, m[5] + 0x4787c62a, m[6] + 0xa8304613, m[7] + 0xfd469501);
    var h3 := Four1(h2, m[8] + 0x698098d8, m[9] + 0x8b44f7af, m[10] + 0xffff5bb1, m[11] + 0x895cd7be);
    Four1(h3, m[12] + 0x6b901122, m[13] + 0xfd987193, m[14] + 0xa679438e, m[15] + 0x49b40821)
  }

  function Round2(h: Digest, m: seq<bv32>): Digest
    requires |m| == 16
  {
    var h1 := Four2(h, m[1] + 0xf61e2562, m[6] + 0xc040b340, m[11] + 0x265e5a51, m[0] + 0xe9b6c7aa);
    var h2 := Four2(h1, m[5] + 0xd62f105d, m[10] + 0x02441453, m[15] + 0xd8a1e681, m[4] + 0xe7d3fbc8);
    var h3 := Four2(h2, m[9] + 0x21e1cde6, m[14] + 0xc33707d6, m[3] + 0xf4d50d87, m[8] + 0x455a14ed);
    Four2(h3, m[13] + 0xa9e3e905, m[2] + 0xfcefa3f8, m[7] + 0x676f02d9, m[12] + 0x8d2a4c8a)
  }

  function Round3(h: Digest, m: seq<bv32>): Digest
    requires |m| == 16
  {
    var h1 := Four3(h, m[5] + 0xfffa3942, m[8] + 0x8771f681, m[11] + 0x6d9d6122, m[14] + 0xfde5380c);
    var h2 := Four3(h1, m[1] + 0xa4beea44, m[4] + 0x4bdecfa9, m[7] + 0xf6bb4b60, m[10] + 0xbebfbc70);
    var h3 := Four3(h2, m[13] + 0x289b7ec6, m[0] + 0xeaa127fa, m[3] + 0xd4ef3085, m[6] + 0x04881d05);
    Four3(h3, m[9] + 0xd9d4d039, m[12] + 0xe6db99e5, m[15] + 0x1fa27cf8, m[2] + 0xc4ac5665)
  }

  function Round4(h: Digest, m: seq<bv32>): Digest
    requires |m| == 16
  {
    var h1 := Four4(h, m[0] + 0xf4292244, m[7] + 0x432aff97, m[14] + 0xab9423a7, m[5] + 0xfc93a039);
    var h2 := Four4(h1, m[12] + 0x655b59c3, m[3] + 0x8f0ccc92, m[10] + 0xffeff47d, m[1] + 0x85845dd1);
    var h3 := Four4(h2, m[8] + 0x6fa87e4f, m[15] + 0xfe2ce6e0, m[6] + 0xa3014314, m[13] + 0x4e0811a1);
    Four4(h3, m[4] + 0xf7537e82, m[11] + 0xbd3af235, m[2] + 0x2ad7d2bb, m[9] + 0xeb86d391)
  }

  function Added(h: Digest, r: Digest): Digest {
    Digest(h.a + r.a, h.b + r.b, h.c + r.c, h.d + r.d)
  }

  /** The hash after one more block, given as sixteen words. */
  function Hashed(h: Digest, m: seq<bv32>): Digest
    requires |m| == 16
  {
    Added(h, Round4(Round3(Round2(Round1(h, m), m), m), m))
  }

  // The same as the program performs it, step by step.

  method Steps1(h: Digest, m: seq<bv32>) returns (r: Digest)
    requires |m| == 16
    ensures r == Round1(h, m)
  {
    var a, b, c, d := h.a, h.b, h.c, h.d;
    a := Mix(F1(b, c, d), a, b, m[0] + 0xd76aa478, 7);
    d := Mix(F1(a, b, c), d, a, m[1] + 0xe8c7b756, 12);
    c := Mix(F1(d, a, b), c, d, m[2] + 0x242070db, 17);
    b := Mix(F1(c, d, a), b, c, m[3] + 0xc1bdceee, 22);
    a := Mix(F1(b, c, d), a, b, m[4] + 0xf57c0faf, 7);
    d := Mix(F1(a, b, c), d, a, m[5] + 0x4787c62a, 12);
    c := Mix(F1(d, a, b), c, d, m[6] + 0xa8304613, 17);
    b := Mix(F1(c, d, a), b, c, m[7] + 0xfd469501, 22);
    a := Mix(F1(b, c, d), a, b, m[8] + 0x698098d8, 7);
    d := Mix(F1(a, b, c), d, a, m[9] + 0x8b44f7af, 12);
    c := Mix(F1(d, a, b), c, d, m[10] + 0xffff5bb1, 17);
    b := Mix(F1(c, d, a), b, c, m[11] + 0x895cd7be, 22);
    a := Mix(F1(b, c, d), a, b, m[12] + 0x6b901122, 7);
    d := Mix(F1(a, b, c), d, a, m[13] + 0xfd987193, 12);
    c := Mix(F1(d, a, b), c, d, m[14] + 0xa679438e, 17);
    b := Mix(F1(c, d, a), b, c, m[15] + 0x49b40821, 22);
    r := Digest(a, b, c, d);
  }

  method Steps2(h: Digest, m: seq<bv32>) returns (r: Digest)
    requires |m| == 16
    ensures r == Round2(h, m)
  {
    var a, b, c, d := h.a, h.b, h.c, h.d;
    a := Mix(F2(b, c, d), a, b, m[1] + 0xf61e2562, 5);
    d := Mix(F2(a, b, c), d, a, m[6] + 0xc040b340, 9);
    c := Mix(F2(d, a, b), c, d, m[11] + 0x265e5a51, 14);
    b := Mix(F2(c, d, a), b, c, m[0] + 0xe9b6c7aa, 20);
    a := Mix(F2(b, c, d), a, b, m[5] + 0xd62f105d, 5);
    d := Mix(F2(a, b, c), d, a, m[10] + 0x02441453, 9);
    c := Mix(F2(d, a, b), c, d, m[15] + 0xd8a1e681, 14);
    b := Mix(F2(c, d, a), b, c, m[4] + 0xe7d3fbc8, 20);
    a := Mix(F2(b, c, d), a, b, m[9] + 0x21e1cde6, 5);
    d := Mix(F2(a, b, c), d, a, m[14] + 0xc33707d6, 9);
    c := Mix(F2(d, a, b), c, d, m[3] + 0xf4d50d87, 14);
    b := Mix(F2(c, d, a), b, c, m[8] + 0x455a14ed, 20);
    a := Mix(F2(b, c, d), a, b, m[13] + 0xa9e3e905, 5);
    d := Mix(F2(a, b, c), d, a, m[2] + 0xfcefa3f8, 9);
    c := Mix(F2(d, a, b), c, d, m[7] + 0x676f02d9, 14);
    b := Mix(F2(c, d, a), b, c, m[12] + 0x8d2a4c8a, 20);
    r := Digest(a, b, c, d);
  }

  method Steps3(h: Digest, m: seq<bv32>) returns (r: Digest)
    requires |m| == 16
    ensures r == Round3(h, m)
  {
    var a, b, c, d := h.a, h.b, h.c, h.d;
    a := Mix(F3(b, c, d), a, b, m[5] + 0xfffa3942, 4);
    d := Mix(F3(a, b, c), d, a, m[8] + 0x8771f681, 11);
    c := Mix(F3(d, a, b), c, d, m[11] + 0x6d9d6122, 16);
    b := Mix(F3(c, d, a), b, c, m[14] + 0xfde5380c, 23);
    a := Mix(F3(b, c, d), a, b, m[1] + 0xa4beea44, 4);
    d := Mix(F3(a, b, c), d, a, m[4] + 0x4bdecfa9, 11);
    c := Mix(F3(d, a, b), c, d, m[7] + 0xf6bb4b60, 16);
    b := Mix(F3(c, d, a), b, c, m[10] + 0xbebfbc70, 23);
    a := Mix(F3(b, c, d), a, b, m[13] + 0x289b7ec6, 4);
    d := Mix(F3(a, b, c), d, a, m[0] + 0xeaa127fa, 11);
    c := Mix(F3(d, a, b), c, d, m[3] + 0xd4ef3085, 16);
    b := Mix(F3(c, d, a), b, c, m[6] + 0x04881d05, 23);
    a := Mix(F3(b, c, d), a, b, m[9] + 0xd9d4d039, 4);
    d := Mix(F3(a, b, c), d, a, m[12] + 0xe6db99e5, 11);
    c := Mix(F3(d, a, b), c, d, m[15] + 0x1fa27cf8, 16);
    b := Mix(F3(c, d, a), b, c, m[2] + 0xc4ac5665, 23);
    r := Digest(a, b, c, d);
  }

  method Steps4(h: Digest, m: seq<bv32>) returns (r: Digest)
    requires |m| == 16
    ensures r == Round4(h, m)
  {
    var a, b, c, d := h.a, h.b, h.c, h.d;
    a := Mix(F4(b, c, d), a, b, m[0] + 0xf4292244, 6);
    d := Mix(F4(a, b, c), d, a, m[7] + 0x432aff97, 10);
    c := Mix(F4(d, a, b), c, d, m[14] + 0xab9423a7, 15);
    b := Mix(F4(c, d, a), b, c, m[5] + 0xfc93a039, 21);
    a := Mix(F4(b, c, d), a, b, m[12] + 0x655b59c3, 6);
    d := Mix(F4(a, b, c), d, a, m[3] + 0x8f0ccc92, 10);
    c := Mix(F4(d, a, b), c, d, m[10] + 0xffeff47d, 15);
    b := Mix(F4(c, d, a), b, c, m[1] + 0x85845dd1, 21);
    a := Mix(F4(b, c, d), a, b, m[8] + 0x6fa87e4f, 6);
    d := Mix(F4(a, b, c), d, a, m[15] + 0xfe2ce6e0, 10);
    c := Mix(F4(d, a, b), c, d, m[6] + 0xa3014314, 15);
    b := Mix(F4(c, d, a), b, c, m[13] + 0x4e0811a1, 21);
    a := Mix(F4(b, c, d), a, b, m[4] + 0xf7537e82, 6);
    d := Mix(F4(a, b, c), d, a, m[11] + 0xbd3af235, 10);
    c := Mix(F4(d, a, b), c, d, m[2] + 0x2ad7d2bb, 15);
    b := Mix(F4(c, d, a), b, c, m[9] + 0xeb86d391, 21);
    r := Digest(a, b, c, d);
  }

  method HashWords(h: Digest, m: seq<bv32>) returns (r: Digest)
    requires |m| == 16
    ensures r == Hashed(h, m)
  {
    r := Steps1(h, m);
    r := Steps2(r, m);
    r := Steps3(r, m);
    r := Steps4(r, m);
    r := Added(h, r);
  }

  // Appendix A.5 of RFC 1321.

  /** The words of a block with at most its first word and the length. */
  predicate Short(m: seq<bv32>, first: bv32, bits: bv32) {
    && |m| == 16 && m[0] == first && m[1] == m[2] == m[3] == m[4] == m[5] == m[6] == m[7] == 0
    && m[8] == m[9] == m[10] == m[11] == m[12] == m[13] == 0 && m[14] == bits && m[15] == 0
  }

  /** The words of "ABCDEFGHIJKLMNOPQRSTUVWXYZabcdefghijklmnopqrstuvwxyz0123456789" and the padding byte. */
  predicate Letters(m: seq<bv32>) {
    && |m| == 16 && m[0] == 0x44434241 && m[1] == 0x48474645 && m[2] == 0x4c4b4a49 && m[3] == 0x504f4e4d
    && m[4] == 0x54535251 && m[5] == 0x58575655 && m[6] == 0x62615a59 && m[7] == 0x66656463
    && m[8] == 0x6a696867 && m[9] == 0x6e6d6c6b && m[10] == 0x7271706f && m[11] == 0x76757473
    && m[12] == 0x7a797877 && m[13] == 0x33323130 && m[14] == 0x37363534 && m[15] == 0x00803938
  }

  /** The block of the empty message. */
  lemma HashOfNothing(m: seq<bv32>)
    requires Short(m, 0x80, 0)
    ensures Hashed(INIT, m) ==
            Digest(0xd98c1dd4, 0x04b2008f, 0x980980e9, 0x7e42f8ec)
  {
    var h0 := INIT;
    var h1 := Digest(0xf56c7cf1, 0xd6819c6a, 0x5aa53f75, 0x374943a7);
    var h2 := Digest(0x13707036, 0xa2205f1f, 0x1c31c384, 0xae7813db);
    var h3 := Digest(0x3f55edfd, 0xca7d2dbd, 0x68d84ea2, 0x22a31f54);
    var h4 := Digest(0x7246fad3, 0x14e45506, 0xff4ea3eb, 0x6e10a476);
    assert Round1(h0, m) == h1 && Round2(h1, m) == h2 && Round3(h2, m) == h3 && Round4(h3, m) == h4;
  }

  /** The block of the message "abc". */
  lemma HashOfAbc(m: seq<bv32>)
    requires Short(m, 0x8063_6261, 24)
    ensures Hashed(INIT, m) ==
            Digest(0x98500190, 0xb04fd23c, 0x7d3f96d6, 0x727fe128)
  {
    var h0 := INIT;
    var h1 := Digest(0xdda9b9a6, 0x72aff2e0, 0xe396856b, 0xa1051895);
    var h2 := Digest(0x790a77fb, 0x726342d3, 0xa62884aa, 0x9f47e4f8);
    var h3 := Digest(0x7f2e507b, 0x7beb9700, 0x8fae6399, 0x99d9679d);
    var h4 := Digest(0x310ade8f, 0xc08226b3, 0xe484b9d8, 0x624d8cb2);
    assert Round1(h0, m) == h1 && Round2(h1, m) == h2 && Round3(h2, m) == h3 && Round4(h3, m) == h4;
  }

  /** The first block of the letters and digits: sixteen different words. */
  lemma HashOfLetters(m: seq<bv32>)
    requires Letters(m)
    ensures Hashed(INIT, m) ==
            Digest(0x83fd320b, 0xdefbe5cf, 0xa9b1642f, 0xfa6f932a)
  {
    var h0 := INIT;
    var h1 := Digest(0x3cbdcd45, 0x5d38e690, 0xfa148c8a, 0xb8dec763);
    var h2 := Digest(0x9b085fa9, 0xdd789ecc, 0x5993248f, 0x4400a9bd);
    var h3 := Digest(0x2dbee21d, 0xf166f514, 0xee46e961, 0xe95c3a43);
    var h4 := Digest(0x1cb80f0a, 0xef2e3a46, 0x10f68731, 0xea3d3eb4);
    assert Round1(h0, m) == h1 && Round2(h1, m) == h2 && Round3(h2, m) == h3 && Round4(h3, m) == h4;
  }

  /** The second: only its length. */
  lemma HashOfLength(m: seq<bv32>)
    requires Short(m, 0, 496)
    ensures Hashed(Digest(0x83fd320b, 0xdefbe5cf, 0xa9b1642f, 0xfa6f932a), m) ==
            Digest(0x98ab74d1, 0xf5d977d2, 0x2c1c61a5, 0x9f9d419f)
  {
    var h0 := Digest(0x83fd320b, 0xdefbe5cf, 0xa9b1642f, 0xfa6f932a);
    var h1 := Digest(0xa70737da, 0xa36f556f, 0x96f6586e, 0x5473f8a7);
    var h2 := Digest(0x24eba695, 0x9c03e2e8, 0x10c42a2f, 0x4bd0378b);
    var h3 := Digest(0x54c9eb3a, 0x79c0710a, 0x2ec86f72, 0xd4d9c6ac);
    var h4 := Digest(0x14ae42c6, 0x16dd9203, 0x826afd76, 0xa52dae75);
    assert Round1(h0, m) == h1 && Round2(h1, m) == h2 && Round3(h2, m) == h3 && Round4(h3, m) == h4;
  }
}
