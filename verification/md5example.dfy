/** A worked example of section A.5 of RFC 1321, operation by operation: it fixes every entry of the tables. */
module Md5Example {
  import opened Bytes
  import opened BlockStream
  import opened Md5Spec

  /** "abc", and the same padded. */
  const ABC: seq<byte> := [0x61, 0x62, 0x63]
  const PADDED: seq<byte> := [0x61, 0x62, 0x63, 0x80] + ZeroBytes(52) + [24, 0, 0, 0] + ZeroBytes(4)

  lemma LengthField()
    ensures LittleEndianBytes(24, 8) == [24, 0, 0, 0] + ZeroBytes(4)
  {
    assert LittleEndianBytes(24, 8) == [ToByte(24)] + LittleEndianBytes(0, 7);
    assert LittleEndianBytes(0, 7) == [ToByte(0), ToByte(0), ToByte(0)] + LittleEndianBytes(0, 4);
    assert LittleEndianBytes(0, 4) == [ToByte(0), ToByte(0), ToByte(0), ToByte(0)];
  }

  lemma PaddedWhole()
    ensures |PADDED| == 64 && Chop(ABC + Padding(3, LittleEndianBytes(24, 8))) == [PADDED]
  {
    hide LittleEndianBytes, Chop;
    LengthField();
    assert ABC + Padding(3, LittleEndianBytes(24, 8)) == PADDED;
    ChopOne(PADDED);
  }

  /** The words of that block. */
  predicate Holds(m: seq<byte>) {
    |m| == 64 && BlockWord(m, 0) == 0x80636261 && BlockWord(m, 14) == 24
    && forall k :: 0 < k < 16 && k != 14 ==> BlockWord(m, k) == 0
  }

  lemma BlockWords()
    ensures Holds(PADDED)
  {
    forall k | 0 < k < 16 && k != 14 ensures BlockWord(PADDED, k) == 0 {
      assert PADDED[4 * k] == 0 && PADDED[4 * k + 1] == 0 && PADDED[4 * k + 2] == 0 && PADDED[4 * k + 3] == 0;
    }
  }

  function Mixed(i: nat, b: word, c: word, d: word): word {
    if i < 16 then F(b, c, d) else if i < 32 then G(b, c, d) else if i < 48 then H(b, c, d) else I(b, c, d)
  }

  /** Operation `i` uses these entries of the two tables. */
  predicate Uses(i: nat, t: word, s: shift) { i < 64 && T[i] == t && SHIFTS[i] == s }

  /** From the registers before operation `i` and the entries it uses, the registers after it. */
  lemma Then(m: seq<byte>, i: nat, a: word, b: word, c: word, d: word, x: word, t: word, s: shift, b': word)
    requires i < 64 && |m| == 64 && Operations(H0, m, i) == H4(a, b, c, d)
    requires BlockWord(m, Index(i)) == x && Uses(i, t, s)
    requires Add(b, RotL(Sum4(a, Mixed(i, b, c, d), x, t), s)) == b'
    ensures Operations(H0, m, i + 1) == H4(d, b', b, c)
  {
    hide BlockWord, Index, RotL, Sum4, F, G, H, I;
    assert Mix(i, H4(a, b, c, d)) == Mixed(i, b, c, d);
  }

  lemma Entries0To4()
    ensures Uses(0, 0xd76aa478, 7) && Uses(1, 0xe8c7b756, 12)
    ensures Uses(2, 0x242070db, 17) && Uses(3, 0xc1bdceee, 22)
  {
  }

  lemma Entries4To8()
    ensures Uses(4, 0xf57c0faf, 7) && Uses(5, 0x4787c62a, 12)
    ensures Uses(6, 0xa8304613, 17) && Uses(7, 0xfd469501, 22)
  {
  }

  lemma Entries8To12()
    ensures Uses(8, 0x698098d8, 7) && Uses(9, 0x8b44f7af, 12)
    ensures Uses(10, 0xffff5bb1, 17) && Uses(11, 0x895cd7be, 22)
  {
  }

  lemma Entries12To16()
    ensures Uses(12, 0x6b901122, 7) && Uses(13, 0xfd987193, 12)
    ensures Uses(14, 0xa679438e, 17) && Uses(15, 0x49b40821, 22)
  {
  }

  lemma Entries16To20()
    ensures Uses(16, 0xf61e2562, 5) && Uses(17, 0xc040b340, 9)
    ensures Uses(18, 0x265e5a51, 14) && Uses(19, 0xe9b6c7aa, 20)
  {
  }

  lemma Entries20To24()
    ensures Uses(20, 0xd62f105d, 5) && Uses(21, 0x02441453, 9)
    ensures Uses(22, 0xd8a1e681, 14) && Uses(23, 0xe7d3fbc8, 20)
  {
  }

  lemma Entries24To28()
    ensures Uses(24, 0x21e1cde6, 5) && Uses(25, 0xc33707d6, 9)
    ensures Uses(26, 0xf4d50d87, 14) && Uses(27, 0x455a14ed, 20)
  {
  }

  lemma Entries28To32()
    ensures Uses(28, 0xa9e3e905, 5) && Uses(29, 0xfcefa3f8, 9)
    ensures Uses(30, 0x676f02d9, 14) && Uses(31, 0x8d2a4c8a, 20)
  {
  }

  lemma Entries32To36()
    ensures Uses(32, 0xfffa3942, 4) && Uses(33, 0x8771f681, 11)
    ensures Uses(34, 0x6d9d6122, 16) && Uses(35, 0xfde5380c, 23)
  {
  }

  lemma Entries36To40()
    ensures Uses(36, 0xa4beea44, 4) && Uses(37, 0x4bdecfa9, 11)
    ensures Uses(38, 0xf6bb4b60, 16) && Uses(39, 0xbebfbc70, 23)
  {
  }

  lemma Entries40To44()
    ensures Uses(40, 0x289b7ec6, 4) && Uses(41, 0xeaa127fa, 11)
    ensures Uses(42, 0xd4ef3085, 16) && Uses(43, 0x04881d05, 23)
  {
  }

  lemma Entries44To48()
    ensures Uses(44, 0xd9d4d039, 4) && Uses(45, 0xe6db99e5, 11)
    ensures Uses(46, 0x1fa27cf8, 16) && Uses(47, 0xc4ac5665, 23)
  {
  }

  lemma Entries48To52()
    ensures Uses(48, 0xf4292244, 6) && Uses(49, 0x432aff97, 10)
    ensures Uses(50, 0xab9423a7, 15) && Uses(51, 0xfc93a039, 21)
  {
  }

  lemma Entries52To56()
    ensures Uses(52, 0x655b59c3, 6) && Uses(53, 0x8f0ccc92, 10)
    ensures Uses(54, 0xffeff47d, 15) && Uses(55, 0x85845dd1, 21)
  {
  }

  lemma Entries56To60()
    ensures Uses(56, 0x6fa87e4f, 6) && Uses(57, 0xfe2ce6e0, 10)
    ensures Uses(58, 0xa3014314, 15) && Uses(59, 0x4e0811a1, 21)
  {
  }

  lemma Entries60To64()
    ensures Uses(60, 0xf7537e82, 6) && Uses(61, 0xbd3af235, 10)
    ensures Uses(62, 0x2ad7d2bb, 15) && Uses(63, 0xeb86d391, 21)
  {
  }

  lemma Operations0To8(m: seq<byte>)
    requires Holds(m) && Operations(H0, m, 0) == H4(0x67452301, 0xefcdab89, 0x98badcfe, 0x10325476)
    ensures Operations(H0, m, 8) == H4(0xc73741ef, 0x928d99f6, 0x207dc67b, 0x8bac3051)
  {
    hide Operations, BlockWord, Uses;
    Entries0To4();
    Entries4To8();
    Then(m, 0, 0x67452301, 0xefcdab89, 0x98badcfe, 0x10325476, 0x80636261, 0xd76aa478, 7, 0xd6d117b4);
    Then(m, 1, 0x10325476, 0xd6d117b4, 0xefcdab89, 0x98badcfe, 0, 0xe8c7b756, 12, 0x344a8432);
    Then(m, 2, 0x98badcfe, 0x344a8432, 0xd6d117b4, 0xefcdab89, 0, 0x242070db, 17, 0x2f6fbd72);
    Then(m, 3, 0xefcdab89, 0x2f6fbd72, 0x344a8432, 0xd6d117b4, 0, 0xc1bdceee, 22, 0x7ad956f2);
    Then(m, 4, 0xd6d117b4, 0x7ad956f2, 0x2f6fbd72, 0x344a8432, 0, 0xf57c0faf, 7, 0xc73741ef);
    Then(m, 5, 0x344a8432, 0xc73741ef, 0x7ad956f2, 0x2f6fbd72, 0, 0x4787c62a, 12, 0x8bac3051);
    Then(m, 6, 0x2f6fbd72, 0x8bac3051, 0xc73741ef, 0x7ad956f2, 0, 0xa8304613, 17, 0x207dc67b);
    Then(m, 7, 0x7ad956f2, 0x207dc67b, 0x8bac3051, 0xc73741ef, 0, 0xfd469501, 22, 0x928d99f6);
  }

  lemma Operations8To16(m: seq<byte>)
    requires Holds(m) && Operations(H0, m, 8) == H4(0xc73741ef, 0x928d99f6, 0x207dc67b, 0x8bac3051)
    ensures Operations(H0, m, 16) == H4(0xdda9b9a6, 0x72aff2e0, 0xe396856b, 0xa1051895)
  {
    hide Operations, BlockWord, Uses;
    Entries8To12();
    Entries12To16();
    Then(m, 8, 0xc73741ef, 0x928d99f6, 0x207dc67b, 0x8bac3051, 0, 0x698098d8, 7, 0x854b3712);
    Then(m, 9, 0x8bac3051, 0x854b3712, 0x928d99f6, 0x207dc67b, 0, 0x8b44f7af, 12, 0x74e2f284);
    Then(m, 10, 0x207dc67b, 0x74e2f284, 0x854b3712, 0x928d99f6, 0, 0xffff5bb1, 17, 0x3020401c);
    Then(m, 11, 0x928d99f6, 0x3020401c, 0x74e2f284, 0x854b3712, 0, 0x895cd7be, 22, 0x5ed49596);
    Then(m, 12, 0x854b3712, 0x5ed49596, 0x3020401c, 0x74e2f284, 0, 0x6b901122, 7, 0xdda9b9a6);
    Then(m, 13, 0x74e2f284, 0xdda9b9a6, 0x5ed49596, 0x3020401c, 0, 0xfd987193, 12, 0xa1051895);
    Then(m, 14, 0x3020401c, 0xa1051895, 0xdda9b9a6, 0x5ed49596, 0x00000018, 0xa679438e, 17, 0xe396856b);
    Then(m, 15, 0x5ed49596, 0xe396856b, 0xa1051895, 0xdda9b9a6, 0, 0x49b40821, 22, 0x72aff2e0);
  }

  lemma Operations16To24(m: seq<byte>)
    requires Holds(m) && Operations(H0, m, 16) == H4(0xdda9b9a6, 0x72aff2e0, 0xe396856b, 0xa1051895)
    ensures Operations(H0, m, 24) == H4(0x59a8ffda, 0x47092c07, 0xabfc7920, 0x6d002f1e)
  {
    hide Operations, BlockWord, Uses;
    Entries16To20();
    Entries20To24();
    Then(m, 16, 0xdda9b9a6, 0x72aff2e0, 0xe396856b, 0xa1051895, 0, 0xf61e2562, 5, 0x3e9e9126);
    Then(m, 17, 0xa1051895, 0x3e9e9126, 0x72aff2e0, 0xe396856b, 0, 0xc040b340, 9, 0x4a1d804e);
    Then(m, 18, 0xe396856b, 0x4a1d804e, 0x3e9e9126, 0x72aff2e0, 0, 0x265e5a51, 14, 0xe25e1652);
    Then(m, 19, 0x72aff2e0, 0xe25e1652, 0x4a1d804e, 0x3e9e9126, 0x80636261, 0xe9b6c7aa, 20, 0xb5b204e4);
    Then(m, 20, 0x3e9e9126, 0xb5b204e4, 0xe25e1652, 0x4a1d804e, 0, 0xd62f105d, 5, 0x59a8ffda);
    Then(m, 21, 0x4a1d804e, 0x59a8ffda, 0xb5b204e4, 0xe25e1652, 0, 0x02441453, 9, 0x6d002f1e);
    Then(m, 22, 0xe25e1652, 0x6d002f1e, 0x59a8ffda, 0xb5b204e4, 0, 0xd8a1e681, 14, 0xabfc7920);
    Then(m, 23, 0xb5b204e4, 0xabfc7920, 0x6d002f1e, 0x59a8ffda, 0, 0xe7d3fbc8, 20, 0x47092c07);
  }

  lemma Operations24To32(m: seq<byte>)
    requires Holds(m) && Operations(H0, m, 24) == H4(0x59a8ffda, 0x47092c07, 0xabfc7920, 0x6d002f1e)
    ensures Operations(H0, m, 32) == H4(0x790a77fb, 0x726342d3, 0xa62884aa, 0x9f47e4f8)
  {
    hide Operations, BlockWord, Uses;
    Entries24To28();
    Entries28To32();
    Then(m, 24, 0x59a8ffda, 0x47092c07, 0xabfc7920, 0x6d002f1e, 0, 0x21e1cde6, 5, 0xb7f268cf);
    Then(m, 25, 0x6d002f1e, 0xb7f268cf, 0x47092c07, 0xabfc7920, 0x00000018, 0xc33707d6, 9, 0x09388eff);
    Then(m, 26, 0xabfc7920, 0x09388eff, 0xb7f268cf, 0x47092c07, 0, 0xf4d50d87, 14, 0xfe1623b1);
    Then(m, 27, 0x47092c07, 0xfe1623b1, 0x09388eff, 0xb7f268cf, 0, 0x455a14ed, 20, 0x786acb8f);
    Then(m, 28, 0xb7f268cf, 0x786acb8f, 0xfe1623b1, 0x09388eff, 0, 0xa9e3e905, 5, 0x790a77fb);
    Then(m, 29, 0x09388eff, 0x790a77fb, 0x786acb8f, 0xfe1623b1, 0, 0xfcefa3f8, 9, 0x9f47e4f8);
    Then(m, 30, 0xfe1623b1, 0x9f47e4f8, 0x790a77fb, 0x786acb8f, 0, 0x676f02d9, 14, 0xa62884aa);
    Then(m, 31, 0x786acb8f, 0xa62884aa, 0x9f47e4f8, 0x790a77fb, 0, 0x8d2a4c8a, 20, 0x726342d3);
  }

  lemma Operations32To40(m: seq<byte>)
    requires Holds(m) && Operations(H0, m, 32) == H4(0x790a77fb, 0x726342d3, 0xa62884aa, 0x9f47e4f8)
    ensures Operations(H0, m, 40) == H4(0x21b117b9, 0x5a2f5ea5, 0x3575227e, 0x6e7429d5)
  {
    hide Operations, BlockWord, Uses;
    Entries32To36();
    Entries36To40();
    Then(m, 32, 0x790a77fb, 0x726342d3, 0xa62884aa, 0x9f47e4f8, 0, 0xfffa3942, 4, 0xb3707ebf);
    Then(m, 33, 0x9f47e4f8, 0xb3707ebf, 0x726342d3, 0xa62884aa, 0, 0x8771f681, 11, 0x60127b2e);
    Then(m, 34, 0xa62884aa, 0x60127b2e, 0xb3707ebf, 0x726342d3, 0, 0x6d9d6122, 16, 0x8d212ff5);
    Then(m, 35, 0x726342d3, 0x8d212ff5, 0x60127b2e, 0xb3707ebf, 0x00000018, 0xfde5380c, 23, 0x3b0875c7);
    Then(m, 36, 0xb3707ebf, 0x3b0875c7, 0x8d212ff5, 0x60127b2e, 0, 0xa4beea44, 4, 0x21b117b9);
    Then(m, 37, 0x60127b2e, 0x21b117b9, 0x3b0875c7, 0x8d212ff5, 0, 0x4bdecfa9, 11, 0x6e7429d5);
    Then(m, 38, 0x8d212ff5, 0x6e7429d5, 0x21b117b9, 0x3b0875c7, 0, 0xf6bb4b60, 16, 0x3575227e);
    Then(m, 39, 0x3b0875c7, 0x3575227e, 0x6e7429d5, 0x21b117b9, 0, 0xbebfbc70, 23, 0x5a2f5ea5);
  }

  lemma Operations40To48(m: seq<byte>)
    requires Holds(m) && Operations(H0, m, 40) == H4(0x21b117b9, 0x5a2f5ea5, 0x3575227e, 0x6e7429d5)
    ensures Operations(H0, m, 48) == H4(0x7f2e507b, 0x7beb9700, 0x8fae6399, 0x99d9679d)
  {
    hide Operations, BlockWord, Uses;
    Entries40To44();
    Entries44To48();
    Then(m, 40, 0x21b117b9, 0x5a2f5ea5, 0x3575227e, 0x6e7429d5, 0, 0x289b7ec6, 4, 0x11de1779);
    Then(m, 41, 0x6e7429d5, 0x11de1779, 0x5a2f5ea5, 0x3575227e, 0x80636261, 0xeaa127fa, 11, 0xfadcaa38);
    Then(m, 42, 0x3575227e, 0xfadcaa38, 0x11de1779, 0x5a2f5ea5, 0, 0xd4ef3085, 16, 0x31c465ca);
    Then(m, 43, 0x5a2f5ea5, 0x31c465ca, 0xfadcaa38, 0x11de1779, 0, 0x04881d05, 23, 0x4c6124f4);
    Then(m, 44, 0x11de1779, 0x4c6124f4, 0x31c465ca, 0xfadcaa38, 0, 0xd9d4d039, 4, 0x7f2e507b);
    Then(m, 45, 0xfadcaa38, 0x7f2e507b, 0x4c6124f4, 0x31c465ca, 0, 0xe6db99e5, 11, 0x99d9679d);
    Then(m, 46, 0x31c465ca, 0x99d9679d, 0x7f2e507b, 0x4c6124f4, 0, 0x1fa27cf8, 16, 0x8fae6399);
    Then(m, 47, 0x4c6124f4, 0x8fae6399, 0x99d9679d, 0x7f2e507b, 0, 0xc4ac5665, 23, 0x7beb9700);
  }

  lemma Operations48To56(m: seq<byte>)
    requires Holds(m) && Operations(H0, m, 48) == H4(0x7f2e507b, 0x7beb9700, 0x8fae6399, 0x99d9679d)
    ensures Operations(H0, m, 56) == H4(0x06cc5e8a, 0x3bfa2c27, 0x7d632dd0, 0x5b0d97aa)
  {
    hide Operations, BlockWord, Uses;
    Entries48To52();
    Entries52To56();
    Then(m, 48, 0x7f2e507b, 0x7beb9700, 0x8fae6399, 0x99d9679d, 0x80636261, 0xf4292244, 6, 0x7b201df8);
    Then(m, 49, 0x99d9679d, 0x7b201df8, 0x7beb9700, 0x8fae6399, 0, 0x432aff97, 10, 0xf4e8e96e);
    Then(m, 50, 0x8fae6399, 0xf4e8e96e, 0x7b201df8, 0x7beb9700, 0x00000018, 0xab9423a7, 15, 0xb298cefd);
    Then(m, 51, 0x7beb9700, 0xb298cefd, 0xf4e8e96e, 0x7b201df8, 0, 0xfc93a039, 21, 0x8bf025c4);
    Then(m, 52, 0x7b201df8, 0x8bf025c4, 0xb298cefd, 0xf4e8e96e, 0, 0x655b59c3, 6, 0x06cc5e8a);
    Then(m, 53, 0xf4e8e96e, 0x06cc5e8a, 0x8bf025c4, 0xb298cefd, 0, 0x8f0ccc92, 10, 0x5b0d97aa);
    Then(m, 54, 0xb298cefd, 0x5b0d97aa, 0x06cc5e8a, 0x8bf025c4, 0, 0xffeff47d, 15, 0x7d632dd0);
    Then(m, 55, 0x8bf025c4, 0x7d632dd0, 0x5b0d97aa, 0x06cc5e8a, 0, 0x85845dd1, 21, 0x3bfa2c27);
  }

  lemma Operations56To64(m: seq<byte>)
    requires Holds(m) && Operations(H0, m, 56) == H4(0x06cc5e8a, 0x3bfa2c27, 0x7d632dd0, 0x5b0d97aa)
    ensures Operations(H0, m, 64) == H4(0x310ade8f, 0xc08226b3, 0xe484b9d8, 0x624d8cb2)
  {
    hide Operations, BlockWord, Uses;
    Entries56To60();
    Entries60To64();
    Then(m, 56, 0x06cc5e8a, 0x3bfa2c27, 0x7d632dd0, 0x5b0d97aa, 0, 0x6fa87e4f, 6, 0x7f81cc35);
    Then(m, 57, 0x5b0d97aa, 0x7f81cc35, 0x3bfa2c27, 0x7d632dd0, 0, 0xfe2ce6e0, 10, 0x094454ab);
    Then(m, 58, 0x7d632dd0, 0x094454ab, 0x7f81cc35, 0x3bfa2c27, 0, 0xa3014314, 15, 0x4f9dbe3f);
    Then(m, 59, 0x3bfa2c27, 0x4f9dbe3f, 0x094454ab, 0x7f81cc35, 0, 0x4e0811a1, 21, 0x7327d604);
    Then(m, 60, 0x7f81cc35, 0x7327d604, 0x4f9dbe3f, 0x094454ab, 0, 0xf7537e82, 6, 0x310ade8f);
    Then(m, 61, 0x094454ab, 0x310ade8f, 0x7327d604, 0x4f9dbe3f, 0, 0xbd3af235, 10, 0x624d8cb2);
    Then(m, 62, 0x4f9dbe3f, 0x624d8cb2, 0x310ade8f, 0x7327d604, 0, 0x2ad7d2bb, 15, 0xe484b9d8);
    Then(m, 63, 0x7327d604, 0xe484b9d8, 0x624d8cb2, 0x310ade8f, 0, 0xeb86d391, 21, 0xc08226b3);
  }

  /** MD5 ("abc") = 900150983cd24fb0d6963f7d28e17f72. */
  lemma HashOfAbc()
    ensures MD5(ABC) == [
              0x90, 0x01, 0x50, 0x98, 0x3c, 0xd2, 0x4f, 0xb0,
              0xd6, 0x96, 0x3f, 0x7d, 0x28, 0xe1, 0x7f, 0x72]
  {
    hide Operations, Chop, LittleEndianBytes, BlockWord, WordBytes;
    PaddedWhole();
    BlockWords();
    assert Operations(H0, PADDED, 0) == H0 by { OperationsNone(); }
    Operations0To8(PADDED);
    Operations8To16(PADDED);
    Operations16To24(PADDED);
    Operations24To32(PADDED);
    Operations32To40(PADDED);
    Operations40To48(PADDED);
    Operations48To56(PADDED);
    Operations56To64(PADDED);
    var v := H4(0x98500190, 0xb04fd23c, 0x7d3f96d6, 0x727fe128);
    assert Compress(H0, PADDED) == v;
    FoldOne(H0, [], PADDED);
    assert [] + [PADDED] == [PADDED];
    DigestBytes();
  }

  lemma OperationsNone()
    requires |PADDED| == 64
    ensures Operations(H0, PADDED, 0) == H0
  {
  }

  lemma DigestBytes()
    ensures Digest(H4(0x98500190, 0xb04fd23c, 0x7d3f96d6, 0x727fe128)) == [
              0x90, 0x01, 0x50, 0x98, 0x3c, 0xd2, 0x4f, 0xb0,
              0xd6, 0x96, 0x3f, 0x7d, 0x28, 0xe1, 0x7f, 0x72]
  {
  }
}
