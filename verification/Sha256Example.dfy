/**
 The first example of FIPS 180-4: the digest of the three bytes "abc", through its message schedule and its working
 variables, eight at a time. The words are those that the standard publishes for it.
 */
module Sha256Example {
  import opened Sha256Spec

  /** The one block that the message is padded to. */
  const ABC: Block := [0x61, 0x62, 0x63, 0x80] + Zeros(59) + [0x18]

  lemma CountEight(n: nat)
    ensures Count(n + 8) == Count(n) + 8
  {
    assert Count(n + 2) == Count(n) + 2;
    assert Count(n + 4) == Count(n + 2) + 2;
    assert Count(n + 6) == Count(n + 4) + 2;
    assert Count(n + 8) == Count(n + 6) + 2;
  }

  lemma LengthBytes()
    ensures BigEndian64(24) == [0, 0, 0, 0, 0, 0, 0, 0x18]
  {
    CountEight(0);
    CountEight(8);
    CountEight(16);
    assert ByteOf(0) == 0 && ByteOf(24) == 0x18;
  }

  lemma Padded()
    ensures Pad([0x61, 0x62, 0x63]) == ABC
  {
    LengthBytes();
    assert Zeros(52) + [0, 0, 0, 0, 0, 0, 0, 0x18] == Zeros(59) + [0x18];
    PadOfThree([0x61, 0x62, 0x63]);
  }

  lemma PadOfThree(m: seq<Byte>)
    requires |m| == 3
    ensures Pad(m) == m + [0x80] + (Zeros(52) + BigEndian64(24))
  {
  }

  // -- The schedule ---------------------------------------------------------------------

  lemma {:induction false} ScheduleGrows(block: Block, n: nat, k: nat)
    requires n <= k <= 64
    ensures Schedule(block, k)[..n] == Schedule(block, n)
  {
    if n < k {
      ScheduleGrows(block, n, k - 1);
      assert Schedule(block, k)[..n] == Schedule(block, k - 1)[..n];
    } else {
      assert Schedule(block, k)[..n] == Schedule(block, k);
    }
  }

  /** One word of the schedule from those before it. */
  lemma WordAt(block: Block, w: seq<Word>, t: nat)
    requires t < 64 && w == Schedule(block, 64)
    ensures w[t] == if t < 16 then BigEndianWord(block[4 * t], block[4 * t + 1], block[4 * t + 2], block[4 * t + 3])
                    else Sum4(SmallSigma1(w[t - 2]), w[t - 7], SmallSigma0(w[t - 15]), w[t - 16])
  {
    ScheduleGrows(block, t + 1, 64);
    assert w[t] == w[..t + 1][t] == Schedule(block, t + 1)[t];
    ScheduleGrows(block, t, 64);
    assert forall i :: 0 <= i < t ==> w[i] == w[..t][i];
  }

  lemma NextWord(block: Block, w: seq<Word>, t: nat, a: Word, b: Word, c: Word, d: Word)
    requires 16 <= t < 64 && w == Schedule(block, 64)
    requires w[t - 2] == a && w[t - 7] == b && w[t - 15] == c && w[t - 16] == d
    ensures w[t] == Sum4(SmallSigma1(a), b, SmallSigma0(c), d)
  {
    WordAt(block, w, t);
  }

  lemma Words0(w: seq<Word>)
    requires w == Schedule(ABC, 64)
    ensures w[0] == 0x61626380 && w[15] == 0x18 && forall t :: 1 <= t < 15 ==> w[t] == 0
  {
    FirstWords();
    forall t | 0 <= t < 16 ensures w[t] == if t == 0 then 0x61626380 else if t == 15 then 0x18 else 0 {
      WordAt(ABC, w, t);
    }
  }

  lemma FirstWords()
    ensures BigEndianWord(0x61, 0x62, 0x63, 0x80) == 0x61626380
    ensures BigEndianWord(0, 0, 0, 0x18) == 0x18 && BigEndianWord(0, 0, 0, 0) == 0
  {
  }

  lemma Sums16()
    ensures Sum4(SmallSigma1(0x00000000), 0x00000000, SmallSigma0(0x00000000), 0x61626380) == 0x61626380
    ensures Sum4(SmallSigma1(0x00000018), 0x00000000, SmallSigma0(0x00000000), 0x00000000) == 0x000F0000
    ensures Sum4(SmallSigma1(0x61626380), 0x00000000, SmallSigma0(0x00000000), 0x00000000) == 0x7DA86405
    ensures Sum4(SmallSigma1(0x000F0000), 0x00000000, SmallSigma0(0x00000000), 0x00000000) == 0x600003C6
    ensures Sum4(SmallSigma1(0x7DA86405), 0x00000000, SmallSigma0(0x00000000), 0x00000000) == 0x3E9D7B78
    ensures Sum4(SmallSigma1(0x600003C6), 0x00000000, SmallSigma0(0x00000000), 0x00000000) == 0x0183FC00
    ensures Sum4(SmallSigma1(0x3E9D7B78), 0x00000018, SmallSigma0(0x00000000), 0x00000000) == 0x12DCBFDB
    ensures Sum4(SmallSigma1(0x0183FC00), 0x61626380, SmallSigma0(0x00000000), 0x00000000) == 0xE2E2C38E
  {
  }

  lemma Words16(w: seq<Word>)
    requires w == Schedule(ABC, 64)
    requires w[0] == 0x61626380 && w[1] == 0x00000000 && w[2] == 0x00000000 && w[3] == 0x00000000
    requires w[4] == 0x00000000 && w[5] == 0x00000000 && w[6] == 0x00000000 && w[7] == 0x00000000
    requires w[8] == 0x00000000 && w[9] == 0x00000000 && w[10] == 0x00000000 && w[11] == 0x00000000
    requires w[12] == 0x00000000 && w[13] == 0x00000000 && w[14] == 0x00000000 && w[15] == 0x00000018
    ensures w[16] == 0x61626380 && w[17] == 0x000F0000 && w[18] == 0x7DA86405 && w[19] == 0x600003C6
    ensures w[20] == 0x3E9D7B78 && w[21] == 0x0183FC00 && w[22] == 0x12DCBFDB && w[23] == 0xE2E2C38E
  {
    Sums16();
    NextWord(ABC, w, 16, 0x00000000, 0x00000000, 0x00000000, 0x61626380);
    NextWord(ABC, w, 17, 0x00000018, 0x00000000, 0x00000000, 0x00000000);
    NextWord(ABC, w, 18, 0x61626380, 0x00000000, 0x00000000, 0x00000000);
    NextWord(ABC, w, 19, 0x000F0000, 0x00000000, 0x00000000, 0x00000000);
    NextWord(ABC, w, 20, 0x7DA86405, 0x00000000, 0x00000000, 0x00000000);
    NextWord(ABC, w, 21, 0x600003C6, 0x00000000, 0x00000000, 0x00000000);
    NextWord(ABC, w, 22, 0x3E9D7B78, 0x00000018, 0x00000000, 0x00000000);
    NextWord(ABC, w, 23, 0x0183FC00, 0x61626380, 0x00000000, 0x00000000);
  }

  lemma Sums24()
    ensures Sum4(SmallSigma1(0x12DCBFDB), 0x000F0000, SmallSigma0(0x00000000), 0x00000000) == 0xC8215C1A
    ensures Sum4(SmallSigma1(0xE2E2C38E), 0x7DA86405, SmallSigma0(0x00000000), 0x00000000) == 0xB73679A2
    ensures Sum4(SmallSigma1(0xC8215C1A), 0x600003C6, SmallSigma0(0x00000000), 0x00000000) == 0xE5BC3909
    ensures Sum4(SmallSigma1(0xB73679A2), 0x3E9D7B78, SmallSigma0(0x00000000), 0x00000000) == 0x32663C5B
    ensures Sum4(SmallSigma1(0xE5BC3909), 0x0183FC00, SmallSigma0(0x00000000), 0x00000000) == 0x9D209D67
    ensures Sum4(SmallSigma1(0x32663C5B), 0x12DCBFDB, SmallSigma0(0x00000000), 0x00000000) == 0xEC8726CB
    ensures Sum4(SmallSigma1(0x9D209D67), 0xE2E2C38E, SmallSigma0(0x00000018), 0x00000000) == 0x702138A4
    ensures Sum4(SmallSigma1(0xEC8726CB), 0xC8215C1A, SmallSigma0(0x61626380), 0x00000018) == 0xD3B7973B
  {
  }

  lemma Words24(w: seq<Word>)
    requires w == Schedule(ABC, 64)
    requires w[8] == 0x00000000 && w[9] == 0x00000000 && w[10] == 0x00000000 && w[11] == 0x00000000
    requires w[12] == 0x00000000 && w[13] == 0x00000000 && w[14] == 0x00000000 && w[15] == 0x00000018
    requires w[16] == 0x61626380 && w[17] == 0x000F0000 && w[18] == 0x7DA86405 && w[19] == 0x600003C6
    requires w[20] == 0x3E9D7B78 && w[21] == 0x0183FC00 && w[22] == 0x12DCBFDB && w[23] == 0xE2E2C38E
    ensures w[24] == 0xC8215C1A && w[25] == 0xB73679A2 && w[26] == 0xE5BC3909 && w[27] == 0x32663C5B
    ensures w[28] == 0x9D209D67 && w[29] == 0xEC8726CB && w[30] == 0x702138A4 && w[31] == 0xD3B7973B
  {
    Sums24();
    NextWord(ABC, w, 24, 0x12DCBFDB, 0x000F0000, 0x00000000, 0x00000000);
    NextWord(ABC, w, 25, 0xE2E2C38E, 0x7DA86405, 0x00000000, 0x00000000);
    NextWord(ABC, w, 26, 0xC8215C1A, 0x600003C6, 0x00000000, 0x00000000);
    NextWord(ABC, w, 27, 0xB73679A2, 0x3E9D7B78, 0x00000000, 0x00000000);
    NextWord(ABC, w, 28, 0xE5BC3909, 0x0183FC00, 0x00000000, 0x00000000);
    NextWord(ABC, w, 29, 0x32663C5B, 0x12DCBFDB, 0x00000000, 0x00000000);
    NextWord(ABC, w, 30, 0x9D209D67, 0xE2E2C38E, 0x00000018, 0x00000000);
    NextWord(ABC, w, 31, 0xEC8726CB, 0xC8215C1A, 0x61626380, 0x00000018);
  }

  lemma Sums32()
    ensures Sum4(SmallSigma1(0x702138A4), 0xB73679A2, SmallSigma0(0x000F0000), 0x61626380) == 0x93F5997F
    ensures Sum4(SmallSigma1(0xD3B7973B), 0xE5BC3909, SmallSigma0(0x7DA86405), 0x000F0000) == 0x3B68BA73
    ensures Sum4(SmallSigma1(0x93F5997F), 0x32663C5B, SmallSigma0(0x600003C6), 0x7DA86405) == 0xAFF4FFC1
    ensures Sum4(SmallSigma1(0x3B68BA73), 0x9D209D67, SmallSigma0(0x3E9D7B78), 0x600003C6) == 0xF10A5C62
    ensures Sum4(SmallSigma1(0xAFF4FFC1), 0xEC8726CB, SmallSigma0(0x0183FC00), 0x3E9D7B78) == 0x0A8B3996
    ensures Sum4(SmallSigma1(0xF10A5C62), 0x702138A4, SmallSigma0(0x12DCBFDB), 0x0183FC00) == 0x72AF830A
    ensures Sum4(SmallSigma1(0x0A8B3996), 0xD3B7973B, SmallSigma0(0xE2E2C38E), 0x12DCBFDB) == 0x9409E33E
    ensures Sum4(SmallSigma1(0x72AF830A), 0x93F5997F, SmallSigma0(0xC8215C1A), 0xE2E2C38E) == 0x24641522
  {
  }

  lemma Words32(w: seq<Word>)
    requires w == Schedule(ABC, 64)
    requires w[16] == 0x61626380 && w[17] == 0x000F0000 && w[18] == 0x7DA86405 && w[19] == 0x600003C6
    requires w[20] == 0x3E9D7B78 && w[21] == 0x0183FC00 && w[22] == 0x12DCBFDB && w[23] == 0xE2E2C38E
    requires w[24] == 0xC8215C1A && w[25] == 0xB73679A2 && w[26] == 0xE5BC3909 && w[27] == 0x32663C5B
    requires w[28] == 0x9D209D67 && w[29] == 0xEC8726CB && w[30] == 0x702138A4 && w[31] == 0xD3B7973B
    ensures w[32] == 0x93F5997F && w[33] == 0x3B68BA73 && w[34] == 0xAFF4FFC1 && w[35] == 0xF10A5C62
    ensures w[36] == 0x0A8B3996 && w[37] == 0x72AF830A && w[38] == 0x9409E33E && w[39] == 0x24641522
  {
    Sums32();
    NextWord(ABC, w, 32, 0x702138A4, 0xB73679A2, 0x000F0000, 0x61626380);
    NextWord(ABC, w, 33, 0xD3B7973B, 0xE5BC3909, 0x7DA86405, 0x000F0000);
    NextWord(ABC, w, 34, 0x93F5997F, 0x32663C5B, 0x600003C6, 0x7DA86405);
    NextWord(ABC, w, 35, 0x3B68BA73, 0x9D209D67, 0x3E9D7B78, 0x600003C6);
    NextWord(ABC, w, 36, 0xAFF4FFC1, 0xEC8726CB, 0x0183FC00, 0x3E9D7B78);
    NextWord(ABC, w, 37, 0xF10A5C62, 0x702138A4, 0x12DCBFDB, 0x0183FC00);
    NextWord(ABC, w, 38, 0x0A8B3996, 0xD3B7973B, 0xE2E2C38E, 0x12DCBFDB);
    NextWord(ABC, w, 39, 0x72AF830A, 0x93F5997F, 0xC8215C1A, 0xE2E2C38E);
  }

  lemma Sums40()
    ensures Sum4(SmallSigma1(0x9409E33E), 0x3B68BA73, SmallSigma0(0xB73679A2), 0xC8215C1A) == 0x9F47BF94
    ensures Sum4(SmallSigma1(0x24641522), 0xAFF4FFC1, SmallSigma0(0xE5BC3909), 0xB73679A2) == 0xF0A64F5A
    ensures Sum4(SmallSigma1(0x9F47BF94), 0xF10A5C62, SmallSigma0(0x32663C5B), 0xE5BC3909) == 0x3E246A79
    ensures Sum4(SmallSigma1(0xF0A64F5A), 0x0A8B3996, SmallSigma0(0x9D209D67), 0x32663C5B) == 0x27333BA3
    ensures Sum4(SmallSigma1(0x3E246A79), 0x72AF830A, SmallSigma0(0xEC8726CB), 0x9D209D67) == 0x0C4763F2
    ensures Sum4(SmallSigma1(0x27333BA3), 0x9409E33E, SmallSigma0(0x702138A4), 0xEC8726CB) == 0x840ABF27
    ensures Sum4(SmallSigma1(0x0C4763F2), 0x24641522, SmallSigma0(0xD3B7973B), 0x702138A4) == 0x7A290D5D
    ensures Sum4(SmallSigma1(0x840ABF27), 0x9F47BF94, SmallSigma0(0x93F5997F), 0xD3B7973B) == 0x065C43DA
  {
  }

  lemma Words40(w: seq<Word>)
    requires w == Schedule(ABC, 64)
    requires w[24] == 0xC8215C1A && w[25] == 0xB73679A2 && w[26] == 0xE5BC3909 && w[27] == 0x32663C5B
    requires w[28] == 0x9D209D67 && w[29] == 0xEC8726CB && w[30] == 0x702138A4 && w[31] == 0xD3B7973B
    requires w[32] == 0x93F5997F && w[33] == 0x3B68BA73 && w[34] == 0xAFF4FFC1 && w[35] == 0xF10A5C62
    requires w[36] == 0x0A8B3996 && w[37] == 0x72AF830A && w[38] == 0x9409E33E && w[39] == 0x24641522
    ensures w[40] == 0x9F47BF94 && w[41] == 0xF0A64F5A && w[42] == 0x3E246A79 && w[43] == 0x27333BA3
    ensures w[44] == 0x0C4763F2 && w[45] == 0x840ABF27 && w[46] == 0x7A290D5D && w[47] == 0x065C43DA
  {
    Sums40();
    NextWord(ABC, w, 40, 0x9409E33E, 0x3B68BA73, 0xB73679A2, 0xC8215C1A);
    NextWord(ABC, w, 41, 0x24641522, 0xAFF4FFC1, 0xE5BC3909, 0xB73679A2);
    NextWord(ABC, w, 42, 0x9F47BF94, 0xF10A5C62, 0x32663C5B, 0xE5BC3909);
    NextWord(ABC, w, 43, 0xF0A64F5A, 0x0A8B3996, 0x9D209D67, 0x32663C5B);
    NextWord(ABC, w, 44, 0x3E246A79, 0x72AF830A, 0xEC8726CB, 0x9D209D67);
    NextWord(ABC, w, 45, 0x27333BA3, 0x9409E33E, 0x702138A4, 0xEC8726CB);
    NextWord(ABC, w, 46, 0x0C4763F2, 0x24641522, 0xD3B7973B, 0x702138A4);
    NextWord(ABC, w, 47, 0x840ABF27, 0x9F47BF94, 0x93F5997F, 0xD3B7973B);
  }

  lemma Sums48()
    ensures Sum4(SmallSigma1(0x7A290D5D), 0xF0A64F5A, SmallSigma0(0x3B68BA73), 0x93F5997F) == 0xFB3E89CB
    ensures Sum4(SmallSigma1(0x065C43DA), 0x3E246A79, SmallSigma0(0xAFF4FFC1), 0x3B68BA73) == 0xCC7617DB
    ensures Sum4(SmallSigma1(0xFB3E89CB), 0x27333BA3, SmallSigma0(0xF10A5C62), 0xAFF4FFC1) == 0xB9E66C34
    ensures Sum4(SmallSigma1(0xCC7617DB), 0x0C4763F2, SmallSigma0(0x0A8B3996), 0xF10A5C62) == 0xA9993667
    ensures Sum4(SmallSigma1(0xB9E66C34), 0x840ABF27, SmallSigma0(0x72AF830A), 0x0A8B3996) == 0x84BADEDD
    ensures Sum4(SmallSigma1(0xA9993667), 0x7A290D5D, SmallSigma0(0x9409E33E), 0x72AF830A) == 0xC21462BC
    ensures Sum4(SmallSigma1(0x84BADEDD), 0x065C43DA, SmallSigma0(0x24641522), 0x9409E33E) == 0x1487472C
    ensures Sum4(SmallSigma1(0xC21462BC), 0xFB3E89CB, SmallSigma0(0x9F47BF94), 0x24641522) == 0xB20F7A99
  {
  }

  lemma Words48(w: seq<Word>)
    requires w == Schedule(ABC, 64)
    requires w[32] == 0x93F5997F && w[33] == 0x3B68BA73 && w[34] == 0xAFF4FFC1 && w[35] == 0xF10A5C62
    requires w[36] == 0x0A8B3996 && w[37] == 0x72AF830A && w[38] == 0x9409E33E && w[39] == 0x24641522
    requires w[40] == 0x9F47BF94 && w[41] == 0xF0A64F5A && w[42] == 0x3E246A79 && w[43] == 0x27333BA3
    requires w[44] == 0x0C4763F2 && w[45] == 0x840ABF27 && w[46] == 0x7A290D5D && w[47] == 0x065C43DA
    ensures w[48] == 0xFB3E89CB && w[49] == 0xCC7617DB && w[50] == 0xB9E66C34 && w[51] == 0xA9993667
    ensures w[52] == 0x84BADEDD && w[53] == 0xC21462BC && w[54] == 0x1487472C && w[55] == 0xB20F7A99
  {
    Sums48();
    NextWord(ABC, w, 48, 0x7A290D5D, 0xF0A64F5A, 0x3B68BA73, 0x93F5997F);
    NextWord(ABC, w, 49, 0x065C43DA, 0x3E246A79, 0xAFF4FFC1, 0x3B68BA73);
    NextWord(ABC, w, 50, 0xFB3E89CB, 0x27333BA3, 0xF10A5C62, 0xAFF4FFC1);
    NextWord(ABC, w, 51, 0xCC7617DB, 0x0C4763F2, 0x0A8B3996, 0xF10A5C62);
    NextWord(ABC, w, 52, 0xB9E66C34, 0x840ABF27, 0x72AF830A, 0x0A8B3996);
    NextWord(ABC, w, 53, 0xA9993667, 0x7A290D5D, 0x9409E33E, 0x72AF830A);
    NextWord(ABC, w, 54, 0x84BADEDD, 0x065C43DA, 0x24641522, 0x9409E33E);
    NextWord(ABC, w, 55, 0xC21462BC, 0xFB3E89CB, 0x9F47BF94, 0x24641522);
  }

  lemma Sums56()
    ensures Sum4(SmallSigma1(0x1487472C), 0xCC7617DB, SmallSigma0(0xF0A64F5A), 0x9F47BF94) == 0xEF57B9CD
    ensures Sum4(SmallSigma1(0xB20F7A99), 0xB9E66C34, SmallSigma0(0x3E246A79), 0xF0A64F5A) == 0xEBE6B238
    ensures Sum4(SmallSigma1(0xEF57B9CD), 0xA9993667, SmallSigma0(0x27333BA3), 0x3E246A79) == 0x9FE3095E
    ensures Sum4(SmallSigma1(0xEBE6B238), 0x84BADEDD, SmallSigma0(0x0C4763F2), 0x27333BA3) == 0x78BC8D4B
    ensures Sum4(SmallSigma1(0x9FE3095E), 0xC21462BC, SmallSigma0(0x840ABF27), 0x0C4763F2) == 0xA43FCF15
    ensures Sum4(SmallSigma1(0x78BC8D4B), 0x1487472C, SmallSigma0(0x7A290D5D), 0x840ABF27) == 0x668B2FF8
    ensures Sum4(SmallSigma1(0xA43FCF15), 0xB20F7A99, SmallSigma0(0x065C43DA), 0x7A290D5D) == 0xEEABA2CC
    ensures Sum4(SmallSigma1(0x668B2FF8), 0xEF57B9CD, SmallSigma0(0xFB3E89CB), 0x065C43DA) == 0x12B1EDEB
  {
  }

  lemma Words56(w: seq<Word>)
    requires w == Schedule(ABC, 64)
    requires w[40] == 0x9F47BF94 && w[41] == 0xF0A64F5A && w[42] == 0x3E246A79 && w[43] == 0x27333BA3
    requires w[44] == 0x0C4763F2 && w[45] == 0x840ABF27 && w[46] == 0x7A290D5D && w[47] == 0x065C43DA
    requires w[48] == 0xFB3E89CB && w[49] == 0xCC7617DB && w[50] == 0xB9E66C34 && w[51] == 0xA9993667
    requires w[52] == 0x84BADEDD && w[53] == 0xC21462BC && w[54] == 0x1487472C && w[55] == 0xB20F7A99
    ensures w[56] == 0xEF57B9CD && w[57] == 0xEBE6B238 && w[58] == 0x9FE3095E && w[59] == 0x78BC8D4B
    ensures w[60] == 0xA43FCF15 && w[61] == 0x668B2FF8 && w[62] == 0xEEABA2CC && w[63] == 0x12B1EDEB
  {
    Sums56();
    NextWord(ABC, w, 56, 0x1487472C, 0xCC7617DB, 0xF0A64F5A, 0x9F47BF94);
    NextWord(ABC, w, 57, 0xB20F7A99, 0xB9E66C34, 0x3E246A79, 0xF0A64F5A);
    NextWord(ABC, w, 58, 0xEF57B9CD, 0xA9993667, 0x27333BA3, 0x3E246A79);
    NextWord(ABC, w, 59, 0xEBE6B238, 0x84BADEDD, 0x0C4763F2, 0x27333BA3);
    NextWord(ABC, w, 60, 0x9FE3095E, 0xC21462BC, 0x840ABF27, 0x0C4763F2);
    NextWord(ABC, w, 61, 0x78BC8D4B, 0x1487472C, 0x7A290D5D, 0x840ABF27);
    NextWord(ABC, w, 62, 0xA43FCF15, 0xB20F7A99, 0x065C43DA, 0x7A290D5D);
    NextWord(ABC, w, 63, 0x668B2FF8, 0xEF57B9CD, 0xFB3E89CB, 0x065C43DA);
  }

  // -- The working variables ------------------------------------------------------------

  const S0 := Vars(0x6A09E667, 0xBB67AE85, 0x3C6EF372, 0xA54FF53A,
                   0x510E527F, 0x9B05688C, 0x1F83D9AB, 0x5BE0CD19)
  const S1 := Vars(0x5D6AEBCD, 0x6A09E667, 0xBB67AE85, 0x3C6EF372,
                   0xFA2A4622, 0x510E527F, 0x9B05688C, 0x1F83D9AB)
  const S2 := Vars(0x5A6AD9AD, 0x5D6AEBCD, 0x6A09E667, 0xBB67AE85,
                   0x78CE7989, 0xFA2A4622, 0x510E527F, 0x9B05688C)
  const S3 := Vars(0xC8C347A7, 0x5A6AD9AD, 0x5D6AEBCD, 0x6A09E667,
                   0xF92939EB, 0x78CE7989, 0xFA2A4622, 0x510E527F)
  const S4 := Vars(0xD550F666, 0xC8C347A7, 0x5A6AD9AD, 0x5D6AEBCD,
                   0x24E00850, 0xF92939EB, 0x78CE7989, 0xFA2A4622)
  const S5 := Vars(0x04409A6A, 0xD550F666, 0xC8C347A7, 0x5A6AD9AD,
                   0x43ADA245, 0x24E00850, 0xF92939EB, 0x78CE7989)
  const S6 := Vars(0x2B4209F5, 0x04409A6A, 0xD550F666, 0xC8C347A7,
                   0x714260AD, 0x43ADA245, 0x24E00850, 0xF92939EB)
  const S7 := Vars(0xE5030380, 0x2B4209F5, 0x04409A6A, 0xD550F666,
                   0x9B27A401, 0x714260AD, 0x43ADA245, 0x24E00850)
  const S8 := Vars(0x85A07B5F, 0xE5030380, 0x2B4209F5, 0x04409A6A,
                   0x0C657A79, 0x9B27A401, 0x714260AD, 0x43ADA245)
  const S9 := Vars(0x8E04ECB9, 0x85A07B5F, 0xE5030380, 0x2B4209F5,
                   0x32CA2D8C, 0x0C657A79, 0x9B27A401, 0x714260AD)
  const S10 := Vars(0x8C87346B, 0x8E04ECB9, 0x85A07B5F, 0xE5030380,
                    0x1CC92596, 0x32CA2D8C, 0x0C657A79, 0x9B27A401)
  const S11 := Vars(0x4798A3F4, 0x8C87346B, 0x8E04ECB9, 0x85A07B5F,
                    0x436B23E8, 0x1CC92596, 0x32CA2D8C, 0x0C657A79)
  const S12 := Vars(0xF71FC5A9, 0x4798A3F4, 0x8C87346B, 0x8E04ECB9,
                    0x816FD6E9, 0x436B23E8, 0x1CC92596, 0x32CA2D8C)
  const S13 := Vars(0x87912990, 0xF71FC5A9, 0x4798A3F4, 0x8C87346B,
                    0x1E578218, 0x816FD6E9, 0x436B23E8, 0x1CC92596)
  const S14 := Vars(0xD932EB16, 0x87912990, 0xF71FC5A9, 0x4798A3F4,
                    0x745A48DE, 0x1E578218, 0x816FD6E9, 0x436B23E8)
  const S15 := Vars(0xC0645FDE, 0xD932EB16, 0x87912990, 0xF71FC5A9,
                    0x0B92F20C, 0x745A48DE, 0x1E578218, 0x816FD6E9)
  const S16 := Vars(0xB0FA238E, 0xC0645FDE, 0xD932EB16, 0x87912990,
                    0x07590DCD, 0x0B92F20C, 0x745A48DE, 0x1E578218)
  const S17 := Vars(0x21DA9A9B, 0xB0FA238E, 0xC0645FDE, 0xD932EB16,
                    0x8034229C, 0x07590DCD, 0x0B92F20C, 0x745A48DE)
  const S18 := Vars(0xC2FBD9D1, 0x21DA9A9B, 0xB0FA238E, 0xC0645FDE,
                    0x846EE454, 0x8034229C, 0x07590DCD, 0x0B92F20C)
  const S19 := Vars(0xFE777BBF, 0xC2FBD9D1, 0x21DA9A9B, 0xB0FA238E,
                    0xCC899961, 0x846EE454, 0x8034229C, 0x07590DCD)
  const S20 := Vars(0xE1F20C33, 0xFE777BBF, 0xC2FBD9D1, 0x21DA9A9B,
                    0xB0638179, 0xCC899961, 0x846EE454, 0x8034229C)
  const S21 := Vars(0x9DC68B63, 0xE1F20C33, 0xFE777BBF, 0xC2FBD9D1,
                    0x8ADA8930, 0xB0638179, 0xCC899961, 0x846EE454)
  const S22 := Vars(0xC2606D6D, 0x9DC68B63, 0xE1F20C33, 0xFE777BBF,
                    0xE1257970, 0x8ADA8930, 0xB0638179, 0xCC899961)
  const S23 := Vars(0xA7A3623F, 0xC2606D6D, 0x9DC68B63, 0xE1F20C33,
                    0x49F5114A, 0xE1257970, 0x8ADA8930, 0xB0638179)
  const S24 := Vars(0xC5D53D8D, 0xA7A3623F, 0xC2606D6D, 0x9DC68B63,
                    0xAA47C347, 0x49F5114A, 0xE1257970, 0x8ADA8930)
  const S25 := Vars(0x1C2C2838, 0xC5D53D8D, 0xA7A3623F, 0xC2606D6D,
                    0x2823EF91, 0xAA47C347, 0x49F5114A, 0xE1257970)
  const S26 := Vars(0xCDE8037D, 0x1C2C2838, 0xC5D53D8D, 0xA7A3623F,
                    0x14383D8E, 0x2823EF91, 0xAA47C347, 0x49F5114A)
  const S27 := Vars(0xB62EC4BC, 0xCDE8037D, 0x1C2C2838, 0xC5D53D8D,
                    0xC74C6516, 0x14383D8E, 0x2823EF91, 0xAA47C347)
  const S28 := Vars(0x77D37528, 0xB62EC4BC, 0xCDE8037D, 0x1C2C2838,
                    0xEDFFBFF8, 0xC74C6516, 0x14383D8E, 0x2823EF91)
  const S29 := Vars(0x363482C9, 0x77D37528, 0xB62EC4BC, 0xCDE8037D,
                    0x6112A3B7, 0xEDFFBFF8, 0xC74C6516, 0x14383D8E)
  const S30 := Vars(0xA0060B30, 0x363482C9, 0x77D37528, 0xB62EC4BC,
                    0xADE79437, 0x6112A3B7, 0xEDFFBFF8, 0xC74C6516)
  const S31 := Vars(0xEA992A22, 0xA0060B30, 0x363482C9, 0x77D37528,
                    0x0109AB3A, 0xADE79437, 0x6112A3B7, 0xEDFFBFF8)
  const S32 := Vars(0x73B33BF5, 0xEA992A22, 0xA0060B30, 0x363482C9,
                    0xBA591112, 0x0109AB3A, 0xADE79437, 0x6112A3B7)
  const S33 := Vars(0x98E12507, 0x73B33BF5, 0xEA992A22, 0xA0060B30,
                    0x9CD9F5F6, 0xBA591112, 0x0109AB3A, 0xADE79437)
  const S34 := Vars(0xFE604DF5, 0x98E12507, 0x73B33BF5, 0xEA992A22,
                    0x59249DD3, 0x9CD9F5F6, 0xBA591112, 0x0109AB3A)
  const S35 := Vars(0xA9A7738C, 0xFE604DF5, 0x98E12507, 0x73B33BF5,
                    0x085F3833, 0x59249DD3, 0x9CD9F5F6, 0xBA591112)
  const S36 := Vars(0x65A0CFE4, 0xA9A7738C, 0xFE604DF5, 0x98E12507,
                    0xF4B002D6, 0x085F3833, 0x59249DD3, 0x9CD9F5F6)
  const S37 := Vars(0x41A65CB1, 0x65A0CFE4, 0xA9A7738C, 0xFE604DF5,
                    0x0772A26B, 0xF4B002D6, 0x085F3833, 0x59249DD3)
  const S38 := Vars(0x34DF1604, 0x41A65CB1, 0x65A0CFE4, 0xA9A7738C,
                    0xA507A53D, 0x0772A26B, 0xF4B002D6, 0x085F3833)
  const S39 := Vars(0x6DC57A8A, 0x34DF1604, 0x41A65CB1, 0x65A0CFE4,
                    0xF0781BC8, 0xA507A53D, 0x0772A26B, 0xF4B002D6)
  const S40 := Vars(0x79EA687A, 0x6DC57A8A, 0x34DF1604, 0x41A65CB1,
                    0x1EFBC0A0, 0xF0781BC8, 0xA507A53D, 0x0772A26B)
  const S41 := Vars(0xD6670766, 0x79EA687A, 0x6DC57A8A, 0x34DF1604,
                    0x26352D63, 0x1EFBC0A0, 0xF0781BC8, 0xA507A53D)
  const S42 := Vars(0xDF46652F, 0xD6670766, 0x79EA687A, 0x6DC57A8A,
                    0x838B2711, 0x26352D63, 0x1EFBC0A0, 0xF0781BC8)
  const S43 := Vars(0x17AA0DFE, 0xDF46652F, 0xD6670766, 0x79EA687A,
                    0xDECD4715, 0x838B2711, 0x26352D63, 0x1EFBC0A0)
  const S44 := Vars(0x9D4BAF93, 0x17AA0DFE, 0xDF46652F, 0xD6670766,
                    0xFDA24C2E, 0xDECD4715, 0x838B2711, 0x26352D63)
  const S45 := Vars(0x26628815, 0x9D4BAF93, 0x17AA0DFE, 0xDF46652F,
                    0xA80F11F0, 0xFDA24C2E, 0xDECD4715, 0x838B2711)
  const S46 := Vars(0x72AB4B91, 0x26628815, 0x9D4BAF93, 0x17AA0DFE,
                    0xB7755DA1, 0xA80F11F0, 0xFDA24C2E, 0xDECD4715)
  const S47 := Vars(0xA14C14B0, 0x72AB4B91, 0x26628815, 0x9D4BAF93,
                    0xD57B94A9, 0xB7755DA1, 0xA80F11F0, 0xFDA24C2E)
  const S48 := Vars(0x4172328D, 0xA14C14B0, 0x72AB4B91, 0x26628815,
                    0xFECF0BC6, 0xD57B94A9, 0xB7755DA1, 0xA80F11F0)
  const S49 := Vars(0x05757CEB, 0x4172328D, 0xA14C14B0, 0x72AB4B91,
                    0xBD714038, 0xFECF0BC6, 0xD57B94A9, 0xB7755DA1)
  const S50 := Vars(0xF11BFAA8, 0x05757CEB, 0x4172328D, 0xA14C14B0,
                    0x6E5C390C, 0xBD714038, 0xFECF0BC6, 0xD57B94A9)
  const S51 := Vars(0x7A0508A1, 0xF11BFAA8, 0x05757CEB, 0x4172328D,
                    0x52F1CCF7, 0x6E5C390C, 0xBD714038, 0xFECF0BC6)
  const S52 := Vars(0x886E7A22, 0x7A0508A1, 0xF11BFAA8, 0x05757CEB,
                    0x49231C1E, 0x52F1CCF7, 0x6E5C390C, 0xBD714038)
  const S53 := Vars(0x101FD28F, 0x886E7A22, 0x7A0508A1, 0xF11BFAA8,
                    0x529E7D00, 0x49231C1E, 0x52F1CCF7, 0x6E5C390C)
  const S54 := Vars(0xF5702FDB, 0x101FD28F, 0x886E7A22, 0x7A0508A1,
                    0x9F4787C3, 0x529E7D00, 0x49231C1E, 0x52F1CCF7)
  const S55 := Vars(0x3EC45CDB, 0xF5702FDB, 0x101FD28F, 0x886E7A22,
                    0xE50E1B4F, 0x9F4787C3, 0x529E7D00, 0x49231C1E)
  const S56 := Vars(0x38CC9913, 0x3EC45CDB, 0xF5702FDB, 0x101FD28F,
                    0x54CB266B, 0xE50E1B4F, 0x9F4787C3, 0x529E7D00)
  const S57 := Vars(0xFCD1887B, 0x38CC9913, 0x3EC45CDB, 0xF5702FDB,
                    0x9B5E906C, 0x54CB266B, 0xE50E1B4F, 0x9F4787C3)
  const S58 := Vars(0xC062D46F, 0xFCD1887B, 0x38CC9913, 0x3EC45CDB,
                    0x7E44008E, 0x9B5E906C, 0x54CB266B, 0xE50E1B4F)
  const S59 := Vars(0xFFB70472, 0xC062D46F, 0xFCD1887B, 0x38CC9913,
                    0x6D83BFC6, 0x7E44008E, 0x9B5E906C, 0x54CB266B)
  const S60 := Vars(0xB6AE8FFF, 0xFFB70472, 0xC062D46F, 0xFCD1887B,
                    0xB21BAD3D, 0x6D83BFC6, 0x7E44008E, 0x9B5E906C)
  const S61 := Vars(0xB85E2CE9, 0xB6AE8FFF, 0xFFB70472, 0xC062D46F,
                    0x961F4894, 0xB21BAD3D, 0x6D83BFC6, 0x7E44008E)
  const S62 := Vars(0x04D24D6C, 0xB85E2CE9, 0xB6AE8FFF, 0xFFB70472,
                    0x948D25B6, 0x961F4894, 0xB21BAD3D, 0x6D83BFC6)
  const S63 := Vars(0xD39A2165, 0x04D24D6C, 0xB85E2CE9, 0xB6AE8FFF,
                    0xFB121210, 0x948D25B6, 0x961F4894, 0xB21BAD3D)
  const S64 := Vars(0x506E3058, 0xD39A2165, 0x04D24D6C, 0xB85E2CE9,
                    0x5EF50F24, 0xFB121210, 0x948D25B6, 0x961F4894)

  lemma NextRound(w: seq<Word>, t: nat, i: nat, v: Vars, r: Vars)
    requires |w| == 64 && t == i < 64 && Rounds(INITIAL, w, t) == v && Round(v, K[i], w[i]) == r
    ensures Rounds(INITIAL, w, t + 1) == r
  {
  }

  lemma Mix0()
    ensures Round(S0, 0x428A2F98, 0x61626380) == S1
    ensures Round(S1, 0x71374491, 0x00000000) == S2
    ensures Round(S2, 0xB5C0FBCF, 0x00000000) == S3
    ensures Round(S3, 0xE9B5DBA5, 0x00000000) == S4
  {
  }

  lemma Rounds0(w: seq<Word>, t: nat)
    requires |w| == 64 && t == 0
    requires w[0] == 0x61626380 && w[1] == 0x00000000 && w[2] == 0x00000000 && w[3] == 0x00000000
    requires Rounds(INITIAL, w, t) == S0
    ensures Rounds(INITIAL, w, t + 4) == S4
  {
    Mix0();
    NextRound(w, t, 0, S0, S1);
    NextRound(w, t + 1, 1, S1, S2);
    NextRound(w, t + 2, 2, S2, S3);
    NextRound(w, t + 3, 3, S3, S4);
  }

  lemma Mix4()
    ensures Round(S4, 0x3956C25B, 0x00000000) == S5
    ensures Round(S5, 0x59F111F1, 0x00000000) == S6
    ensures Round(S6, 0x923F82A4, 0x00000000) == S7
    ensures Round(S7, 0xAB1C5ED5, 0x00000000) == S8
  {
  }

  lemma Rounds4(w: seq<Word>, t: nat)
    requires |w| == 64 && t == 4
    requires w[4] == 0x00000000 && w[5] == 0x00000000 && w[6] == 0x00000000 && w[7] == 0x00000000
    requires Rounds(INITIAL, w, t) == S4
    ensures Rounds(INITIAL, w, t + 4) == S8
  {
    Mix4();
    NextRound(w, t, 4, S4, S5);
    NextRound(w, t + 1, 5, S5, S6);
    NextRound(w, t + 2, 6, S6, S7);
    NextRound(w, t + 3, 7, S7, S8);
  }

  lemma Mix8()
    ensures Round(S8, 0xD807AA98, 0x00000000) == S9
    ensures Round(S9, 0x12835B01, 0x00000000) == S10
    ensures Round(S10, 0x243185BE, 0x00000000) == S11
    ensures Round(S11, 0x550C7DC3, 0x00000000) == S12
  {
  }

  lemma Rounds8(w: seq<Word>, t: nat)
    requires |w| == 64 && t == 8
    requires w[8] == 0x00000000 && w[9] == 0x00000000 && w[10] == 0x00000000 && w[11] == 0x00000000
    requires Rounds(INITIAL, w, t) == S8
    ensures Rounds(INITIAL, w, t + 4) == S12
  {
    Mix8();
    NextRound(w, t, 8, S8, S9);
    NextRound(w, t + 1, 9, S9, S10);
    NextRound(w, t + 2, 10, S10, S11);
    NextRound(w, t + 3, 11, S11, S12);
  }

  lemma Mix12()
    ensures Round(S12, 0x72BE5D74, 0x00000000) == S13
    ensures Round(S13, 0x80DEB1FE, 0x00000000) == S14
    ensures Round(S14, 0x9BDC06A7, 0x00000000) == S15
    ensures Round(S15, 0xC19BF174, 0x00000018) == S16
  {
  }

  lemma Rounds12(w: seq<Word>, t: nat)
    requires |w| == 64 && t == 12
    requires w[12] == 0x00000000 && w[13] == 0x00000000 && w[14] == 0x00000000 && w[15] == 0x00000018
    requires Rounds(INITIAL, w, t) == S12
    ensures Rounds(INITIAL, w, t + 4) == S16
  {
    Mix12();
    NextRound(w, t, 12, S12, S13);
    NextRound(w, t + 1, 13, S13, S14);
    NextRound(w, t + 2, 14, S14, S15);
    NextRound(w, t + 3, 15, S15, S16);
  }

  lemma Mix16()
    ensures Round(S16, 0xE49B69C1, 0x61626380) == S17
    ensures Round(S17, 0xEFBE4786, 0x000F0000) == S18
    ensures Round(S18, 0x0FC19DC6, 0x7DA86405) == S19
    ensures Round(S19, 0x240CA1CC, 0x600003C6) == S20
  {
  }

  lemma Rounds16(w: seq<Word>, t: nat)
    requires |w| == 64 && t == 16
    requires w[16] == 0x61626380 && w[17] == 0x000F0000 && w[18] == 0x7DA86405 && w[19] == 0x600003C6
    requires Rounds(INITIAL, w, t) == S16
    ensures Rounds(INITIAL, w, t + 4) == S20
  {
    Mix16();
    NextRound(w, t, 16, S16, S17);
    NextRound(w, t + 1, 17, S17, S18);
    NextRound(w, t + 2, 18, S18, S19);
    NextRound(w, t + 3, 19, S19, S20);
  }

  lemma Mix20()
    ensures Round(S20, 0x2DE92C6F, 0x3E9D7B78) == S21
    ensures Round(S21, 0x4A7484AA, 0x0183FC00) == S22
    ensures Round(S22, 0x5CB0A9DC, 0x12DCBFDB) == S23
    ensures Round(S23, 0x76F988DA, 0xE2E2C38E) == S24
  {
  }

  lemma Rounds20(w: seq<Word>, t: nat)
    requires |w| == 64 && t == 20
    requires w[20] == 0x3E9D7B78 && w[21] == 0x0183FC00 && w[22] == 0x12DCBFDB && w[23] == 0xE2E2C38E
    requires Rounds(INITIAL, w, t) == S20
    ensures Rounds(INITIAL, w, t + 4) == S24
  {
    Mix20();
    NextRound(w, t, 20, S20, S21);
    NextRound(w, t + 1, 21, S21, S22);
    NextRound(w, t + 2, 22, S22, S23);
    NextRound(w, t + 3, 23, S23, S24);
  }

  lemma Mix24()
    ensures Round(S24, 0x983E5152, 0xC8215C1A) == S25
    ensures Round(S25, 0xA831C66D, 0xB73679A2) == S26
    ensures Round(S26, 0xB00327C8, 0xE5BC3909) == S27
    ensures Round(S27, 0xBF597FC7, 0x32663C5B) == S28
  {
  }

  lemma Rounds24(w: seq<Word>, t: nat)
    requires |w| == 64 && t == 24
    requires w[24] == 0xC8215C1A && w[25] == 0xB73679A2 && w[26] == 0xE5BC3909 && w[27] == 0x32663C5B
    requires Rounds(INITIAL, w, t) == S24
    ensures Rounds(INITIAL, w, t + 4) == S28
  {
    Mix24();
    NextRound(w, t, 24, S24, S25);
    NextRound(w, t + 1, 25, S25, S26);
    NextRound(w, t + 2, 26, S26, S27);
    NextRound(w, t + 3, 27, S27, S28);
  }

  lemma Mix28()
    ensures Round(S28, 0xC6E00BF3, 0x9D209D67) == S29
    ensures Round(S29, 0xD5A79147, 0xEC8726CB) == S30
    ensures Round(S30, 0x06CA6351, 0x702138A4) == S31
    ensures Round(S31, 0x14292967, 0xD3B7973B) == S32
  {
  }

  lemma Rounds28(w: seq<Word>, t: nat)
    requires |w| == 64 && t == 28
    requires w[28] == 0x9D209D67 && w[29] == 0xEC8726CB && w[30] == 0x702138A4 && w[31] == 0xD3B7973B
    requires Rounds(INITIAL, w, t) == S28
    ensures Rounds(INITIAL, w, t + 4) == S32
  {
    Mix28();
    NextRound(w, t, 28, S28, S29);
    NextRound(w, t + 1, 29, S29, S30);
    NextRound(w, t + 2, 30, S30, S31);
    NextRound(w, t + 3, 31, S31, S32);
  }

  lemma Mix32()
    ensures Round(S32, 0x27B70A85, 0x93F5997F) == S33
    ensures Round(S33, 0x2E1B2138, 0x3B68BA73) == S34
    ensures Round(S34, 0x4D2C6DFC, 0xAFF4FFC1) == S35
    ensures Round(S35, 0x53380D13, 0xF10A5C62) == S36
  {
  }

  lemma Rounds32(w: seq<Word>, t: nat)
    requires |w| == 64 && t == 32
    requires w[32] == 0x93F5997F && w[33] == 0x3B68BA73 && w[34] == 0xAFF4FFC1 && w[35] == 0xF10A5C62
    requires Rounds(INITIAL, w, t) == S32
    ensures Rounds(INITIAL, w, t + 4) == S36
  {
    Mix32();
    NextRound(w, t, 32, S32, S33);
    NextRound(w, t + 1, 33, S33, S34);
    NextRound(w, t + 2, 34, S34, S35);
    NextRound(w, t + 3, 35, S35, S36);
  }

  lemma Mix36()
    ensures Round(S36, 0x650A7354, 0x0A8B3996) == S37
    ensures Round(S37, 0x766A0ABB, 0x72AF830A) == S38
    ensures Round(S38, 0x81C2C92E, 0x9409E33E) == S39
    ensures Round(S39, 0x92722C85, 0x24641522) == S40
  {
  }

  lemma Rounds36(w: seq<Word>, t: nat)
    requires |w| == 64 && t == 36
    requires w[36] == 0x0A8B3996 && w[37] == 0x72AF830A && w[38] == 0x9409E33E && w[39] == 0x24641522
    requires Rounds(INITIAL, w, t) == S36
    ensures Rounds(INITIAL, w, t + 4) == S40
  {
    Mix36();
    NextRound(w, t, 36, S36, S37);
    NextRound(w, t + 1, 37, S37, S38);
    NextRound(w, t + 2, 38, S38, S39);
    NextRound(w, t + 3, 39, S39, S40);
  }

  lemma Mix40()
    ensures Round(S40, 0xA2BFE8A1, 0x9F47BF94) == S41
    ensures Round(S41, 0xA81A664B, 0xF0A64F5A) == S42
    ensures Round(S42, 0xC24B8B70, 0x3E246A79) == S43
    ensures Round(S43, 0xC76C51A3, 0x27333BA3) == S44
  {
  }

  lemma Rounds40(w: seq<Word>, t: nat)
    requires |w| == 64 && t == 40
    requires w[40] == 0x9F47BF94 && w[41] == 0xF0A64F5A && w[42] == 0x3E246A79 && w[43] == 0x27333BA3
    requires Rounds(INITIAL, w, t) == S40
    ensures Rounds(INITIAL, w, t + 4) == S44
  {
    Mix40();
    NextRound(w, t, 40, S40, S41);
    NextRound(w, t + 1, 41, S41, S42);
    NextRound(w, t + 2, 42, S42, S43);
    NextRound(w, t + 3, 43, S43, S44);
  }

  lemma Mix44()
    ensures Round(S44, 0xD192E819, 0x0C4763F2) == S45
    ensures Round(S45, 0xD6990624, 0x840ABF27) == S46
    ensures Round(S46, 0xF40E3585, 0x7A290D5D) == S47
    ensures Round(S47, 0x106AA070, 0x065C43DA) == S48
  {
  }

  lemma Rounds44(w: seq<Word>, t: nat)
    requires |w| == 64 && t == 44
    requires w[44] == 0x0C4763F2 && w[45] == 0x840ABF27 && w[46] == 0x7A290D5D && w[47] == 0x065C43DA
    requires Rounds(INITIAL, w, t) == S44
    ensures Rounds(INITIAL, w, t + 4) == S48
  {
    Mix44();
    NextRound(w, t, 44, S44, S45);
    NextRound(w, t + 1, 45, S45, S46);
    NextRound(w, t + 2, 46, S46, S47);
    NextRound(w, t + 3, 47, S47, S48);
  }

  lemma Mix48()
    ensures Round(S48, 0x19A4C116, 0xFB3E89CB) == S49
    ensures Round(S49, 0x1E376C08, 0xCC7617DB) == S50
    ensures Round(S50, 0x2748774C, 0xB9E66C34) == S51
    ensures Round(S51, 0x34B0BCB5, 0xA9993667) == S52
  {
  }

  lemma Rounds48(w: seq<Word>, t: nat)
    requires |w| == 64 && t == 48
    requires w[48] == 0xFB3E89CB && w[49] == 0xCC7617DB && w[50] == 0xB9E66C34 && w[51] == 0xA9993667
    requires Rounds(INITIAL, w, t) == S48
    ensures Rounds(INITIAL, w, t + 4) == S52
  {
    Mix48();
    NextRound(w, t, 48, S48, S49);
    NextRound(w, t + 1, 49, S49, S50);
    NextRound(w, t + 2, 50, S50, S51);
    NextRound(w, t + 3, 51, S51, S52);
  }

  lemma Mix52()
    ensures Round(S52, 0x391C0CB3, 0x84BADEDD) == S53
    ensures Round(S53, 0x4ED8AA4A, 0xC21462BC) == S54
    ensures Round(S54, 0x5B9CCA4F, 0x1487472C) == S55
    ensures Round(S55, 0x682E6FF3, 0xB20F7A99) == S56
  {
  }

  lemma Rounds52(w: seq<Word>, t: nat)
    requires |w| == 64 && t == 52
    requires w[52] == 0x84BADEDD && w[53] == 0xC21462BC && w[54] == 0x1487472C && w[55] == 0xB20F7A99
    requires Rounds(INITIAL, w, t) == S52
    ensures Rounds(INITIAL, w, t + 4) == S56
  {
    Mix52();
    NextRound(w, t, 52, S52, S53);
    NextRound(w, t + 1, 53, S53, S54);
    NextRound(w, t + 2, 54, S54, S55);
    NextRound(w, t + 3, 55, S55, S56);
  }

  lemma Mix56()
    ensures Round(S56, 0x748F82EE, 0xEF57B9CD) == S57
    ensures Round(S57, 0x78A5636F, 0xEBE6B238) == S58
    ensures Round(S58, 0x84C87814, 0x9FE3095E) == S59
    ensures Round(S59, 0x8CC70208, 0x78BC8D4B) == S60
  {
  }

  lemma Rounds56(w: seq<Word>, t: nat)
    requires |w| == 64 && t == 56
    requires w[56] == 0xEF57B9CD && w[57] == 0xEBE6B238 && w[58] == 0x9FE3095E && w[59] == 0x78BC8D4B
    requires Rounds(INITIAL, w, t) == S56
    ensures Rounds(INITIAL, w, t + 4) == S60
  {
    Mix56();
    NextRound(w, t, 56, S56, S57);
    NextRound(w, t + 1, 57, S57, S58);
    NextRound(w, t + 2, 58, S58, S59);
    NextRound(w, t + 3, 59, S59, S60);
  }

  lemma Mix60()
    ensures Round(S60, 0x90BEFFFA, 0xA43FCF15) == S61
    ensures Round(S61, 0xA4506CEB, 0x668B2FF8) == S62
    ensures Round(S62, 0xBEF9A3F7, 0xEEABA2CC) == S63
    ensures Round(S63, 0xC67178F2, 0x12B1EDEB) == S64
  {
  }

  lemma Rounds60(w: seq<Word>, t: nat)
    requires |w| == 64 && t == 60
    requires w[60] == 0xA43FCF15 && w[61] == 0x668B2FF8 && w[62] == 0xEEABA2CC && w[63] == 0x12B1EDEB
    requires Rounds(INITIAL, w, t) == S60
    ensures Rounds(INITIAL, w, t + 4) == S64
  {
    Mix60();
    NextRound(w, t, 60, S60, S61);
    NextRound(w, t + 1, 61, S61, S62);
    NextRound(w, t + 2, 62, S62, S63);
    NextRound(w, t + 3, 63, S63, S64);
  }

  lemma Mixed(w: seq<Word>, t: nat)
    requires w == Schedule(ABC, 64) && t == 0
    ensures Rounds(INITIAL, w, t + 64) == S64
  {
    Words0(w);
    Words16(w);
    Words24(w);
    Words32(w);
    Words40(w);
    Words48(w);
    Words56(w);
    Rounds0(w, t);
    Rounds4(w, t + 4);
    Rounds8(w, t + 8);
    Rounds12(w, t + 12);
    Rounds16(w, t + 16);
    Rounds20(w, t + 20);
    Rounds24(w, t + 24);
    Rounds28(w, t + 28);
    Rounds32(w, t + 32);
    Rounds36(w, t + 36);
    Rounds40(w, t + 40);
    Rounds44(w, t + 44);
    Rounds48(w, t + 48);
    Rounds52(w, t + 52);
    Rounds56(w, t + 56);
    Rounds60(w, t + 60);
  }

  lemma Absorbed()
    ensures Absorb(ABC) == Vars(0xBA7816BF, 0x8F01CFEA, 0x414140DE, 0x5DAE2223,
                                0xB00361A3, 0x96177A9C, 0xB410FF61, 0xF20015AD)
  {
    Mixed(Schedule(ABC, 64), 0);
    assert ABC[..0] == [] && ABC[0..] == ABC;
  }

  lemma Bytes()
    ensures WordBytes(0xBA7816BF) == [0xBA, 0x78, 0x16, 0xBF]
    ensures WordBytes(0x8F01CFEA) == [0x8F, 0x01, 0xCF, 0xEA]
    ensures WordBytes(0x414140DE) == [0x41, 0x41, 0x40, 0xDE]
    ensures WordBytes(0x5DAE2223) == [0x5D, 0xAE, 0x22, 0x23]
    ensures WordBytes(0xB00361A3) == [0xB0, 0x03, 0x61, 0xA3]
    ensures WordBytes(0x96177A9C) == [0x96, 0x17, 0x7A, 0x9C]
    ensures WordBytes(0xB410FF61) == [0xB4, 0x10, 0xFF, 0x61]
    ensures WordBytes(0xF20015AD) == [0xF2, 0x00, 0x15, 0xAD]
  {
  }

  /** The digest that the standard gives for "abc". */
  lemma DigestOfAbc()
    ensures Sha256([0x61, 0x62, 0x63]) ==
      [0xBA, 0x78, 0x16, 0xBF] + [0x8F, 0x01, 0xCF, 0xEA] + [0x41, 0x41, 0x40, 0xDE] + [0x5D, 0xAE, 0x22, 0x23] +
      [0xB0, 0x03, 0x61, 0xA3] + [0x96, 0x17, 0x7A, 0x9C] + [0xB4, 0x10, 0xFF, 0x61] + [0xF2, 0x00, 0x15, 0xAD]
  {
    Padded();
    Absorbed();
    Bytes();
  }
}
