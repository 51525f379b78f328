/**
 The worked example of FIPS 180-4 for SHA-1: the message "abc". It fixes the constants, the functions, the
 rotations, the padding and the order of the variables, none of which the proofs of libc/libc-sha1.c
 against the standard would notice being changed on both sides alike.
 */
module KnownAnswer {
  import opened Fips180

  const ABC: seq<bv8> := [0x61, 0x62, 0x63]

  lemma {:induction false} OneRound(v: Vars, ws: seq<bv32>, t: nat, w: bv32, next: Vars)
    requires t < |ws| && ws[t] == w && Step(v, t, w) == next
    ensures Steps(v, ws, t) == Steps(next, ws, t + 1)
  {
  }

  /** Word `t` of a schedule from the words before it. */
  lemma {:induction false} OneWord(ws: seq<bv32>, m: seq<bv32>, t: nat, w3: bv32, w8: bv32, w14: bv32, w16: bv32)
    requires |m| == 16 && IsSchedule(ws, m) && 16 <= t < |ws|
    requires ws[t - 3] == w3 && ws[t - 8] == w8 && ws[t - 14] == w14 && ws[t - 16] == w16
    ensures ws[t] == Expand(w3, w8, w14, w16)
  {
    assert ExpandsAt(ws, m, t);
  }

  // ---------------------------------------------------------------- padding

  /** Byte `i` of the padded message. */
  lemma {:induction false} PaddedByte(i: nat)
    requires i < 64
    ensures |Pad(ABC)| == 64
    ensures Pad(ABC)[i] == if i == 0 then 0x61 else if i == 1 then 0x62 else if i == 2 then 0x63
                           else if i == 3 then 0x80 else if i == 63 then 0x18 else 0
  {
    hide Base256;
    assert PadZeros(3) == 52;
    assert Pad(ABC) == ABC + [0x80] + Zeros(52) + Base256(24, 8);
    if i >= 56 {
      Base256Digit(24, 8, i - 56);
      ShortNumber(63 - i);
    }
  }

  lemma {:induction false} ShortNumber(k: nat)
    requires k < 8
    ensures Octet(Shr8(24, k)) == if k == 0 then 0x18 else 0
  {
    if k > 0 {
      assert Shr8(24, k) == Shr8(0, k - 1);
      ShrNothing(k - 1);
    }
  }

  lemma {:induction false} ShrNothing(k: nat)
    ensures Shr8(0, k) == 0
  {
    if k > 0 {
      ShrNothing(k - 1);
    }
  }

  lemma {:induction false} Words(m: seq<bv32>)
    requires |Pad(ABC)| == 64 && m == WordsOf(Pad(ABC))
    ensures |m| == 16 && m[0] == 0x61626380 && m[15] == 0x18 && forall k :: 1 <= k < 15 ==> m[k] == 0
  {
    forall k | 0 <= k < 16
      ensures m[k] == if k == 0 then 0x61626380 else if k == 15 then 0x18 else 0
    {
      var b := Pad(ABC);
      PaddedByte(4 * k);
      PaddedByte(4 * k + 1);
      PaddedByte(4 * k + 2);
      PaddedByte(4 * k + 3);
      assert m[k] == BigEndian(b[4 * k], b[4 * k + 1], b[4 * k + 2], b[4 * k + 3]);
    }
  }

  // ---------------------------------------------------------------- schedule

  ghost predicate Words0(ws: seq<bv32>) {
    && |ws| == 80
    && ws[0] == 0x61626380 && ws[1] == 0x00000000 && ws[2] == 0x00000000 && ws[3] == 0x00000000
    && ws[4] == 0x00000000 && ws[5] == 0x00000000 && ws[6] == 0x00000000 && ws[7] == 0x00000000
    && ws[8] == 0x00000000 && ws[9] == 0x00000000 && ws[10] == 0x00000000 && ws[11] == 0x00000000
    && ws[12] == 0x00000000 && ws[13] == 0x00000000 && ws[14] == 0x00000000 && ws[15] == 0x00000018
  }

  ghost predicate Words16(ws: seq<bv32>) {
    && |ws| == 80
    && ws[16] == 0xC2C4C700 && ws[17] == 0x00000000 && ws[18] == 0x00000030 && ws[19] == 0x85898E01
    && ws[20] == 0x00000000 && ws[21] == 0x00000060 && ws[22] == 0x0B131C03 && ws[23] == 0x00000030
    && ws[24] == 0x85898EC1 && ws[25] == 0x16263806 && ws[26] == 0x00000000 && ws[27] == 0x00000180
    && ws[28] == 0x2C4C700C && ws[29] == 0x000000F0 && ws[30] == 0x93AFB507 && ws[31] == 0x5898E048
  }

  ghost predicate Words32(ws: seq<bv32>) {
    && |ws| == 80
    && ws[32] == 0x8E9A9202 && ws[33] == 0x00000600 && ws[34] == 0xB131C0F0 && ws[35] == 0x16263BC6
    && ws[36] == 0x4EBED41E && ws[37] == 0x626380A1 && ws[38] == 0x16263806 && ws[39] == 0x000018C0
    && ws[40] == 0xD2E138C4 && ws[41] == 0x00000F00 && ws[42] == 0x3AFB5079 && ws[43] == 0x898E04E5
    && ws[44] == 0xE2BA3C2B && ws[45] == 0x000060C0 && ws[46] == 0x053A37CD && ws[47] == 0x74458547
  }

  ghost predicate Words48(ws: seq<bv32>) {
    && |ws| == 80
    && ws[48] == 0xDA9415ED && ws[49] == 0x26380A16 && ws[50] == 0x626383A1 && ws[51] == 0x4EBF54DE
    && ws[52] == 0x3835B44B && ws[53] == 0x0000F600 && ws[54] == 0x1E84C7A3 && ws[55] == 0x98E04D98
    && ws[56] == 0x651D16A0 && ws[57] == 0x62658CA1 && ws[58] == 0x458544D6 && ws[59] == 0x44584CB7
    && ws[60] == 0x7BA06619 && ws[61] == 0x6380AEA2 && ws[62] == 0x0AE55269 && ws[63] == 0x627B49A1
  }

  ghost predicate Words64(ws: seq<bv32>) {
    && |ws| == 80
    && ws[64] == 0x7CD45C9D && ws[65] == 0x000F0000 && ws[66] == 0xFB50753A && ws[67] == 0xEC6765E8
    && ws[68] == 0xBA3C2BE2 && ws[69] == 0x0060C000 && ws[70] == 0x3A37CD05 && ws[71] == 0x458546F4
    && ws[72] == 0xB8599DD6 && ws[73] == 0x380A1A26 && ws[74] == 0x01E02203 && ws[75] == 0xE7CC3456
    && ws[76] == 0xE6E60B69 && ws[77] == 0x00F60A00 && ws[78] == 0x5795EF4F && ws[79] == 0x822E0879
  }

  lemma {:induction false} FirstWords(ws: seq<bv32>, m: seq<bv32>)
    requires |ws| == 80 && |m| == 16 && IsSchedule(ws, m)
    requires m[0] == 0x61626380 && m[15] == 0x18 && forall k :: 1 <= k < 15 ==> m[k] == 0
    ensures Words0(ws)
  {
    forall t: nat | t < 16
      ensures ws[t] == m[t]
    {
      assert ExpandsAt(ws, m, t);
    }
  }

  lemma {:induction false} MoreWords16(ws: seq<bv32>, m: seq<bv32>)
    requires |m| == 16 && |ws| == 80 && IsSchedule(ws, m) && Words0(ws)
    ensures Words16(ws)
  {
    hide IsSchedule;
    OneWord(ws, m, 16, 0x00000000, 0x00000000, 0x00000000, 0x61626380);
    OneWord(ws, m, 17, 0x00000000, 0x00000000, 0x00000000, 0x00000000);
    OneWord(ws, m, 18, 0x00000018, 0x00000000, 0x00000000, 0x00000000);
    OneWord(ws, m, 19, 0xC2C4C700, 0x00000000, 0x00000000, 0x00000000);
    OneWord(ws, m, 20, 0x00000000, 0x00000000, 0x00000000, 0x00000000);
    OneWord(ws, m, 21, 0x00000030, 0x00000000, 0x00000000, 0x00000000);
    OneWord(ws, m, 22, 0x85898E01, 0x00000000, 0x00000000, 0x00000000);
    OneWord(ws, m, 23, 0x00000000, 0x00000018, 0x00000000, 0x00000000);
    OneWord(ws, m, 24, 0x00000060, 0xC2C4C700, 0x00000000, 0x00000000);
    OneWord(ws, m, 25, 0x0B131C03, 0x00000000, 0x00000000, 0x00000000);
    OneWord(ws, m, 26, 0x00000030, 0x00000030, 0x00000000, 0x00000000);
    OneWord(ws, m, 27, 0x85898EC1, 0x85898E01, 0x00000000, 0x00000000);
    OneWord(ws, m, 28, 0x16263806, 0x00000000, 0x00000000, 0x00000000);
    OneWord(ws, m, 29, 0x00000000, 0x00000060, 0x00000018, 0x00000000);
    OneWord(ws, m, 30, 0x00000180, 0x0B131C03, 0xC2C4C700, 0x00000000);
    OneWord(ws, m, 31, 0x2C4C700C, 0x00000030, 0x00000000, 0x00000018);
  }

  lemma {:induction false} MoreWords32(ws: seq<bv32>, m: seq<bv32>)
    requires |m| == 16 && |ws| == 80 && IsSchedule(ws, m) && Words16(ws)
    ensures Words32(ws)
  {
    hide IsSchedule;
    OneWord(ws, m, 32, 0x000000F0, 0x85898EC1, 0x00000030, 0xC2C4C700);
    OneWord(ws, m, 33, 0x93AFB507, 0x16263806, 0x85898E01, 0x00000000);
    OneWord(ws, m, 34, 0x5898E048, 0x00000000, 0x00000000, 0x00000030);
    OneWord(ws, m, 35, 0x8E9A9202, 0x00000180, 0x00000060, 0x85898E01);
    OneWord(ws, m, 36, 0x00000600, 0x2C4C700C, 0x0B131C03, 0x00000000);
    OneWord(ws, m, 37, 0xB131C0F0, 0x000000F0, 0x00000030, 0x00000060);
    OneWord(ws, m, 38, 0x16263BC6, 0x93AFB507, 0x85898EC1, 0x0B131C03);
    OneWord(ws, m, 39, 0x4EBED41E, 0x5898E048, 0x16263806, 0x00000030);
    OneWord(ws, m, 40, 0x626380A1, 0x8E9A9202, 0x00000000, 0x85898EC1);
    OneWord(ws, m, 41, 0x16263806, 0x00000600, 0x00000180, 0x16263806);
    OneWord(ws, m, 42, 0x000018C0, 0xB131C0F0, 0x2C4C700C, 0x00000000);
    OneWord(ws, m, 43, 0xD2E138C4, 0x16263BC6, 0x000000F0, 0x00000180);
    OneWord(ws, m, 44, 0x00000F00, 0x4EBED41E, 0x93AFB507, 0x2C4C700C);
    OneWord(ws, m, 45, 0x3AFB5079, 0x626380A1, 0x5898E048, 0x000000F0);
    OneWord(ws, m, 46, 0x898E04E5, 0x16263806, 0x8E9A9202, 0x93AFB507);
    OneWord(ws, m, 47, 0xE2BA3C2B, 0x000018C0, 0x00000600, 0x5898E048);
  }

  lemma {:induction false} MoreWords48(ws: seq<bv32>, m: seq<bv32>)
    requires |m| == 16 && |ws| == 80 && IsSchedule(ws, m) && Words32(ws)
    ensures Words48(ws)
  {
    hide IsSchedule;
    OneWord(ws, m, 48, 0x000060C0, 0xD2E138C4, 0xB131C0F0, 0x8E9A9202);
    OneWord(ws, m, 49, 0x053A37CD, 0x00000F00, 0x16263BC6, 0x00000600);
    OneWord(ws, m, 50, 0x74458547, 0x3AFB5079, 0x4EBED41E, 0xB131C0F0);
    OneWord(ws, m, 51, 0xDA9415ED, 0x898E04E5, 0x626380A1, 0x16263BC6);
    OneWord(ws, m, 52, 0x26380A16, 0xE2BA3C2B, 0x16263806, 0x4EBED41E);
    OneWord(ws, m, 53, 0x626383A1, 0x000060C0, 0x000018C0, 0x626380A1);
    OneWord(ws, m, 54, 0x4EBF54DE, 0x053A37CD, 0xD2E138C4, 0x16263806);
    OneWord(ws, m, 55, 0x3835B44B, 0x74458547, 0x00000F00, 0x000018C0);
    OneWord(ws, m, 56, 0x0000F600, 0xDA9415ED, 0x3AFB5079, 0xD2E138C4);
    OneWord(ws, m, 57, 0x1E84C7A3, 0x26380A16, 0x898E04E5, 0x00000F00);
    OneWord(ws, m, 58, 0x98E04D98, 0x626383A1, 0xE2BA3C2B, 0x3AFB5079);
    OneWord(ws, m, 59, 0x651D16A0, 0x4EBF54DE, 0x000060C0, 0x898E04E5);
    OneWord(ws, m, 60, 0x62658CA1, 0x3835B44B, 0x053A37CD, 0xE2BA3C2B);
    OneWord(ws, m, 61, 0x458544D6, 0x0000F600, 0x74458547, 0x000060C0);
    OneWord(ws, m, 62, 0x44584CB7, 0x1E84C7A3, 0xDA9415ED, 0x053A37CD);
    OneWord(ws, m, 63, 0x7BA06619, 0x98E04D98, 0x26380A16, 0x74458547);
  }

  lemma {:induction false} MoreWords64(ws: seq<bv32>, m: seq<bv32>)
    requires |m| == 16 && |ws| == 80 && IsSchedule(ws, m) && Words48(ws)
    ensures Words64(ws)
  {
    hide IsSchedule;
    OneWord(ws, m, 64, 0x6380AEA2, 0x651D16A0, 0x626383A1, 0xDA9415ED);
    OneWord(ws, m, 65, 0x0AE55269, 0x62658CA1, 0x4EBF54DE, 0x26380A16);
    OneWord(ws, m, 66, 0x627B49A1, 0x458544D6, 0x3835B44B, 0x626383A1);
    OneWord(ws, m, 67, 0x7CD45C9D, 0x44584CB7, 0x0000F600, 0x4EBF54DE);
    OneWord(ws, m, 68, 0x000F0000, 0x7BA06619, 0x1E84C7A3, 0x3835B44B);
    OneWord(ws, m, 69, 0xFB50753A, 0x6380AEA2, 0x98E04D98, 0x0000F600);
    OneWord(ws, m, 70, 0xEC6765E8, 0x0AE55269, 0x651D16A0, 0x1E84C7A3);
    OneWord(ws, m, 71, 0xBA3C2BE2, 0x627B49A1, 0x62658CA1, 0x98E04D98);
    OneWord(ws, m, 72, 0x0060C000, 0x7CD45C9D, 0x458544D6, 0x651D16A0);
    OneWord(ws, m, 73, 0x3A37CD05, 0x000F0000, 0x44584CB7, 0x62658CA1);
    OneWord(ws, m, 74, 0x458546F4, 0xFB50753A, 0x7BA06619, 0x458544D6);
    OneWord(ws, m, 75, 0xB8599DD6, 0xEC6765E8, 0x6380AEA2, 0x44584CB7);
    OneWord(ws, m, 76, 0x380A1A26, 0xBA3C2BE2, 0x0AE55269, 0x7BA06619);
    OneWord(ws, m, 77, 0x01E02203, 0x0060C000, 0x627B49A1, 0x6380AEA2);
    OneWord(ws, m, 78, 0xE7CC3456, 0x3A37CD05, 0x7CD45C9D, 0x0AE55269);
    OneWord(ws, m, 79, 0xE6E60B69, 0x458546F4, 0x000F0000, 0x627B49A1);
  }

  // ---------------------------------------------------------------- rounds

  lemma {:induction false} Rounds0(ws: seq<bv32>)
    requires Words0(ws)
    ensures Steps(Vars(0x67452301, 0xEFCDAB89, 0x98BADCFE, 0x10325476, 0xC3D2E1F0), ws, 0)
            == Steps(Vars(0x8351F929, 0x4B6AE328, 0x27A301F5, 0x664F8C30, 0x0FF1F290), ws, 10)
  {
    hide Steps;
    OneRound(Vars(0x67452301, 0xEFCDAB89, 0x98BADCFE, 0x10325476, 0xC3D2E1F0), ws, 0, 0x61626380,
             Vars(0x0116FC33, 0x67452301, 0x7BF36AE2, 0x98BADCFE, 0x10325476));
    OneRound(Vars(0x0116FC33, 0x67452301, 0x7BF36AE2, 0x98BADCFE, 0x10325476), ws, 1, 0x00000000,
             Vars(0x8990536D, 0x0116FC33, 0x59D148C0, 0x7BF36AE2, 0x98BADCFE));
    OneRound(Vars(0x8990536D, 0x0116FC33, 0x59D148C0, 0x7BF36AE2, 0x98BADCFE), ws, 2, 0x00000000,
             Vars(0xA1390F08, 0x8990536D, 0xC045BF0C, 0x59D148C0, 0x7BF36AE2));
    OneRound(Vars(0xA1390F08, 0x8990536D, 0xC045BF0C, 0x59D148C0, 0x7BF36AE2), ws, 3, 0x00000000,
             Vars(0xCDD8E11B, 0xA1390F08, 0x626414DB, 0xC045BF0C, 0x59D148C0));
    OneRound(Vars(0xCDD8E11B, 0xA1390F08, 0x626414DB, 0xC045BF0C, 0x59D148C0), ws, 4, 0x00000000,
             Vars(0xCFD499DE, 0xCDD8E11B, 0x284E43C2, 0x626414DB, 0xC045BF0C));
    OneRound(Vars(0xCFD499DE, 0xCDD8E11B, 0x284E43C2, 0x626414DB, 0xC045BF0C), ws, 5, 0x00000000,
             Vars(0x3FC7CA40, 0xCFD499DE, 0xF3763846, 0x284E43C2, 0x626414DB));
    OneRound(Vars(0x3FC7CA40, 0xCFD499DE, 0xF3763846, 0x284E43C2, 0x626414DB), ws, 6, 0x00000000,
             Vars(0x993E30C1, 0x3FC7CA40, 0xB3F52677, 0xF3763846, 0x284E43C2));
    OneRound(Vars(0x993E30C1, 0x3FC7CA40, 0xB3F52677, 0xF3763846, 0x284E43C2), ws, 7, 0x00000000,
             Vars(0x9E8C07D4, 0x993E30C1, 0x0FF1F290, 0xB3F52677, 0xF3763846));
    OneRound(Vars(0x9E8C07D4, 0x993E30C1, 0x0FF1F290, 0xB3F52677, 0xF3763846), ws, 8, 0x00000000,
             Vars(0x4B6AE328, 0x9E8C07D4, 0x664F8C30, 0x0FF1F290, 0xB3F52677));
    OneRound(Vars(0x4B6AE328, 0x9E8C07D4, 0x664F8C30, 0x0FF1F290, 0xB3F52677), ws, 9, 0x00000000,
             Vars(0x8351F929, 0x4B6AE328, 0x27A301F5, 0x664F8C30, 0x0FF1F290));
  }

  lemma {:induction false} Rounds10(ws: seq<bv32>)
    requires Words0(ws) && Words16(ws)
    ensures Steps(Vars(0x8351F929, 0x4B6AE328, 0x27A301F5, 0x664F8C30, 0x0FF1F290), ws, 10)
            == Steps(Vars(0xFD9E1D7D, 0xDC64901D, 0x20AA99CA, 0xD3A49608, 0xC82F758B), ws, 20)
  {
    hide Steps;
    OneRound(Vars(0x8351F929, 0x4B6AE328, 0x27A301F5, 0x664F8C30, 0x0FF1F290), ws, 10, 0x00000000,
             Vars(0xFBDA9E89, 0x8351F929, 0x12DAB8CA, 0x27A301F5, 0x664F8C30));
    OneRound(Vars(0xFBDA9E89, 0x8351F929, 0x12DAB8CA, 0x27A301F5, 0x664F8C30), ws, 11, 0x00000000,
             Vars(0x63188FE4, 0xFBDA9E89, 0x60D47E4A, 0x12DAB8CA, 0x27A301F5));
    OneRound(Vars(0x63188FE4, 0xFBDA9E89, 0x60D47E4A, 0x12DAB8CA, 0x27A301F5), ws, 12, 0x00000000,
             Vars(0x4607B664, 0x63188FE4, 0x7EF6A7A2, 0x60D47E4A, 0x12DAB8CA));
    OneRound(Vars(0x4607B664, 0x63188FE4, 0x7EF6A7A2, 0x60D47E4A, 0x12DAB8CA), ws, 13, 0x00000000,
             Vars(0x9128F695, 0x4607B664, 0x18C623F9, 0x7EF6A7A2, 0x60D47E4A));
    OneRound(Vars(0x9128F695, 0x4607B664, 0x18C623F9, 0x7EF6A7A2, 0x60D47E4A), ws, 14, 0x00000000,
             Vars(0x196BEE77, 0x9128F695, 0x1181ED99, 0x18C623F9, 0x7EF6A7A2));
    OneRound(Vars(0x196BEE77, 0x9128F695, 0x1181ED99, 0x18C623F9, 0x7EF6A7A2), ws, 15, 0x00000018,
             Vars(0x20BDD62F, 0x196BEE77, 0x644A3DA5, 0x1181ED99, 0x18C623F9));
    OneRound(Vars(0x20BDD62F, 0x196BEE77, 0x644A3DA5, 0x1181ED99, 0x18C623F9), ws, 16, 0xC2C4C700,
             Vars(0x4E925823, 0x20BDD62F, 0xC65AFB9D, 0x644A3DA5, 0x1181ED99));
    OneRound(Vars(0x4E925823, 0x20BDD62F, 0xC65AFB9D, 0x644A3DA5, 0x1181ED99), ws, 17, 0x00000000,
             Vars(0x82AA6728, 0x4E925823, 0xC82F758B, 0xC65AFB9D, 0x644A3DA5));
    OneRound(Vars(0x82AA6728, 0x4E925823, 0xC82F758B, 0xC65AFB9D, 0x644A3DA5), ws, 18, 0x00000030,
             Vars(0xDC64901D, 0x82AA6728, 0xD3A49608, 0xC82F758B, 0xC65AFB9D));
    OneRound(Vars(0xDC64901D, 0x82AA6728, 0xD3A49608, 0xC82F758B, 0xC65AFB9D), ws, 19, 0x85898E01,
             Vars(0xFD9E1D7D, 0xDC64901D, 0x20AA99CA, 0xD3A49608, 0xC82F758B));
  }

  lemma {:induction false} Rounds20(ws: seq<bv32>)
    requires Words16(ws)
    ensures Steps(Vars(0xFD9E1D7D, 0xDC64901D, 0x20AA99CA, 0xD3A49608, 0xC82F758B), ws, 20)
            == Steps(Vars(0xC5FBAF5D, 0x8370B52E, 0xD2AA1365, 0x6F8D7EF5, 0x12104EE9), ws, 30)
  {
    hide Steps;
    OneRound(Vars(0xFD9E1D7D, 0xDC64901D, 0x20AA99CA, 0xD3A49608, 0xC82F758B), ws, 20, 0x00000000,
             Vars(0x1A37B0CA, 0xFD9E1D7D, 0x77192407, 0x20AA99CA, 0xD3A49608));
    OneRound(Vars(0x1A37B0CA, 0xFD9E1D7D, 0x77192407, 0x20AA99CA, 0xD3A49608), ws, 21, 0x00000060,
             Vars(0x33A23BFC, 0x1A37B0CA, 0x7F67875F, 0x77192407, 0x20AA99CA));
    OneRound(Vars(0x33A23BFC, 0x1A37B0CA, 0x7F67875F, 0x77192407, 0x20AA99CA), ws, 22, 0x0B131C03,
             Vars(0x21283486, 0x33A23BFC, 0x868DEC32, 0x7F67875F, 0x77192407));
    OneRound(Vars(0x21283486, 0x33A23BFC, 0x868DEC32, 0x7F67875F, 0x77192407), ws, 23, 0x00000030,
             Vars(0xD541F12D, 0x21283486, 0x0CE88EFF, 0x868DEC32, 0x7F67875F));
    OneRound(Vars(0xD541F12D, 0x21283486, 0x0CE88EFF, 0x868DEC32, 0x7F67875F), ws, 24, 0x85898EC1,
             Vars(0xC7567DC6, 0xD541F12D, 0x884A0D21, 0x0CE88EFF, 0x868DEC32));
    OneRound(Vars(0xC7567DC6, 0xD541F12D, 0x884A0D21, 0x0CE88EFF, 0x868DEC32), ws, 25, 0x16263806,
             Vars(0x48413BA4, 0xC7567DC6, 0x75507C4B, 0x884A0D21, 0x0CE88EFF));
    OneRound(Vars(0x48413BA4, 0xC7567DC6, 0x75507C4B, 0x884A0D21, 0x0CE88EFF), ws, 26, 0x00000000,
             Vars(0xBE35FBD5, 0x48413BA4, 0xB1D59F71, 0x75507C4B, 0x884A0D21));
    OneRound(Vars(0xBE35FBD5, 0x48413BA4, 0xB1D59F71, 0x75507C4B, 0x884A0D21), ws, 27, 0x00000180,
             Vars(0x4AA84D97, 0xBE35FBD5, 0x12104EE9, 0xB1D59F71, 0x75507C4B));
    OneRound(Vars(0x4AA84D97, 0xBE35FBD5, 0x12104EE9, 0xB1D59F71, 0x75507C4B), ws, 28, 0x2C4C700C,
             Vars(0x8370B52E, 0x4AA84D97, 0x6F8D7EF5, 0x12104EE9, 0xB1D59F71));
    OneRound(Vars(0x8370B52E, 0x4AA84D97, 0x6F8D7EF5, 0x12104EE9, 0xB1D59F71), ws, 29, 0x000000F0,
             Vars(0xC5FBAF5D, 0x8370B52E, 0xD2AA1365, 0x6F8D7EF5, 0x12104EE9));
  }

  lemma {:induction false} Rounds30(ws: seq<bv32>)
    requires Words16(ws) && Words32(ws)
    ensures Steps(Vars(0xC5FBAF5D, 0x8370B52E, 0xD2AA1365, 0x6F8D7EF5, 0x12104EE9), ws, 30)
            == Steps(Vars(0x32DE1CBA, 0x4C986405, 0xF718E5CF, 0x03D447F6, 0xF72EEC32), ws, 40)
  {
    hide Steps;
    OneRound(Vars(0xC5FBAF5D, 0x8370B52E, 0xD2AA1365, 0x6F8D7EF5, 0x12104EE9), ws, 30, 0x93AFB507,
             Vars(0x1267B407, 0xC5FBAF5D, 0xA0DC2D4B, 0xD2AA1365, 0x6F8D7EF5));
    OneRound(Vars(0x1267B407, 0xC5FBAF5D, 0xA0DC2D4B, 0xD2AA1365, 0x6F8D7EF5), ws, 31, 0x5898E048,
             Vars(0x3B845D33, 0x1267B407, 0x717EEBD7, 0xA0DC2D4B, 0xD2AA1365));
    OneRound(Vars(0x3B845D33, 0x1267B407, 0x717EEBD7, 0xA0DC2D4B, 0xD2AA1365), ws, 32, 0x8E9A9202,
             Vars(0x046FAA0A, 0x3B845D33, 0xC499ED01, 0x717EEBD7, 0xA0DC2D4B));
    OneRound(Vars(0x046FAA0A, 0x3B845D33, 0xC499ED01, 0x717EEBD7, 0xA0DC2D4B), ws, 33, 0x00000600,
             Vars(0x2C0EBC11, 0x046FAA0A, 0xCEE1174C, 0xC499ED01, 0x717EEBD7));
    OneRound(Vars(0x2C0EBC11, 0x046FAA0A, 0xCEE1174C, 0xC499ED01, 0x717EEBD7), ws, 34, 0xB131C0F0,
             Vars(0x21796AD4, 0x2C0EBC11, 0x811BEA82, 0xCEE1174C, 0xC499ED01));
    OneRound(Vars(0x21796AD4, 0x2C0EBC11, 0x811BEA82, 0xCEE1174C, 0xC499ED01), ws, 35, 0x16263BC6,
             Vars(0xDCBBB0CB, 0x21796AD4, 0x4B03AF04, 0x811BEA82, 0xCEE1174C));
    OneRound(Vars(0xDCBBB0CB, 0x21796AD4, 0x4B03AF04, 0x811BEA82, 0xCEE1174C), ws, 36, 0x4EBED41E,
             Vars(0x0F511FD8, 0xDCBBB0CB, 0x085E5AB5, 0x4B03AF04, 0x811BEA82));
    OneRound(Vars(0x0F511FD8, 0xDCBBB0CB, 0x085E5AB5, 0x4B03AF04, 0x811BEA82), ws, 37, 0x626380A1,
             Vars(0xDC63973F, 0x0F511FD8, 0xF72EEC32, 0x085E5AB5, 0x4B03AF04));
    OneRound(Vars(0xDC63973F, 0x0F511FD8, 0xF72EEC32, 0x085E5AB5, 0x4B03AF04), ws, 38, 0x16263806,
             Vars(0x4C986405, 0xDC63973F, 0x03D447F6, 0xF72EEC32, 0x085E5AB5));
    OneRound(Vars(0x4C986405, 0xDC63973F, 0x03D447F6, 0xF72EEC32, 0x085E5AB5), ws, 39, 0x000018C0,
             Vars(0x32DE1CBA, 0x4C986405, 0xF718E5CF, 0x03D447F6, 0xF72EEC32));
  }

  lemma {:induction false} Rounds40(ws: seq<bv32>)
    requires Words32(ws) && Words48(ws)
    ensures Steps(Vars(0x32DE1CBA, 0x4C986405, 0xF718E5CF, 0x03D447F6, 0xF72EEC32), ws, 40)
            == Steps(Vars(0x120731C5, 0xBAF39337, 0xAFAB40B2, 0x2806E11B, 0x8714787C), ws, 50)
  {
    hide Steps;
    OneRound(Vars(0x32DE1CBA, 0x4C986405, 0xF718E5CF, 0x03D447F6, 0xF72EEC32), ws, 40, 0xD2E138C4,
             Vars(0xFC87DEDF, 0x32DE1CBA, 0x53261901, 0xF718E5CF, 0x03D447F6));
    OneRound(Vars(0xFC87DEDF, 0x32DE1CBA, 0x53261901, 0xF718E5CF, 0x03D447F6), ws, 41, 0x00000F00,
             Vars(0x970A0D5C, 0xFC87DEDF, 0x8CB7872E, 0x53261901, 0xF718E5CF));
    OneRound(Vars(0x970A0D5C, 0xFC87DEDF, 0x8CB7872E, 0x53261901, 0xF718E5CF), ws, 42, 0x3AFB5079,
             Vars(0x7F193DC5, 0x970A0D5C, 0xFF21F7B7, 0x8CB7872E, 0x53261901));
    OneRound(Vars(0x7F193DC5, 0x970A0D5C, 0xFF21F7B7, 0x8CB7872E, 0x53261901), ws, 43, 0x898E04E5,
             Vars(0xEE1B1AAF, 0x7F193DC5, 0x25C28357, 0xFF21F7B7, 0x8CB7872E));
    OneRound(Vars(0xEE1B1AAF, 0x7F193DC5, 0x25C28357, 0xFF21F7B7, 0x8CB7872E), ws, 44, 0xE2BA3C2B,
             Vars(0x40F28E09, 0xEE1B1AAF, 0x5FC64F71, 0x25C28357, 0xFF21F7B7));
    OneRound(Vars(0x40F28E09, 0xEE1B1AAF, 0x5FC64F71, 0x25C28357, 0xFF21F7B7), ws, 45, 0x000060C0,
             Vars(0x1C51E1F2, 0x40F28E09, 0xFB86C6AB, 0x5FC64F71, 0x25C28357));
    OneRound(Vars(0x1C51E1F2, 0x40F28E09, 0xFB86C6AB, 0x5FC64F71, 0x25C28357), ws, 46, 0x053A37CD,
             Vars(0xA01B846C, 0x1C51E1F2, 0x503CA382, 0xFB86C6AB, 0x5FC64F71));
    OneRound(Vars(0xA01B846C, 0x1C51E1F2, 0x503CA382, 0xFB86C6AB, 0x5FC64F71), ws, 47, 0x74458547,
             Vars(0xBEAD02CA, 0xA01B846C, 0x8714787C, 0x503CA382, 0xFB86C6AB));
    OneRound(Vars(0xBEAD02CA, 0xA01B846C, 0x8714787C, 0x503CA382, 0xFB86C6AB), ws, 48, 0xDA9415ED,
             Vars(0xBAF39337, 0xBEAD02CA, 0x2806E11B, 0x8714787C, 0x503CA382));
    OneRound(Vars(0xBAF39337, 0xBEAD02CA, 0x2806E11B, 0x8714787C, 0x503CA382), ws, 49, 0x26380A16,
             Vars(0x120731C5, 0xBAF39337, 0xAFAB40B2, 0x2806E11B, 0x8714787C));
  }

  lemma {:induction false} Rounds50(ws: seq<bv32>)
    requires Words48(ws)
    ensures Steps(Vars(0x120731C5, 0xBAF39337, 0xAFAB40B2, 0x2806E11B, 0x8714787C), ws, 50)
            == Steps(Vars(0x3F52DE5A, 0x09D785FD, 0x3498BFD4, 0xF211824F, 0xD79915AB), ws, 60)
  {
    hide Steps;
    OneRound(Vars(0x120731C5, 0xBAF39337, 0xAFAB40B2, 0x2806E11B, 0x8714787C), ws, 50, 0x626383A1,
             Vars(0x641DB2CE, 0x120731C5, 0xEEBCE4CD, 0xAFAB40B2, 0x2806E11B));
    OneRound(Vars(0x641DB2CE, 0x120731C5, 0xEEBCE4CD, 0xAFAB40B2, 0x2806E11B), ws, 51, 0x4EBF54DE,
             Vars(0x3847AD66, 0x641DB2CE, 0x4481CC71, 0xEEBCE4CD, 0xAFAB40B2));
    OneRound(Vars(0x3847AD66, 0x641DB2CE, 0x4481CC71, 0xEEBCE4CD, 0xAFAB40B2), ws, 52, 0x3835B44B,
             Vars(0xE490436D, 0x3847AD66, 0x99076CB3, 0x4481CC71, 0xEEBCE4CD));
    OneRound(Vars(0xE490436D, 0x3847AD66, 0x99076CB3, 0x4481CC71, 0xEEBCE4CD), ws, 53, 0x0000F600,
             Vars(0x27E9F1D8, 0xE490436D, 0x8E11EB59, 0x99076CB3, 0x4481CC71));
    OneRound(Vars(0x27E9F1D8, 0xE490436D, 0x8E11EB59, 0x99076CB3, 0x4481CC71), ws, 54, 0x1E84C7A3,
             Vars(0x7B71F76D, 0x27E9F1D8, 0x792410DB, 0x8E11EB59, 0x99076CB3));
    OneRound(Vars(0x7B71F76D, 0x27E9F1D8, 0x792410DB, 0x8E11EB59, 0x99076CB3), ws, 55, 0x98E04D98,
             Vars(0x5E6456AF, 0x7B71F76D, 0x09FA7C76, 0x792410DB, 0x8E11EB59));
    OneRound(Vars(0x5E6456AF, 0x7B71F76D, 0x09FA7C76, 0x792410DB, 0x8E11EB59), ws, 56, 0x651D16A0,
             Vars(0xC846093F, 0x5E6456AF, 0x5EDC7DDB, 0x09FA7C76, 0x792410DB));
    OneRound(Vars(0xC846093F, 0x5E6456AF, 0x5EDC7DDB, 0x09FA7C76, 0x792410DB), ws, 57, 0x62658CA1,
             Vars(0xD262FF50, 0xC846093F, 0xD79915AB, 0x5EDC7DDB, 0x09FA7C76));
    OneRound(Vars(0xD262FF50, 0xC846093F, 0xD79915AB, 0x5EDC7DDB, 0x09FA7C76), ws, 58, 0x458544D6,
             Vars(0x09D785FD, 0xD262FF50, 0xF211824F, 0xD79915AB, 0x5EDC7DDB));
    OneRound(Vars(0x09D785FD, 0xD262FF50, 0xF211824F, 0xD79915AB, 0x5EDC7DDB), ws, 59, 0x44584CB7,
             Vars(0x3F52DE5A, 0x09D785FD, 0x3498BFD4, 0xF211824F, 0xD79915AB));
  }

  lemma {:induction false} Rounds60(ws: seq<bv32>)
    requires Words48(ws) && Words64(ws)
    ensures Steps(Vars(0x3F52DE5A, 0x09D785FD, 0x3498BFD4, 0xF211824F, 0xD79915AB), ws, 60)
            == Steps(Vars(0x3F2588C2, 0x497093C0, 0xDE37534A, 0x030F7CAD, 0x4405957E), ws, 70)
  {
    hide Steps;
    OneRound(Vars(0x3F52DE5A, 0x09D785FD, 0x3498BFD4, 0xF211824F, 0xD79915AB), ws, 60, 0x7BA06619,
             Vars(0xD756C147, 0x3F52DE5A, 0x4275E17F, 0x3498BFD4, 0xF211824F));
    OneRound(Vars(0xD756C147, 0x3F52DE5A, 0x4275E17F, 0x3498BFD4, 0xF211824F), ws, 61, 0x6380AEA2,
             Vars(0x548C9CB2, 0xD756C147, 0x8FD4B796, 0x4275E17F, 0x3498BFD4));
    OneRound(Vars(0x548C9CB2, 0xD756C147, 0x8FD4B796, 0x4275E17F, 0x3498BFD4), ws, 62, 0x0AE55269,
             Vars(0xB66C020B, 0x548C9CB2, 0xF5D5B051, 0x8FD4B796, 0x4275E17F));
    OneRound(Vars(0xB66C020B, 0x548C9CB2, 0xF5D5B051, 0x8FD4B796, 0x4275E17F), ws, 63, 0x627B49A1,
             Vars(0x6B61C9E1, 0xB66C020B, 0x9523272C, 0xF5D5B051, 0x8FD4B796));
    OneRound(Vars(0x6B61C9E1, 0xB66C020B, 0x9523272C, 0xF5D5B051, 0x8FD4B796), ws, 64, 0x7CD45C9D,
             Vars(0x19DFA7AC, 0x6B61C9E1, 0xED9B0082, 0x9523272C, 0xF5D5B051));
    OneRound(Vars(0x19DFA7AC, 0x6B61C9E1, 0xED9B0082, 0x9523272C, 0xF5D5B051), ws, 65, 0x000F0000,
             Vars(0x101655F9, 0x19DFA7AC, 0x5AD87278, 0xED9B0082, 0x9523272C));
    OneRound(Vars(0x101655F9, 0x19DFA7AC, 0x5AD87278, 0xED9B0082, 0x9523272C), ws, 66, 0xFB50753A,
             Vars(0x0C3DF2B4, 0x101655F9, 0x0677E9EB, 0x5AD87278, 0xED9B0082));
    OneRound(Vars(0x0C3DF2B4, 0x101655F9, 0x0677E9EB, 0x5AD87278, 0xED9B0082), ws, 67, 0xEC6765E8,
             Vars(0x78DD4D2B, 0x0C3DF2B4, 0x4405957E, 0x0677E9EB, 0x5AD87278));
    OneRound(Vars(0x78DD4D2B, 0x0C3DF2B4, 0x4405957E, 0x0677E9EB, 0x5AD87278), ws, 68, 0xBA3C2BE2,
             Vars(0x497093C0, 0x78DD4D2B, 0x030F7CAD, 0x4405957E, 0x0677E9EB));
    OneRound(Vars(0x497093C0, 0x78DD4D2B, 0x030F7CAD, 0x4405957E, 0x0677E9EB), ws, 69, 0x0060C000,
             Vars(0x3F2588C2, 0x497093C0, 0xDE37534A, 0x030F7CAD, 0x4405957E));
  }

  lemma {:induction false} Rounds70(ws: seq<bv32>)
    requires Words64(ws)
    ensures Steps(Vars(0x3F2588C2, 0x497093C0, 0xDE37534A, 0x030F7CAD, 0x4405957E), ws, 70)
            == Steps(Vars(0x42541B35, 0x5738D5E1, 0x21834873, 0x681E6DF6, 0xD8FDF6AD), ws, 80)
  {
    hide Steps;
    OneRound(Vars(0x3F2588C2, 0x497093C0, 0xDE37534A, 0x030F7CAD, 0x4405957E), ws, 70, 0x3A37CD05,
             Vars(0xC199F8C7, 0x3F2588C2, 0x125C24F0, 0xDE37534A, 0x030F7CAD));
    OneRound(Vars(0xC199F8C7, 0x3F2588C2, 0x125C24F0, 0xDE37534A, 0x030F7CAD), ws, 71, 0x458546F4,
             Vars(0x39859DE7, 0xC199F8C7, 0x8FC96230, 0x125C24F0, 0xDE37534A));
    OneRound(Vars(0x39859DE7, 0xC199F8C7, 0x8FC96230, 0x125C24F0, 0xDE37534A), ws, 72, 0xB8599DD6,
             Vars(0xEDB42DE4, 0x39859DE7, 0xF0667E31, 0x8FC96230, 0x125C24F0));
    OneRound(Vars(0xEDB42DE4, 0x39859DE7, 0xF0667E31, 0x8FC96230, 0x125C24F0), ws, 73, 0x380A1A26,
             Vars(0x11793F6F, 0xEDB42DE4, 0xCE616779, 0xF0667E31, 0x8FC96230));
    OneRound(Vars(0x11793F6F, 0xEDB42DE4, 0xCE616779, 0xF0667E31, 0x8FC96230), ws, 74, 0x01E02203,
             Vars(0x5EE76897, 0x11793F6F, 0x3B6D0B79, 0xCE616779, 0xF0667E31));
    OneRound(Vars(0x5EE76897, 0x11793F6F, 0x3B6D0B79, 0xCE616779, 0xF0667E31), ws, 75, 0xE7CC3456,
             Vars(0x63F7DAB7, 0x5EE76897, 0xC45E4FDB, 0x3B6D0B79, 0xCE616779));
    OneRound(Vars(0x63F7DAB7, 0x5EE76897, 0xC45E4FDB, 0x3B6D0B79, 0xCE616779), ws, 76, 0xE6E60B69,
             Vars(0xA079B7D9, 0x63F7DAB7, 0xD7B9DA25, 0xC45E4FDB, 0x3B6D0B79));
    OneRound(Vars(0xA079B7D9, 0x63F7DAB7, 0xD7B9DA25, 0xC45E4FDB, 0x3B6D0B79), ws, 77, 0x00F60A00,
             Vars(0x860D21CC, 0xA079B7D9, 0xD8FDF6AD, 0xD7B9DA25, 0xC45E4FDB));
    OneRound(Vars(0x860D21CC, 0xA079B7D9, 0xD8FDF6AD, 0xD7B9DA25, 0xC45E4FDB), ws, 78, 0x5795EF4F,
             Vars(0x5738D5E1, 0x860D21CC, 0x681E6DF6, 0xD8FDF6AD, 0xD7B9DA25));
    OneRound(Vars(0x5738D5E1, 0x860D21CC, 0x681E6DF6, 0xD8FDF6AD, 0xD7B9DA25), ws, 79, 0x822E0879,
             Vars(0x42541B35, 0x5738D5E1, 0x21834873, 0x681E6DF6, 0xD8FDF6AD));
  }

  lemma {:induction false} EightyRounds(ws: seq<bv32>)
    requires Words0(ws) && Words16(ws) && Words32(ws) && Words48(ws) && Words64(ws)
    ensures Steps(H0, ws, 0) == Vars(0x42541B35, 0x5738D5E1, 0x21834873, 0x681E6DF6, 0xD8FDF6AD)
  {
    hide Words0, Words16, Words32, Words48, Words64;
    Rounds0(ws);
    Rounds10(ws);
    Rounds20(ws);
    Rounds30(ws);
    Rounds40(ws);
    Rounds50(ws);
    Rounds60(ws);
    Rounds70(ws);
    LastStep(ws, Vars(0x42541B35, 0x5738D5E1, 0x21834873, 0x681E6DF6, 0xD8FDF6AD));
  }

  lemma {:induction false} LastStep(ws: seq<bv32>, v: Vars)
    requires Words64(ws)
    ensures Steps(v, ws, 80) == v
  {
  }

  lemma {:induction false} Compressed()
    ensures |Pad(ABC)| == 64
    ensures Compress(H0, Pad(ABC)) == Vars(0xA9993E36, 0x4706816A, 0xBA3E2571, 0x7850C26C, 0x9CD0D89D)
  {
    hide Pad, WordsOf, Steps, IsSchedule;
    PaddedByte(0);
    var m := WordsOf(Pad(ABC));
    Words(m);
    NothingYet(m);
    var ws := Schedule(m, []);
    FirstWords(ws, m);
    MoreWords16(ws, m);
    MoreWords32(ws, m);
    MoreWords48(ws, m);
    MoreWords64(ws, m);
    EightyRounds(ws);
  }

  lemma {:induction false} NothingYet(m: seq<bv32>)
    requires |m| == 16
    ensures IsSchedule([], m)
  {
  }

  /** The digest of "abc". */
  lemma {:induction false} DigestOfAbc()
    ensures Digest(ABC) == [0xA9, 0x99, 0x3E, 0x36, 0x47, 0x06, 0x81, 0x6A, 0xBA, 0x3E,
                            0x25, 0x71, 0x78, 0x50, 0xC2, 0x6C, 0x9C, 0xD0, 0xD8, 0x9D]
  {
    hide Compress, Pad;
    Compressed();
    var b := Pad(ABC);
    assert Block(b, 0) == b;
    assert HashBlocks(H0, b, 1) == Compress(HashBlocks(H0, b, 0), Block(b, 0));
  }
}
