/** The first example of FIPS 180-4's appendix: the digest of "abc", round by round. */
module Sha1Example {
  import opened Sha1

  const MESSAGE: seq<octet> := [0x61, 0x62, 0x63]

  /** The message schedule of the one block. */
  function W(t: nat): word {
    match t
    case 0 => 0x61626380 case 1 => 0x00000000 case 2 => 0x00000000 case 3 => 0x00000000
    case 4 => 0x00000000 case 5 => 0x00000000 case 6 => 0x00000000 case 7 => 0x00000000
    case 8 => 0x00000000 case 9 => 0x00000000 case 10 => 0x00000000 case 11 => 0x00000000
    case 12 => 0x00000000 case 13 => 0x00000000 case 14 => 0x00000000 case 15 => 0x00000018
    case 16 => 0xC2C4C700 case 17 => 0x00000000 case 18 => 0x00000030 case 19 => 0x85898E01
    case 20 => 0x00000000 case 21 => 0x00000060 case 22 => 0x0B131C03 case 23 => 0x00000030
    case 24 => 0x85898EC1 case 25 => 0x16263806 case 26 => 0x00000000 case 27 => 0x00000180
    case 28 => 0x2C4C700C case 29 => 0x000000F0 case 30 => 0x93AFB507 case 31 => 0x5898E048
    case 32 => 0x8E9A9202 case 33 => 0x00000600 case 34 => 0xB131C0F0 case 35 => 0x16263BC6
    case 36 => 0x4EBED41E case 37 => 0x626380A1 case 38 => 0x16263806 case 39 => 0x000018C0
    case 40 => 0xD2E138C4 case 41 => 0x00000F00 case 42 => 0x3AFB5079 case 43 => 0x898E04E5
    case 44 => 0xE2BA3C2B case 45 => 0x000060C0 case 46 => 0x053A37CD case 47 => 0x74458547
    case 48 => 0xDA9415ED case 49 => 0x26380A16 case 50 => 0x626383A1 case 51 => 0x4EBF54DE
    case 52 => 0x3835B44B case 53 => 0x0000F600 case 54 => 0x1E84C7A3 case 55 => 0x98E04D98
    case 56 => 0x651D16A0 case 57 => 0x62658CA1 case 58 => 0x458544D6 case 59 => 0x44584CB7
    case 60 => 0x7BA06619 case 61 => 0x6380AEA2 case 62 => 0x0AE55269 case 63 => 0x627B49A1
    case 64 => 0x7CD45C9D case 65 => 0x000F0000 case 66 => 0xFB50753A case 67 => 0xEC6765E8
    case 68 => 0xBA3C2BE2 case 69 => 0x0060C000 case 70 => 0x3A37CD05 case 71 => 0x458546F4
    case 72 => 0xB8599DD6 case 73 => 0x380A1A26 case 74 => 0x01E02203 case 75 => 0xE7CC3456
    case 76 => 0xE6E60B69 case 77 => 0x00F60A00 case 78 => 0x5795EF4F case 79 => 0x822E0879
    case _ => 0
  }

  /** The value that enters the chain with each round, behind the five that begin it. */
  function A(t: nat): word {
    match t
    case 0 => 0x0F4B87C3 case 1 => 0x40C951D8 case 2 => 0x62EB73FA case 3 => 0xEFCDAB89
    case 4 => 0x67452301 case 5 => 0x0116FC33 case 6 => 0x8990536D case 7 => 0xA1390F08
    case 8 => 0xCDD8E11B case 9 => 0xCFD499DE case 10 => 0x3FC7CA40 case 11 => 0x993E30C1
    case 12 => 0x9E8C07D4 case 13 => 0x4B6AE328 case 14 => 0x8351F929 case 15 => 0xFBDA9E89
    case 16 => 0x63188FE4 case 17 => 0x4607B664 case 18 => 0x9128F695 case 19 => 0x196BEE77
    case 20 => 0x20BDD62F case 21 => 0x4E925823 case 22 => 0x82AA6728 case 23 => 0xDC64901D
    case 24 => 0xFD9E1D7D case 25 => 0x1A37B0CA case 26 => 0x33A23BFC case 27 => 0x21283486
    case 28 => 0xD541F12D case 29 => 0xC7567DC6 case 30 => 0x48413BA4 case 31 => 0xBE35FBD5
    case 32 => 0x4AA84D97 case 33 => 0x8370B52E case 34 => 0xC5FBAF5D case 35 => 0x1267B407
    case 36 => 0x3B845D33 case 37 => 0x046FAA0A case 38 => 0x2C0EBC11 case 39 => 0x21796AD4
    case 40 => 0xDCBBB0CB case 41 => 0x0F511FD8 case 42 => 0xDC63973F case 43 => 0x4C986405
    case 44 => 0x32DE1CBA case 45 => 0xFC87DEDF case 46 => 0x970A0D5C case 47 => 0x7F193DC5
    case 48 => 0xEE1B1AAF case 49 => 0x40F28E09 case 50 => 0x1C51E1F2 case 51 => 0xA01B846C
    case 52 => 0xBEAD02CA case 53 => 0xBAF39337 case 54 => 0x120731C5 case 55 => 0x641DB2CE
    case 56 => 0x3847AD66 case 57 => 0xE490436D case 58 => 0x27E9F1D8 case 59 => 0x7B71F76D
    case 60 => 0x5E6456AF case 61 => 0xC846093F case 62 => 0xD262FF50 case 63 => 0x09D785FD
    case 64 => 0x3F52DE5A case 65 => 0xD756C147 case 66 => 0x548C9CB2 case 67 => 0xB66C020B
    case 68 => 0x6B61C9E1 case 69 => 0x19DFA7AC case 70 => 0x101655F9 case 71 => 0x0C3DF2B4
    case 72 => 0x78DD4D2B case 73 => 0x497093C0 case 74 => 0x3F2588C2 case 75 => 0xC199F8C7
    case 76 => 0x39859DE7 case 77 => 0xEDB42DE4 case 78 => 0x11793F6F case 79 => 0x5EE76897
    case 80 => 0x63F7DAB7 case 81 => 0xA079B7D9 case 82 => 0x860D21CC case 83 => 0x5738D5E1
    case 84 => 0x42541B35
    case _ => 0
  }

  function ChainAt(t: nat): Chain {
    Chain(A(t + 4), A(t + 3), Rotl(A(t + 2), 30), Rotl(A(t + 1), 30), Rotl(A(t), 30))
  }

  predicate ScheduleHolds(t: nat) {
    16 <= t < 80 ==> W(t) == Rotl(Xor4(W(t - 3), W(t - 8), W(t - 14), W(t - 16)), 1)
  }

  predicate RoundHolds(t: nat) {
    t < 80 ==> A(t + 5) == Round(ChainAt(t), t, W(t)).a
  }

  // ---- the tables, step by step ----

  lemma ScheduleFrom16(t: nat)
    requires 16 <= t < 32
    ensures ScheduleHolds(t)
  {
    match t {
      case 16 => case 17 => case 18 => case 19 => case 20 => case 21 => case 22 => case 23 =>
      case 24 => case 25 => case 26 => case 27 => case 28 => case 29 => case 30 => case _ =>
    }
  }

  lemma ScheduleFrom32(t: nat)
    requires 32 <= t < 48
    ensures ScheduleHolds(t)
  {
    match t {
      case 32 => case 33 => case 34 => case 35 => case 36 => case 37 => case 38 => case 39 =>
      case 40 => case 41 => case 42 => case 43 => case 44 => case 45 => case 46 => case _ =>
    }
  }

  lemma ScheduleFrom48(t: nat)
    requires 48 <= t < 64
    ensures ScheduleHolds(t)
  {
    match t {
      case 48 => case 49 => case 50 => case 51 => case 52 => case 53 => case 54 => case 55 =>
      case 56 => case 57 => case 58 => case 59 => case 60 => case 61 => case 62 => case _ =>
    }
  }

  lemma ScheduleFrom64(t: nat)
    requires 64 <= t < 80
    ensures ScheduleHolds(t)
  {
    match t {
      case 64 => case 65 => case 66 => case 67 => case 68 => case 69 => case 70 => case 71 =>
      case 72 => case 73 => case 74 => case 75 => case 76 => case 77 => case 78 => case _ =>
    }
  }

  lemma RoundsFrom0(t: nat)
    requires 0 <= t < 10
    ensures RoundHolds(t)
  {
    match t {
      case 0 => case 1 => case 2 => case 3 => case 4 => case 5 => case 6 => case 7 =>
      case 8 => case _ =>
    }
  }

  lemma RoundsFrom10(t: nat)
    requires 10 <= t < 20
    ensures RoundHolds(t)
  {
    match t {
      case 10 => case 11 => case 12 => case 13 => case 14 => case 15 => case 16 => case 17 =>
      case 18 => case _ =>
    }
  }

  lemma RoundsFrom20(t: nat)
    requires 20 <= t < 30
    ensures RoundHolds(t)
  {
    match t {
      case 20 => case 21 => case 22 => case 23 => case 24 => case 25 => case 26 => case 27 =>
      case 28 => case _ =>
    }
  }

  lemma RoundsFrom30(t: nat)
    requires 30 <= t < 40
    ensures RoundHolds(t)
  {
    match t {
      case 30 => case 31 => case 32 => case 33 => case 34 => case 35 => case 36 => case 37 =>
      case 38 => case _ =>
    }
  }

  lemma RoundsFrom40(t: nat)
    requires 40 <= t < 50
    ensures RoundHolds(t)
  {
    match t {
      case 40 => case 41 => case 42 => case 43 => case 44 => case 45 => case 46 => case 47 =>
      case 48 => case _ =>
    }
  }

  lemma RoundsFrom50(t: nat)
    requires 50 <= t < 60
    ensures RoundHolds(t)
  {
    match t {
      case 50 => case 51 => case 52 => case 53 => case 54 => case 55 => case 56 => case 57 =>
      case 58 => case _ =>
    }
  }

  lemma RoundsFrom60(t: nat)
    requires 60 <= t < 70
    ensures RoundHolds(t)
  {
    match t {
      case 60 => case 61 => case 62 => case 63 => case 64 => case 65 => case 66 => case 67 =>
      case 68 => case _ =>
    }
  }

  lemma RoundsFrom70(t: nat)
    requires 70 <= t < 80
    ensures RoundHolds(t)
  {
    match t {
      case 70 => case 71 => case 72 => case 73 => case 74 => case 75 => case 76 => case 77 =>
      case 78 => case _ =>
    }
  }

  lemma ScheduleStep(t: nat)
    requires 16 <= t < 80
    ensures ScheduleHolds(t)
  {
    hide ScheduleHolds;
    if t < 32 {
      ScheduleFrom16(t);
    } else if t < 48 {
      ScheduleFrom32(t);
    } else if t < 64 {
      ScheduleFrom48(t);
    } else {
      ScheduleFrom64(t);
    }
  }

  lemma RoundStep(t: nat)
    requires t < 80
    ensures RoundHolds(t)
  {
    hide RoundHolds;
    if t < 40 {
      if t < 10 {
        RoundsFrom0(t);
      } else if t < 20 {
        RoundsFrom10(t);
      } else if t < 30 {
        RoundsFrom20(t);
      } else {
        RoundsFrom30(t);
      }
    } else {
      if t < 50 {
        RoundsFrom40(t);
      } else if t < 60 {
        RoundsFrom50(t);
      } else if t < 70 {
        RoundsFrom60(t);
      } else {
        RoundsFrom70(t);
      }
    }
  }

  // ---- the example ----

  /** The one block: the message, a one bit, zeros, and its 24 bits. */
  function Block(): (p: seq<octet>)
    ensures |p| == 64
  {
    MESSAGE + [0x80] + seq(52, _ => 0) + (seq(7, _ => 0) + [24])
  }

  lemma PaddedMessage()
    ensures Padded(MESSAGE) == Block()
  {
    hide ZeroBytes, BigEndian, LengthByte;
    FiftyTwo();
    LengthIsShort();
  }

  lemma FiftyTwo()
    ensures ZeroBytes(3) == 52
  {
  }

  lemma LengthIsShort()
    ensures BigEndian(24, 8) == seq(7, _ => 0) + [24]
  {
    LastByte(24, 7);
    hide BigEndian;
    NoHighBytes(7);
    assert LengthByte(24, 0) == 24;
  }

  lemma BlockWord(t: nat)
    requires t < 16
    ensures BigEndianWord(Block(), t) == W(t)
  {
    var p := Block();
    assert p[0] == 0x61 && p[1] == 0x62 && p[2] == 0x63 && p[3] == 0x80 && p[63] == 24;
    assert forall i :: 4 <= i < 63 ==> p[i] == 0;
    hide Block;
    match t {
      case 0 => case 1 => case 2 => case 3 => case 4 => case 5 => case 6 => case 7 =>
      case 8 => case 9 => case 10 => case 11 => case 12 => case 13 => case 14 => case _ =>
    }
  }

  lemma ScheduleUnfolds(block: seq<octet>, t: nat)
    requires |block| == 64 && t < 80
    ensures
      Schedule(block, t) ==
      if t < 16 then BigEndianWord(block, t)
      else Rotl(Xor4(Schedule(block, t - 3), Schedule(block, t - 8), Schedule(block, t - 14),
                     Schedule(block, t - 16)), 1)
  {
    hide BigEndianWord, Rotl, Xor4;
  }

  lemma {:induction false} ScheduleIs(t: nat)
    requires t < 80
    ensures Schedule(Block(), t) == W(t)
  {
    hide W, BigEndianWord, Block, Rotl, Xor4, Schedule;
    ScheduleUnfolds(Block(), t);
    if t < 16 {
      BlockWord(t);
    } else {
      ScheduleStep(t);
      ScheduleIs(t - 3);
      ScheduleIs(t - 8);
      ScheduleIs(t - 14);
      ScheduleIs(t - 16);
    }
  }

  lemma {:induction false} RoundsAre(t: nat)
    requires t <= 80
    ensures Rounds(INITIAL, Block(), t) == ChainAt(t)
  {
    hide W, Schedule, Block, F, K, Sum;
    if t == 0 {
      FirstChain();
    } else {
      RoundsAre(t - 1);
      ScheduleIs(t - 1);
      RoundStep(t - 1);
      hide A, Rotl;
    }
  }

  lemma FirstChain()
    ensures ChainAt(0) == INITIAL
  {
  }

  const LAST: Chain := Chain(0x42541B35, 0x5738D5E1, 0x21834873, 0x681E6DF6, 0xD8FDF6AD)

  lemma LastEntry(t: nat)
    requires 80 <= t < 85
    ensures
      A(t) ==
      match t
      case 80 => 0x63F7DAB7 case 81 => 0xA079B7D9 case 82 => 0x860D21CC case 83 => 0x5738D5E1
      case _ => 0x42541B35
  {
  }

  lemma LastChain()
    ensures ChainAt(80) == LAST
  {
    hide A;
    LastEntry(80);
    LastEntry(81);
    LastEntry(82);
    LastEntry(83);
    LastEntry(84);
  }

  lemma LastSum()
    ensures
      Chain(Sum(INITIAL.a, LAST.a), Sum(INITIAL.b, LAST.b), Sum(INITIAL.c, LAST.c), Sum(INITIAL.d, LAST.d),
            Sum(INITIAL.e, LAST.e)) == Chain(0xA9993E36, 0x4706816A, 0xBA3E2571, 0x7850C26C, 0x9CD0D89D)
  {
  }

  /** SHA-1 of "abc", by the standard's functions and by the class's padding alike. */
  lemma DigestOfAbc()
    ensures Sha1Of(MESSAGE) == Chain(0xA9993E36, 0x4706816A, 0xBA3E2571, 0x7850C26C, 0x9CD0D89D)
    ensures PaddedByClass(MESSAGE) == Padded(MESSAGE)
  {
    hide Padded, PaddedByClass, Rounds, Block, ChainAt, Sum;
    PaddedMessage();
    PaddingMeetsStandard(MESSAGE);
    RoundsAre(80);
    LastChain();
    LastSum();
    assert Block()[64 * 0..64 * 1] == Block();
    OneBlock(Block());
  }

  lemma OneBlock(p: seq<octet>)
    requires |p| == 64
    ensures HashBlocks(p, 1) == Compress(INITIAL, p[0..64])
  {
    hide Compress;
  }
}
