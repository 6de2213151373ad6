/** The eight tables of the program are the S-boxes of the standard with its permutation P applied,
    each entry rotated by one bit. */
module DesBoxes {
  import opened DesStandard
  import opened DesConforms
  import opened DesKeys
  import D = Des

  // Where P puts the digits of an entry.

  const Targets: seq<seq<nat>> := [
    [9, 17, 23, 31], [13, 28, 2, 18], [24, 16, 30, 6], [26, 20, 10, 1],
    [8, 14, 25, 3], [4, 29, 11, 19], [32, 12, 22, 7], [5, 27, 15, 21]]

  lemma TargetsAre(i: nat, k: nat, n: nat)
    requires i < 8 && k < 4 && 1 <= n <= 32
    ensures n == Targets[i][k] <==> Source(n) == 4 * i + k
  {
    SourceOf(Targets[i][k], i, k);
    TargetOf(n);
  }

  lemma SourceOf(n: nat, i: nat, k: nat)
    requires i < 8 && k < 4 && n == Targets[i][k]
    ensures 1 <= n <= 32 && Source(n) == 4 * i + k
  {
    assert k == 0 || k == 1 || k == 2 || k == 3;
  }

  lemma TargetOf(n: nat)
    requires 1 <= n <= 32
    ensures Targets[Source(n) / 4][Source(n) % 4] == n
  {
  }

  /** The word whose one bit is bit `p`. */
  function OneAt(p: nat): bv32
    requires 1 <= p <= 32
  {
    (1 as bv32) << Shift(p)
  }

  lemma OneShift(j: bv6, k: bv6)
    requires j < 32 && k < 32
    ensures (((1 as bv32) << j) >> k) & 1 == 1 <==> j == k
  {
  }

  lemma ShiftNumber(n: nat)
    requires 1 <= n <= 32
    ensures Shift(n) as nat == 32 - n
  {
  }

  lemma OneBitAt(p: nat, n: nat)
    requires 1 <= p <= 32 && 1 <= n <= 32
    ensures Bit(OneAt(p), n) <==> n == p
  {
    hide Shift;
    ShiftMoves(n);
    ShiftMoves(p);
    OneShift(Shift(p), Shift(n));
    ShiftNumber(n);
    ShiftNumber(p);
  }

  function Part(m: bv32, b: bool): bv32 { if b then m else 0 }

  lemma ZeroShift(k: bv6)
    requires k < 32
    ensures ((0 as bv32) >> k) & 1 == 0
  {
  }

  lemma PartBit(p: nat, b: bool, n: nat)
    requires 1 <= p <= 32 && 1 <= n <= 32
    ensures Bit(Part(OneAt(p), b), n) <==> b && n == p
  {
    hide Shift, OneAt;
    ShiftMoves(n);
    ZeroShift(Shift(n));
    OneBitAt(p, n);
  }

  /** The digits of a number below 16 as four words with one bit each. */
  function Spread(m: seq<bv32>, v: nat): bv32
    requires |m| == 4
  {
    D.Mix(D.Mix(D.Mix(Part(m[0], Digit(v, 0)), Part(m[1], Digit(v, 1))), Part(m[2], Digit(v, 2))), Part(m[3], Digit(v, 3)))
  }

  /** The words that go with box `i`. */
  predicate AreOnes(i: nat, m: seq<bv32>) {
    && i < 8 && |m| == 4
    && forall k :: 0 <= k < 4 ==> 1 <= Targets[i][k] <= 32 && m[k] == OneAt(Targets[i][k])
  }

  lemma SpreadBit(i: nat, m: seq<bv32>, v: nat, n: nat)
    requires AreOnes(i, m) && 1 <= n <= 32
    ensures Bit(Spread(m, v), n) <==> Source(n) / 4 == i && Digit(v, Source(n) % 4)
  {
    hide Bit, D.Mix, Part, Digit, Source, OneAt;
    var t := Targets[i];
    var a, b, c, d := Part(m[0], Digit(v, 0)), Part(m[1], Digit(v, 1)), Part(m[2], Digit(v, 2)), Part(m[3], Digit(v, 3));
    PartBit(t[0], Digit(v, 0), n);
    PartBit(t[1], Digit(v, 1), n);
    PartBit(t[2], Digit(v, 2), n);
    PartBit(t[3], Digit(v, 3), n);
    TargetsAre(i, 0, n);
    TargetsAre(i, 1, n);
    TargetsAre(i, 2, n);
    TargetsAre(i, 3, n);
    MixBit(a, b, n);
    MixBit(D.Mix(a, b), c, n);
    MixBit(D.Mix(D.Mix(a, b), c), d, n);
  }

  // Box 1.

  const SB1: seq<seq<bv32>> := [
    [0x0101_0400, 0x0000_0000, 0x0001_0000, 0x0101_0404, 0x0101_0004, 0x0001_0404, 0x0000_0004, 0x0001_0000],
    [0x0000_0400, 0x0101_0400, 0x0101_0404, 0x0000_0400, 0x0100_0404, 0x0101_0004, 0x0100_0000, 0x0000_0004],
    [0x0000_0404, 0x0100_0400, 0x0100_0400, 0x0001_0400, 0x0001_0400, 0x0101_0000, 0x0101_0000, 0x0100_0404],
    [0x0001_0004, 0x0100_0004, 0x0100_0004, 0x0001_0004, 0x0000_0000, 0x0000_0404, 0x0001_0404, 0x0100_0000],
    [0x0001_0000, 0x0101_0404, 0x0000_0004, 0x0101_0000, 0x0101_0400, 0x0100_0000, 0x0100_0000, 0x0000_0400],
    [0x0101_0004, 0x0001_0000, 0x0001_0400, 0x0100_0004, 0x0000_0400, 0x0000_0004, 0x0100_0404, 0x0001_0404],
    [0x0101_0404, 0x0001_0004, 0x0101_0000, 0x0100_0404, 0x0100_0004, 0x0000_0404, 0x0001_0404, 0x0101_0400],
    [0x0000_0404, 0x0100_0400, 0x0100_0400, 0x0000_0000, 0x0001_0004, 0x0001_0400, 0x0000_0000, 0x0101_0004]]

  const S1: seq<seq<nat>> := [
    [14, 4, 13, 1, 2, 15, 11, 8, 3, 10, 6, 12, 5, 9, 0, 7],
    [0, 15, 7, 4, 14, 2, 13, 1, 10, 6, 12, 11, 9, 5, 3, 8],
    [4, 1, 14, 8, 13, 6, 2, 11, 15, 12, 9, 7, 3, 10, 5, 0],
    [15, 12, 8, 2, 4, 9, 1, 7, 5, 11, 3, 14, 10, 0, 6, 13]]

  const Ones1: seq<bv32> := [0x0080_0000, 0x0000_8000, 0x0000_0200, 0x0000_0002]

  const Words1: seq<bv32> := [
    0x0000_0000, 0x0000_0002, 0x0000_0200, 0x0000_0202, 0x0000_8000, 0x0000_8002, 0x0000_8200, 0x0000_8202,
    0x0080_0000, 0x0080_0002, 0x0080_0200, 0x0080_0202, 0x0080_8000, 0x0080_8002, 0x0080_8200, 0x0080_8202]

  lemma EntryUpper1(a: nat, c: nat)
    requires a < 4 && c < 8
    ensures var v := S1[2 * (a / 4) + c % 2][4 * (a % 4) + c / 2]; v < 16 && SB1[a][c] == D.Left(Words1[v])
  {
    assert a == 0 || a == 1 || a == 2 || a == 3;
    assert c == 0 || c == 1 || c == 2 || c == 3 || c == 4 || c == 5 || c == 6 || c == 7;
  }

  lemma EntryLower1(a: nat, c: nat)
    requires 4 <= a < 8 && c < 8
    ensures var v := S1[2 * (a / 4) + c % 2][4 * (a % 4) + c / 2]; v < 16 && SB1[a][c] == D.Left(Words1[v])
  {
    assert a == 4 || a == 5 || a == 6 || a == 7;
    assert c == 0 || c == 1 || c == 2 || c == 3 || c == 4 || c == 5 || c == 6 || c == 7;
  }

  lemma WordLow1(v: nat)
    requires v < 8
    ensures Words1[v] == Spread(Ones1, v)
  {
    assert v == 0 || v == 1 || v == 2 || v == 3 || v == 4 || v == 5 || v == 6 || v == 7;
  }

  lemma WordHigh1(v: nat)
    requires 8 <= v < 12
    ensures Words1[v] == Spread(Ones1, v)
  {
    assert v == 8 || v == 9 || v == 10 || v == 11;
  }

  lemma WordLast1(v: nat)
    requires 12 <= v < 16
    ensures Words1[v] == Spread(Ones1, v)
  {
    assert v == 12 || v == 13 || v == 14 || v == 15;
  }

  lemma OnesAre1()
    ensures AreOnes(0, Ones1)
  {
    assert OneAt(9) == 0x0080_0000 && OneAt(17) == 0x0000_8000;
    assert OneAt(23) == 0x0000_0200 && OneAt(31) == 0x0000_0002;
  }

  // Box 2.

  const SB2: seq<seq<bv32>> := [
    [0x8010_8020, 0x8000_8000, 0x0000_8000, 0x0010_8020, 0x0010_0000, 0x0000_0020, 0x8010_0020, 0x8000_8020],
    [0x8000_0020, 0x8010_8020, 0x8010_8000, 0x8000_0000, 0x8000_8000, 0x0010_0000, 0x0000_0020, 0x8010_0020],
    [0x0010_8000, 0x0010_0020, 0x8000_8020, 0x0000_0000, 0x8000_0000, 0x0000_8000, 0x0010_8020, 0x8010_0000],
    [0x0010_0020, 0x8000_0020, 0x0000_0000, 0x0010_8000, 0x0000_8020, 0x8010_8000, 0x8010_0000, 0x0000_8020],
    [0x0000_0000, 0x0010_8020, 0x8010_0020, 0x0010_0000, 0x8000_8020, 0x8010_0000, 0x8010_8000, 0x0000_8000],
    [0x8010_0000, 0x8000_8000, 0x0000_0020, 0x8010_8020, 0x0010_8020, 0x0000_0020, 0x0000_8000, 0x8000_0000],
    [0x0000_8020, 0x8010_8000, 0x0010_0000, 0x8000_0020, 0x0010_0020, 0x8000_8020, 0x8000_0020, 0x0010_0020],
    [0x0010_8000, 0x0000_0000, 0x8000_8000, 0x0000_8020, 0x8000_0000, 0x8010_0020, 0x8010_8020, 0x0010_8000]]

  const S2: seq<seq<nat>> := [
    [15, 1, 8, 14, 6, 11, 3, 4, 9, 7, 2, 13, 12, 0, 5, 10],
    [3, 13, 4, 7, 15, 2, 8, 14, 12, 0, 1, 10, 6, 9, 11, 5],
    [0, 14, 7, 11, 10, 4, 13, 1, 5, 8, 12, 6, 9, 3, 2, 15],
    [13, 8, 10, 1, 3, 15, 4, 2, 11, 6, 7, 12, 0, 5, 14, 9]]

  const Ones2: seq<bv32> := [0x0008_0000, 0x0000_0010, 0x4000_0000, 0x0000_4000]

  const Words2: seq<bv32> := [
    0x0000_0000, 0x0000_4000, 0x4000_0000, 0x4000_4000, 0x0000_0010, 0x0000_4010, 0x4000_0010, 0x4000_4010,
    0x0008_0000, 0x0008_4000, 0x4008_0000, 0x4008_4000, 0x0008_0010, 0x0008_4010, 0x4008_0010, 0x4008_4010]

  lemma EntryUpper2(a: nat, c: nat)
    requires a < 4 && c < 8
    ensures var v := S2[2 * (a / 4) + c % 2][4 * (a % 4) + c / 2]; v < 16 && SB2[a][c] == D.Left(Words2[v])
  {
    assert a == 0 || a == 1 || a == 2 || a == 3;
    assert c == 0 || c == 1 || c == 2 || c == 3 || c == 4 || c == 5 || c == 6 || c == 7;
  }

  lemma EntryLower2(a: nat, c: nat)
    requires 4 <= a < 8 && c < 8
    ensures var v := S2[2 * (a / 4) + c % 2][4 * (a % 4) + c / 2]; v < 16 && SB2[a][c] == D.Left(Words2[v])
  {
    assert a == 4 || a == 5 || a == 6 || a == 7;
    assert c == 0 || c == 1 || c == 2 || c == 3 || c == 4 || c == 5 || c == 6 || c == 7;
  }

  lemma WordLow2(v: nat)
    requires v < 8
    ensures Words2[v] == Spread(Ones2, v)
  {
    assert v == 0 || v == 1 || v == 2 || v == 3 || v == 4 || v == 5 || v == 6 || v == 7;
  }

  lemma WordHigh2(v: nat)
    requires 8 <= v < 12
    ensures Words2[v] == Spread(Ones2, v)
  {
    assert v == 8 || v == 9 || v == 10 || v == 11;
  }

  lemma WordLast2(v: nat)
    requires 12 <= v < 16
    ensures Words2[v] == Spread(Ones2, v)
  {
    assert v == 12 || v == 13 || v == 14 || v == 15;
  }

  lemma OnesAre2()
    ensures AreOnes(1, Ones2)
  {
    assert OneAt(13) == 0x0008_0000 && OneAt(28) == 0x0000_0010;
    assert OneAt(2) == 0x4000_0000 && OneAt(18) == 0x0000_4000;
  }

  // Box 3.

  const SB3: seq<seq<bv32>> := [
    [0x0000_0208, 0x0802_0200, 0x0000_0000, 0x0802_0008, 0x0800_0200, 0x0000_0000, 0x0002_0208, 0x0800_0200],
    [0x0002_0008, 0x0800_0008, 0x0800_0008, 0x0002_0000, 0x0802_0208, 0x0002_0008, 0x0802_0000, 0x0000_0208],
    [0x0800_0000, 0x0000_0008, 0x0802_0200, 0x0000_0200, 0x0002_0200, 0x0802_0000, 0x0802_0008, 0x0002_0208],
    [0x0800_0208, 0x0002_0200, 0x0002_0000, 0x0800_0208, 0x0000_0008, 0x0802_0208, 0x0000_0200, 0x0800_0000],
    [0x0802_0200, 0x0800_0000, 0x0002_0008, 0x0000_0208, 0x0002_0000, 0x0802_0200, 0x0800_0200, 0x0000_0000],
    [0x0000_0200, 0x0002_0008, 0x0802_0208, 0x0800_0200, 0x0800_0008, 0x0000_0200, 0x0000_0000, 0x0802_0008],
    [0x0800_0208, 0x0002_0000, 0x0800_0000, 0x0802_0208, 0x0000_0008, 0x0002_0208, 0x0002_0200, 0x0800_0008],
    [0x0802_0000, 0x0800_0208, 0x0000_0208, 0x0802_0000, 0x0002_0208, 0x0000_0008, 0x0802_0008, 0x0002_0200]]

  const S3: seq<seq<nat>> := [
    [10, 0, 9, 14, 6, 3, 15, 5, 1, 13, 12, 7, 11, 4, 2, 8],
    [13, 7, 0, 9, 3, 4, 6, 10, 2, 8, 5, 14, 12, 11, 15, 1],
    [13, 6, 4, 9, 8, 15, 3, 0, 11, 1, 2, 12, 5, 10, 14, 7],
    [1, 10, 13, 0, 6, 9, 8, 7, 4, 15, 14, 3, 11, 5, 2, 12]]

  const Ones3: seq<bv32> := [0x0000_0100, 0x0001_0000, 0x0000_0004, 0x0400_0000]

  const Words3: seq<bv32> := [
    0x0000_0000, 0x0400_0000, 0x0000_0004, 0x0400_0004, 0x0001_0000, 0x0401_0000, 0x0001_0004, 0x0401_0004,
    0x0000_0100, 0x0400_0100, 0x0000_0104, 0x0400_0104, 0x0001_0100, 0x0401_0100, 0x0001_0104, 0x0401_0104]

  lemma EntryUpper3(a: nat, c: nat)
    requires a < 4 && c < 8
    ensures var v := S3[2 * (a / 4) + c % 2][4 * (a % 4) + c / 2]; v < 16 && SB3[a][c] == D.Left(Words3[v])
  {
    assert a == 0 || a == 1 || a == 2 || a == 3;
    assert c == 0 || c == 1 || c == 2 || c == 3 || c == 4 || c == 5 || c == 6 || c == 7;
  }

  lemma EntryLower3(a: nat, c: nat)
    requires 4 <= a < 8 && c < 8
    ensures var v := S3[2 * (a / 4) + c % 2][4 * (a % 4) + c / 2]; v < 16 && SB3[a][c] == D.Left(Words3[v])
  {
    assert a == 4 || a == 5 || a == 6 || a == 7;
    assert c == 0 || c == 1 || c == 2 || c == 3 || c == 4 || c == 5 || c == 6 || c == 7;
  }

  lemma WordLow3(v: nat)
    requires v < 8
    ensures Words3[v] == Spread(Ones3, v)
  {
    assert v == 0 || v == 1 || v == 2 || v == 3 || v == 4 || v == 5 || v == 6 || v == 7;
  }

  lemma WordHigh3(v: nat)
    requires 8 <= v < 12
    ensures Words3[v] == Spread(Ones3, v)
  {
    assert v == 8 || v == 9 || v == 10 || v == 11;
  }

  lemma WordLast3(v: nat)
    requires 12 <= v < 16
    ensures Words3[v] == Spread(Ones3, v)
  {
    assert v == 12 || v == 13 || v == 14 || v == 15;
  }

  lemma OnesAre3()
    ensures AreOnes(2, Ones3)
  {
    assert OneAt(24) == 0x0000_0100 && OneAt(16) == 0x0001_0000;
    assert OneAt(30) == 0x0000_0004 && OneAt(6) == 0x0400_0000;
  }

  // Box 4.

  const SB4: seq<seq<bv32>> := [
    [0x0080_2001, 0x0000_2081, 0x0000_2081, 0x0000_0080, 0x0080_2080, 0x0080_0081, 0x0080_0001, 0x0000_2001],
    [0x0000_0000, 0x0080_2000, 0x0080_2000, 0x0080_2081, 0x0000_0081, 0x0000_0000, 0x0080_0080, 0x0080_0001],
    [0x0000_0001, 0x0000_2000, 0x0080_0000, 0x0080_2001, 0x0000_0080, 0x0080_0000, 0x0000_2001, 0x0000_2080],
    [0x0080_0081, 0x0000_0001, 0x0000_2080, 0x0080_0080, 0x0000_2000, 0x0080_2080, 0x0080_2081, 0x0000_0081],
    [0x0080_0080, 0x0080_0001, 0x0080_2000, 0x0080_2081, 0x0000_0081, 0x0000_0000, 0x0000_0000, 0x0080_2000],
    [0x0000_2080, 0x0080_0080, 0x0080_0081, 0x0000_0001, 0x0080_2001, 0x0000_2081, 0x0000_2081, 0x0000_0080],
    [0x0080_2081, 0x0000_0081, 0x0000_0001, 0x0000_2000, 0x0080_0001, 0x0000_2001, 0x0080_2080, 0x0080_0081],
    [0x0000_2001, 0x0000_2080, 0x0080_0000, 0x0080_2001, 0x0000_0080, 0x0080_0000, 0x0000_2000, 0x0080_2080]]

  const S4: seq<seq<nat>> := [
    [7, 13, 14, 3, 0, 6, 9, 10, 1, 2, 8, 5, 11, 12, 4, 15],
    [13, 8, 11, 5, 6, 15, 0, 3, 4, 7, 2, 12, 1, 10, 14, 9],
    [10, 6, 9, 0, 12, 11, 7, 13, 15, 1, 3, 14, 5, 2, 8, 4],
    [3, 15, 0, 6, 10, 1, 13, 8, 9, 4, 5, 11, 12, 7, 2, 14]]

  const Ones4: seq<bv32> := [0x0000_0040, 0x0000_1000, 0x0040_0000, 0x8000_0000]

  const Words4: seq<bv32> := [
    0x0000_0000, 0x8000_0000, 0x0040_0000, 0x8040_0000, 0x0000_1000, 0x8000_1000, 0x0040_1000, 0x8040_1000,
    0x0000_0040, 0x8000_0040, 0x0040_0040, 0x8040_0040, 0x0000_1040, 0x8000_1040, 0x0040_1040, 0x8040_1040]

  lemma EntryUpper4(a: nat, c: nat)
    requires a < 4 && c < 8
    ensures var v := S4[2 * (a / 4) + c % 2][4 * (a % 4) + c / 2]; v < 16 && SB4[a][c] == D.Left(Words4[v])
  {
    assert a == 0 || a == 1 || a == 2 || a == 3;
    assert c == 0 || c == 1 || c == 2 || c == 3 || c == 4 || c == 5 || c == 6 || c == 7;
  }

  lemma EntryLower4(a: nat, c: nat)
    requires 4 <= a < 8 && c < 8
    ensures var v := S4[2 * (a / 4) + c % 2][4 * (a % 4) + c / 2]; v < 16 && SB4[a][c] == D.Left(Words4[v])
  {
    assert a == 4 || a == 5 || a == 6 || a == 7;
    assert c == 0 || c == 1 || c == 2 || c == 3 || c == 4 || c == 5 || c == 6 || c == 7;
  }

  lemma WordLow4(v: nat)
    requires v < 8
    ensures Words4[v] == Spread(Ones4, v)
  {
    assert v == 0 || v == 1 || v == 2 || v == 3 || v == 4 || v == 5 || v == 6 || v == 7;
  }

  lemma WordHigh4(v: nat)
    requires 8 <= v < 12
    ensures Words4[v] == Spread(Ones4, v)
  {
    assert v == 8 || v == 9 || v == 10 || v == 11;
  }

  lemma WordLast4(v: nat)
    requires 12 <= v < 16
    ensures Words4[v] == Spread(Ones4, v)
  {
    assert v == 12 || v == 13 || v == 14 || v == 15;
  }

  lemma OnesAre4()
    ensures AreOnes(3, Ones4)
  {
    assert OneAt(26) == 0x0000_0040 && OneAt(20) == 0x0000_1000;
    assert OneAt(10) == 0x0040_0000 && OneAt(1) == 0x8000_0000;
  }

  // Box 5.

  const SB5: seq<seq<bv32>> := [
    [0x0000_0100, 0x0208_0100, 0x0208_0000, 0x4200_0100, 0x0008_0000, 0x0000_0100, 0x4000_0000, 0x0208_0000],
    [0x4008_0100, 0x0008_0000, 0x0200_0100, 0x4008_0100, 0x4200_0100, 0x4208_0000, 0x0008_0100, 0x4000_0000],
    [0x0200_0000, 0x4008_0000, 0x4008_0000, 0x0000_0000, 0x4000_0100, 0x4208_0100, 0x4208_0100, 0x0200_0100],
    [0x4208_0000, 0x4000_0100, 0x0000_0000, 0x4200_0000, 0x0208_0100, 0x0200_0000, 0x4200_0000, 0x0008_0100],
    [0x0008_0000, 0x4200_0100, 0x0000_0100, 0x0200_0000, 0x4000_0000, 0x0208_0000, 0x4200_0100, 0x4008_0100],
    [0x0200_0100, 0x4000_0000, 0x4208_0000, 0x0208_0100, 0x4008_0100, 0x0000_0100, 0x0200_0000, 0x4208_0000],
    [0x4208_0100, 0x0008_0100, 0x4200_0000, 0x4208_0100, 0x0208_0000, 0x0000_0000, 0x4008_0000, 0x4200_0000],
    [0x0008_0100, 0x0200_0100, 0x4000_0100, 0x0008_0000, 0x0000_0000, 0x4008_0000, 0x0208_0100, 0x4000_0100]]

  const S5: seq<seq<nat>> := [
    [2, 12, 4, 1, 7, 10, 11, 6, 8, 5, 3, 15, 13, 0, 14, 9],
    [14, 11, 2, 12, 4, 7, 13, 1, 5, 0, 15, 10, 3, 9, 8, 6],
    [4, 2, 1, 11, 10, 13, 7, 8, 15, 9, 12, 5, 6, 3, 0, 14],
    [11, 8, 12, 7, 1, 14, 2, 13, 6, 15, 0, 9, 10, 4, 5, 3]]

  const Ones5: seq<bv32> := [0x0100_0000, 0x0004_0000, 0x0000_0080, 0x2000_0000]

  const Words5: seq<bv32> := [
    0x0000_0000, 0x2000_0000, 0x0000_0080, 0x2000_0080, 0x0004_0000, 0x2004_0000, 0x0004_0080, 0x2004_0080,
    0x0100_0000, 0x2100_0000, 0x0100_0080, 0x2100_0080, 0x0104_0000, 0x2104_0000, 0x0104_0080, 0x2104_0080]

  lemma EntryUpper5(a: nat, c: nat)
    requires a < 4 && c < 8
    ensures var v := S5[2 * (a / 4) + c % 2][4 * (a % 4) + c / 2]; v < 16 && SB5[a][c] == D.Left(Words5[v])
  {
    assert a == 0 || a == 1 || a == 2 || a == 3;
    assert c == 0 || c == 1 || c == 2 || c == 3 || c == 4 || c == 5 || c == 6 || c == 7;
  }

  lemma EntryLower5(a: nat, c: nat)
    requires 4 <= a < 8 && c < 8
    ensures var v := S5[2 * (a / 4) + c % 2][4 * (a % 4) + c / 2]; v < 16 && SB5[a][c] == D.Left(Words5[v])
  {
    assert a == 4 || a == 5 || a == 6 || a == 7;
    assert c == 0 || c == 1 || c == 2 || c == 3 || c == 4 || c == 5 || c == 6 || c == 7;
  }

  lemma WordLow5(v: nat)
    requires v < 8
    ensures Words5[v] == Spread(Ones5, v)
  {
    assert v == 0 || v == 1 || v == 2 || v == 3 || v == 4 || v == 5 || v == 6 || v == 7;
  }

  lemma WordHigh5(v: nat)
    requires 8 <= v < 12
    ensures Words5[v] == Spread(Ones5, v)
  {
    assert v == 8 || v == 9 || v == 10 || v == 11;
  }

  lemma WordLast5(v: nat)
    requires 12 <= v < 16
    ensures Words5[v] == Spread(Ones5, v)
  {
    assert v == 12 || v == 13 || v == 14 || v == 15;
  }

  lemma OnesAre5()
    ensures AreOnes(4, Ones5)
  {
    assert OneAt(8) == 0x0100_0000 && OneAt(14) == 0x0004_0000;
    assert OneAt(25) == 0x0000_0080 && OneAt(3) == 0x2000_0000;
  }

  // Box 6.

  const SB6: seq<seq<bv32>> := [
    [0x2000_0010, 0x2040_0000, 0x0000_4000, 0x2040_4010, 0x2040_0000, 0x0000_0010, 0x2040_4010, 0x0040_0000],
    [0x2000_4000, 0x0040_4010, 0x0040_0000, 0x2000_0010, 0x0040_0010, 0x2000_4000, 0x2000_0000, 0x0000_4010],
    [0x0000_0000, 0x0040_0010, 0x2000_4010, 0x0000_4000, 0x0040_4000, 0x2000_4010, 0x0000_0010, 0x2040_0010],
    [0x2040_0010, 0x0000_0000, 0x0040_4010, 0x2040_4000, 0x0000_4010, 0x0040_4000, 0x2040_4000, 0x2000_0000],
    [0x2000_4000, 0x0000_0010, 0x2040_0010, 0x0040_4000, 0x2040_4010, 0x0040_0000, 0x0000_4010, 0x2000_0010],
    [0x0040_0000, 0x2000_4000, 0x2000_0000, 0x0000_4010, 0x2000_0010, 0x2040_4010, 0x0040_4000, 0x2040_0000],
    [0x0040_4010, 0x2040_4000, 0x0000_0000, 0x2040_0010, 0x0000_0010, 0x0000_4000, 0x2040_0000, 0x0040_4010],
    [0x0000_4000, 0x0040_0010, 0x2000_4010, 0x0000_0000, 0x2040_4000, 0x2000_0000, 0x0040_0010, 0x2000_4010]]

  const S6: seq<seq<nat>> := [
    [12, 1, 10, 15, 9, 2, 6, 8, 0, 13, 3, 4, 14, 7, 5, 11],
    [10, 15, 4, 2, 7, 12, 9, 5, 6, 1, 13, 14, 0, 11, 3, 8],
    [9, 14, 15, 5, 2, 8, 12, 3, 7, 0, 4, 10, 1, 13, 11, 6],
    [4, 3, 2, 12, 9, 5, 15, 10, 11, 14, 1, 7, 6, 0, 8, 13]]

  const Ones6: seq<bv32> := [0x1000_0000, 0x0000_0008, 0x0020_0000, 0x0000_2000]

  const Words6: seq<bv32> := [
    0x0000_0000, 0x0000_2000, 0x0020_0000, 0x0020_2000, 0x0000_0008, 0x0000_2008, 0x0020_0008, 0x0020_2008,
    0x1000_0000, 0x1000_2000, 0x1020_0000, 0x1020_2000, 0x1000_0008, 0x1000_2008, 0x1020_0008, 0x1020_2008]

  lemma EntryUpper6(a: nat, c: nat)
    requires a < 4 && c < 8
    ensures var v := S6[2 * (a / 4) + c % 2][4 * (a % 4) + c / 2]; v < 16 && SB6[a][c] == D.Left(Words6[v])
  {
    assert a == 0 || a == 1 || a == 2 || a == 3;
    assert c == 0 || c == 1 || c == 2 || c == 3 || c == 4 || c == 5 || c == 6 || c == 7;
  }

  lemma EntryLower6(a: nat, c: nat)
    requires 4 <= a < 8 && c < 8
    ensures var v := S6[2 * (a / 4) + c % 2][4 * (a % 4) + c / 2]; v < 16 && SB6[a][c] == D.Left(Words6[v])
  {
    assert a == 4 || a == 5 || a == 6 || a == 7;
    assert c == 0 || c == 1 || c == 2 || c == 3 || c == 4 || c == 5 || c == 6 || c == 7;
  }

  lemma WordLow6(v: nat)
    requires v < 8
    ensures Words6[v] == Spread(Ones6, v)
  {
    assert v == 0 || v == 1 || v == 2 || v == 3 || v == 4 || v == 5 || v == 6 || v == 7;
  }

  lemma WordHigh6(v: nat)
    requires 8 <= v < 12
    ensures Words6[v] == Spread(Ones6, v)
  {
    assert v == 8 || v == 9 || v == 10 || v == 11;
  }

  lemma WordLast6(v: nat)
    requires 12 <= v < 16
    ensures Words6[v] == Spread(Ones6, v)
  {
    assert v == 12 || v == 13 || v == 14 || v == 15;
  }

  lemma OnesAre6()
    ensures AreOnes(5, Ones6)
  {
    assert OneAt(4) == 0x1000_0000 && OneAt(29) == 0x0000_0008;
    assert OneAt(11) == 0x0020_0000 && OneAt(19) == 0x0000_2000;
  }

  // Box 7.

  const SB7: seq<seq<bv32>> := [
    [0x0020_0000, 0x0420_0002, 0x0400_0802, 0x0000_0000, 0x0000_0800, 0x0400_0802, 0x0020_0802, 0x0420_0800],
    [0x0420_0802, 0x0020_0000, 0x0000_0000, 0x0400_0002, 0x0000_0002, 0x0400_0000, 0x0420_0002, 0x0000_0802],
    [0x0400_0800, 0x0020_0802, 0x0020_0002, 0x0400_0800, 0x0400_0002, 0x0420_0000, 0x0420_0800, 0x0020_0002],
    [0x0420_0000, 0x0000_0800, 0x0000_0802, 0x0420_0802, 0x0020_0800, 0x0000_0002, 0x0400_0000, 0x0020_0800],
    [0x0400_0000, 0x0020_0800, 0x0020_0000, 0x0400_0802, 0x0400_0802, 0x0420_0002, 0x0420_0002, 0x0000_0002],
    [0x0020_0002, 0x0400_0000, 0x0400_0800, 0x0020_0000, 0x0420_0800, 0x0000_0802, 0x0020_0802, 0x0420_0800],
    [0x0000_0802, 0x0400_0002, 0x0420_0802, 0x0420_0000, 0x0020_0800, 0x0000_0000, 0x0000_0002, 0x0420_0802],
    [0x0000_0000, 0x0020_0802, 0x0420_0000, 0x0000_0800, 0x0400_0002, 0x0400_0800, 0x0000_0800, 0x0020_0002]]

  const S7: seq<seq<nat>> := [
    [4, 11, 2, 14, 15, 0, 8, 13, 3, 12, 9, 7, 5, 10, 6, 1],
    [13, 0, 11, 7, 4, 9, 1, 10, 14, 3, 5, 12, 2, 15, 8, 6],
    [1, 4, 11, 13, 12, 3, 7, 14, 10, 15, 6, 8, 0, 5, 9, 2],
    [6, 11, 13, 8, 1, 4, 10, 7, 9, 5, 0, 15, 14, 2, 3, 12]]

  const Ones7: seq<bv32> := [0x0000_0001, 0x0010_0000, 0x0000_0400, 0x0200_0000]

  const Words7: seq<bv32> := [
    0x0000_0000, 0x0200_0000, 0x0000_0400, 0x0200_0400, 0x0010_0000, 0x0210_0000, 0x0010_0400, 0x0210_0400,
    0x0000_0001, 0x0200_0001, 0x0000_0401, 0x0200_0401, 0x0010_0001, 0x0210_0001, 0x0010_0401, 0x0210_0401]

  lemma EntryUpper7(a: nat, c: nat)
    requires a < 4 && c < 8
    ensures var v := S7[2 * (a / 4) + c % 2][4 * (a % 4) + c / 2]; v < 16 && SB7[a][c] == D.Left(Words7[v])
  {
    assert a == 0 || a == 1 || a == 2 || a == 3;
    assert c == 0 || c == 1 || c == 2 || c == 3 || c == 4 || c == 5 || c == 6 || c == 7;
  }

  lemma EntryLower7(a: nat, c: nat)
    requires 4 <= a < 8 && c < 8
    ensures var v := S7[2 * (a / 4) + c % 2][4 * (a % 4) + c / 2]; v < 16 && SB7[a][c] == D.Left(Words7[v])
  {
    assert a == 4 || a == 5 || a == 6 || a == 7;
    assert c == 0 || c == 1 || c == 2 || c == 3 || c == 4 || c == 5 || c == 6 || c == 7;
  }

  lemma WordLow7(v: nat)
    requires v < 8
    ensures Words7[v] == Spread(Ones7, v)
  {
    assert v == 0 || v == 1 || v == 2 || v == 3 || v == 4 || v == 5 || v == 6 || v == 7;
  }

  lemma WordHigh7(v: nat)
    requires 8 <= v < 12
    ensures Words7[v] == Spread(Ones7, v)
  {
    assert v == 8 || v == 9 || v == 10 || v == 11;
  }

  lemma WordLast7(v: nat)
    requires 12 <= v < 16
    ensures Words7[v] == Spread(Ones7, v)
  {
    assert v == 12 || v == 13 || v == 14 || v == 15;
  }

  lemma OnesAre7()
    ensures AreOnes(6, Ones7)
  {
    assert OneAt(32) == 0x0000_0001 && OneAt(12) == 0x0010_0000;
    assert OneAt(22) == 0x0000_0400 && OneAt(7) == 0x0200_0000;
  }

  // Box 8.

  const SB8: seq<seq<bv32>> := [
    [0x1000_1040, 0x0000_1000, 0x0004_0000, 0x1004_1040, 0x1000_0000, 0x1000_1040, 0x0000_0040, 0x1000_0000],
    [0x0004_0040, 0x1004_0000, 0x1004_1040, 0x0004_1000, 0x1004_1000, 0x0004_1040, 0x0000_1000, 0x0000_0040],
    [0x1004_0000, 0x1000_0040, 0x1000_1000, 0x0000_1040, 0x0004_1000, 0x0004_0040, 0x1004_0040, 0x1004_1000],
    [0x0000_1040, 0x0000_0000, 0x0000_0000, 0x1004_0040, 0x1000_0040, 0x1000_1000, 0x0004_1040, 0x0004_0000],
    [0x0004_1040, 0x0004_0000, 0x1004_1000, 0x0000_1000, 0x0000_0040, 0x1004_0040, 0x0000_1000, 0x0004_1040],
    [0x1000_1000, 0x0000_0040, 0x1000_0040, 0x1004_0000, 0x1004_0040, 0x1000_0000, 0x0004_0000, 0x1000_1040],
    [0x0000_0000, 0x1004_1040, 0x0004_0040, 0x1000_0040, 0x1004_0000, 0x1000_1000, 0x1000_1040, 0x0000_0000],
    [0x1004_1040, 0x0004_1000, 0x0004_1000, 0x0000_1040, 0x0000_1040, 0x0004_0040, 0x1000_0000, 0x1004_1000]]

  const S8: seq<seq<nat>> := [
    [13, 2, 8, 4, 6, 15, 11, 1, 10, 9, 3, 14, 5, 0, 12, 7],
    [1, 15, 13, 8, 10, 3, 7, 4, 12, 5, 6, 11, 0, 14, 9, 2],
    [7, 11, 4, 1, 9, 12, 14, 2, 0, 6, 10, 13, 15, 3, 5, 8],
    [2, 1, 14, 7, 4, 10, 8, 13, 15, 12, 9, 0, 3, 5, 6, 11]]

  const Ones8: seq<bv32> := [0x0800_0000, 0x0000_0020, 0x0002_0000, 0x0000_0800]

  const Words8: seq<bv32> := [
    0x0000_0000, 0x0000_0800, 0x0002_0000, 0x0002_0800, 0x0000_0020, 0x0000_0820, 0x0002_0020, 0x0002_0820,
    0x0800_0000, 0x0800_0800, 0x0802_0000, 0x0802_0800, 0x0800_0020, 0x0800_0820, 0x0802_0020, 0x0802_0820]

  lemma EntryUpper8(a: nat, c: nat)
    requires a < 4 && c < 8
    ensures var v := S8[2 * (a / 4) + c % 2][4 * (a % 4) + c / 2]; v < 16 && SB8[a][c] == D.Left(Words8[v])
  {
    assert a == 0 || a == 1 || a == 2 || a == 3;
    assert c == 0 || c == 1 || c == 2 || c == 3 || c == 4 || c == 5 || c == 6 || c == 7;
  }

  lemma EntryLower8(a: nat, c: nat)
    requires 4 <= a < 8 && c < 8
    ensures var v := S8[2 * (a / 4) + c % 2][4 * (a % 4) + c / 2]; v < 16 && SB8[a][c] == D.Left(Words8[v])
  {
    assert a == 4 || a == 5 || a == 6 || a == 7;
    assert c == 0 || c == 1 || c == 2 || c == 3 || c == 4 || c == 5 || c == 6 || c == 7;
  }

  lemma WordLow8(v: nat)
    requires v < 8
    ensures Words8[v] == Spread(Ones8, v)
  {
    assert v == 0 || v == 1 || v == 2 || v == 3 || v == 4 || v == 5 || v == 6 || v == 7;
  }

  lemma WordHigh8(v: nat)
    requires 8 <= v < 12
    ensures Words8[v] == Spread(Ones8, v)
  {
    assert v == 8 || v == 9 || v == 10 || v == 11;
  }

  lemma WordLast8(v: nat)
    requires 12 <= v < 16
    ensures Words8[v] == Spread(Ones8, v)
  {
    assert v == 12 || v == 13 || v == 14 || v == 15;
  }

  lemma OnesAre8()
    ensures AreOnes(7, Ones8)
  {
    assert OneAt(5) == 0x0800_0000 && OneAt(27) == 0x0000_0020;
    assert OneAt(15) == 0x0002_0000 && OneAt(21) == 0x0000_0800;
  }

  // All boxes.

  predicate Square(t: seq<seq<bv32>>) { |t| == 8 && forall a :: 0 <= a < 8 ==> |t[a]| == 8 }

  predicate Rows16(t: seq<seq<nat>>) {
    |t| == 4 && forall a :: 0 <= a < 4 ==> |t[a]| == 16 && forall c :: 0 <= c < 16 ==> t[a][c] < 16
  }

  function Box(t: seq<seq<bv32>>): (r: seq<bv32>)
    requires Square(t)
    ensures |r| == 64
  {
    seq(64, j requires 0 <= j < 64 => t[j / 8][j % 8])
  }

  function SBox(t: seq<seq<nat>>): (r: seq<nat>)
    requires Rows16(t)
    ensures |r| == 64 && forall j :: 0 <= j < 64 ==> r[j] < 16
  {
    seq(64, j requires 0 <= j < 64 => t[j / 16][j % 16])
  }

  lemma Shape1()
    ensures Square(SB1) && Rows16(S1)
  {
  }

  lemma Shape2()
    ensures Square(SB2) && Rows16(S2)
  {
  }

  lemma Shape3()
    ensures Square(SB3) && Rows16(S3)
  {
  }

  lemma Shape4()
    ensures Square(SB4) && Rows16(S4)
  {
  }

  lemma Shape5()
    ensures Square(SB5) && Rows16(S5)
  {
  }

  lemma Shape6()
    ensures Square(SB6) && Rows16(S6)
  {
  }

  lemma Shape7()
    ensures Square(SB7) && Rows16(S7)
  {
  }

  lemma Shape8()
    ensures Square(SB8) && Rows16(S8)
  {
  }

  lemma Shapes()
    ensures Square(SB1) && Rows16(S1)
    ensures Square(SB2) && Rows16(S2)
    ensures Square(SB3) && Rows16(S3)
    ensures Square(SB4) && Rows16(S4)
    ensures Square(SB5) && Rows16(S5)
    ensures Square(SB6) && Rows16(S6)
    ensures Square(SB7) && Rows16(S7)
    ensures Square(SB8) && Rows16(S8)
  {
    hide Square, Rows16;
    Shape1();
    Shape2();
    Shape3();
    Shape4();
    Shape5();
    Shape6();
    Shape7();
    Shape8();
  }

  /** The tables of the program. */
  function Tables(): (boxes: D.Boxes)
    ensures D.Complete(boxes)
  {
    hide Square, Rows16;
    Shapes();
    [Box(SB1), Box(SB2), Box(SB3), Box(SB4), Box(SB5), Box(SB6), Box(SB7), Box(SB8)]
  }

  /** The S-boxes of the standard. */
  function StandardBoxes(): (s: SBoxes)
    ensures AreSBoxes(s)
  {
    hide Square, Rows16;
    Shapes();
    [SBox(S1), SBox(S2), SBox(S3), SBox(S4), SBox(S5), SBox(S6), SBox(S7), SBox(S8)]
  }

  /** How the program numbers the entries, and how the standard does. */
  lemma Numbered(b: Bits)
    requires |b| == 6
    ensures
      var a, c := Number(b) / 8, Number(b) % 8;
      Place(b) / 16 == 2 * (a / 4) + c % 2 && Place(b) % 16 == 4 * (a % 4) + c / 2
  {
    hide N;
    NumberedDigits(Number(b), Place(b), N(b[0]), N(b[1]), N(b[2]), N(b[3]), N(b[4]), N(b[5]));
  }

  lemma NumberedDigits(n: nat, p: nat, u: nat, v: nat, w: nat, x: nat, y: nat, z: nat)
    requires u < 2 && v < 2 && w < 2 && x < 2 && y < 2 && z < 2
    requires n == 32 * u + 16 * v + 8 * w + 4 * x + 2 * y + z && p == 16 * (2 * u + z) + 8 * v + 4 * w + 2 * x + y
    ensures p / 16 == 2 * (n / 8 / 4) + n % 8 % 2 && p % 16 == 4 * (n / 8 % 4) + n % 8 / 2
  {
    assert n / 8 == 4 * u + 2 * v + w && n % 8 == 4 * x + 2 * y + z;
  }

  predicate SameAt(t: seq<seq<bv32>>, s: seq<seq<nat>>, m: seq<bv32>, a: nat, c: nat) {
    Square(t) && Rows16(s) && |m| == 4 && a < 8 && c < 8 ==>
      t[a][c] == D.Left(Spread(m, s[2 * (a / 4) + c % 2][4 * (a % 4) + c / 2]))
  }

  ghost predicate Agree(t: seq<seq<bv32>>, s: seq<seq<nat>>, m: seq<bv32>) {
    Square(t) && Rows16(s) && |m| == 4 && forall a, c :: 0 <= a < 8 && 0 <= c < 8 ==> SameAt(t, s, m, a, c)
  }

  lemma AgreeBit(t: seq<seq<bv32>>, s: seq<seq<nat>>, m: seq<bv32>, i: nat, b: Bits, n: nat)
    requires AreOnes(i, m) && Agree(t, s, m) && |b| == 6 && 1 <= n <= 32
    ensures Bit(D.Right(Box(t)[Number(b)]), n) <==> Source(n) / 4 == i && Digit(SBox(s)[Place(b)], Source(n) % 4)
  {
    hide Bit, Digit, Source, Number, Place, Spread, AreOnes, D.Left, D.Right;
    Numbered(b);
    assert SameAt(t, s, m, Number(b) / 8, Number(b) % 8);
    var v := SBox(s)[Place(b)];
    SpreadBit(i, m, v, n);
    D.RotationsUndo(Spread(m, v));
  }

  lemma Same1(a: nat, c: nat)
    requires a < 8 && c < 8
    ensures SameAt(SB1, S1, Ones1, a, c)
  {
    hide Spread, D.Left, Square, Rows16;
    if a < 4 { EntryUpper1(a, c); } else { EntryLower1(a, c); }
    var v := S1[2 * (a / 4) + c % 2][4 * (a % 4) + c / 2];
    if v < 8 { WordLow1(v); } else if v < 12 { WordHigh1(v); } else { WordLast1(v); }
  }

  lemma Agree1()
    ensures Agree(SB1, S1, Ones1)
  {
    hide SameAt, Square, Rows16;
    Shape1();
    forall a, c | 0 <= a < 8 && 0 <= c < 8 ensures SameAt(SB1, S1, Ones1, a, c) { Same1(a, c); }
  }

  lemma Same2(a: nat, c: nat)
    requires a < 8 && c < 8
    ensures SameAt(SB2, S2, Ones2, a, c)
  {
    hide Spread, D.Left, Square, Rows16;
    if a < 4 { EntryUpper2(a, c); } else { EntryLower2(a, c); }
    var v := S2[2 * (a / 4) + c % 2][4 * (a % 4) + c / 2];
    if v < 8 { WordLow2(v); } else if v < 12 { WordHigh2(v); } else { WordLast2(v); }
  }

  lemma Agree2()
    ensures Agree(SB2, S2, Ones2)
  {
    hide SameAt, Square, Rows16;
    Shape2();
    forall a, c | 0 <= a < 8 && 0 <= c < 8 ensures SameAt(SB2, S2, Ones2, a, c) { Same2(a, c); }
  }

  lemma Same3(a: nat, c: nat)
    requires a < 8 && c < 8
    ensures SameAt(SB3, S3, Ones3, a, c)
  {
    hide Spread, D.Left, Square, Rows16;
    if a < 4 { EntryUpper3(a, c); } else { EntryLower3(a, c); }
    var v := S3[2 * (a / 4) + c % 2][4 * (a % 4) + c / 2];
    if v < 8 { WordLow3(v); } else if v < 12 { WordHigh3(v); } else { WordLast3(v); }
  }

  lemma Agree3()
    ensures Agree(SB3, S3, Ones3)
  {
    hide SameAt, Square, Rows16;
    Shape3();
    forall a, c | 0 <= a < 8 && 0 <= c < 8 ensures SameAt(SB3, S3, Ones3, a, c) { Same3(a, c); }
  }

  lemma Same4(a: nat, c: nat)
    requires a < 8 && c < 8
    ensures SameAt(SB4, S4, Ones4, a, c)
  {
    hide Spread, D.Left, Square, Rows16;
    if a < 4 { EntryUpper4(a, c); } else { EntryLower4(a, c); }
    var v := S4[2 * (a / 4) + c % 2][4 * (a % 4) + c / 2];
    if v < 8 { WordLow4(v); } else if v < 12 { WordHigh4(v); } else { WordLast4(v); }
  }

  lemma Agree4()
    ensures Agree(SB4, S4, Ones4)
  {
    hide SameAt, Square, Rows16;
    Shape4();
    forall a, c | 0 <= a < 8 && 0 <= c < 8 ensures SameAt(SB4, S4, Ones4, a, c) { Same4(a, c); }
  }

  lemma Same5(a: nat, c: nat)
    requires a < 8 && c < 8
    ensures SameAt(SB5, S5, Ones5, a, c)
  {
    hide Spread, D.Left, Square, Rows16;
    if a < 4 { EntryUpper5(a, c); } else { EntryLower5(a, c); }
    var v := S5[2 * (a / 4) + c % 2][4 * (a % 4) + c / 2];
    if v < 8 { WordLow5(v); } else if v < 12 { WordHigh5(v); } else { WordLast5(v); }
  }

  lemma Agree5()
    ensures Agree(SB5, S5, Ones5)
  {
    hide SameAt, Square, Rows16;
    Shape5();
    forall a, c | 0 <= a < 8 && 0 <= c < 8 ensures SameAt(SB5, S5, Ones5, a, c) { Same5(a, c); }
  }

  lemma Same6(a: nat, c: nat)
    requires a < 8 && c < 8
    ensures SameAt(SB6, S6, Ones6, a, c)
  {
    hide Spread, D.Left, Square, Rows16;
    if a < 4 { EntryUpper6(a, c); } else { EntryLower6(a, c); }
    var v := S6[2 * (a / 4) + c % 2][4 * (a % 4) + c / 2];
    if v < 8 { WordLow6(v); } else if v < 12 { WordHigh6(v); } else { WordLast6(v); }
  }

  lemma Agree6()
    ensures Agree(SB6, S6, Ones6)
  {
    hide SameAt, Square, Rows16;
    Shape6();
    forall a, c | 0 <= a < 8 && 0 <= c < 8 ensures SameAt(SB6, S6, Ones6, a, c) { Same6(a, c); }
  }

  lemma Same7(a: nat, c: nat)
    requires a < 8 && c < 8
    ensures SameAt(SB7, S7, Ones7, a, c)
  {
    hide Spread, D.Left, Square, Rows16;
    if a < 4 { EntryUpper7(a, c); } else { EntryLower7(a, c); }
    var v := S7[2 * (a / 4) + c % 2][4 * (a % 4) + c / 2];
    if v < 8 { WordLow7(v); } else if v < 12 { WordHigh7(v); } else { WordLast7(v); }
  }

  lemma Agree7()
    ensures Agree(SB7, S7, Ones7)
  {
    hide SameAt, Square, Rows16;
    Shape7();
    forall a, c | 0 <= a < 8 && 0 <= c < 8 ensures SameAt(SB7, S7, Ones7, a, c) { Same7(a, c); }
  }

  lemma Same8(a: nat, c: nat)
    requires a < 8 && c < 8
    ensures SameAt(SB8, S8, Ones8, a, c)
  {
    hide Spread, D.Left, Square, Rows16;
    if a < 4 { EntryUpper8(a, c); } else { EntryLower8(a, c); }
    var v := S8[2 * (a / 4) + c % 2][4 * (a % 4) + c / 2];
    if v < 8 { WordLow8(v); } else if v < 12 { WordHigh8(v); } else { WordLast8(v); }
  }

  lemma Agree8()
    ensures Agree(SB8, S8, Ones8)
  {
    hide SameAt, Square, Rows16;
    Shape8();
    forall a, c | 0 <= a < 8 && 0 <= c < 8 ensures SameAt(SB8, S8, Ones8, a, c) { Same8(a, c); }
  }

  lemma Box1(b: Bits, n: nat)
    requires |b| == 6 && 1 <= n <= 32
    ensures Square(SB1) && Rows16(S1)
    ensures Bit(D.Right(Box(SB1)[Number(b)]), n) <==> Source(n) / 4 == 0 && Digit(SBox(S1)[Place(b)], Source(n) % 4)
  {
    hide Bit, Number, Place, Digit, Source, D.Right, Agree, AreOnes, Square, Rows16;
    Shape1();
    OnesAre1();
    Agree1();
    AgreeBit(SB1, S1, Ones1, 0, b, n);
  }

  lemma Box2(b: Bits, n: nat)
    requires |b| == 6 && 1 <= n <= 32
    ensures Square(SB2) && Rows16(S2)
    ensures Bit(D.Right(Box(SB2)[Number(b)]), n) <==> Source(n) / 4 == 1 && Digit(SBox(S2)[Place(b)], Source(n) % 4)
  {
    hide Bit, Number, Place, Digit, Source, D.Right, Agree, AreOnes, Square, Rows16;
    Shape2();
    OnesAre2();
    Agree2();
    AgreeBit(SB2, S2, Ones2, 1, b, n);
  }

  lemma Box3(b: Bits, n: nat)
    requires |b| == 6 && 1 <= n <= 32
    ensures Square(SB3) && Rows16(S3)
    ensures Bit(D.Right(Box(SB3)[Number(b)]), n) <==> Source(n) / 4 == 2 && Digit(SBox(S3)[Place(b)], Source(n) % 4)
  {
    hide Bit, Number, Place, Digit, Source, D.Right, Agree, AreOnes, Square, Rows16;
    Shape3();
    OnesAre3();
    Agree3();
    AgreeBit(SB3, S3, Ones3, 2, b, n);
  }

  lemma Box4(b: Bits, n: nat)
    requires |b| == 6 && 1 <= n <= 32
    ensures Square(SB4) && Rows16(S4)
    ensures Bit(D.Right(Box(SB4)[Number(b)]), n) <==> Source(n) / 4 == 3 && Digit(SBox(S4)[Place(b)], Source(n) % 4)
  {
    hide Bit, Number, Place, Digit, Source, D.Right, Agree, AreOnes, Square, Rows16;
    Shape4();
    OnesAre4();
    Agree4();
    AgreeBit(SB4, S4, Ones4, 3, b, n);
  }

  lemma Box5(b: Bits, n: nat)
    requires |b| == 6 && 1 <= n <= 32
    ensures Square(SB5) && Rows16(S5)
    ensures Bit(D.Right(Box(SB5)[Number(b)]), n) <==> Source(n) / 4 == 4 && Digit(SBox(S5)[Place(b)], Source(n) % 4)
  {
    hide Bit, Number, Place, Digit, Source, D.Right, Agree, AreOnes, Square, Rows16;
    Shape5();
    OnesAre5();
    Agree5();
    AgreeBit(SB5, S5, Ones5, 4, b, n);
  }

  lemma Box6(b: Bits, n: nat)
    requires |b| == 6 && 1 <= n <= 32
    ensures Square(SB6) && Rows16(S6)
    ensures Bit(D.Right(Box(SB6)[Number(b)]), n) <==> Source(n) / 4 == 5 && Digit(SBox(S6)[Place(b)], Source(n) % 4)
  {
    hide Bit, Number, Place, Digit, Source, D.Right, Agree, AreOnes, Square, Rows16;
    Shape6();
    OnesAre6();
    Agree6();
    AgreeBit(SB6, S6, Ones6, 5, b, n);
  }

  lemma Box7(b: Bits, n: nat)
    requires |b| == 6 && 1 <= n <= 32
    ensures Square(SB7) && Rows16(S7)
    ensures Bit(D.Right(Box(SB7)[Number(b)]), n) <==> Source(n) / 4 == 6 && Digit(SBox(S7)[Place(b)], Source(n) % 4)
  {
    hide Bit, Number, Place, Digit, Source, D.Right, Agree, AreOnes, Square, Rows16;
    Shape7();
    OnesAre7();
    Agree7();
    AgreeBit(SB7, S7, Ones7, 6, b, n);
  }

  lemma Box8(b: Bits, n: nat)
    requires |b| == 6 && 1 <= n <= 32
    ensures Square(SB8) && Rows16(S8)
    ensures Bit(D.Right(Box(SB8)[Number(b)]), n) <==> Source(n) / 4 == 7 && Digit(SBox(S8)[Place(b)], Source(n) % 4)
  {
    hide Bit, Number, Place, Digit, Source, D.Right, Agree, AreOnes, Square, Rows16;
    Shape8();
    OnesAre8();
    Agree8();
    AgreeBit(SB8, S8, Ones8, 7, b, n);
  }

  lemma TableBit(i: nat, b: Bits, n: nat)
    requires i < 8 && |b| == 6 && 1 <= n <= 32
    ensures Bit(D.Right(Tables()[i][Number(b)]), n) == InBox(StandardBoxes(), i, b, n)
  {
    hide Bit, Number, Place, Digit, Source, D.Right, Agree, Box, SBox;
    if i == 0 { Box1(b, n); }
    else if i == 1 { Box2(b, n); }
    else if i == 2 { Box3(b, n); }
    else if i == 3 { Box4(b, n); }
    else if i == 4 { Box5(b, n); }
    else if i == 5 { Box6(b, n); }
    else if i == 6 { Box7(b, n); }
    else { Box8(b, n); }
  }

  /** The tables of the program are those of the standard. */
  lemma TablesHold()
    ensures Holds(Tables(), StandardBoxes())
  {
    hide Bit, Number, D.Right, InBox, Tables, StandardBoxes;
    var boxes, s := Tables(), StandardBoxes();
    forall i, b: Bits, n | 0 <= i < 8 && |b| == 6 && 1 <= n <= 32
      ensures Bit(D.Right(boxes[i][Number(b)]), n) == InBox(s, i, b, n)
    {
      TableBit(i, b, n);
    }
  }

  // The whole cipher.

  /** One block of eight bytes under a key of eight bytes: the block of FIPS PUB 46-3. */
  lemma CryptIsStandard(key: seq<D.Byte>, b: seq<D.Byte>)
    requires |key| == 8 && |b| == 8
    ensures
      BitsOfBytes(D.Crypt(Tables(), D.Schedule(key), b)) ==
        Encipher(StandardBoxes(), StandardKeys(BitsOfBytes(key)), BitsOfBytes(b))
  {
    hide *;
    TablesHold();
    CryptConforms(Tables(), StandardBoxes(), key, b);
  }

  /** What the program does with a key and a block. */
  method EncipherBlock(key: seq<D.Byte>, input: seq<D.Byte>) returns (output: seq<D.Byte>)
    requires |key| == 8 && |input| == 8
    ensures |output| == 8
    ensures BitsOfBytes(output) == Encipher(StandardBoxes(), StandardKeys(BitsOfBytes(key)), BitsOfBytes(input))
  {
    hide BitsOfBytes, Encipher, StandardKeys, StandardBoxes, D.Crypt, D.Schedule, D.Pairs;
    var sk := D.KeySchedule(key);
    output := D.DesCrypt(Tables(), sk, input);
    CryptIsStandard(key, input);
  }

  /** And the other way round: deciphering under the key gives the block back. */
  method DecipherBlock(key: seq<D.Byte>, input: seq<D.Byte>) returns (output: seq<D.Byte>)
    requires |key| == 8 && |input| == 8
    ensures |output| == 8
    ensures Encipher(StandardBoxes(), StandardKeys(BitsOfBytes(key)), BitsOfBytes(output)) == BitsOfBytes(input)
  {
    hide BitsOfBytes, Encipher, StandardKeys, StandardBoxes, D.Crypt, D.Schedule, D.Pairs, D.Reversed;
    var esk := D.KeySchedule(key);
    var sk := D.ReverseKeys(esk);
    output := D.DesCrypt(Tables(), sk, input);
    D.ReversedTwice(D.Schedule(key));
    D.CryptUndoes(Tables(), D.Reversed(D.Schedule(key)), input);
    CryptIsStandard(key, output);
  }
}
