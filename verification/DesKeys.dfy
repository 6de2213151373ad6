/** The key schedule of the program is that of the standard. */
module DesKeys {
  import opened DesStandard
  import opened DesConforms
  import D = Des

  // Permuted choice 2. The halves of the key are in the low 28 bits of two words.

  function KeyHalf(x: bv32): (r: Bits)
    ensures |r| == 28
  {
    BitsOf(x)[4..]
  }

  lemma ChoiceRow0a(x: bv32, y: bv32, k: bv32)
    requires k == D.OddKey(x, y)
    ensures Bit(k, 3) == Bit(x, 18)
    ensures Bit(k, 4) == Bit(x, 21)
    ensures Bit(k, 5) == Bit(x, 15)
  {
  }

  lemma ChoiceRow0b(x: bv32, y: bv32, k: bv32)
    requires k == D.OddKey(x, y)
    ensures Bit(k, 6) == Bit(x, 28)
    ensures Bit(k, 7) == Bit(x, 5)
    ensures Bit(k, 8) == Bit(x, 9)
  {
  }

  lemma ChoiceRow0(x: bv32, y: bv32, j: nat)
    requires j < 6
    ensures var n := PC2[0][j]; 1 <= n <= 56 && Bit(D.OddKey(x, y), 3 + j) == if n <= 28 then Bit(x, n + 4) else Bit(y, n - 24)
  {
    hide Bit, D.OddKey;
    ChoiceRow0a(x, y, D.OddKey(x, y));
    ChoiceRow0b(x, y, D.OddKey(x, y));
    assert j == 0 || j == 1 || j == 2 || j == 3 || j == 4 || j == 5;
  }

  lemma ChoiceRow1a(x: bv32, y: bv32, k: bv32)
    requires k == D.EvenKey(x, y)
    ensures Bit(k, 3) == Bit(x, 7)
    ensures Bit(k, 4) == Bit(x, 32)
    ensures Bit(k, 5) == Bit(x, 19)
  {
  }

  lemma ChoiceRow1b(x: bv32, y: bv32, k: bv32)
    requires k == D.EvenKey(x, y)
    ensures Bit(k, 6) == Bit(x, 10)
    ensures Bit(k, 7) == Bit(x, 25)
    ensures Bit(k, 8) == Bit(x, 14)
  {
  }

  lemma ChoiceRow1(x: bv32, y: bv32, j: nat)
    requires j < 6
    ensures var n := PC2[1][j]; 1 <= n <= 56 && Bit(D.EvenKey(x, y), 3 + j) == if n <= 28 then Bit(x, n + 4) else Bit(y, n - 24)
  {
    hide Bit, D.EvenKey;
    ChoiceRow1a(x, y, D.EvenKey(x, y));
    ChoiceRow1b(x, y, D.EvenKey(x, y));
    assert j == 0 || j == 1 || j == 2 || j == 3 || j == 4 || j == 5;
  }

  lemma ChoiceRow2a(x: bv32, y: bv32, k: bv32)
    requires k == D.OddKey(x, y)
    ensures Bit(k, 11) == Bit(x, 27)
    ensures Bit(k, 12) == Bit(x, 23)
    ensures Bit(k, 13) == Bit(x, 16)
  {
  }

  lemma ChoiceRow2b(x: bv32, y: bv32, k: bv32)
    requires k == D.OddKey(x, y)
    ensures Bit(k, 14) == Bit(x, 8)
    ensures Bit(k, 15) == Bit(x, 30)
    ensures Bit(k, 16) == Bit(x, 12)
  {
  }

  lemma ChoiceRow2(x: bv32, y: bv32, j: nat)
    requires j < 6
    ensures var n := PC2[2][j]; 1 <= n <= 56 && Bit(D.OddKey(x, y), 11 + j) == if n <= 28 then Bit(x, n + 4) else Bit(y, n - 24)
  {
    hide Bit, D.OddKey;
    ChoiceRow2a(x, y, D.OddKey(x, y));
    ChoiceRow2b(x, y, D.OddKey(x, y));
    assert j == 0 || j == 1 || j == 2 || j == 3 || j == 4 || j == 5;
  }

  lemma ChoiceRow3a(x: bv32, y: bv32, k: bv32)
    requires k == D.EvenKey(x, y)
    ensures Bit(k, 11) == Bit(x, 20)
    ensures Bit(k, 12) == Bit(x, 11)
    ensures Bit(k, 13) == Bit(x, 31)
  {
  }

  lemma ChoiceRow3b(x: bv32, y: bv32, k: bv32)
    requires k == D.EvenKey(x, y)
    ensures Bit(k, 14) == Bit(x, 24)
    ensures Bit(k, 15) == Bit(x, 17)
    ensures Bit(k, 16) == Bit(x, 6)
  {
  }

  lemma ChoiceRow3(x: bv32, y: bv32, j: nat)
    requires j < 6
    ensures var n := PC2[3][j]; 1 <= n <= 56 && Bit(D.EvenKey(x, y), 11 + j) == if n <= 28 then Bit(x, n + 4) else Bit(y, n - 24)
  {
    hide Bit, D.EvenKey;
    ChoiceRow3a(x, y, D.EvenKey(x, y));
    ChoiceRow3b(x, y, D.EvenKey(x, y));
    assert j == 0 || j == 1 || j == 2 || j == 3 || j == 4 || j == 5;
  }

  lemma ChoiceRow4a(x: bv32, y: bv32, k: bv32)
    requires k == D.OddKey(x, y)
    ensures Bit(k, 19) == Bit(y, 17)
    ensures Bit(k, 20) == Bit(y, 28)
    ensures Bit(k, 21) == Bit(y, 7)
  {
  }

  lemma ChoiceRow4b(x: bv32, y: bv32, k: bv32)
    requires k == D.OddKey(x, y)
    ensures Bit(k, 22) == Bit(y, 13)
    ensures Bit(k, 23) == Bit(y, 23)
    ensures Bit(k, 24) == Bit(y, 31)
  {
  }

  lemma ChoiceRow4(x: bv32, y: bv32, j: nat)
    requires j < 6
    ensures var n := PC2[4][j]; 1 <= n <= 56 && Bit(D.OddKey(x, y), 19 + j) == if n <= 28 then Bit(x, n + 4) else Bit(y, n - 24)
  {
    hide Bit, D.OddKey;
    ChoiceRow4a(x, y, D.OddKey(x, y));
    ChoiceRow4b(x, y, D.OddKey(x, y));
    assert j == 0 || j == 1 || j == 2 || j == 3 || j == 4 || j == 5;
  }

  lemma ChoiceRow5a(x: bv32, y: bv32, k: bv32)
    requires k == D.EvenKey(x, y)
    ensures Bit(k, 19) == Bit(y, 6)
    ensures Bit(k, 20) == Bit(y, 16)
    ensures Bit(k, 21) == Bit(y, 27)
  {
  }

  lemma ChoiceRow5b(x: bv32, y: bv32, k: bv32)
    requires k == D.EvenKey(x, y)
    ensures Bit(k, 22) == Bit(y, 21)
    ensures Bit(k, 23) == Bit(y, 9)
    ensures Bit(k, 24) == Bit(y, 24)
  {
  }

  lemma ChoiceRow5(x: bv32, y: bv32, j: nat)
    requires j < 6
    ensures var n := PC2[5][j]; 1 <= n <= 56 && Bit(D.EvenKey(x, y), 19 + j) == if n <= 28 then Bit(x, n + 4) else Bit(y, n - 24)
  {
    hide Bit, D.EvenKey;
    ChoiceRow5a(x, y, D.EvenKey(x, y));
    ChoiceRow5b(x, y, D.EvenKey(x, y));
    assert j == 0 || j == 1 || j == 2 || j == 3 || j == 4 || j == 5;
  }

  lemma ChoiceRow6a(x: bv32, y: bv32, k: bv32)
    requires k == D.OddKey(x, y)
    ensures Bit(k, 27) == Bit(y, 20)
    ensures Bit(k, 28) == Bit(y, 25)
    ensures Bit(k, 29) == Bit(y, 15)
  {
  }

  lemma ChoiceRow6b(x: bv32, y: bv32, k: bv32)
    requires k == D.OddKey(x, y)
    ensures Bit(k, 30) == Bit(y, 32)
    ensures Bit(k, 31) == Bit(y, 10)
    ensures Bit(k, 32) == Bit(y, 29)
  {
  }

  lemma ChoiceRow6(x: bv32, y: bv32, j: nat)
    requires j < 6
    ensures var n := PC2[6][j]; 1 <= n <= 56 && Bit(D.OddKey(x, y), 27 + j) == if n <= 28 then Bit(x, n + 4) else Bit(y, n - 24)
  {
    hide Bit, D.OddKey;
    ChoiceRow6a(x, y, D.OddKey(x, y));
    ChoiceRow6b(x, y, D.OddKey(x, y));
    assert j == 0 || j == 1 || j == 2 || j == 3 || j == 4 || j == 5;
  }

  lemma ChoiceRow7a(x: bv32, y: bv32, k: bv32)
    requires k == D.EvenKey(x, y)
    ensures Bit(k, 27) == Bit(y, 22)
    ensures Bit(k, 28) == Bit(y, 18)
    ensures Bit(k, 29) == Bit(y, 26)
  {
  }

  lemma ChoiceRow7b(x: bv32, y: bv32, k: bv32)
    requires k == D.EvenKey(x, y)
    ensures Bit(k, 30) == Bit(y, 12)
    ensures Bit(k, 31) == Bit(y, 5)
    ensures Bit(k, 32) == Bit(y, 8)
  {
  }

  lemma ChoiceRow7(x: bv32, y: bv32, j: nat)
    requires j < 6
    ensures var n := PC2[7][j]; 1 <= n <= 56 && Bit(D.EvenKey(x, y), 27 + j) == if n <= 28 then Bit(x, n + 4) else Bit(y, n - 24)
  {
    hide Bit, D.EvenKey;
    ChoiceRow7a(x, y, D.EvenKey(x, y));
    ChoiceRow7b(x, y, D.EvenKey(x, y));
    assert j == 0 || j == 1 || j == 2 || j == 3 || j == 4 || j == 5;
  }

  lemma ChoiceBit(x: bv32, y: bv32, i: nat, j: nat)
    requires i < 8 && j < 6
    ensures
      var n := PC2[i][j];
      1 <= n <= 56 && Bit(if i % 2 == 1 then D.EvenKey(x, y) else D.OddKey(x, y), 8 * (i / 2) + 3 + j) ==
        if n <= 28 then Bit(x, n + 4) else Bit(y, n - 24)
  {
    hide Bit, D.EvenKey, D.OddKey;
    if i == 0 { ChoiceRow0(x, y, j); }
    else if i == 1 { ChoiceRow1(x, y, j); }
    else if i == 2 { ChoiceRow2(x, y, j); }
    else if i == 3 { ChoiceRow3(x, y, j); }
    else if i == 4 { ChoiceRow4(x, y, j); }
    else if i == 5 { ChoiceRow5(x, y, j); }
    else if i == 6 { ChoiceRow6(x, y, j); }
    else { ChoiceRow7(x, y, j); }
  }

  lemma PickPC2(b: Bits, i: nat, j: nat)
    requires |b| == 56 && i < 8 && j < 6 && 1 <= PC2[i][j] <= 56
    ensures HasWidth(PC2, 6) && Pick(PC2, 6, b)[6 * i + j] == b[PC2[i][j] - 1]
  {
    assert (6 * i + j) / 6 == i && (6 * i + j) % 6 == j;
  }

  lemma SecondChoiceBit(w: D.Words, m: nat)
    requires m < 48
    ensures HasWidth(PC2, 6) && KeyBits(D.SubkeyOf(w))[m] == Pick(PC2, 6, KeyHalf(w.x) + KeyHalf(w.y))[m]
  {
    hide Bit, KeyBits, Pick, D.EvenKey, D.OddKey;
    var i, j := m / 6, m % 6;
    ChoiceBit(w.x, w.y, i, j);
    KeyBit(D.SubkeyOf(w), i, j);
    PickPC2(KeyHalf(w.x) + KeyHalf(w.y), i, j);
  }

  lemma SecondChoiceConforms(w: D.Words)
    ensures HasWidth(PC2, 6) && KeyBits(D.SubkeyOf(w)) == Pick(PC2, 6, KeyHalf(w.x) + KeyHalf(w.y))
  {
    hide KeyBits, Pick, KeyHalf, D.SubkeyOf;
    SecondChoiceBit(w, 0);
    forall m | 0 <= m < 48 ensures KeyBits(D.SubkeyOf(w))[m] == Pick(PC2, 6, KeyHalf(w.x) + KeyHalf(w.y))[m] {
      SecondChoiceBit(w, m);
    }
  }

  // Turning.

  predicate Low28(x: bv32) { x >> 28 == 0 }

  lemma TurnOneShift(x: bv32, k: bv6)
    requires x >> 28 == 0 && k < 28
    ensures (D.TurnedKey(x, true) >> k) & 1 == if k == 0 then (x >> 27) & 1 else (x >> (k - 1)) & 1
  {
  }

  lemma TurnTwoShift(x: bv32, k: bv6)
    requires x >> 28 == 0 && k < 28
    ensures (D.TurnedKey(x, false) >> k) & 1 == if k < 2 then (x >> (k + 26)) & 1 else (x >> (k - 2)) & 1
  {
  }

  lemma TurnedLow(x: bv32, byOne: bool)
    ensures Low28(D.TurnedKey(x, byOne))
  {
  }

  lemma Below28(n: nat)
    requires 5 <= n <= 32
    ensures Shift(n) < 28
  {
  }

  lemma TurnedOneBit(x: bv32, n: nat)
    requires Low28(x) && 5 <= n <= 32
    ensures Bit(D.TurnedKey(x, true), n) == Bit(x, if n == 32 then 5 else n + 1)
  {
    hide Shift, D.TurnedKey;
    if n == 32 { ShiftEnds(); } else { ShiftMoves(n); }
    Below28(n);
    TurnOneShift(x, Shift(n));
  }

  lemma TurnedTwoBit(x: bv32, n: nat)
    requires Low28(x) && 5 <= n <= 32
    ensures Bit(D.TurnedKey(x, false), n) == Bit(x, if n >= 31 then n - 26 else n + 2)
  {
    hide Shift, D.TurnedKey;
    if n <= 30 { ShiftMoves2(n); } else { ShiftEnds(); }
    Below28(n);
    TurnTwoShift(x, Shift(n));
  }

  lemma TurnedBit(x: bv32, byOne: bool, i: nat)
    requires Low28(x) && i < 28
    ensures
      var d := if byOne then 1 else 2;
      Bit(D.TurnedKey(x, byOne), i + 5) == Bit(x, if i + d < 28 then i + d + 5 else i + d - 23)
  {
    hide Bit, D.TurnedKey, Low28;
    if byOne { TurnedOneBit(x, i + 5); } else { TurnedTwoBit(x, i + 5); }
  }

  lemma KeyHalfAt(x: bv32, i: nat)
    requires i < 28
    ensures KeyHalf(x)[i] == Bit(x, i + 5)
  {
    hide Bit;
  }

  lemma TurnConforms(x: bv32, byOne: bool)
    requires Low28(x)
    ensures KeyHalf(D.TurnedKey(x, byOne)) == Rotated(KeyHalf(x), if byOne then 1 else 2)
  {
    hide Bit, D.TurnedKey, Low28, KeyHalf;
    var d := if byOne then 1 else 2;
    forall i | 0 <= i < 28 ensures KeyHalf(D.TurnedKey(x, byOne))[i] == Rotated(KeyHalf(x), d)[i] {
      TurnedBit(x, byOne, i);
      KeyHalfAt(D.TurnedKey(x, byOne), i);
      KeyHalfAt(x, if i + d < 28 then i + d else i + d - 28);
    }
  }

  // Permuted choice 1.

  function SpreadUp(n: bv32): bv32 {
    (n & 1) | ((n & 2) << 7) | ((n & 4) << 14) | ((n & 8) << 21)
  }

  lemma LHsEntry(n: bv32)
    requires n < 16
    ensures D.LHs[(n as bv4) as nat] == SpreadUp(n)
  {
    assert n == 0 || n == 1 || n == 2 || n == 3 || n == 4 || n == 5 || n == 6 || n == 7
      || n == 8 || n == 9 || n == 10 || n == 11 || n == 12 || n == 13 || n == 14 || n == 15;
  }

  lemma LHsAt(x: bv32, down: bv6)
    requires down < 32
    ensures D.LHs[D.Nibble(x, down)] == SpreadUp((x >> down) & 0xF)
  {
    hide SpreadUp;
    LHsEntry((x >> down) & 0xF);
  }

  function SpreadDown(n: bv32): bv32 {
    ((n & 1) << 24) | ((n & 2) << 15) | ((n & 4) << 6) | ((n & 8) >> 3)
  }

  lemma RHsEntry(n: bv32)
    requires n < 16
    ensures D.RHs[(n as bv4) as nat] == SpreadDown(n)
  {
    assert n == 0 || n == 1 || n == 2 || n == 3 || n == 4 || n == 5 || n == 6 || n == 7
      || n == 8 || n == 9 || n == 10 || n == 11 || n == 12 || n == 13 || n == 14 || n == 15;
  }

  lemma RHsAt(x: bv32, down: bv6)
    requires down < 32
    ensures D.RHs[D.Nibble(x, down)] == SpreadDown((x >> down) & 0xF)
  {
    hide SpreadDown;
    RHsEntry((x >> down) & 0xF);
  }

  /** The bits of a word gathered in the low 28 bits, as the two tables do it. */
  predicate GatheredUp(x: bv32, h: bv32) {
    h ==
    (((x & 1) << 3) | (((x >> 1) & 1) << 11) | (((x >> 2) & 1) << 19) | (((x >> 3) & 1) << 27)
     | (((x >> 8) & 1) << 2) | (((x >> 9) & 1) << 10) | (((x >> 10) & 1) << 18) | (((x >> 11) & 1) << 26)
     | (((x >> 16) & 1) << 1) | (((x >> 17) & 1) << 9) | (((x >> 18) & 1) << 17) | (((x >> 19) & 1) << 25)
     | ((x >> 24) & 1) | (((x >> 25) & 1) << 8) | (((x >> 26) & 1) << 16) | (((x >> 27) & 1) << 24)
     | (((x >> 5) & 1) << 7) | (((x >> 6) & 1) << 15) | (((x >> 7) & 1) << 23) | (((x >> 8) & 1) << 31)
     | (((x >> 13) & 1) << 6) | (((x >> 14) & 1) << 14) | (((x >> 15) & 1) << 22) | (((x >> 16) & 1) << 30)
     | (((x >> 21) & 1) << 5) | (((x >> 22) & 1) << 13) | (((x >> 23) & 1) << 21) | (((x >> 24) & 1) << 29)
     | (((x >> 29) & 1) << 4) | (((x >> 30) & 1) << 12) | (((x >> 31) & 1) << 20)) & 0x0FFF_FFFF
  }

  predicate GatheredDown(x: bv32, h: bv32) {
    h ==
    ((((x >> 1) & 1) << 27) | (((x >> 2) & 1) << 19) | (((x >> 3) & 1) << 11) | (((x >> 4) & 1) << 3)
     | (((x >> 9) & 1) << 26) | (((x >> 10) & 1) << 18) | (((x >> 11) & 1) << 10) | (((x >> 12) & 1) << 2)
     | (((x >> 17) & 1) << 25) | (((x >> 18) & 1) << 17) | (((x >> 19) & 1) << 9) | (((x >> 20) & 1) << 1)
     | (((x >> 25) & 1) << 24) | (((x >> 26) & 1) << 16) | (((x >> 27) & 1) << 8) | ((x >> 28) & 1)
     | (((x >> 4) & 1) << 31) | (((x >> 5) & 1) << 23) | (((x >> 6) & 1) << 15) | (((x >> 7) & 1) << 7)
     | (((x >> 12) & 1) << 30) | (((x >> 13) & 1) << 22) | (((x >> 14) & 1) << 14) | (((x >> 15) & 1) << 6)
     | (((x >> 20) & 1) << 29) | (((x >> 21) & 1) << 21) | (((x >> 22) & 1) << 13) | (((x >> 23) & 1) << 5)
     | (((x >> 28) & 1) << 28) | (((x >> 29) & 1) << 20) | (((x >> 30) & 1) << 12) | (((x >> 31) & 1) << 4)) & 0x0FFF_FFFF
  }

  lemma GatherUp(x: bv32, a: bv32, b: bv32, c: bv32, d: bv32, e: bv32, f: bv32, g: bv32, h: bv32, r: bv32)
    requires a == SpreadUp((x >> 0) & 0xF)
    requires b == SpreadUp((x >> 8) & 0xF)
    requires c == SpreadUp((x >> 16) & 0xF)
    requires d == SpreadUp((x >> 24) & 0xF)
    requires e == SpreadUp((x >> 5) & 0xF)
    requires f == SpreadUp((x >> 13) & 0xF)
    requires g == SpreadUp((x >> 21) & 0xF)
    requires h == SpreadUp((x >> 29) & 0xF)
    requires r == D.Gathered(a, b, c, d, e, f, g, h)
    ensures GatheredUp(x, r)
  {
  }

  lemma GatherDown(x: bv32, a: bv32, b: bv32, c: bv32, d: bv32, e: bv32, f: bv32, g: bv32, h: bv32, r: bv32)
    requires a == SpreadDown((x >> 1) & 0xF)
    requires b == SpreadDown((x >> 9) & 0xF)
    requires c == SpreadDown((x >> 17) & 0xF)
    requires d == SpreadDown((x >> 25) & 0xF)
    requires e == SpreadDown((x >> 4) & 0xF)
    requires f == SpreadDown((x >> 12) & 0xF)
    requires g == SpreadDown((x >> 20) & 0xF)
    requires h == SpreadDown((x >> 28) & 0xF)
    requires r == D.Gathered(a, b, c, d, e, f, g, h)
    ensures GatheredDown(x, r)
  {
  }

  lemma LeftHalfIs(x: bv32)
    ensures GatheredUp(x, D.LeftHalf(x))
  {
    hide D.Nibble, SpreadUp, D.Gathered, GatheredUp;
    LHsAt(x, 0);
    LHsAt(x, 8);
    LHsAt(x, 16);
    LHsAt(x, 24);
    LHsAt(x, 5);
    LHsAt(x, 13);
    LHsAt(x, 21);
    LHsAt(x, 29);
    GatherUp(x, D.LHs[D.Nibble(x, 0)], D.LHs[D.Nibble(x, 8)], D.LHs[D.Nibble(x, 16)], D.LHs[D.Nibble(x, 24)],
      D.LHs[D.Nibble(x, 5)], D.LHs[D.Nibble(x, 13)], D.LHs[D.Nibble(x, 21)], D.LHs[D.Nibble(x, 29)],
      D.LeftHalf(x));
  }

  lemma RightHalfIs(x: bv32)
    ensures GatheredDown(x, D.RightHalf(x))
  {
    hide D.Nibble, SpreadDown, D.Gathered, GatheredDown;
    RHsAt(x, 1);
    RHsAt(x, 9);
    RHsAt(x, 17);
    RHsAt(x, 25);
    RHsAt(x, 4);
    RHsAt(x, 12);
    RHsAt(x, 20);
    RHsAt(x, 28);
    GatherDown(x, D.RHs[D.Nibble(x, 1)], D.RHs[D.Nibble(x, 9)], D.RHs[D.Nibble(x, 17)], D.RHs[D.Nibble(x, 25)],
      D.RHs[D.Nibble(x, 4)], D.RHs[D.Nibble(x, 12)], D.RHs[D.Nibble(x, 20)], D.RHs[D.Nibble(x, 28)],
      D.RightHalf(x));
  }

  predicate ExchangeFifth(a: bv32, b: bv32, a': bv32, b': bv32) {
    a' == a ^ ((a ^ b) & 0x1010_1010) && b' == b ^ ((a ^ b) & 0x1010_1010)
  }

  lemma DifferFifthIs(a: bv32, b: bv32)
    ensures D.DifferFifth(a, b) == (a ^ b) & 0x1010_1010
  {
  }

  lemma MixIs(a: bv32, t: bv32, r: bv32)
    requires r == D.Mix(a, t)
    ensures r == a ^ t
  {
  }

  lemma FifthOf(a: bv32, b: bv32, t: bv32, c: bv32, r: bv32)
    requires t == (a ^ b) & 0x1010_1010 && r == c ^ t
    ensures r == c ^ ((a ^ b) & 0x1010_1010)
  {
  }

  lemma ExchangeFifthIs(a: bv32, b: bv32)
    ensures ExchangeFifth(a, b, D.Mix(a, D.DifferFifth(a, b)), D.Mix(b, D.DifferFifth(a, b)))
  {
    hide D.Mix, D.DifferFifth;
    var t := D.DifferFifth(a, b);
    var c, d := D.Mix(a, t), D.Mix(b, t);
    DifferFifthIs(a, b);
    MixIs(a, t, c);
    MixIs(b, t, d);
    FifthOf(a, b, t, a, c);
    FifthOf(a, b, t, b, d);
  }

  predicate KeyLeft(x: bv32, y: bv32, h: bv32) {
    && (h >> 27) & 1 == (y >> 7) & 1 && (h >> 26) & 1 == (y >> 15) & 1 && (h >> 25) & 1 == (y >> 23) & 1
    && (h >> 24) & 1 == (y >> 31) & 1 && (h >> 23) & 1 == (x >> 7) & 1 && (h >> 22) & 1 == (x >> 15) & 1
    && (h >> 21) & 1 == (x >> 23) & 1 && (h >> 20) & 1 == (x >> 31) & 1 && (h >> 19) & 1 == (y >> 6) & 1
    && (h >> 18) & 1 == (y >> 14) & 1 && (h >> 17) & 1 == (y >> 22) & 1 && (h >> 16) & 1 == (y >> 30) & 1
    && (h >> 15) & 1 == (x >> 6) & 1 && (h >> 14) & 1 == (x >> 14) & 1 && (h >> 13) & 1 == (x >> 22) & 1
    && (h >> 12) & 1 == (x >> 30) & 1 && (h >> 11) & 1 == (y >> 5) & 1 && (h >> 10) & 1 == (y >> 13) & 1
    && (h >> 9) & 1 == (y >> 21) & 1 && (h >> 8) & 1 == (y >> 29) & 1 && (h >> 7) & 1 == (x >> 5) & 1
    && (h >> 6) & 1 == (x >> 13) & 1 && (h >> 5) & 1 == (x >> 21) & 1 && (h >> 4) & 1 == (x >> 29) & 1
    && (h >> 3) & 1 == (y >> 4) & 1 && (h >> 2) & 1 == (y >> 12) & 1 && (h >> 1) & 1 == (y >> 20) & 1
    && (h >> 0) & 1 == (y >> 28) & 1
  }

  lemma KeyLeftFrom(x: bv32, y: bv32, x1: bv32, y1: bv32, x2: bv32, y2: bv32, h: bv32)
    requires Exchange4(y, x, y1, x1) && ExchangeFifth(y1, x1, y2, x2) && GatheredUp(x2, h)
    ensures KeyLeft(x, y, h) && Low28(h)
  {
  }

  lemma KeyLeft0a(x: bv32, y: bv32, h: bv32)
    requires KeyLeft(x, y, h)
    ensures Bit(h, 5) == Bit(y, 25)
    ensures Bit(h, 6) == Bit(y, 17)
    ensures Bit(h, 7) == Bit(y, 9)
    ensures Bit(h, 8) == Bit(y, 1)
  {
  }

  lemma KeyLeft0b(x: bv32, y: bv32, h: bv32)
    requires KeyLeft(x, y, h)
    ensures Bit(h, 9) == Bit(x, 25)
    ensures Bit(h, 10) == Bit(x, 17)
    ensures Bit(h, 11) == Bit(x, 9)
  {
  }

  lemma KeyLeft0(x: bv32, y: bv32, h: bv32, j: nat)
    requires KeyLeft(x, y, h) && j < 7
    ensures 1 <= PC1[0][j] <= 64 && Bit(h, 5 + j) == BlockBit(x, y, PC1[0][j])
  {
    hide Bit, KeyLeft;
    KeyLeft0a(x, y, h);
    KeyLeft0b(x, y, h);
    assert j == 0 || j == 1 || j == 2 || j == 3 || j == 4 || j == 5 || j == 6;
  }

  lemma KeyLeft1a(x: bv32, y: bv32, h: bv32)
    requires KeyLeft(x, y, h)
    ensures Bit(h, 12) == Bit(x, 1)
    ensures Bit(h, 13) == Bit(y, 26)
    ensures Bit(h, 14) == Bit(y, 18)
    ensures Bit(h, 15) == Bit(y, 10)
  {
  }

  lemma KeyLeft1b(x: bv32, y: bv32, h: bv32)
    requires KeyLeft(x, y, h)
    ensures Bit(h, 16) == Bit(y, 2)
    ensures Bit(h, 17) == Bit(x, 26)
    ensures Bit(h, 18) == Bit(x, 18)
  {
  }

  lemma KeyLeft1(x: bv32, y: bv32, h: bv32, j: nat)
    requires KeyLeft(x, y, h) && j < 7
    ensures 1 <= PC1[1][j] <= 64 && Bit(h, 12 + j) == BlockBit(x, y, PC1[1][j])
  {
    hide Bit, KeyLeft;
    KeyLeft1a(x, y, h);
    KeyLeft1b(x, y, h);
    assert j == 0 || j == 1 || j == 2 || j == 3 || j == 4 || j == 5 || j == 6;
  }

  lemma KeyLeft2a(x: bv32, y: bv32, h: bv32)
    requires KeyLeft(x, y, h)
    ensures Bit(h, 19) == Bit(x, 10)
    ensures Bit(h, 20) == Bit(x, 2)
    ensures Bit(h, 21) == Bit(y, 27)
    ensures Bit(h, 22) == Bit(y, 19)
  {
  }

  lemma KeyLeft2b(x: bv32, y: bv32, h: bv32)
    requires KeyLeft(x, y, h)
    ensures Bit(h, 23) == Bit(y, 11)
    ensures Bit(h, 24) == Bit(y, 3)
    ensures Bit(h, 25) == Bit(x, 27)
  {
  }

  lemma KeyLeft2(x: bv32, y: bv32, h: bv32, j: nat)
    requires KeyLeft(x, y, h) && j < 7
    ensures 1 <= PC1[2][j] <= 64 && Bit(h, 19 + j) == BlockBit(x, y, PC1[2][j])
  {
    hide Bit, KeyLeft;
    KeyLeft2a(x, y, h);
    KeyLeft2b(x, y, h);
    assert j == 0 || j == 1 || j == 2 || j == 3 || j == 4 || j == 5 || j == 6;
  }

  lemma KeyLeft3a(x: bv32, y: bv32, h: bv32)
    requires KeyLeft(x, y, h)
    ensures Bit(h, 26) == Bit(x, 19)
    ensures Bit(h, 27) == Bit(x, 11)
    ensures Bit(h, 28) == Bit(x, 3)
    ensures Bit(h, 29) == Bit(y, 28)
  {
  }

  lemma KeyLeft3b(x: bv32, y: bv32, h: bv32)
    requires KeyLeft(x, y, h)
    ensures Bit(h, 30) == Bit(y, 20)
    ensures Bit(h, 31) == Bit(y, 12)
    ensures Bit(h, 32) == Bit(y, 4)
  {
  }

  lemma KeyLeft3(x: bv32, y: bv32, h: bv32, j: nat)
    requires KeyLeft(x, y, h) && j < 7
    ensures 1 <= PC1[3][j] <= 64 && Bit(h, 26 + j) == BlockBit(x, y, PC1[3][j])
  {
    hide Bit, KeyLeft;
    KeyLeft3a(x, y, h);
    KeyLeft3b(x, y, h);
    assert j == 0 || j == 1 || j == 2 || j == 3 || j == 4 || j == 5 || j == 6;
  }

  predicate KeyRight(x: bv32, y: bv32, h: bv32) {
    && (h >> 27) & 1 == (y >> 1) & 1 && (h >> 26) & 1 == (y >> 9) & 1 && (h >> 25) & 1 == (y >> 17) & 1
    && (h >> 24) & 1 == (y >> 25) & 1 && (h >> 23) & 1 == (x >> 1) & 1 && (h >> 22) & 1 == (x >> 9) & 1
    && (h >> 21) & 1 == (x >> 17) & 1 && (h >> 20) & 1 == (x >> 25) & 1 && (h >> 19) & 1 == (y >> 2) & 1
    && (h >> 18) & 1 == (y >> 10) & 1 && (h >> 17) & 1 == (y >> 18) & 1 && (h >> 16) & 1 == (y >> 26) & 1
    && (h >> 15) & 1 == (x >> 2) & 1 && (h >> 14) & 1 == (x >> 10) & 1 && (h >> 13) & 1 == (x >> 18) & 1
    && (h >> 12) & 1 == (x >> 26) & 1 && (h >> 11) & 1 == (y >> 3) & 1 && (h >> 10) & 1 == (y >> 11) & 1
    && (h >> 9) & 1 == (y >> 19) & 1 && (h >> 8) & 1 == (y >> 27) & 1 && (h >> 7) & 1 == (x >> 3) & 1
    && (h >> 6) & 1 == (x >> 11) & 1 && (h >> 5) & 1 == (x >> 19) & 1 && (h >> 4) & 1 == (x >> 27) & 1
    && (h >> 3) & 1 == (x >> 4) & 1 && (h >> 2) & 1 == (x >> 12) & 1 && (h >> 1) & 1 == (x >> 20) & 1
    && (h >> 0) & 1 == (x >> 28) & 1
  }

  lemma KeyRightFrom(x: bv32, y: bv32, x1: bv32, y1: bv32, x2: bv32, y2: bv32, h: bv32)
    requires Exchange4(y, x, y1, x1) && ExchangeFifth(y1, x1, y2, x2) && GatheredDown(y2, h)
    ensures KeyRight(x, y, h) && Low28(h)
  {
  }

  lemma KeyRight0a(x: bv32, y: bv32, h: bv32)
    requires KeyRight(x, y, h)
    ensures Bit(h, 5) == Bit(y, 31)
    ensures Bit(h, 6) == Bit(y, 23)
    ensures Bit(h, 7) == Bit(y, 15)
    ensures Bit(h, 8) == Bit(y, 7)
  {
  }

  lemma KeyRight0b(x: bv32, y: bv32, h: bv32)
    requires KeyRight(x, y, h)
    ensures Bit(h, 9) == Bit(x, 31)
    ensures Bit(h, 10) == Bit(x, 23)
    ensures Bit(h, 11) == Bit(x, 15)
  {
  }

  lemma KeyRight0(x: bv32, y: bv32, h: bv32, j: nat)
    requires KeyRight(x, y, h) && j < 7
    ensures 1 <= PC1[4][j] <= 64 && Bit(h, 5 + j) == BlockBit(x, y, PC1[4][j])
  {
    hide Bit, KeyRight;
    KeyRight0a(x, y, h);
    KeyRight0b(x, y, h);
    assert j == 0 || j == 1 || j == 2 || j == 3 || j == 4 || j == 5 || j == 6;
  }

  lemma KeyRight1a(x: bv32, y: bv32, h: bv32)
    requires KeyRight(x, y, h)
    ensures Bit(h, 12) == Bit(x, 7)
    ensures Bit(h, 13) == Bit(y, 30)
    ensures Bit(h, 14) == Bit(y, 22)
    ensures Bit(h, 15) == Bit(y, 14)
  {
  }

  lemma KeyRight1b(x: bv32, y: bv32, h: bv32)
    requires KeyRight(x, y, h)
    ensures Bit(h, 16) == Bit(y, 6)
    ensures Bit(h, 17) == Bit(x, 30)
    ensures Bit(h, 18) == Bit(x, 22)
  {
  }

  lemma KeyRight1(x: bv32, y: bv32, h: bv32, j: nat)
    requires KeyRight(x, y, h) && j < 7
    ensures 1 <= PC1[5][j] <= 64 && Bit(h, 12 + j) == BlockBit(x, y, PC1[5][j])
  {
    hide Bit, KeyRight;
    KeyRight1a(x, y, h);
    KeyRight1b(x, y, h);
    assert j == 0 || j == 1 || j == 2 || j == 3 || j == 4 || j == 5 || j == 6;
  }

  lemma KeyRight2a(x: bv32, y: bv32, h: bv32)
    requires KeyRight(x, y, h)
    ensures Bit(h, 19) == Bit(x, 14)
    ensures Bit(h, 20) == Bit(x, 6)
    ensures Bit(h, 21) == Bit(y, 29)
    ensures Bit(h, 22) == Bit(y, 21)
  {
  }

  lemma KeyRight2b(x: bv32, y: bv32, h: bv32)
    requires KeyRight(x, y, h)
    ensures Bit(h, 23) == Bit(y, 13)
    ensures Bit(h, 24) == Bit(y, 5)
    ensures Bit(h, 25) == Bit(x, 29)
  {
  }

  lemma KeyRight2(x: bv32, y: bv32, h: bv32, j: nat)
    requires KeyRight(x, y, h) && j < 7
    ensures 1 <= PC1[6][j] <= 64 && Bit(h, 19 + j) == BlockBit(x, y, PC1[6][j])
  {
    hide Bit, KeyRight;
    KeyRight2a(x, y, h);
    KeyRight2b(x, y, h);
    assert j == 0 || j == 1 || j == 2 || j == 3 || j == 4 || j == 5 || j == 6;
  }

  lemma KeyRight3a(x: bv32, y: bv32, h: bv32)
    requires KeyRight(x, y, h)
    ensures Bit(h, 26) == Bit(x, 21)
    ensures Bit(h, 27) == Bit(x, 13)
    ensures Bit(h, 28) == Bit(x, 5)
    ensures Bit(h, 29) == Bit(x, 28)
  {
  }

  lemma KeyRight3b(x: bv32, y: bv32, h: bv32)
    requires KeyRight(x, y, h)
    ensures Bit(h, 30) == Bit(x, 20)
    ensures Bit(h, 31) == Bit(x, 12)
    ensures Bit(h, 32) == Bit(x, 4)
  {
  }

  lemma KeyRight3(x: bv32, y: bv32, h: bv32, j: nat)
    requires KeyRight(x, y, h) && j < 7
    ensures 1 <= PC1[7][j] <= 64 && Bit(h, 26 + j) == BlockBit(x, y, PC1[7][j])
  {
    hide Bit, KeyRight;
    KeyRight3a(x, y, h);
    KeyRight3b(x, y, h);
    assert j == 0 || j == 1 || j == 2 || j == 3 || j == 4 || j == 5 || j == 6;
  }

  lemma KeyStages(w: D.Words)
    ensures var v := D.FirstChoice(w); KeyLeft(w.x, w.y, v.x) && KeyRight(w.x, w.y, v.y) && Low28(v.x) && Low28(v.y)
  {
    hide D.Swap4, D.Mix, D.DifferFifth, D.LeftHalf, D.RightHalf, KeyLeft, KeyRight, Low28;
    hide Exchange4, ExchangeFifth, GatheredUp, GatheredDown;
    var w1 := D.Swap4(w.y, w.x);
    Swap4Is(w.y, w.x);
    var t := D.DifferFifth(w1.x, w1.y);
    ExchangeFifthIs(w1.x, w1.y);
    var y2, x2 := D.Mix(w1.x, t), D.Mix(w1.y, t);
    LeftHalfIs(x2);
    RightHalfIs(y2);
    KeyLeftFrom(w.x, w.y, w1.y, w1.x, x2, y2, D.LeftHalf(x2));
    KeyRightFrom(w.x, w.y, w1.y, w1.x, x2, y2, D.RightHalf(y2));
  }

  lemma FirstChoiceLeft(w: D.Words, i: nat, j: nat)
    requires i < 4 && j < 7
    ensures 1 <= PC1[i][j] <= 64 && Bit(D.FirstChoice(w).x, 5 + 7 * i + j) == BlockBit(w.x, w.y, PC1[i][j])
  {
    hide Bit, KeyLeft, D.FirstChoice;
    KeyStages(w);
    var h := D.FirstChoice(w).x;
    if i == 0 { KeyLeft0(w.x, w.y, h, j); }
    else if i == 1 { KeyLeft1(w.x, w.y, h, j); }
    else if i == 2 { KeyLeft2(w.x, w.y, h, j); }
    else { KeyLeft3(w.x, w.y, h, j); }
  }

  lemma FirstChoiceRight(w: D.Words, i: nat, j: nat)
    requires i < 4 && j < 7
    ensures 1 <= PC1[4 + i][j] <= 64 && Bit(D.FirstChoice(w).y, 5 + 7 * i + j) == BlockBit(w.x, w.y, PC1[4 + i][j])
  {
    hide Bit, KeyRight, D.FirstChoice;
    KeyStages(w);
    var h := D.FirstChoice(w).y;
    if i == 0 { KeyRight0(w.x, w.y, h, j); }
    else if i == 1 { KeyRight1(w.x, w.y, h, j); }
    else if i == 2 { KeyRight2(w.x, w.y, h, j); }
    else { KeyRight3(w.x, w.y, h, j); }
  }

  lemma PickPC1(b: Bits, m: nat)
    requires |b| == 64 && m < 56 && 1 <= PC1[m / 7][m % 7] <= 64
    ensures HasWidth(PC1, 7) && Pick(PC1, 7, b)[m] == b[PC1[m / 7][m % 7] - 1]
  {
  }

  lemma FirstChoiceBit(w: D.Words, m: nat)
    requires m < 56
    ensures
      var v := D.FirstChoice(w);
      HasWidth(PC1, 7) && (KeyHalf(v.x) + KeyHalf(v.y))[m] == Pick(PC1, 7, BlockOf(w))[m]
  {
    hide Bit, BlockBit, BlockOf, Pick, D.FirstChoice;
    if m < 28 { FirstChoiceLeft(w, m / 7, m % 7); } else { FirstChoiceRight(w, m / 7 - 4, m % 7); }
    PickPC1(BlockOf(w), m);
    BlockBitOf(w, PC1[m / 7][m % 7]);
  }

  /** The halves of the key that the program starts with. */
  lemma FirstChoiceConforms(w: D.Words)
    ensures
      var v := D.FirstChoice(w);
      HasWidth(PC1, 7) && KeyHalf(v.x) + KeyHalf(v.y) == Pick(PC1, 7, BlockOf(w)) && Low28(v.x) && Low28(v.y)
  {
    hide KeyHalf, BlockOf, Pick, D.FirstChoice, KeyLeft, KeyRight, Low28;
    KeyStages(w);
    var v := D.FirstChoice(w);
    FirstChoiceBit(w, 0);
    forall m | 0 <= m < 56 ensures (KeyHalf(v.x) + KeyHalf(v.y))[m] == Pick(PC1, 7, BlockOf(w))[m] { FirstChoiceBit(w, m); }
  }

  // All round keys.

  lemma ShiftsTable(i: nat)
    requires i < 16
    ensures Shifts[i] == if D.TurnsByOne(i) then 1 else 2
  {
  }

  lemma {:induction false} KeyAfterConforms(w: D.Words, i: nat)
    requires i <= 16
    ensures
      var v := D.KeyAfter(D.FirstChoice(w), i);
      Shifted(BlockOf(w), i) == Halves(KeyHalf(v.x), KeyHalf(v.y)) && Low28(v.x) && Low28(v.y)
  {
    hide KeyHalf, BlockOf, Pick, D.FirstChoice, D.TurnedKey, D.TurnsByOne, Low28, Rotated;
    if i == 0 {
      FirstChoiceConforms(w);
      var v := D.FirstChoice(w);
      assert (KeyHalf(v.x) + KeyHalf(v.y))[..28] == KeyHalf(v.x) && (KeyHalf(v.x) + KeyHalf(v.y))[28..] == KeyHalf(v.y);
    } else {
      KeyAfterConforms(w, i - 1);
      ShiftsTable(i - 1);
      var v := D.KeyAfter(D.FirstChoice(w), i - 1);
      var one := D.TurnsByOne(i - 1);
      TurnConforms(v.x, one);
      TurnConforms(v.y, one);
      TurnedLow(v.x, one);
      TurnedLow(v.y, one);
    }
  }

  /** The round keys of a key as the standard makes them. */
  function StandardKeys(key: Bits): (keys: seq<Bits>)
    requires |key| == 64
    ensures |keys| == 16 && AreKeys(keys)
  {
    seq(16, i requires 0 <= i < 16 => RoundKey(key, i + 1))
  }

  /** The round keys of the program are those of the standard. */
  lemma ScheduleConforms(key: seq<D.Byte>)
    requires |key| == 8
    ensures AllKeyBits(D.Schedule(key)) == StandardKeys(BlockOf(D.GetBlock(key)))
  {
    hide KeyBits, KeyHalf, BlockOf, Pick, D.FirstChoice, D.KeyAfter, D.SubkeyOf, D.GetBlock, Shifted;
    var w := D.GetBlock(key);
    forall i | 0 <= i < 16 ensures AllKeyBits(D.Schedule(key))[i] == StandardKeys(BlockOf(w))[i] {
      KeyAfterConforms(w, i + 1);
      SecondChoiceConforms(D.KeyAfter(D.FirstChoice(w), i + 1));
    }
  }

  // Bytes.

  predicate ByteBit(x: D.Byte, j: nat)
    requires j < 8
  {
    match j
    case 0 => (x >> 7) & 1 == 1
    case 1 => (x >> 6) & 1 == 1
    case 2 => (x >> 5) & 1 == 1
    case 3 => (x >> 4) & 1 == 1
    case 4 => (x >> 3) & 1 == 1
    case 5 => (x >> 2) & 1 == 1
    case 6 => (x >> 1) & 1 == 1
    case _ => x & 1 == 1
  }

  /** The bits of a text, byte by byte from the left. */
  function BitsOfBytes(b: seq<D.Byte>): (r: Bits)
    ensures |r| == 8 * |b|
  {
    seq(8 * |b|, m requires 0 <= m < 8 * |b| => ByteBit(b[m / 8], m % 8))
  }

  predicate Joined(a: bv8, b: bv8, c: bv8, d: bv8, w: bv32) {
    w == (a as bv32 << 24) | (b as bv32 << 16) | (c as bv32 << 8) | (d as bv32)
  }

  lemma GetWordIs(b: seq<D.Byte>, i: nat)
    requires i + 4 <= |b|
    ensures Joined(b[i], b[i + 1], b[i + 2], b[i + 3], D.GetWord(b, i))
  {
  }

  lemma WordByte0(a: bv8, b: bv8, c: bv8, d: bv8, w: bv32)
    requires Joined(a, b, c, d, w)
    ensures forall j :: 0 <= j < 8 ==> Bit(w, 1 + j) == ByteBit(a, j)
  {
    WordByte0Bits(a, b, c, d, w);
    hide Bit, ByteBit;
    forall j | 0 <= j < 8 ensures Bit(w, 1 + j) == ByteBit(a, j) {
      assert j == 0 || j == 1 || j == 2 || j == 3 || j == 4 || j == 5 || j == 6 || j == 7;
    }
  }

  lemma WordByte0Bits(a: bv8, b: bv8, c: bv8, d: bv8, w: bv32)
    requires Joined(a, b, c, d, w)
    ensures Bit(w, 1) == ByteBit(a, 0) && Bit(w, 2) == ByteBit(a, 1)
    ensures Bit(w, 3) == ByteBit(a, 2) && Bit(w, 4) == ByteBit(a, 3)
    ensures Bit(w, 5) == ByteBit(a, 4) && Bit(w, 6) == ByteBit(a, 5)
    ensures Bit(w, 7) == ByteBit(a, 6) && Bit(w, 8) == ByteBit(a, 7)
  {
  }

  lemma WordByte1(a: bv8, b: bv8, c: bv8, d: bv8, w: bv32)
    requires Joined(a, b, c, d, w)
    ensures forall j :: 0 <= j < 8 ==> Bit(w, 9 + j) == ByteBit(b, j)
  {
    WordByte1Bits(a, b, c, d, w);
    hide Bit, ByteBit;
    forall j | 0 <= j < 8 ensures Bit(w, 9 + j) == ByteBit(b, j) {
      assert j == 0 || j == 1 || j == 2 || j == 3 || j == 4 || j == 5 || j == 6 || j == 7;
    }
  }

  lemma WordByte1Bits(a: bv8, b: bv8, c: bv8, d: bv8, w: bv32)
    requires Joined(a, b, c, d, w)
    ensures Bit(w, 9) == ByteBit(b, 0) && Bit(w, 10) == ByteBit(b, 1)
    ensures Bit(w, 11) == ByteBit(b, 2) && Bit(w, 12) == ByteBit(b, 3)
    ensures Bit(w, 13) == ByteBit(b, 4) && Bit(w, 14) == ByteBit(b, 5)
    ensures Bit(w, 15) == ByteBit(b, 6) && Bit(w, 16) == ByteBit(b, 7)
  {
  }

  lemma WordByte2(a: bv8, b: bv8, c: bv8, d: bv8, w: bv32)
    requires Joined(a, b, c, d, w)
    ensures forall j :: 0 <= j < 8 ==> Bit(w, 17 + j) == ByteBit(c, j)
  {
    WordByte2Bits(a, b, c, d, w);
    hide Bit, ByteBit;
    forall j | 0 <= j < 8 ensures Bit(w, 17 + j) == ByteBit(c, j) {
      assert j == 0 || j == 1 || j == 2 || j == 3 || j == 4 || j == 5 || j == 6 || j == 7;
    }
  }

  lemma WordByte2Bits(a: bv8, b: bv8, c: bv8, d: bv8, w: bv32)
    requires Joined(a, b, c, d, w)
    ensures Bit(w, 17) == ByteBit(c, 0) && Bit(w, 18) == ByteBit(c, 1)
    ensures Bit(w, 19) == ByteBit(c, 2) && Bit(w, 20) == ByteBit(c, 3)
    ensures Bit(w, 21) == ByteBit(c, 4) && Bit(w, 22) == ByteBit(c, 5)
    ensures Bit(w, 23) == ByteBit(c, 6) && Bit(w, 24) == ByteBit(c, 7)
  {
  }

  lemma WordByte3(a: bv8, b: bv8, c: bv8, d: bv8, w: bv32)
    requires Joined(a, b, c, d, w)
    ensures forall j :: 0 <= j < 8 ==> Bit(w, 25 + j) == ByteBit(d, j)
  {
    WordByte3Bits(a, b, c, d, w);
    hide Bit, ByteBit;
    forall j | 0 <= j < 8 ensures Bit(w, 25 + j) == ByteBit(d, j) {
      assert j == 0 || j == 1 || j == 2 || j == 3 || j == 4 || j == 5 || j == 6 || j == 7;
    }
  }

  lemma WordByte3Bits(a: bv8, b: bv8, c: bv8, d: bv8, w: bv32)
    requires Joined(a, b, c, d, w)
    ensures Bit(w, 25) == ByteBit(d, 0) && Bit(w, 26) == ByteBit(d, 1)
    ensures Bit(w, 27) == ByteBit(d, 2) && Bit(w, 28) == ByteBit(d, 3)
    ensures Bit(w, 29) == ByteBit(d, 4) && Bit(w, 30) == ByteBit(d, 5)
    ensures Bit(w, 31) == ByteBit(d, 6) && Bit(w, 32) == ByteBit(d, 7)
  {
  }

  lemma WordBit(b: seq<D.Byte>, i: nat, n: nat)
    requires i + 4 <= |b| && 1 <= n <= 32
    ensures Bit(D.GetWord(b, i), n) == ByteBit(b[i + (n - 1) / 8], (n - 1) % 8)
  {
    hide Bit, ByteBit, Joined, D.GetWord;
    var w := D.GetWord(b, i);
    GetWordIs(b, i);
    if n <= 8 { WordByte0(b[i], b[i + 1], b[i + 2], b[i + 3], w); }
    else if n <= 16 { WordByte1(b[i], b[i + 1], b[i + 2], b[i + 3], w); }
    else if n <= 24 { WordByte2(b[i], b[i + 1], b[i + 2], b[i + 3], w); }
    else { WordByte3(b[i], b[i + 1], b[i + 2], b[i + 3], w); }
  }

  lemma BlockConforms(b: seq<D.Byte>)
    requires |b| == 8
    ensures BlockOf(D.GetBlock(b)) == BitsOfBytes(b)
  {
    hide Bit, ByteBit, D.GetWord;
    forall m | 0 <= m < 64 ensures BlockOf(D.GetBlock(b))[m] == BitsOfBytes(b)[m] {
      if m < 32 { WordBit(b, 0, m + 1); } else { WordBit(b, 4, m - 31); }
    }
  }

  /** One block of eight bytes under the round keys of a key of eight bytes is the block that the
      standard gives, whatever the S-boxes are. */
  lemma CryptConforms(boxes: D.Boxes, s: SBoxes, key: seq<D.Byte>, b: seq<D.Byte>)
    requires Holds(boxes, s) && |key| == 8 && |b| == 8
    ensures
      D.Complete(boxes) && AreSBoxes(s) &&
      BitsOfBytes(D.Crypt(boxes, D.Schedule(key), b)) == Encipher(s, StandardKeys(BitsOfBytes(key)), BitsOfBytes(b))
  {
    hide BitsOfBytes, BlockOf, D.GetBlock, D.PutBlock, D.Schedule, D.IP, D.FP, D.Rounds, Encipher, AllKeyBits, StandardKeys, Holds;
    var sk := D.Schedule(key);
    HoldsComplete(boxes, s);
    BlockConforms(key);
    BlockConforms(b);
    ScheduleConforms(key);
    CipherConforms(boxes, s, sk, D.GetBlock(b));
    D.BlockRoundTrip(D.FP(D.Flip(D.Rounds(boxes, sk, D.IP(D.GetBlock(b))))));
    BlockConforms(D.Crypt(boxes, sk, b));
  }
}
