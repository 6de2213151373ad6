/** The program computes the Data Encryption Standard. It keeps the two halves of a block rotated by
    one bit, which makes the six bits for each S-box lie side by side. */
module DesConforms {
  import opened DesStandard
  import D = Des

  // The bits of words and bytes.

  /** How far bit `n` of a word, counted from 1 at the left, is from its right end. */
  function Shift(n: nat): bv6
    requires 1 <= n <= 32
  {
    match n
    case 1 => 31
    case 2 => 30
    case 3 => 29
    case 4 => 28
    case 5 => 27
    case 6 => 26
    case 7 => 25
    case 8 => 24
    case 9 => 23
    case 10 => 22
    case 11 => 21
    case 12 => 20
    case 13 => 19
    case 14 => 18
    case 15 => 17
    case 16 => 16
    case 17 => 15
    case 18 => 14
    case 19 => 13
    case 20 => 12
    case 21 => 11
    case 22 => 10
    case 23 => 9
    case 24 => 8
    case 25 => 7
    case 26 => 6
    case 27 => 5
    case 28 => 4
    case 29 => 3
    case 30 => 2
    case 31 => 1
    case _ => 0
  }

  predicate Bit(w: bv32, n: nat)
    requires 1 <= n <= 32
  {
    (w >> Shift(n)) & 1 == 1
  }

  lemma ShiftMoves(n: nat)
    requires 1 <= n <= 32
    ensures Shift(n) < 32 && (n <= 31 ==> 1 <= Shift(n) == Shift(n + 1) + 1)
  {
    if n <= 16 { ShiftMovesUp(n); } else { ShiftMovesDown(n); }
  }

  lemma ShiftMovesUp(n: nat)
    requires 1 <= n <= 16
    ensures 1 <= Shift(n) == Shift(n + 1) + 1 < 32
  {
  }

  lemma ShiftMovesDown(n: nat)
    requires 17 <= n <= 32
    ensures Shift(n) < 32 && (n <= 31 ==> 1 <= Shift(n) == Shift(n + 1) + 1)
  {
  }

  lemma ShiftMoves2(n: nat)
    requires 1 <= n <= 30
    ensures 2 <= Shift(n) == Shift(n + 2) + 2 < 32
  {
  }

  lemma ShiftMoves3(n: nat)
    requires 1 <= n <= 29
    ensures 3 <= Shift(n) == Shift(n + 3) + 3 < 32
  {
  }

  lemma ShiftEnds()
    ensures Shift(32) == 0 && Shift(31) == 1 && Shift(30) == 2 && Shift(1) == 31 && Shift(2) == 30 && Shift(3) == 29
    ensures Shift(5) == 27 && Shift(6) == 26
  {
  }

  function BitsOf(w: bv32): (r: Bits)
    ensures |r| == 32
  {
    seq(32, i requires 0 <= i < 32 => Bit(w, i + 1))
  }

  lemma XorShift(a: bv32, b: bv32, k: bv6)
    requires k < 32
    ensures ((a ^ b) >> k) & 1 == ((a >> k) & 1) ^ ((b >> k) & 1)
  {
  }

  lemma OneBit(a: bv32, b: bv32)
    ensures (a & 1) ^ (b & 1) == 1 <==> (a & 1 == 1) != (b & 1 == 1)
  {
  }

  lemma XorBit(a: bv32, b: bv32, n: nat)
    requires 1 <= n <= 32
    ensures Bit(a ^ b, n) == (Bit(a, n) != Bit(b, n))
  {
    hide Shift;
    var k := Shift(n);
    ShiftMoves(n);
    XorShift(a, b, k);
    OneBit(a >> k, b >> k);
  }

  lemma XorBits(a: bv32, b: bv32)
    ensures BitsOf(a ^ b) == Xor(BitsOf(a), BitsOf(b))
  {
    hide Bit;
    forall n | 1 <= n <= 32 ensures Bit(a ^ b, n) == (Bit(a, n) != Bit(b, n)) { XorBit(a, b, n); }
    assert forall i :: 0 <= i < 32 ==> BitsOf(a ^ b)[i] == (BitsOf(a)[i] != BitsOf(b)[i]);
  }

  lemma LeftShift(a: bv32, k: bv6)
    requires 1 <= k < 32
    ensures (((a << 1) | (a >> 31)) >> k) & 1 == (a >> (k - 1)) & 1
  {
  }

  lemma LeftBit(a: bv32, n: nat)
    requires 1 <= n <= 32
    ensures Bit(D.Left(a), n) == Bit(a, if n == 32 then 1 else n + 1)
  {
    hide Shift;
    ShiftMoves(n);
    ShiftEnds();
    if n < 32 { LeftShift(a, Shift(n)); }
  }

  lemma LeftBits(a: bv32)
    ensures BitsOf(D.Left(a)) == Rotated(BitsOf(a), 1)
  {
    hide Bit;
    forall n | 1 <= n <= 32 ensures Bit(D.Left(a), n) == Bit(a, if n == 32 then 1 else n + 1) { LeftBit(a, n); }
  }

  // The initial permutation.

  /** Bit `n` of a block of two words. */
  predicate BlockBit(x: bv32, y: bv32, n: nat)
    requires 1 <= n <= 64
  {
    if n <= 32 then Bit(x, n) else Bit(y, n - 32)
  }

  /** Where bit `n` comes from: the columns of the block from right to left, the even ones first. */
  function From(n: nat): (m: nat)
    requires 1 <= n <= 64
    ensures 1 <= m <= 64
  {
    var row, column := (n - 1) / 8, (n - 1) % 8;
    (if row < 4 then 58 + 2 * row else 57 + 2 * (row - 4)) - 8 * column
  }

  lemma IPTable(n: nat)
    requires 1 <= n <= 64
    ensures IP[(n - 1) / 8][(n - 1) % 8] == From(n)
  {
  }

  // The exchanges, each in one expression.

  predicate Exchange4(a: bv32, b: bv32, a': bv32, b': bv32) {
    a' == a ^ ((((a >> 4) ^ b) & 0x0F0F_0F0F) << 4) && b' == b ^ (((a >> 4) ^ b) & 0x0F0F_0F0F)
  }

  predicate Exchange16(a: bv32, b: bv32, a': bv32, b': bv32) {
    a' == a ^ ((((a >> 16) ^ b) & 0x0000_FFFF) << 16) && b' == b ^ (((a >> 16) ^ b) & 0x0000_FFFF)
  }

  predicate Exchange2(a: bv32, b: bv32, a': bv32, b': bv32) {
    a' == a ^ ((((a >> 2) ^ b) & 0x3333_3333) << 2) && b' == b ^ (((a >> 2) ^ b) & 0x3333_3333)
  }

  predicate Exchange8(a: bv32, b: bv32, a': bv32, b': bv32) {
    a' == a ^ ((((a >> 8) ^ b) & 0x00FF_00FF) << 8) && b' == b ^ (((a >> 8) ^ b) & 0x00FF_00FF)
  }

  predicate ExchangeOdd(a: bv32, b: bv32, a': bv32, b': bv32) {
    a' == a ^ ((a ^ b) & 0xAAAA_AAAA) && b' == b ^ ((a ^ b) & 0xAAAA_AAAA)
  }

  predicate TurnedLeft(a: bv32, a': bv32) { a' == (a << 1) | (a >> 31) }

  predicate TurnedRight(a: bv32, a': bv32) { a' == (a << 31) | (a >> 1) }

  /** All the words on the way. */
  datatype Stages = Stages(x: bv32, y: bv32, x1: bv32, y1: bv32, x2: bv32, y2: bv32, x3: bv32, y3: bv32, x4: bv32, y4: bv32,
                           y5: bv32, l: bv32, y6: bv32, r: bv32)

  predicate Staged(g: Stages) {
    && g.y1 == g.y ^ (((g.x >> 4) ^ g.y) & 0x0F0F_0F0F) && g.x1 == g.x ^ ((((g.x >> 4) ^ g.y) & 0x0F0F_0F0F) << 4)
    && g.y2 == g.y1 ^ (((g.x1 >> 16) ^ g.y1) & 0x0000_FFFF) && g.x2 == g.x1 ^ ((((g.x1 >> 16) ^ g.y1) & 0x0000_FFFF) << 16)
    && g.x3 == g.x2 ^ (((g.y2 >> 2) ^ g.x2) & 0x3333_3333) && g.y3 == g.y2 ^ ((((g.y2 >> 2) ^ g.x2) & 0x3333_3333) << 2)
    && g.x4 == g.x3 ^ (((g.y3 >> 8) ^ g.x3) & 0x00FF_00FF) && g.y4 == g.y3 ^ ((((g.y3 >> 8) ^ g.x3) & 0x00FF_00FF) << 8)
    && g.y5 == (g.y4 << 1) | (g.y4 >> 31)
    && g.y6 == g.y5 ^ ((g.x4 ^ g.y5) & 0xAAAA_AAAA) && g.l == g.x4 ^ ((g.x4 ^ g.y5) & 0xAAAA_AAAA)
    && g.r == (g.y6 << 31) | (g.y6 >> 1)
  }

  lemma StagedFrom(g: Stages)
    requires Exchange4(g.x, g.y, g.x1, g.y1) && Exchange16(g.x1, g.y1, g.x2, g.y2)
    requires Exchange2(g.y2, g.x2, g.y3, g.x3) && Exchange8(g.y3, g.x3, g.y4, g.x4)
    requires TurnedLeft(g.y4, g.y5) && ExchangeOdd(g.x4, g.y5, g.l, g.y6) && TurnedRight(g.y6, g.r)
    ensures Staged(g)
  {
  }

  lemma StagedLeft(g: Stages, row: bv6, column: bv6, to: bv6, from: bv6)
    requires Staged(g)
    requires row < 4 && column < 4 && to == 31 - 8 * row - column && from == 6 + 8 * column - 2 * row
    ensures (g.l >> to) & 1 == (g.y >> from) & 1
    ensures (g.l >> (to - 4)) & 1 == (g.x >> from) & 1
  {
  }

  lemma StagedRight(g: Stages, row: bv6, column: bv6, to: bv6, from: bv6)
    requires Staged(g)
    requires row < 4 && column < 4 && to == 31 - 8 * row - column && from == 6 + 8 * column - 2 * row
    ensures (g.r >> to) & 1 == (g.y >> (from + 1)) & 1
    ensures (g.r >> (to - 4)) & 1 == (g.x >> (from + 1)) & 1
  {
  }

  lemma Swap4Value(a: bv32, b: bv32)
    ensures D.Swap4(a, b).x == a ^ ((((a >> 4) ^ b) & 0x0F0F_0F0F) << 4)
    ensures D.Swap4(a, b).y == b ^ (((a >> 4) ^ b) & 0x0F0F_0F0F)
  {
  }

  lemma Swap4Is(a: bv32, b: bv32)
    ensures Exchange4(a, b, D.Swap4(a, b).x, D.Swap4(a, b).y)
  {
    hide D.Swap4;
    Swap4Value(a, b);
  }

  lemma Swap16Value(a: bv32, b: bv32)
    ensures D.Swap16(a, b).x == a ^ ((((a >> 16) ^ b) & 0x0000_FFFF) << 16)
    ensures D.Swap16(a, b).y == b ^ (((a >> 16) ^ b) & 0x0000_FFFF)
  {
  }

  lemma Swap16Is(a: bv32, b: bv32)
    ensures Exchange16(a, b, D.Swap16(a, b).x, D.Swap16(a, b).y)
  {
    hide D.Swap16;
    Swap16Value(a, b);
  }

  lemma Swap2Value(a: bv32, b: bv32)
    ensures D.Swap2(a, b).x == a ^ ((((a >> 2) ^ b) & 0x3333_3333) << 2)
    ensures D.Swap2(a, b).y == b ^ (((a >> 2) ^ b) & 0x3333_3333)
  {
  }

  lemma Swap2Is(a: bv32, b: bv32)
    ensures Exchange2(a, b, D.Swap2(a, b).x, D.Swap2(a, b).y)
  {
    hide D.Swap2;
    Swap2Value(a, b);
  }

  lemma Swap8Value(a: bv32, b: bv32)
    ensures D.Swap8(a, b).x == a ^ ((((a >> 8) ^ b) & 0x00FF_00FF) << 8)
    ensures D.Swap8(a, b).y == b ^ (((a >> 8) ^ b) & 0x00FF_00FF)
  {
  }

  lemma Swap8Is(a: bv32, b: bv32)
    ensures Exchange8(a, b, D.Swap8(a, b).x, D.Swap8(a, b).y)
  {
    hide D.Swap8;
    Swap8Value(a, b);
  }

  lemma SwapOddValue(a: bv32, b: bv32)
    ensures D.SwapOdd(a, b).x == a ^ ((a ^ b) & 0xAAAA_AAAA)
    ensures D.SwapOdd(a, b).y == b ^ ((a ^ b) & 0xAAAA_AAAA)
  {
  }

  lemma SwapOddIs(a: bv32, b: bv32)
    ensures ExchangeOdd(a, b, D.SwapOdd(a, b).x, D.SwapOdd(a, b).y)
  {
    hide D.SwapOdd;
    SwapOddValue(a, b);
  }

  lemma TurnsAre(a: bv32)
    ensures TurnedLeft(a, D.Left(a)) && TurnedRight(a, D.Right(a))
  {
  }

  lemma BitIs(w: bv32, n: nat)
    requires 1 <= n <= 32
    ensures Bit(w, n) == ((w >> Shift(n)) & 1 == 1)
  {
  }

  lemma ShiftsAre(row: nat, column: nat)
    requires row < 4 && column < 4
    ensures
      var r, c := row as bv6, column as bv6;
      var to, from := Shift(8 * row + column + 1), Shift(26 + 2 * row - 8 * column);
      && r < 4 && c < 4 && to == 31 - 8 * r - c && from == 6 + 8 * c - 2 * r
      && Shift(8 * row + column + 5) == to - 4 && Shift(25 + 2 * row - 8 * column) == from + 1
  {
    assert row == 0 || row == 1 || row == 2 || row == 3;
    assert column == 0 || column == 1 || column == 2 || column == 3;
  }

  lemma StagedBitLeft(g: Stages, row: nat, column: nat)
    requires Staged(g) && row < 4 && column < 4
    ensures Bit(g.l, 8 * row + column + 1) == Bit(g.y, 26 + 2 * row - 8 * column)
    ensures Bit(g.l, 8 * row + column + 5) == Bit(g.x, 26 + 2 * row - 8 * column)
  {
    hide Staged, Shift, Bit;
    ShiftsAre(row, column);
    var to, from := Shift(8 * row + column + 1), Shift(26 + 2 * row - 8 * column);
    StagedLeft(g, row as bv6, column as bv6, to, from);
    BitIs(g.l, 8 * row + column + 1);
    BitIs(g.l, 8 * row + column + 5);
    BitIs(g.y, 26 + 2 * row - 8 * column);
    BitIs(g.x, 26 + 2 * row - 8 * column);
  }

  lemma StagedBitRight(g: Stages, row: nat, column: nat)
    requires Staged(g) && row < 4 && column < 4
    ensures Bit(g.r, 8 * row + column + 1) == Bit(g.y, 25 + 2 * row - 8 * column)
    ensures Bit(g.r, 8 * row + column + 5) == Bit(g.x, 25 + 2 * row - 8 * column)
  {
    hide Staged, Shift, Bit;
    ShiftsAre(row, column);
    var to, from := Shift(8 * row + column + 1), Shift(26 + 2 * row - 8 * column);
    StagedRight(g, row as bv6, column as bv6, to, from);
    BitIs(g.r, 8 * row + column + 1);
    BitIs(g.r, 8 * row + column + 5);
    BitIs(g.y, 25 + 2 * row - 8 * column);
    BitIs(g.x, 25 + 2 * row - 8 * column);
  }

  lemma StagesOf(w: D.Words) returns (g: Stages)
    ensures Staged(g) && g.x == w.x && g.y == w.y && D.IP(w) == D.Words(D.Left(g.l), g.y6) && g.r == D.Right(g.y6)
  {
    hide *;
    var w1 := D.Swap4(w.x, w.y);
    Swap4Is(w.x, w.y);
    var w2 := D.Swap16(w1.x, w1.y);
    Swap16Is(w1.x, w1.y);
    var w3 := D.Swap2(w2.y, w2.x);
    Swap2Is(w2.y, w2.x);
    var w4 := D.Swap8(w3.x, w3.y);
    Swap8Is(w3.x, w3.y);
    var w5 := D.SwapOdd(w4.y, D.Left(w4.x));
    SwapOddIs(w4.y, D.Left(w4.x));
    TurnsAre(w4.x);
    TurnsAre(w5.y);
    g := Stages(w.x, w.y, w1.x, w1.y, w2.x, w2.y, w3.y, w3.x, w4.y, w4.x, D.Left(w4.x), w5.x, w5.y, D.Right(w5.y));
    StagedFrom(g);
    InitialIs(w);
  }

  lemma InitialIs(w: D.Words)
    ensures
      var w1 := D.Swap4(w.x, w.y);
      var w2 := D.Swap16(w1.x, w1.y);
      var w3 := D.Swap2(w2.y, w2.x);
      var w4 := D.Swap8(w3.x, w3.y);
      var w5 := D.SwapOdd(w4.y, D.Left(w4.x));
      D.IP(w) == D.Words(D.Left(w5.x), w5.y)
  {
    hide D.Swap4, D.Swap16, D.Swap2, D.Swap8, D.SwapOdd, D.Left;
  }

  /** The bits of a block of two words. */
  function BlockOf(w: D.Words): (r: Bits)
    ensures |r| == 64
  {
    BitsOf(w.x) + BitsOf(w.y)
  }

  function Unturned(w: D.Words): D.Words { D.Words(D.Right(w.x), D.Right(w.y)) }

  lemma BlockBitOf(w: D.Words, n: nat)
    requires 1 <= n <= 64
    ensures BlockOf(w)[n - 1] == BlockBit(w.x, w.y, n)
  {
    hide Bit;
  }

  lemma InitialLeft(w: D.Words, row: nat, column: nat)
    requires row < 4 && column < 4
    ensures
      var l := D.Right(D.IP(w).x);
      && Bit(l, 8 * row + column + 1) == Bit(w.y, 26 + 2 * row - 8 * column)
      && Bit(l, 8 * row + column + 5) == Bit(w.x, 26 + 2 * row - 8 * column)
  {
    hide *;
    var g := StagesOf(w);
    D.RotationsUndo(g.l);
    StagedBitLeft(g, row, column);
  }

  lemma InitialRight(w: D.Words, row: nat, column: nat)
    requires row < 4 && column < 4
    ensures
      var r := D.Right(D.IP(w).y);
      && Bit(r, 8 * row + column + 1) == Bit(w.y, 25 + 2 * row - 8 * column)
      && Bit(r, 8 * row + column + 5) == Bit(w.x, 25 + 2 * row - 8 * column)
  {
    hide *;
    var g := StagesOf(w);
    StagedBitRight(g, row, column);
  }

  lemma InitialBit(w: D.Words, n: nat)
    requires 1 <= n <= 64
    ensures var v := Unturned(D.IP(w)); BlockBit(v.x, v.y, n) == BlockBit(w.x, w.y, From(n))
  {
    hide Bit, D.Right, D.IP, From, BlockBit;
    var row, column := (n - 1) / 8 % 4, (n - 1) % 4;
    FromAt(n);
    BlockBits(w, From(n));
    BlockBits(Unturned(D.IP(w)), n);
    if n <= 32 { InitialLeft(w, row, column); } else { InitialRight(w, row, column); }
  }

  lemma BlockBits(w: D.Words, n: nat)
    requires 1 <= n <= 64
    ensures BlockBit(w.x, w.y, n) == if n <= 32 then Bit(w.x, n) else Bit(w.y, n - 32)
  {
  }

  lemma FromAt(n: nat)
    requires 1 <= n <= 64
    ensures
      var row, column := (n - 1) / 8 % 4, (n - 1) % 4;
      && n == 8 * row + column + 1 + (if n > 32 then 32 else 0) + (if (n - 1) % 8 >= 4 then 4 else 0)
      && From(n) == (if n <= 32 then 26 else 25) + 2 * row - 8 * column + (if (n - 1) % 8 >= 4 then 0 else 32)
  {
    var q, c := (n - 1) / 8, (n - 1) % 8;
    assert n == 8 * q + c + 1;
    assert q % 4 == if q < 4 then q else q - 4;
    assert (n - 1) % 4 == if c < 4 then c else c - 4;
  }

  lemma PickAt(t: Table, w: nat, b: Bits, i: nat)
    requires w > 0 && HasWidth(t, w) && i < 8 * w
    ensures Row(i, w) == i / w && Pick(t, w, b)[i] == At(b, t[Row(i, w)][i % w])
  {
  }

  lemma IPWidth()
    ensures HasWidth(IP, 8)
  {
  }

  lemma PickIP(b: Bits, i: nat)
    requires |b| == 64 && i < 64
    ensures HasWidth(IP, 8) && Pick(IP, 8, b)[i] == b[From(i + 1) - 1]
  {
    hide From, Pick, HasWidth, Row;
    IPWidth();
    PickAt(IP, 8, b, i);
    IPTable(i + 1);
  }

  /** The halves that the program starts with are the initial permutation, each rotated. */
  lemma InitialConforms(w: D.Words)
    ensures HasWidth(IP, 8) && BlockOf(Unturned(D.IP(w))) == Pick(IP, 8, BlockOf(w))
  {
    hide Bit, D.IP, Unturned, BlockOf, BlockBit, From, Pick, HasWidth;
    IPWidth();
    var v := Unturned(D.IP(w));
    var a, b := BlockOf(v), BlockOf(w);
    forall i | 0 <= i < 64 ensures a[i] == Pick(IP, 8, b)[i] {
      BlockBitOf(v, i + 1);
      BlockBitOf(w, From(i + 1));
      InitialBit(w, i + 1);
      PickIP(b, i);
    }
  }

  // A round.

  function Number(b: Bits): (n: nat)
    requires |b| == 6
    ensures n < 64
  {
    32 * N(b[0]) + 16 * N(b[1]) + 8 * N(b[2]) + 4 * N(b[3]) + 2 * N(b[4]) + N(b[5])
  }

  /** The round key of 48 bits in its two words: the groups of six with even numbers in the first
      word, those with odd numbers in the second, each in the low bits of a byte. */
  function KeyBits(k: D.Subkey): (r: Bits)
    ensures |r| == 48
  {
    seq(48, m requires 0 <= m < 48 => Bit(if m / 6 % 2 == 1 then k.k0 else k.k1, 8 * (m / 12) + 3 + m % 6))
  }

  /** The six bits of a word that end `down` bits before its end, as a number. */
  function SixAt(t: bv32, down: nat): (n: nat)
    requires down <= 24
    ensures n < 64
  {
    Number(seq(6, j requires 0 <= j < 6 => Bit(t, 27 - down + j)))
  }

  lemma SixBits(t: bv32, down: nat)
    requires down <= 24
    ensures SixAt(t, down) ==
      Number([Bit(t, 27 - down), Bit(t, 28 - down), Bit(t, 29 - down), Bit(t, 30 - down), Bit(t, 31 - down), Bit(t, 32 - down)])
  {
    hide Bit;
  }

  lemma Six0(t: bv32)
    ensures D.Six(t, 0) == SixAt(t, 0)
  {
    assert D.Six(t, 0) == Number([Bit(t, 27), Bit(t, 28), Bit(t, 29), Bit(t, 30), Bit(t, 31), Bit(t, 32)]);
    SixBits(t, 0);
  }

  lemma Six8(t: bv32)
    ensures D.Six(t, 8) == SixAt(t, 8)
  {
    assert D.Six(t, 8) == Number([Bit(t, 19), Bit(t, 20), Bit(t, 21), Bit(t, 22), Bit(t, 23), Bit(t, 24)]);
    SixBits(t, 8);
  }

  lemma Six16(t: bv32)
    ensures D.Six(t, 16) == SixAt(t, 16)
  {
    assert D.Six(t, 16) == Number([Bit(t, 11), Bit(t, 12), Bit(t, 13), Bit(t, 14), Bit(t, 15), Bit(t, 16)]);
    SixBits(t, 16);
  }

  lemma Six24(t: bv32)
    ensures D.Six(t, 24) == SixAt(t, 24)
  {
    assert D.Six(t, 24) == Number([Bit(t, 3), Bit(t, 4), Bit(t, 5), Bit(t, 6), Bit(t, 7), Bit(t, 8)]);
    SixBits(t, 24);
  }

  /** Group `i` of what goes into the S-boxes. */
  function Group(r: Bits, k: Bits, i: nat): (b: Bits)
    requires |r| == 32 && |k| == 48 && i < 8
    ensures |b| == 6
  {
    Xor(Pick(E, 6, r), k)[6 * i..6 * i + 6]
  }

  lemma Turn3(a: bv32, k: bv6)
    requires k < 32
    ensures
      var x := (a << 1) | (a >> 31);
      (((x << 28) | (x >> 4)) >> k) & 1 == if k < 29 then (a >> (k + 3)) & 1 else (a >> (k - 29)) & 1
  {
  }

  lemma Turn3Bit(a: bv32, n: nat)
    requires 1 <= n <= 32
    ensures Bit(D.Turned4(D.Left(a)), n) == Bit(a, if n <= 3 then n + 29 else n - 3)
  {
    hide Shift;
    ShiftMoves(n);
    ShiftEnds();
    if n > 3 { ShiftMoves3(n - 3); } else { assert n == 1 || n == 2 || n == 3; }
    Turn3(a, Shift(n));
  }

  lemma ETable(i: nat, j: nat)
    requires i < 8 && j < 6
    ensures E[i][j] == if i == 0 && j == 0 then 32 else if i == 7 && j == 5 then 1 else 4 * i + j
  {
  }

  lemma PickE(b: Bits, i: nat, j: nat)
    requires |b| == 32 && i < 8 && j < 6
    ensures HasWidth(E, 6) && 1 <= E[i][j] <= 32 && Pick(E, 6, b)[6 * i + j] == b[E[i][j] - 1]
  {
    ETable(i, j);
    assert (6 * i + j) / 6 == i && (6 * i + j) % 6 == j;
  }

  lemma KeyBit(k: D.Subkey, i: nat, j: nat)
    requires i < 8 && j < 6
    ensures KeyBits(k)[6 * i + j] == Bit(if i % 2 == 1 then k.k0 else k.k1, 8 * (i / 2) + 3 + j)
  {
    hide Bit;
    assert (6 * i + j) / 6 == i && (6 * i + j) % 6 == j && (6 * i + j) / 12 == i / 2;
  }

  lemma GroupBit(r: bv32, k: D.Subkey, i: nat, j: nat)
    requires i < 8 && j < 6
    ensures 1 <= E[i][j] <= 32
    ensures
      Group(BitsOf(r), KeyBits(k), i)[j] ==
        (Bit(r, E[i][j]) != Bit(if i % 2 == 1 then k.k0 else k.k1, 8 * (i / 2) + 3 + j))
  {
    hide Bit, KeyBits, Pick;
    PickE(BitsOf(r), i, j);
    KeyBit(k, i, j);
  }

  /** The words in which the program looks for the groups with even numbers, and with odd ones. */
  function EvenWord(r: bv32, k: bv32): bv32 { D.Mix(k, D.Left(r)) }

  function OddWord(r: bv32, k: bv32): bv32 { D.Mix(k, D.Turned4(D.Left(r))) }

  lemma MixBit(a: bv32, b: bv32, n: nat)
    requires 1 <= n <= 32
    ensures Bit(D.Mix(a, b), n) == (Bit(a, n) != Bit(b, n))
  {
    XorBit(a, b, n);
  }

  lemma EvenBit(r: bv32, k: bv32, n: nat)
    requires 1 <= n <= 32
    ensures Bit(EvenWord(r, k), n) == (Bit(r, if n == 32 then 1 else n + 1) != Bit(k, n))
  {
    hide Bit, D.Left, D.Mix;
    MixBit(k, D.Left(r), n);
    LeftBit(r, n);
  }

  lemma OddBit(r: bv32, k: bv32, n: nat)
    requires 1 <= n <= 32
    ensures Bit(OddWord(r, k), n) == (Bit(r, if n <= 3 then n + 29 else n - 3) != Bit(k, n))
  {
    hide Bit, D.Left, D.Mix, D.Turned4;
    MixBit(k, D.Turned4(D.Left(r)), n);
    Turn3Bit(r, n);
  }

  function Looked(r: bv32, k: D.Subkey, i: nat): bv32 { if i % 2 == 1 then EvenWord(r, k.k0) else OddWord(r, k.k1) }

  lemma LookedBit(r: bv32, k: D.Subkey, i: nat, j: nat)
    requires i < 8 && j < 6
    ensures Bit(Looked(r, k, i), 8 * (i / 2) + 3 + j) == Group(BitsOf(r), KeyBits(k), i)[j]
  {
    hide Bit, Group, KeyBits, BitsOf, EvenWord, OddWord;
    var n := 8 * (i / 2) + 3 + j;
    GroupBit(r, k, i, j);
    ETable(i, j);
    if i % 2 == 1 { EvenBit(r, k.k0, n); } else { OddBit(r, k.k1, n); }
  }

  /** The entry that the program takes from box `i`. */
  lemma LookedSix(r: bv32, k: D.Subkey, i: nat)
    requires i < 8
    ensures SixAt(Looked(r, k, i), 24 - 8 * (i / 2)) == Number(Group(BitsOf(r), KeyBits(k), i))
  {
    hide Bit, Group, KeyBits, BitsOf, Looked, Number;
    var down := 24 - 8 * (i / 2);
    var g := Group(BitsOf(r), KeyBits(k), i);
    forall j | 0 <= j < 6 ensures Bit(Looked(r, k, i), 27 - down + j) == g[j] { LookedBit(r, k, i, j); }
    assert seq(6, j requires 0 <= j < 6 => Bit(Looked(r, k, i), 27 - down + j)) == g;
  }

  function Entry(boxes: D.Boxes, r: bv32, k: D.Subkey, i: nat): bv32
    requires D.Complete(boxes) && i < 8
  {
    boxes[i][Number(Group(BitsOf(r), KeyBits(k), i))]
  }

  /** What a round mixes in: from each box the entry that the standard's group of six bits selects. */
  lemma RoundValueIs(boxes: D.Boxes, r: bv32, k: D.Subkey)
    requires D.Complete(boxes)
    ensures
      D.RoundValue(boxes, k, D.Left(r)) ==
        D.Xor8(Entry(boxes, r, k, 7), Entry(boxes, r, k, 5), Entry(boxes, r, k, 3), Entry(boxes, r, k, 1),
          Entry(boxes, r, k, 6), Entry(boxes, r, k, 4), Entry(boxes, r, k, 2), Entry(boxes, r, k, 0))
  {
    hide D.Six, SixAt, Number, Group, KeyBits, BitsOf, D.Left, D.Mix, D.Turned4, D.Xor8;
    var t, u := EvenWord(r, k.k0), OddWord(r, k.k1);
    LookedSix(r, k, 0);
    LookedSix(r, k, 1);
    LookedSix(r, k, 2);
    LookedSix(r, k, 3);
    LookedSix(r, k, 4);
    LookedSix(r, k, 5);
    LookedSix(r, k, 6);
    LookedSix(r, k, 7);
    Six0(t);
    Six8(t);
    Six16(t);
    Six24(t);
    Six0(u);
    Six8(u);
    Six16(u);
    Six24(u);
  }

  /** Where output bit `n` of a round comes from, among the 32 bits that the S-boxes give. */
  function Source(n: nat): (m: nat)
    requires 1 <= n <= 32
    ensures m < 32
  {
    P[(n - 1) / 4][(n - 1) % 4] - 1
  }

  /** Bit `n` of what the entry of box `i` for the six bits `b` gives: the digits of the number in
      the S-box where P puts them, and nothing elsewhere. */
  predicate InBox(s: SBoxes, i: nat, b: Bits, n: nat)
    requires AreSBoxes(s) && i < 8 && |b| == 6 && 1 <= n <= 32
  {
    Source(n) / 4 == i && Digit(s[i][Place(b)], Source(n) % 4)
  }

  /** The boxes of the program are the S-boxes with P applied, rotated like the halves. */
  ghost predicate Holds(boxes: D.Boxes, s: SBoxes) {
    && D.Complete(boxes) && AreSBoxes(s)
    && forall i, b: Bits, n :: 0 <= i < 8 && |b| == 6 && 1 <= n <= 32 ==>
         Bit(D.Right(boxes[i][Number(b)]), n) == InBox(s, i, b, n)
  }

  lemma RightShift(a: bv32, k: bv6)
    requires k < 31
    ensures (((a << 31) | (a >> 1)) >> k) & 1 == (a >> (k + 1)) & 1
  {
  }

  lemma RightBit(a: bv32, n: nat)
    requires 1 <= n <= 32
    ensures Bit(D.Right(a), n) == Bit(a, if n == 1 then 32 else n - 1)
  {
    hide Shift;
    ShiftEnds();
    if n > 1 {
      ShiftMoves(n - 1);
      ShiftMoves(n);
      RightShift(a, Shift(n));
    }
  }

  lemma Xor8Bit(a: bv32, b: bv32, c: bv32, d: bv32, e: bv32, f: bv32, g: bv32, h: bv32, n: nat)
    requires 1 <= n <= 32
    ensures Bit(D.Xor8(a, b, c, d, e, f, g, h), n) ==
      (((((((Bit(a, n) != Bit(b, n)) != Bit(c, n)) != Bit(d, n)) != Bit(e, n)) != Bit(f, n)) != Bit(g, n)) != Bit(h, n))
  {
    hide Bit, D.Mix;
    var ab := D.Mix(a, b);
    var ac := D.Mix(ab, c);
    var ad := D.Mix(ac, d);
    var ae := D.Mix(ad, e);
    var af := D.Mix(ae, f);
    var ag := D.Mix(af, g);
    MixBit(a, b, n);
    MixBit(ab, c, n);
    MixBit(ac, d, n);
    MixBit(ad, e, n);
    MixBit(ae, f, n);
    MixBit(af, g, n);
    MixBit(ag, h, n);
  }

  lemma EntryBit(boxes: D.Boxes, s: SBoxes, r: bv32, k: D.Subkey, i: nat, n: nat)
    requires Holds(boxes, s) && i < 8 && 1 <= n <= 32
    ensures
      Bit(Entry(boxes, r, k, i), if n == 1 then 32 else n - 1) == InBox(s, i, Group(BitsOf(r), KeyBits(k), i), n)
  {
    hide Bit, Number, Group, KeyBits, BitsOf, D.Right, InBox;
    RightBit(Entry(boxes, r, k, i), n);
  }

  lemma FBit(s: SBoxes, r: Bits, k: Bits, n: nat)
    requires AreSBoxes(s) && |r| == 32 && |k| == 48 && 1 <= n <= 32
    ensures
      var i := Source(n) / 4;
      F(s, r, k)[n - 1] == InBox(s, i, Group(r, k, i), n)
  {
    hide Place, Digit;
    assert HasWidth(P, 4);
    var b := Substituted(s, Xor(Pick(E, 6, r), k));
    PickP(b, n);
  }

  lemma PickP(b: Bits, n: nat)
    requires |b| == 32 && 1 <= n <= 32
    ensures HasWidth(P, 4) && Pick(P, 4, b)[n - 1] == b[Source(n)]
  {
  }

  /** A round of the program is a round of the standard. */
  lemma RoundBit(boxes: D.Boxes, s: SBoxes, r: bv32, k: D.Subkey, n: nat)
    requires Holds(boxes, s) && 1 <= n <= 32
    ensures Bit(D.Right(D.RoundValue(boxes, k, D.Left(r))), n) == F(s, BitsOf(r), KeyBits(k))[n - 1]
  {
    hide Bit, Entry, Group, KeyBits, BitsOf, D.Right, D.RoundValue, D.Left, F, Source, Digit, Place, Holds;
    assert D.Complete(boxes) && AreSBoxes(s) by { HoldsComplete(boxes, s); }
    var m := if n == 1 then 32 else n - 1;
    RoundValueIs(boxes, r, k);
    RightBit(D.RoundValue(boxes, k, D.Left(r)), n);
    Xor8Bit(Entry(boxes, r, k, 7), Entry(boxes, r, k, 5), Entry(boxes, r, k, 3), Entry(boxes, r, k, 1),
      Entry(boxes, r, k, 6), Entry(boxes, r, k, 4), Entry(boxes, r, k, 2), Entry(boxes, r, k, 0), m);
    EntryBit(boxes, s, r, k, 0, n);
    EntryBit(boxes, s, r, k, 1, n);
    EntryBit(boxes, s, r, k, 2, n);
    EntryBit(boxes, s, r, k, 3, n);
    EntryBit(boxes, s, r, k, 4, n);
    EntryBit(boxes, s, r, k, 5, n);
    EntryBit(boxes, s, r, k, 6, n);
    EntryBit(boxes, s, r, k, 7, n);
    FBit(s, BitsOf(r), KeyBits(k), n);
  }

  lemma HoldsComplete(boxes: D.Boxes, s: SBoxes)
    requires Holds(boxes, s)
    ensures D.Complete(boxes) && AreSBoxes(s)
  {
  }

  lemma RoundConforms(boxes: D.Boxes, s: SBoxes, r: bv32, k: D.Subkey)
    requires Holds(boxes, s)
    ensures BitsOf(D.Right(D.RoundValue(boxes, k, D.Left(r)))) == F(s, BitsOf(r), KeyBits(k))
  {
    hide Bit, KeyBits, D.Right, D.RoundValue, D.Left, F;
    var v := D.Right(D.RoundValue(boxes, k, D.Left(r)));
    forall i | 0 <= i < 32 ensures BitsOf(v)[i] == F(s, BitsOf(r), KeyBits(k))[i] { RoundBit(boxes, s, r, k, i + 1); }
  }

  lemma RightMix(a: bv32, b: bv32)
    ensures D.Right(D.Mix(a, b)) == D.Mix(D.Right(a), D.Right(b))
  {
  }

  lemma MixBits(a: bv32, b: bv32)
    ensures BitsOf(D.Mix(a, b)) == Xor(BitsOf(a), BitsOf(b))
  {
    XorBits(a, b);
  }

  // All rounds.

  function HalvesOf(w: D.Words): Halves { Halves(BitsOf(D.Right(w.x)), BitsOf(D.Right(w.y))) }

  function AllKeyBits(sk: seq<D.Subkey>): (keys: seq<Bits>)
    ensures |keys| == |sk| && AreKeys(keys)
  {
    seq(|sk|, i requires 0 <= i < |sk| => KeyBits(sk[i]))
  }

  /** The rounds of the program are those of the standard. */
  lemma {:induction false} RoundsConform(boxes: D.Boxes, s: SBoxes, sk: seq<D.Subkey>, w: D.Words)
    requires Holds(boxes, s)
    ensures HalvesOf(D.Rounds(boxes, sk, w)) == Rounds(s, AllKeyBits(sk), HalvesOf(w))
    decreases |sk|
  {
    hide Bit, BitsOf, KeyBits, D.Right, D.RoundValue, D.Left, D.Mix, F, Xor, Holds;
    HoldsComplete(boxes, s);
    if sk != [] {
      var v := D.RoundValue(boxes, sk[0], w.y);
      var r := D.Right(w.y);
      D.RotationsUndo(w.y);
      RoundConforms(boxes, s, r, sk[0]);
      RightMix(w.x, v);
      MixBits(D.Right(w.x), D.Right(v));
      assert AllKeyBits(sk)[1..] == AllKeyBits(sk[1..]);
      RoundsConform(boxes, s, sk[1..], D.Words(w.y, D.Mix(w.x, v)));
    }
  }

  function Back(i: nat): (n: nat)
    requires i < 64
    ensures 1 <= n <= 64
  {
    var row, column := i / 8, i % 8;
    (if column % 2 == 0 then 40 + 4 * column else 4 + 4 * column) - row
  }

  lemma InverseTable(i: nat)
    requires i < 64
    ensures IPInverse[i / 8][i % 8] == Back(i)
  {
  }

  /** The table of the final permutation takes back the initial one. */
  lemma FromBack(i: nat)
    requires i < 64
    ensures From(Back(i)) == i + 1
  {
  }

  lemma PickInverse(b: Bits)
    requires |b| == 64
    ensures HasWidth(IP, 8) && HasWidth(IPInverse, 8) && Pick(IPInverse, 8, Pick(IP, 8, b)) == b
  {
    hide From, Back;
    var c := Pick(IP, 8, b);
    forall i | 0 <= i < 64 ensures Pick(IPInverse, 8, c)[i] == b[i] {
      InverseTable(i);
      PickIP(b, Back(i) - 1);
      FromBack(i);
    }
  }

  /** The cipher of the program on two words is the cipher of the standard. */
  lemma CipherConforms(boxes: D.Boxes, s: SBoxes, sk: seq<D.Subkey>, w: D.Words)
    requires Holds(boxes, s)
    ensures
      D.Complete(boxes) && AreSBoxes(s) &&
      BlockOf(D.FP(D.Flip(D.Rounds(boxes, sk, D.IP(w))))) == Encipher(s, AllKeyBits(sk), BlockOf(w))
  {
    hide Bit, BitsOf, AllKeyBits, D.Right, D.Rounds, Rounds, Pick, D.IP, D.FP, Holds;
    HoldsComplete(boxes, s);
    var v := D.Rounds(boxes, sk, D.IP(w));
    var out := D.FP(D.Flip(v));
    InitialConforms(w);
    var start := Pick(IP, 8, BlockOf(w));
    assert start[..32] == BitsOf(D.Right(D.IP(w).x)) && start[32..] == BitsOf(D.Right(D.IP(w).y));
    RoundsConform(boxes, s, sk, D.IP(w));
    D.InitialUndoesFinal(D.Flip(v));
    InitialConforms(out);
    PickInverse(BlockOf(out));
  }

  /** Every bit of a round key counts: keys that differ in a group read different entries. */
  lemma KeyMatters(r: bv32, k: D.Subkey, l: D.Subkey, m: nat)
    requires m < 48 && KeyBits(k)[m] != KeyBits(l)[m]
    ensures Number(Group(BitsOf(r), KeyBits(k), m / 6)) != Number(Group(BitsOf(r), KeyBits(l), m / 6))
  {
    hide Bit, KeyBits, Pick, BitsOf;
    var a, b := Group(BitsOf(r), KeyBits(k), m / 6), Group(BitsOf(r), KeyBits(l), m / 6);
    assert a[m % 6] != b[m % 6];
    NumberOnce(a, b, m % 6);
  }

  lemma NumberOnce(a: Bits, b: Bits, j: nat)
    requires |a| == 6 && |b| == 6 && j < 6 && a[j] != b[j]
    ensures Number(a) != Number(b)
  {
    assert j == 0 || j == 1 || j == 2 || j == 3 || j == 4 || j == 5;
  }
}
