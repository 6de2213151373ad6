/** The Data Encryption Standard as FIPS PUB 46-3 states it, on lists of bits: tables of bit
    numbers, counted from 1 at the left. The eight S-boxes are a parameter. */
module DesStandard {

  type Bits = seq<bool>

  /** Eight rows of bit numbers. */
  type Table = seq<seq<nat>>

  /** S-box by S-box, row by row: four rows of sixteen numbers below 16. */
  type SBoxes = seq<seq<nat>>

  predicate AreSBoxes(s: SBoxes) {
    |s| == 8 && forall i :: 0 <= i < 8 ==> |s[i]| == 64 && forall j :: 0 <= j < 64 ==> s[i][j] < 16
  }

  const IP: Table := [
    [58, 50, 42, 34, 26, 18, 10, 2], [60, 52, 44, 36, 28, 20, 12, 4],
    [62, 54, 46, 38, 30, 22, 14, 6], [64, 56, 48, 40, 32, 24, 16, 8],
    [57, 49, 41, 33, 25, 17, 9, 1], [59, 51, 43, 35, 27, 19, 11, 3],
    [61, 53, 45, 37, 29, 21, 13, 5], [63, 55, 47, 39, 31, 23, 15, 7]]

  const IPInverse: Table := [
    [40, 8, 48, 16, 56, 24, 64, 32], [39, 7, 47, 15, 55, 23, 63, 31],
    [38, 6, 46, 14, 54, 22, 62, 30], [37, 5, 45, 13, 53, 21, 61, 29],
    [36, 4, 44, 12, 52, 20, 60, 28], [35, 3, 43, 11, 51, 19, 59, 27],
    [34, 2, 42, 10, 50, 18, 58, 26], [33, 1, 41, 9, 49, 17, 57, 25]]

  const E: Table := [
    [32, 1, 2, 3, 4, 5], [4, 5, 6, 7, 8, 9],
    [8, 9, 10, 11, 12, 13], [12, 13, 14, 15, 16, 17],
    [16, 17, 18, 19, 20, 21], [20, 21, 22, 23, 24, 25],
    [24, 25, 26, 27, 28, 29], [28, 29, 30, 31, 32, 1]]

  const P: Table := [
    [16, 7, 20, 21], [29, 12, 28, 17], [1, 15, 23, 26], [5, 18, 31, 10],
    [2, 8, 24, 14], [32, 27, 3, 9], [19, 13, 30, 6], [22, 11, 4, 25]]

  const PC1: Table := [
    [57, 49, 41, 33, 25, 17, 9], [1, 58, 50, 42, 34, 26, 18],
    [10, 2, 59, 51, 43, 35, 27], [19, 11, 3, 60, 52, 44, 36],
    [63, 55, 47, 39, 31, 23, 15], [7, 62, 54, 46, 38, 30, 22],
    [14, 6, 61, 53, 45, 37, 29], [21, 13, 5, 28, 20, 12, 4]]

  const PC2: Table := [
    [14, 17, 11, 24, 1, 5], [3, 28, 15, 6, 21, 10],
    [23, 19, 12, 4, 26, 8], [16, 7, 27, 20, 13, 2],
    [41, 52, 31, 37, 47, 55], [30, 40, 51, 45, 33, 48],
    [44, 49, 39, 56, 34, 53], [46, 42, 50, 36, 29, 32]]

  const Shifts: seq<nat> := [1, 1, 2, 2, 2, 2, 2, 2, 1, 2, 2, 2, 2, 2, 2, 1]

  predicate HasWidth(t: Table, w: nat) { |t| == 8 && forall i :: 0 <= i < 8 ==> |t[i]| == w }

  function At(b: Bits, n: nat): bool { if 1 <= n <= |b| then b[n - 1] else false }

  /** The bits that a table with rows of `w` numbers selects, in its order. */
  function Pick(t: Table, w: nat, b: Bits): (r: Bits)
    requires w > 0 && HasWidth(t, w)
    ensures |r| == 8 * w
  {
    seq(8 * w, i requires 0 <= i < 8 * w => At(b, t[Row(i, w)][i % w]))
  }

  function Row(i: nat, w: nat): (r: nat)
    requires w > 0 && i < 8 * w
    ensures r < 8
  {
    RowBelow(i, i / w, w);
    i / w
  }

  lemma RowBelow(i: nat, r: nat, w: nat)
    requires w > 0 && i < 8 * w && r * w <= i
    ensures r < 8
  {
    if r >= 8 { Grows(8, r, w); }
  }

  lemma Grows(a: nat, b: nat, w: nat)
    requires a <= b
    ensures a * w <= b * w
  {
  }

  function Xor(a: Bits, b: Bits): (r: Bits)
    requires |a| == |b|
    ensures |r| == |a|
  {
    seq(|a|, i requires 0 <= i < |a| => a[i] != b[i])
  }

  function N(b: bool): (n: nat)
    ensures n < 2
  {
    if b then 1 else 0
  }

  /** Bit `k` of a number below 16, from the left. */
  predicate Digit(v: nat, k: nat)
    requires k < 4
  {
    v / (if k == 0 then 8 else if k == 1 then 4 else if k == 2 then 2 else 1) % 2 == 1
  }

  /** The place of six bits in an S-box: the outer two are the row. */
  function Place(b: Bits): (n: nat)
    requires |b| == 6
    ensures n < 64
  {
    16 * (2 * N(b[0]) + N(b[5])) + 8 * N(b[1]) + 4 * N(b[2]) + 2 * N(b[3]) + N(b[4])
  }

  /** Eight groups of six bits, each replaced by the four bits of an entry of its S-box. */
  function Substituted(s: SBoxes, b: Bits): (r: Bits)
    requires AreSBoxes(s) && |b| == 48
    ensures |r| == 32
  {
    seq(32, m requires 0 <= m < 32 => Digit(s[m / 4][Place(b[6 * (m / 4)..6 * (m / 4) + 6])], m % 4))
  }

  /** The cipher function of a round. */
  function F(s: SBoxes, r: Bits, k: Bits): (f: Bits)
    requires AreSBoxes(s) && |r| == 32 && |k| == 48
    ensures |f| == 32
  {
    Pick(P, 4, Substituted(s, Xor(Pick(E, 6, r), k)))
  }

  datatype Halves = Halves(l: Bits, r: Bits)

  predicate AreKeys(keys: seq<Bits>) { forall i :: 0 <= i < |keys| ==> |keys[i]| == 48 }

  function Rounds(s: SBoxes, keys: seq<Bits>, h: Halves): (g: Halves)
    requires AreSBoxes(s) && AreKeys(keys) && |h.l| == |h.r| == 32
    ensures |g.l| == |g.r| == 32
  {
    if keys == [] then h else Rounds(s, keys[1..], Halves(h.r, Xor(h.l, F(s, h.r, keys[0]))))
  }

  /** Enciphering a block under round keys. */
  function Encipher(s: SBoxes, keys: seq<Bits>, block: Bits): (r: Bits)
    requires AreSBoxes(s) && AreKeys(keys) && |block| == 64
    ensures |r| == 64
  {
    var start := Pick(IP, 8, block);
    var h := Rounds(s, keys, Halves(start[..32], start[32..]));
    Pick(IPInverse, 8, h.r + h.l)
  }

  function Rotated(b: Bits, n: nat): (r: Bits)
    requires n <= |b|
    ensures |r| == |b|
  {
    b[n..] + b[..n]
  }

  /** The two halves of the key after `n` rounds of shifts. */
  function Shifted(key: Bits, n: nat): (h: Halves)
    requires n <= 16
    ensures |h.l| == |h.r| == 28
  {
    if n == 0 then Halves(Pick(PC1, 7, key)[..28], Pick(PC1, 7, key)[28..])
    else
      var h := Shifted(key, n - 1);
      Halves(Rotated(h.l, Shifts[n - 1]), Rotated(h.r, Shifts[n - 1]))
  }

  /** The key of round `n`, counted from 1. */
  function RoundKey(key: Bits, n: nat): (k: Bits)
    requires 1 <= n <= 16
    ensures |k| == 48
  {
    var h := Shifted(key, n);
    Pick(PC2, 6, h.l + h.r)
  }
}
