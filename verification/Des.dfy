/** The DES block cipher as a Feistel network on 32-bit words, its key schedule, and the padding of
    texts. The tables of the round function are a parameter here; DesBoxes has those of the program. */
module Des {
  import opened Sequences
  import opened Wrappers

  type Byte = bv8

  /** The two words of one round key. */
  datatype Subkey = Subkey(k0: bv32, k1: bv32)

  /** The eight tables of the round function, SB1 to SB8. */
  type Boxes = seq<seq<bv32>>

  predicate Complete(boxes: Boxes) { |boxes| == 8 && forall i :: 0 <= i < 8 ==> |boxes[i]| == 64 }

  datatype Words = Words(x: bv32, y: bv32)

  // Permutations.

  function Mix(a: bv32, t: bv32): bv32 { a ^ t }

  function Differ4(a: bv32, b: bv32): bv32 { ((a >> 4) ^ b) & 0x0F0F_0F0F }

  function MixHigh4(a: bv32, t: bv32): bv32 { a ^ (t << 4) }

  /** Exchanges the bits in which `a`, moved down by 4, and `b` differ under the mask. */
  function Swap4(a: bv32, b: bv32): Words {
    var t := Differ4(a, b);
    Words(MixHigh4(a, t), Mix(b, t))
  }

  function Differ16(a: bv32, b: bv32): bv32 { ((a >> 16) ^ b) & 0x0000_FFFF }

  function MixHigh16(a: bv32, t: bv32): bv32 { a ^ (t << 16) }

  /** Exchanges the bits in which `a`, moved down by 16, and `b` differ under the mask. */
  function Swap16(a: bv32, b: bv32): Words {
    var t := Differ16(a, b);
    Words(MixHigh16(a, t), Mix(b, t))
  }

  function Differ2(a: bv32, b: bv32): bv32 { ((a >> 2) ^ b) & 0x3333_3333 }

  function MixHigh2(a: bv32, t: bv32): bv32 { a ^ (t << 2) }

  /** Exchanges the bits in which `a`, moved down by 2, and `b` differ under the mask. */
  function Swap2(a: bv32, b: bv32): Words {
    var t := Differ2(a, b);
    Words(MixHigh2(a, t), Mix(b, t))
  }

  function Differ8(a: bv32, b: bv32): bv32 { ((a >> 8) ^ b) & 0x00FF_00FF }

  function MixHigh8(a: bv32, t: bv32): bv32 { a ^ (t << 8) }

  /** Exchanges the bits in which `a`, moved down by 8, and `b` differ under the mask. */
  function Swap8(a: bv32, b: bv32): Words {
    var t := Differ8(a, b);
    Words(MixHigh8(a, t), Mix(b, t))
  }

  function DifferOdd(a: bv32, b: bv32): bv32 { (a ^ b) & 0xAAAA_AAAA }

  function SwapOdd(a: bv32, b: bv32): Words {
    var t := DifferOdd(a, b);
    Words(Mix(a, t), Mix(b, t))
  }

  function Left(a: bv32): bv32 { (a << 1) | (a >> 31) }

  function Right(a: bv32): bv32 { (a << 31) | (a >> 1) }

  /** The initial permutation. */
  function IP(w: Words): Words {
    var w1 := Swap4(w.x, w.y);
    var w2 := Swap16(w1.x, w1.y);
    var w3 := Swap2(w2.y, w2.x);
    var w4 := Swap8(w3.x, w3.y);
    var w5 := SwapOdd(w4.y, Left(w4.x));
    Words(Left(w5.x), w5.y)
  }

  /** The final permutation. */
  function FP(w: Words): Words {
    var w1 := SwapOdd(Right(w.x), w.y);
    var w2 := Swap8(Right(w1.y), w1.x);
    var w3 := Swap2(w2.x, w2.y);
    var w4 := Swap16(w3.y, w3.x);
    Swap4(w4.x, w4.y)
  }

  lemma MixTwice(a: bv32, t: bv32)
    ensures Mix(Mix(a, t), t) == a
  {
  }

  lemma Differ4Masked(a: bv32, b: bv32)
    ensures Differ4(a, b) & 0x0F0F_0F0F == Differ4(a, b)
  {
  }

  lemma Differ4Same(a: bv32, b: bv32, t: bv32)
    requires t & 0x0F0F_0F0F == t
    ensures Differ4(MixHigh4(a, t), Mix(b, t)) == Differ4(a, b) && MixHigh4(MixHigh4(a, t), t) == a
  {
  }

  lemma Swap4Undoes(a: bv32, b: bv32)
    ensures Swap4(Swap4(a, b).x, Swap4(a, b).y) == Words(a, b)
  {
    hide Differ4, MixHigh4, Mix;
    var t := Differ4(a, b);
    Differ4Masked(a, b);
    Differ4Same(a, b, t);
    MixTwice(b, t);
  }

  lemma Differ16Masked(a: bv32, b: bv32)
    ensures Differ16(a, b) & 0x0000_FFFF == Differ16(a, b)
  {
  }

  lemma Differ16Same(a: bv32, b: bv32, t: bv32)
    requires t & 0x0000_FFFF == t
    ensures Differ16(MixHigh16(a, t), Mix(b, t)) == Differ16(a, b) && MixHigh16(MixHigh16(a, t), t) == a
  {
  }

  lemma Swap16Undoes(a: bv32, b: bv32)
    ensures Swap16(Swap16(a, b).x, Swap16(a, b).y) == Words(a, b)
  {
    hide Differ16, MixHigh16, Mix;
    var t := Differ16(a, b);
    Differ16Masked(a, b);
    Differ16Same(a, b, t);
    MixTwice(b, t);
  }

  lemma Differ2Masked(a: bv32, b: bv32)
    ensures Differ2(a, b) & 0x3333_3333 == Differ2(a, b)
  {
  }

  lemma Differ2Same(a: bv32, b: bv32, t: bv32)
    requires t & 0x3333_3333 == t
    ensures Differ2(MixHigh2(a, t), Mix(b, t)) == Differ2(a, b) && MixHigh2(MixHigh2(a, t), t) == a
  {
  }

  lemma Swap2Undoes(a: bv32, b: bv32)
    ensures Swap2(Swap2(a, b).x, Swap2(a, b).y) == Words(a, b)
  {
    hide Differ2, MixHigh2, Mix;
    var t := Differ2(a, b);
    Differ2Masked(a, b);
    Differ2Same(a, b, t);
    MixTwice(b, t);
  }

  lemma Differ8Masked(a: bv32, b: bv32)
    ensures Differ8(a, b) & 0x00FF_00FF == Differ8(a, b)
  {
  }

  lemma Differ8Same(a: bv32, b: bv32, t: bv32)
    requires t & 0x00FF_00FF == t
    ensures Differ8(MixHigh8(a, t), Mix(b, t)) == Differ8(a, b) && MixHigh8(MixHigh8(a, t), t) == a
  {
  }

  lemma Swap8Undoes(a: bv32, b: bv32)
    ensures Swap8(Swap8(a, b).x, Swap8(a, b).y) == Words(a, b)
  {
    hide Differ8, MixHigh8, Mix;
    var t := Differ8(a, b);
    Differ8Masked(a, b);
    Differ8Same(a, b, t);
    MixTwice(b, t);
  }

  lemma DifferOddSame(a: bv32, b: bv32, t: bv32)
    ensures DifferOdd(Mix(a, t), Mix(b, t)) == DifferOdd(a, b)
  {
  }

  lemma SwapOddUndoes(a: bv32, b: bv32)
    ensures SwapOdd(SwapOdd(a, b).x, SwapOdd(a, b).y) == Words(a, b)
  {
    hide DifferOdd, Mix;
    var t := DifferOdd(a, b);
    DifferOddSame(a, b, t);
    MixTwice(a, t);
    MixTwice(b, t);
  }

  lemma RotationsUndo(a: bv32)
    ensures Right(Left(a)) == a && Left(Right(a)) == a
  {
  }

  /** The final permutation undoes the initial one. */
  lemma FinalUndoesInitial(w: Words)
    ensures FP(IP(w)) == w
  {
    hide Swap4, Swap16, Swap2, Swap8, SwapOdd, Left, Right;
    var w1 := Swap4(w.x, w.y);
    var w2 := Swap16(w1.x, w1.y);
    var w3 := Swap2(w2.y, w2.x);
    var w4 := Swap8(w3.x, w3.y);
    Swap4Undoes(w.x, w.y);
    Swap16Undoes(w1.x, w1.y);
    Swap2Undoes(w2.y, w2.x);
    Swap8Undoes(w3.x, w3.y);
    SwapOddUndoes(w4.y, Left(w4.x));
    RotationsUndo(SwapOdd(w4.y, Left(w4.x)).x);
    RotationsUndo(w4.x);
  }

  /** And the other way round. */
  lemma InitialUndoesFinal(w: Words)
    ensures IP(FP(w)) == w
  {
    hide Swap4, Swap16, Swap2, Swap8, SwapOdd, Left, Right;
    var w1 := SwapOdd(Right(w.x), w.y);
    var w2 := Swap8(Right(w1.y), w1.x);
    var w3 := Swap2(w2.x, w2.y);
    var w4 := Swap16(w3.y, w3.x);
    RotationsUndo(w.x);
    SwapOddUndoes(Right(w.x), w.y);
    RotationsUndo(w1.y);
    Swap8Undoes(Right(w1.y), w1.x);
    Swap2Undoes(w2.x, w2.y);
    Swap16Undoes(w3.y, w3.x);
    Swap4Undoes(w4.x, w4.y);
  }

  // Rounds.

  /** The six bits of a word that end `down` bits before its end. */
  function Six(t: bv32, down: bv6): (r: nat)
    requires down <= 24
    ensures r < 64
  {
    (((t >> down) & 0x3F) as bv6) as nat
  }

  function Turned4(x: bv32): bv32 { (x << 28) | (x >> 4) }

  function Xor8(a: bv32, b: bv32, c: bv32, d: bv32, e: bv32, f: bv32, g: bv32, h: bv32): bv32 {
    Mix(Mix(Mix(Mix(Mix(Mix(Mix(a, b), c), d), e), f), g), h)
  }

  /** What a round mixes into one word, from the other one and a round key. */
  function RoundValue(boxes: Boxes, k: Subkey, x: bv32): bv32
    requires Complete(boxes)
  {
    var t := Mix(k.k0, x);
    var u := Mix(k.k1, Turned4(x));
    Xor8(boxes[7][Six(t, 0)], boxes[5][Six(t, 8)], boxes[3][Six(t, 16)], boxes[1][Six(t, 24)],
      boxes[6][Six(u, 0)], boxes[4][Six(u, 8)], boxes[2][Six(u, 16)], boxes[0][Six(u, 24)])
  }

  /** A run of rounds: the words change places in each. */
  function Rounds(boxes: Boxes, sk: seq<Subkey>, w: Words): Words
    requires Complete(boxes)
  {
    if sk == [] then w
    else Rounds(boxes, sk[1..], Words(w.y, Mix(w.x, RoundValue(boxes, sk[0], w.y))))
  }

  function Reversed(sk: seq<Subkey>): (r: seq<Subkey>)
    ensures |r| == |sk|
  {
    if sk == [] then [] else Reversed(sk[1..]) + [sk[0]]
  }

  function Flip(w: Words): Words { Words(w.y, w.x) }

  lemma {:induction false} RoundsConcat(boxes: Boxes, a: seq<Subkey>, b: seq<Subkey>, w: Words)
    requires Complete(boxes)
    ensures Rounds(boxes, a + b, w) == Rounds(boxes, b, Rounds(boxes, a, w))
    decreases a
  {
    hide Mix, RoundValue;
    if a == [] {
      assert a + b == b;
    } else {
      assert (a + b)[0] == a[0] && (a + b)[1..] == a[1..] + b;
      RoundsConcat(boxes, a[1..], b, Words(w.y, Mix(w.x, RoundValue(boxes, a[0], w.y))));
    }
  }

  /** The reversed keys undo the rounds, on exchanged words. */
  lemma {:induction false} RoundsUndo(boxes: Boxes, sk: seq<Subkey>, w: Words)
    requires Complete(boxes)
    ensures Rounds(boxes, Reversed(sk), Flip(Rounds(boxes, sk, w))) == Flip(w)
    decreases sk
  {
    hide Mix, RoundValue;
    if sk != [] {
      var v := RoundValue(boxes, sk[0], w.y);
      var w1 := Words(w.y, Mix(w.x, v));
      RoundsUndo(boxes, sk[1..], w1);
      RoundsConcat(boxes, Reversed(sk[1..]), [sk[0]], Flip(Rounds(boxes, sk, w)));
      MixTwice(w.x, v);
      assert [sk[0]][1..] == [];
    }
  }

  // Blocks.

  function GetWord(b: seq<Byte>, i: nat): bv32
    requires i + 4 <= |b|
  {
    (b[i] as bv32 << 24) | (b[i + 1] as bv32 << 16) | (b[i + 2] as bv32 << 8) | (b[i + 3] as bv32)
  }

  function PutWord(n: bv32): (r: seq<Byte>)
    ensures |r| == 4
  {
    [((n >> 24) & 0xFF) as bv8, ((n >> 16) & 0xFF) as bv8, ((n >> 8) & 0xFF) as bv8, (n & 0xFF) as bv8]
  }

  function GetBlock(b: seq<Byte>): Words
    requires |b| == 8
  {
    Words(GetWord(b, 0), GetWord(b, 4))
  }

  function PutBlock(w: Words): (r: seq<Byte>)
    ensures |r| == 8
  {
    PutWord(w.x) + PutWord(w.y)
  }

  lemma WordRoundTrip(n: bv32, rest: seq<Byte>)
    ensures GetWord(PutWord(n) + rest, 0) == n
  {
  }

  lemma BytesOfWord(b0: bv8, b1: bv8, b2: bv8, b3: bv8)
    ensures PutWord(GetWord([b0, b1, b2, b3], 0)) == [b0, b1, b2, b3]
  {
  }

  lemma BlockRoundTrip(w: Words)
    ensures GetBlock(PutBlock(w)) == w
  {
    hide PutWord;
    var b := PutBlock(w);
    WordRoundTrip(w.x, PutWord(w.y));
    WordRoundTrip(w.y, []);
    assert PutWord(w.y) + [] == PutWord(w.y);
    assert GetWord(b, 4) == GetWord(PutWord(w.y), 0);
  }

  lemma SameWord(b: seq<Byte>, i: nat)
    requires i + 4 <= |b|
    ensures GetWord(b, i) == GetWord([b[i], b[i + 1], b[i + 2], b[i + 3]], 0)
  {
  }

  lemma BytesRoundTrip(b: seq<Byte>)
    requires |b| == 8
    ensures PutBlock(GetBlock(b)) == b
  {
    hide PutWord, GetWord;
    BytesOfWord(b[0], b[1], b[2], b[3]);
    BytesOfWord(b[4], b[5], b[6], b[7]);
    SameWord(b, 0);
    SameWord(b, 4);
    EightBytes(b);
  }

  lemma EightBytes(b: seq<Byte>)
    requires |b| == 8
    ensures b == [b[0], b[1], b[2], b[3]] + [b[4], b[5], b[6], b[7]]
  {
  }

  /** One block under sixteen round keys. */
  function Crypt(boxes: Boxes, sk: seq<Subkey>, b: seq<Byte>): (r: seq<Byte>)
    requires Complete(boxes) && |b| == 8
    ensures |r| == 8
  {
    PutBlock(FP(Flip(Rounds(boxes, sk, IP(GetBlock(b))))))
  }

  /** A block comes back under the reversed keys. */
  lemma CryptUndoes(boxes: Boxes, sk: seq<Subkey>, b: seq<Byte>)
    requires Complete(boxes) && |b| == 8
    ensures Crypt(boxes, Reversed(sk), Crypt(boxes, sk, b)) == b
  {
    hide IP, FP, GetBlock, PutBlock, Rounds, Reversed;
    var w := IP(GetBlock(b));
    var u := Flip(Rounds(boxes, sk, w));
    BlockRoundTrip(FP(u));
    InitialUndoesFinal(u);
    RoundsUndo(boxes, sk, w);
    FinalUndoesInitial(GetBlock(b));
    BytesRoundTrip(b);
  }

  // Texts.

  function CryptAll(boxes: Boxes, sk: seq<Subkey>, text: seq<Byte>): (r: seq<Byte>)
    requires Complete(boxes) && |text| % 8 == 0
    ensures |r| == |text|
  {
    if text == [] then [] else Crypt(boxes, sk, text[..8]) + CryptAll(boxes, sk, text[8..])
  }

  lemma {:induction false} CryptAllUndoes(boxes: Boxes, sk: seq<Subkey>, text: seq<Byte>)
    requires Complete(boxes) && |text| % 8 == 0
    ensures CryptAll(boxes, Reversed(sk), CryptAll(boxes, sk, text)) == text
    decreases |text|
  {
    hide Crypt, Reversed;
    if text != [] {
      var c := CryptAll(boxes, sk, text);
      assert c[..8] == Crypt(boxes, sk, text[..8]) && c[8..] == CryptAll(boxes, sk, text[8..]);
      CryptUndoes(boxes, sk, text[..8]);
      CryptAllUndoes(boxes, sk, text[8..]);
    }
  }

  lemma {:induction false} CryptAllSnoc(boxes: Boxes, sk: seq<Subkey>, text: seq<Byte>, block: seq<Byte>)
    requires Complete(boxes) && |text| % 8 == 0 && |block| == 8
    ensures CryptAll(boxes, sk, text + block) == CryptAll(boxes, sk, text) + Crypt(boxes, sk, block)
    decreases |text|
  {
    hide Crypt;
    if text == [] {
      assert text + block == block && block[..8] == block && block[8..] == [];
    } else {
      assert (text + block)[..8] == text[..8] && (text + block)[8..] == text[8..] + block;
      CryptAllSnoc(boxes, sk, text[8..], block);
      Regroup(Crypt(boxes, sk, text[..8]), CryptAll(boxes, sk, text[8..]), Crypt(boxes, sk, block));
    }
  }

  function Zeros(n: nat): (r: seq<Byte>)
    ensures |r| == n && forall i :: 0 <= i < n ==> r[i] == 0
  {
    seq(n, _ => 0)
  }

  /** A text filled up to whole blocks: one byte 0x80, then zeros. */
  function Padded(text: seq<Byte>): (r: seq<Byte>)
    ensures |r| % 8 == 0 && |r| > |text|
  {
    text + [0x80] + Zeros(7 - |text| % 8)
  }

  /** Padding can be taken off in one way only. */
  lemma PaddingUnique(a: seq<Byte>, b: seq<Byte>)
    requires Padded(a) == Padded(b)
    ensures a == b
  {
    MarkAt(a);
    MarkAt(b);
    assert a == Padded(a)[..|a|];
  }

  lemma MarkAt(text: seq<Byte>)
    ensures Padded(text)[|text|] == 0x80 && Padded(text)[..|text|] == text
    ensures forall k :: |text| < k < |Padded(text)| ==> Padded(text)[k] == 0
    ensures |Padded(text)| <= |text| + 8
  {
  }

  /** ReadBeforeBuffer is no error of the program: it stands for a read at index -1, after which
      anything may happen. */
  datatype Error = InvalidLength | InvalidText | ReadBeforeBuffer

  const SIZES := 0x1_0000_0000_0000_0000      // SIZE_MAX + 1

  /** An int compared with a size_t. */
  function AsSize(i: int): int { if i < 0 then i + SIZES else i }

  /** The round keys of a schedule of 32 words. */
  function Pairs(sk: seq<bv32>): (r: seq<Subkey>)
    requires |sk| == 32
    ensures |r| == 16
  {
    seq(16, i requires 0 <= i < 16 => Subkey(sk[2 * i], sk[2 * i + 1]))
  }

  lemma {:induction false} ReversedAt(sk: seq<Subkey>, i: nat)
    requires i < |sk|
    ensures Reversed(sk)[i] == sk[|sk| - 1 - i]
    decreases sk
  {
    if i < |sk| - 1 { ReversedAt(sk[1..], i); }
  }

  // The key schedule.

  const LHs: seq<bv32> := [
    0x0000_0000, 0x0000_0001, 0x0000_0100, 0x0000_0101, 0x0001_0000, 0x0001_0001, 0x0001_0100, 0x0001_0101,
    0x0100_0000, 0x0100_0001, 0x0100_0100, 0x0100_0101, 0x0101_0000, 0x0101_0001, 0x0101_0100, 0x0101_0101]

  const RHs: seq<bv32> := [
    0x0000_0000, 0x0100_0000, 0x0001_0000, 0x0101_0000, 0x0000_0100, 0x0100_0100, 0x0001_0100, 0x0101_0100,
    0x0000_0001, 0x0100_0001, 0x0001_0001, 0x0101_0001, 0x0000_0101, 0x0100_0101, 0x0001_0101, 0x0101_0101]

  /** Four bits of a word as an index. */
  function Nibble(x: bv32, down: bv6): (n: nat)
    requires down <= 32
    ensures n < 16
  {
    (((x >> down) & 0xF) as bv4) as nat
  }

  function Gathered(a: bv32, b: bv32, c: bv32, d: bv32, e: bv32, f: bv32, g: bv32, h: bv32): bv32 {
    ((a << 3) | (b << 2) | (c << 1) | d | (e << 7) | (f << 6) | (g << 5) | (h << 4)) & 0x0FFF_FFFF
  }

  function LeftHalf(x: bv32): bv32 {
    Gathered(LHs[Nibble(x, 0)], LHs[Nibble(x, 8)], LHs[Nibble(x, 16)], LHs[Nibble(x, 24)],
      LHs[Nibble(x, 5)], LHs[Nibble(x, 13)], LHs[Nibble(x, 21)], LHs[Nibble(x, 29)])
  }

  function RightHalf(y: bv32): bv32 {
    Gathered(RHs[Nibble(y, 1)], RHs[Nibble(y, 9)], RHs[Nibble(y, 17)], RHs[Nibble(y, 25)],
      RHs[Nibble(y, 4)], RHs[Nibble(y, 12)], RHs[Nibble(y, 20)], RHs[Nibble(y, 28)])
  }

  function DifferFifth(a: bv32, b: bv32): bv32 { (a ^ b) & 0x1010_1010 }

  /** Permuted choice 1: the two halves of the key. */
  function FirstChoice(w: Words): Words {
    var w1 := Swap4(w.y, w.x);
    var t := DifferFifth(w1.x, w1.y);
    Words(LeftHalf(Mix(w1.y, t)), RightHalf(Mix(w1.x, t)))
  }

  /** Round `i`, counted from 0, turns the halves by one bit or by two. */
  predicate TurnsByOne(i: nat) { i < 2 || i == 8 || i == 15 }

  function TurnedKey(x: bv32, byOne: bool): bv32 {
    if byOne then ((x << 1) | (x >> 27)) & 0x0FFF_FFFF else ((x << 2) | (x >> 26)) & 0x0FFF_FFFF
  }

  /** The halves of the key in round `i - 1`. */
  function KeyAfter(w: Words, i: nat): Words {
    if i == 0 then w
    else
      var v := KeyAfter(w, i - 1);
      Words(TurnedKey(v.x, TurnsByOne(i - 1)), TurnedKey(v.y, TurnsByOne(i - 1)))
  }

  /** Permuted choice 2, in two words. */
  function EvenKey(x: bv32, y: bv32): bv32 {
    ((x << 4) & 0x2400_0000) | ((x << 28) & 0x1000_0000) | ((x << 14) & 0x0800_0000) | ((x << 18) & 0x0208_0000)
    | ((x << 6) & 0x0100_0000) | ((x << 9) & 0x0020_0000) | ((x >> 1) & 0x0010_0000) | ((x << 10) & 0x0004_0000)
    | ((x << 2) & 0x0002_0000) | ((x >> 10) & 0x0001_0000) | ((y >> 13) & 0x0000_2000) | ((y >> 4) & 0x0000_1000)
    | ((y << 6) & 0x0000_0800) | ((y >> 1) & 0x0000_0400) | ((y >> 14) & 0x0000_0200) | (y & 0x0000_0100)
    | ((y >> 5) & 0x0000_0020) | ((y >> 10) & 0x0000_0010) | ((y >> 3) & 0x0000_0008) | ((y >> 18) & 0x0000_0004)
    | ((y >> 26) & 0x0000_0002) | ((y >> 24) & 0x0000_0001)
  }

  function OddKey(x: bv32, y: bv32): bv32 {
    ((x << 15) & 0x2000_0000) | ((x << 17) & 0x1000_0000) | ((x << 10) & 0x0800_0000) | ((x << 22) & 0x0400_0000)
    | ((x >> 2) & 0x0200_0000) | ((x << 1) & 0x0100_0000) | ((x << 16) & 0x0020_0000) | ((x << 11) & 0x0010_0000)
    | ((x << 3) & 0x0008_0000) | ((x >> 6) & 0x0004_0000) | ((x << 15) & 0x0002_0000) | ((x >> 4) & 0x0001_0000)
    | ((y >> 2) & 0x0000_2000) | ((y << 8) & 0x0000_1000) | ((y >> 14) & 0x0000_0808) | ((y >> 9) & 0x0000_0400)
    | (y & 0x0000_0200) | ((y << 7) & 0x0000_0100) | ((y >> 7) & 0x0000_0020) | ((y >> 3) & 0x0000_0011)
    | ((y << 2) & 0x0000_0004) | ((y >> 21) & 0x0000_0002)
  }

  function SubkeyOf(w: Words): Subkey { Subkey(EvenKey(w.x, w.y), OddKey(w.x, w.y)) }

  /** The sixteen round keys of a key. */
  function Schedule(key: seq<Byte>): (sk: seq<Subkey>)
    requires |key| == 8
    ensures |sk| == 16
  {
    seq(16, i requires 0 <= i < 16 => SubkeyOf(KeyAfter(FirstChoice(GetBlock(key)), i + 1)))
  }

  /** The key schedule: two words for each round. */
  method KeySchedule(key: seq<Byte>) returns (sk: seq<bv32>)
    requires |key| == 8
    ensures |sk| == 32 && Pairs(sk) == Schedule(key)
  {
    hide FirstChoice, GetBlock, EvenKey, OddKey, TurnedKey, TurnsByOne;
    ghost var start := FirstChoice(GetBlock(key));
    var w := FirstChoice(GetBlock(key));
    var x, y := w.x, w.y;
    sk := [];
    for i := 0 to 16
      invariant |sk| == 2 * i && Words(x, y) == KeyAfter(start, i)
      invariant forall k :: 0 <= k < i ==> Subkey(sk[2 * k], sk[2 * k + 1]) == SubkeyOf(KeyAfter(start, k + 1))
    {
      if i < 2 || i == 8 || i == 15 {
        assert TurnsByOne(i) by { OneOrTwo(i); }
        x := TurnedKey(x, true);
        y := TurnedKey(y, true);
      } else {
        assert !TurnsByOne(i) by { OneOrTwo(i); }
        x := TurnedKey(x, false);
        y := TurnedKey(y, false);
      }
      sk := sk + [EvenKey(x, y), OddKey(x, y)];
    }
  }

  lemma OneOrTwo(i: nat)
    ensures TurnsByOne(i) <==> i < 2 || i == 8 || i == 15
  {
  }

  lemma NextRound(boxes: Boxes, keys: seq<Subkey>, i: nat, w: Words)
    requires Complete(boxes) && i < |keys|
    ensures Rounds(boxes, keys[i..], w) == Rounds(boxes, keys[i + 1..], Words(w.y, Mix(w.x, RoundValue(boxes, keys[i], w.y))))
  {
    hide Mix, RoundValue;
    assert keys[i..][1..] == keys[i + 1..];
  }

  lemma NoRound(boxes: Boxes, keys: seq<Subkey>, w: Words)
    requires Complete(boxes) && keys == []
    ensures Rounds(boxes, keys, w) == w
  {
  }

  method DesCrypt(boxes: Boxes, sk: seq<bv32>, input: seq<Byte>) returns (output: seq<Byte>)
    requires Complete(boxes) && |sk| == 32 && |input| == 8
    ensures output == Crypt(boxes, Pairs(sk), input)
  {
    hide IP, FP, GetBlock, PutBlock, RoundValue, Mix, Rounds;
    var w := IP(GetBlock(input));
    var x, y := w.x, w.y;
    var i := 0;
    ghost var keys := Pairs(sk);
    assert keys[0..] == keys;
    while i < 16
      invariant 0 <= i <= 16 && i % 2 == 0
      invariant Rounds(boxes, keys, w) == Rounds(boxes, keys[i..], Words(x, y))
    {
      NextRound(boxes, keys, i, Words(x, y));
      NextRound(boxes, keys, i + 1, Words(y, Mix(x, RoundValue(boxes, keys[i], y))));
      x := Mix(x, RoundValue(boxes, Subkey(sk[2 * i], sk[2 * i + 1]), y));
      y := Mix(y, RoundValue(boxes, Subkey(sk[2 * i + 2], sk[2 * i + 3]), x));
      i := i + 2;
    }
    assert Rounds(boxes, keys[16..], Words(x, y)) == Words(x, y) by { NoRound(boxes, keys[16..], Words(x, y)); }
    output := PutBlock(FP(Words(y, x)));
  }

  method DesEncode(boxes: Boxes, sk: seq<bv32>, text: seq<Byte>) returns (buffer: seq<Byte>)
    requires Complete(boxes) && |sk| == 32
    ensures buffer == CryptAll(boxes, Pairs(sk), Padded(text))
  {
    hide Crypt, Pairs, CryptAll;
    ghost var keys := Pairs(sk);
    buffer := [];
    NoBlocks(boxes, keys);
    var i := 0;
    assert text[..0] == [];
    while i < |text| - 7
      invariant 0 <= i <= |text| && i % 8 == 0
      invariant buffer == CryptAll(boxes, keys, text[..i])
    {
      var block := DesCrypt(boxes, sk, text[i..i + 8]);
      CryptAllSnoc(boxes, keys, text[..i], text[i..i + 8]);
      assert text[..i + 8] == text[..i] + text[i..i + 8];
      buffer := buffer + block;
      i := i + 8;
    }
    var bytes := |text| - i;
    var tail := [];
    var j := 0;
    while j < 8
      invariant 0 <= j <= 8 && |tail| == j
      invariant forall k :: 0 <= k < j ==> tail[k] == if k < bytes then text[i + k] else if k == bytes then 0x80 else 0
    {
      tail := tail + [if j < bytes then text[i + j] else if j == bytes then 0x80 else 0];
      j := j + 1;
    }
    TailIs(text, i, tail);
    var block := DesCrypt(boxes, sk, tail);
    CryptAllSnoc(boxes, keys, text[..i], tail);
    buffer := buffer + block;
  }

  lemma NoBlocks(boxes: Boxes, keys: seq<Subkey>)
    requires Complete(boxes)
    ensures CryptAll(boxes, keys, []) == []
  {
  }

  lemma TailIs(text: seq<Byte>, i: nat, tail: seq<Byte>)
    requires i % 8 == 0 && i <= |text| < i + 8 && |tail| == 8
    requires forall k :: 0 <= k < 8 ==> tail[k] == if k < |text| - i then text[i + k] else if k == |text| - i then 0x80 else 0
    ensures text[..i] + tail == Padded(text)
  {
    assert |text| % 8 == |text| - i;
  }

  /** Decodes a text; the last block must end in the padding. */
  method DesDecode(boxes: Boxes, esk: seq<bv32>, text: seq<Byte>) returns (r: Result<seq<Byte>, Error>)
    requires Complete(boxes) && |esk| == 32
    ensures
      if |text| % 8 != 0 || text == [] then r == Err(InvalidLength)
      else
        var plain := CryptAll(boxes, Reversed(Pairs(esk)), text);
        && (r.Ok? ==> plain == Padded(r.value))
        && (r.Err? ==> r.error != InvalidLength && forall t :: plain != Padded(t))
        && (r == Err(ReadBeforeBuffer) <==> text == Crypt(boxes, Pairs(esk), Zeros(8)))
  {
    hide Crypt, CryptAll;
    var sk := ReverseKeys(esk);
    if |text| % 8 != 0 || |text| == 0 { return Err(InvalidLength); }
    ghost var keys := Pairs(sk);
    var buffer := [];
    NoBlocks(boxes, keys);
    var i := 0;
    while i < |text|
      invariant 0 <= i <= |text| && i % 8 == 0
      invariant buffer == CryptAll(boxes, keys, text[..i])
    {
      var block := DesCrypt(boxes, sk, text[i..i + 8]);
      CryptAllSnoc(boxes, keys, text[..i], text[i..i + 8]);
      assert text[..i + 8] == text[..i] + text[i..i + 8];
      buffer := buffer + block;
      i := i + 8;
    }
    assert text[..i] == text;
    ReadsBeforeOnce(boxes, Pairs(esk), text);
    r := Strip(buffer);
  }

  /** The round keys in reverse order, pair by pair. */
  method ReverseKeys(esk: seq<bv32>) returns (sk: seq<bv32>)
    requires |esk| == 32
    ensures |sk| == 32 && Pairs(sk) == Reversed(Pairs(esk))
  {
    sk := [];
    var i := 0;
    while i < 32
      invariant 0 <= i <= 32 && i % 2 == 0 && |sk| == i
      invariant forall k :: 0 <= k < i && k % 2 == 0 ==> sk[k] == esk[30 - k] && sk[k + 1] == esk[31 - k]
    {
      sk := sk + [esk[30 - i], esk[31 - i]];
      i := i + 2;
    }
    PairsReversed(esk, sk);
  }

  lemma PairsReversed(esk: seq<bv32>, sk: seq<bv32>)
    requires |esk| == 32 && |sk| == 32
    requires forall k :: 0 <= k < 32 && k % 2 == 0 ==> sk[k] == esk[30 - k] && sk[k + 1] == esk[31 - k]
    ensures Pairs(sk) == Reversed(Pairs(esk))
  {
    var e := Pairs(esk);
    forall k | 0 <= k < 16 ensures Pairs(sk)[k] == Reversed(e)[k] {
      ReversedAt(e, k);
      var j := 2 * k;
      assert sk[j] == esk[30 - j];
      assert sk[j + 1] == esk[31 - j];
      assert e[15 - k] == Subkey(esk[2 * (15 - k)], esk[2 * (15 - k) + 1]);
    }
  }

  /** Takes the padding off: zeros from the end, then 0x80. The loop compares its int with a
      size_t, so on a buffer of one block it is not stopped in front of the buffer. */
  method Strip(buffer: seq<Byte>) returns (r: Result<seq<Byte>, Error>)
    requires |buffer| % 8 == 0 && buffer != []
    ensures r.Ok? ==> buffer == Padded(r.value)
    ensures r.Err? ==> r.error != InvalidLength && forall t :: buffer != Padded(t)
    ensures r == Err(ReadBeforeBuffer) <==> buffer == Zeros(8)
  {
    hide Padded, Zeros;
    var padding := 1;
    var i := |buffer| - 1;
    while AsSize(i) >= |buffer| - 8
      invariant |buffer| - 9 <= i < |buffer| && padding == |buffer| - i
      invariant forall k :: i < k < |buffer| ==> buffer[k] == 0
      decreases i
    {
      if i < 0 {
        NotPadded(buffer, i);
        return Err(ReadBeforeBuffer);
      }
      if buffer[i] == 0 {
        padding := padding + 1;
      } else if buffer[i] == 0x80 {
        break;
      } else {
        NotPadded(buffer, i);
        return Err(InvalidText);
      }
      i := i - 1;
    }
    if padding > 8 {
      NotPadded(buffer, i);
      return Err(InvalidText);
    }
    r := Ok(buffer[..|buffer| - padding]);
    IsPadded(buffer, i);
  }

  lemma IsPadded(buffer: seq<Byte>, i: nat)
    requires |buffer| % 8 == 0 && |buffer| - 8 <= i < |buffer| && buffer[i] == 0x80
    requires forall k :: i < k < |buffer| ==> buffer[k] == 0
    ensures buffer == Padded(buffer[..i])
  {
    var zeros := 7 - i % 8;
    assert |buffer| - (i + 1) == zeros by { LastBlock(|buffer|, i); }
    ZerosAre(buffer[i + 1..], zeros);
    hide Zeros;
    assert buffer == buffer[..i] + [buffer[i]] + buffer[i + 1..];
  }

  lemma LastBlock(n: nat, i: nat)
    requires n % 8 == 0 && n - 8 <= i < n
    ensures n - (i + 1) == 7 - i % 8
  {
    assert i % 8 == i - (n - 8);
  }

  lemma ZerosAre(s: seq<Byte>, n: nat)
    requires |s| == n && forall k :: 0 <= k < n ==> s[k] == 0
    ensures s == Zeros(n)
  {
  }

  lemma NotPadded(buffer: seq<Byte>, i: int)
    requires |buffer| % 8 == 0 && |buffer| - 9 <= i < |buffer|
    requires forall k :: i < k < |buffer| && 0 <= k ==> buffer[k] == 0
    requires i == |buffer| - 9 || (0 <= i && buffer[i] != 0 && buffer[i] != 0x80)
    ensures forall t :: buffer != Padded(t)
  {
    forall t ensures buffer != Padded(t) {
      MarkAt(t);
    }
  }

  lemma {:induction false} ReversedSnoc(sk: seq<Subkey>, k: Subkey)
    ensures Reversed(sk + [k]) == [k] + Reversed(sk)
    decreases sk
  {
    if sk == [] {
      assert sk + [k] == [k] && [k][1..] == [];
    } else {
      assert (sk + [k])[1..] == sk[1..] + [k];
      ReversedSnoc(sk[1..], k);
      assert [k] + Reversed(sk[1..]) + [sk[0]] == [k] + (Reversed(sk[1..]) + [sk[0]]);
    }
  }

  lemma {:induction false} ReversedTwice(sk: seq<Subkey>)
    ensures Reversed(Reversed(sk)) == sk
    decreases sk
  {
    if sk != [] {
      ReversedSnoc(Reversed(sk[1..]), sk[0]);
      ReversedTwice(sk[1..]);
    }
  }

  /** Under every key schedule the loop that takes the padding off leaves the buffer for exactly
      one text: the enciphered block of zeros. */
  lemma ReadsBeforeOnce(boxes: Boxes, sk: seq<Subkey>, text: seq<Byte>)
    requires Complete(boxes) && |text| % 8 == 0
    ensures CryptAll(boxes, Reversed(sk), text) == Zeros(8) <==> text == Crypt(boxes, sk, Zeros(8))
  {
    hide Crypt, Reversed, Zeros;
    CryptUndoes(boxes, sk, Zeros(8));
    if |text| == 8 {
      OneBlock(boxes, Reversed(sk), text);
      CryptUndoes(boxes, Reversed(sk), text);
      ReversedTwice(sk);
    }
  }

  lemma OneBlock(boxes: Boxes, sk: seq<Subkey>, block: seq<Byte>)
    requires Complete(boxes) && |block| == 8
    ensures CryptAll(boxes, sk, block) == Crypt(boxes, sk, block)
  {
    hide Crypt;
    assert block[..8] == block && block[8..] == [];
  }

  /** That text, deciphered with the keys it was enciphered with, makes the program read before
      its buffer. */
  method DecodeZeroBlock(boxes: Boxes, sk: seq<bv32>) returns (r: Result<seq<Byte>, Error>)
    requires Complete(boxes) && |sk| == 32
    ensures r == Err(ReadBeforeBuffer)
  {
    hide Crypt, CryptAll, Padded, Pairs, Zeros;
    var coded := DesCrypt(boxes, sk, Zeros(8));
    ReadsBeforeOnce(boxes, Pairs(sk), coded);
    r := DesDecode(boxes, sk, coded);
  }

  /** Every text comes back. */
  method EncodeDecode(boxes: Boxes, sk: seq<bv32>, text: seq<Byte>) returns (r: Result<seq<Byte>, Error>)
    requires Complete(boxes) && |sk| == 32
    ensures r == Ok(text)
  {
    hide CryptAll, Padded, Pairs;
    var coded := DesEncode(boxes, sk, text);
    PaddedLength(text);
    r := DesDecode(boxes, sk, coded);
    CryptAllUndoes(boxes, Pairs(sk), Padded(text));
    if r.Ok? { PaddingUnique(r.value, text); }
  }

  lemma PaddedLength(text: seq<Byte>)
    ensures |Padded(text)| % 8 == 0 && Padded(text) != []
  {
  }
}
