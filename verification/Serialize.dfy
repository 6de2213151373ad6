/** The serializer for message bodies: values are written into a list of fixed-size blocks,
    flattened, and read back with a cursor. */
module Serialize {
  import opened Sequences
  import opened Wrappers

  type Byte = x: int | 0 <= x < 256

  const TYPE_NIL := 0
  const TYPE_BOOLEAN := 1
  const TYPE_NUMBER := 2
  const TYPE_USERDATA := 3
  const TYPE_SHORT_STRING := 4
  const TYPE_LONG_STRING := 5
  const TYPE_TABLE := 6
  const TYPE_NUMBER_ZERO := 0
  const TYPE_NUMBER_BYTE := 1
  const TYPE_NUMBER_WORD := 2
  const TYPE_NUMBER_DWORD := 4
  const TYPE_NUMBER_QWORD := 6
  const TYPE_NUMBER_REAL := 8
  const MAX_COOKIE := 32
  const BLOCK_SIZE := 128
  const MAX_DEPTH := 32

  /** A Lua value. Reals and pointers are their eight bytes; a table is its array part and
      its other entries in the order they are enumerated, key, value, key, value. `Other`
      stands for the types that cannot be serialized. */
  datatype Value =
    | Nil
    | Boolean(b: bool)
    | Integer(i: int)
    | Real(bits: seq<Byte>)
    | Pointer(address: seq<Byte>)
    | Str(s: seq<Byte>)
    | Table(items: seq<Value>, entries: seq<Value>)
    | Other

  /** What Lua can hold. */
  predicate Wellformed(v: Value)
    decreases v
  {
    match v
    case Integer(i) => -0x8000_0000_0000_0000 <= i < 0x8000_0000_0000_0000
    case Real(bits) => |bits| == 8
    case Pointer(address) => |address| == 8
    case Str(s) => |s| < 0x8000_0000
    case Table(items, entries) =>
      && |items| < 0x8000_0000 && |entries| % 2 == 0
      && (forall i :: 0 <= i < |items| ==> Wellformed(items[i]))
      && (forall i :: 0 <= i < |entries| ==> Wellformed(entries[i]))
      && (forall i :: 0 <= i < |entries| && i % 2 == 0 ==> entries[i] != Nil)
    case _ => true
  }

  // Bytes.

  /** The `n` low bytes of a number, low byte first. */
  function LittleEndian(x: nat, n: nat): (r: seq<Byte>)
    ensures |r| == n
    decreases n
  {
    if n == 0 then [] else [x % 256] + LittleEndian(x / 256, n - 1)
  }

  function Number(bytes: seq<Byte>): (r: nat) {
    if bytes == [] then 0 else bytes[0] + 256 * Number(bytes[1..])
  }

  function Pow256(n: nat): (r: nat)
    ensures r > 0
  {
    if n == 0 then 1 else 256 * Pow256(n - 1)
  }

  lemma {:induction false} NumberBound(bytes: seq<Byte>)
    ensures Number(bytes) < Pow256(|bytes|)
  {
    if bytes != [] { NumberBound(bytes[1..]); }
  }

  lemma {:induction false} NumberOfBytes(x: nat, n: nat)
    requires x < Pow256(n)
    ensures Number(LittleEndian(x, n)) == x
  {
    if n > 0 {
      assert x / 256 < Pow256(n - 1);
      NumberOfBytes(x / 256, n - 1);
      var b := LittleEndian(x, n);
      assert b[0] == x % 256 && b[1..] == LittleEndian(x / 256, n - 1);
    }
  }

  /** Two's complement, for `n` bytes. */
  function Signed(x: int, n: nat): int { if 2 * x < Pow256(n) then x else x - Pow256(n) }

  function Wrap(x: int, n: nat): (r: int)
    ensures 0 <= r < Pow256(n)
  {
    x % Pow256(n)
  }

  lemma SignedOfWrap(x: int, n: nat)
    requires 0 - Pow256(n) <= 2 * x < Pow256(n)
    ensures Signed(Wrap(x, n), n) == x
  {
    if x >= 0 { SmallMod(x, Pow256(n)); } else { SmallMod(x + Pow256(n), Pow256(n)); ModAdd(x, Pow256(n)); }
  }

  lemma SmallMod(x: int, m: int)
    requires 0 <= x < m
    ensures x % m == x
  {
  }

  lemma ModAdd(x: int, m: int)
    requires m > 0 && -m <= x < 0
    ensures (x + m) % m == x % m
  {
    assert x / m == -1;
  }

  function Tag(kind: int, cookie: int): (r: int)
    ensures r == kind + 8 * cookie
  {
    kind + 8 * cookie
  }

  // Encoding.

  function EncInteger(i: int): seq<Byte> {
    if i == 0 then [Tag(TYPE_NUMBER, TYPE_NUMBER_ZERO)]
    else if !(-0x8000_0000 <= i < 0x8000_0000) then
      [Tag(TYPE_NUMBER, TYPE_NUMBER_QWORD)] + LittleEndian(Wrap(i, 8), 8)
    else if i < 0 then [Tag(TYPE_NUMBER, TYPE_NUMBER_DWORD)] + LittleEndian(Wrap(i, 4), 4)
    else if i < 0x100 then [Tag(TYPE_NUMBER, TYPE_NUMBER_BYTE)] + LittleEndian(i, 1)
    else if i < 0x10000 then [Tag(TYPE_NUMBER, TYPE_NUMBER_WORD)] + LittleEndian(i, 2)
    else [Tag(TYPE_NUMBER, TYPE_NUMBER_DWORD)] + LittleEndian(i, 4)
  }

  function EncString(s: seq<Byte>): seq<Byte> {
    if |s| < MAX_COOKIE then [Tag(TYPE_SHORT_STRING, |s|)] + s
    else if |s| < 0x10000 then [Tag(TYPE_LONG_STRING, 2)] + LittleEndian(|s|, 2) + s
    else [Tag(TYPE_LONG_STRING, 4)] + LittleEndian(|s|, 4) + s
  }

  function EncHeader(size: nat): seq<Byte> {
    if size >= MAX_COOKIE - 1 then [Tag(TYPE_TABLE, MAX_COOKIE - 1)] + EncInteger(size) else [Tag(TYPE_TABLE, size)]
  }

  /** The bytes of a value. */
  function Enc(v: Value): seq<Byte>
    decreases v
  {
    match v
    case Nil => [TYPE_NIL]
    case Boolean(b) => [Tag(TYPE_BOOLEAN, if b then 1 else 0)]
    case Integer(i) => EncInteger(i)
    case Real(bits) => [Tag(TYPE_NUMBER, TYPE_NUMBER_REAL)] + bits
    case Pointer(address) => [TYPE_USERDATA] + address
    case Str(s) => EncString(s)
    case Table(items, entries) => EncHeader(|items|) + EncSeq(items) + EncSeq(entries) + [TYPE_NIL]
    case Other => []
  }

  function EncSeq(vs: seq<Value>): seq<Byte>
    decreases vs
  {
    if vs == [] then [] else Enc(vs[0]) + EncSeq(vs[1..])
  }

  /** Nothing unsupported, and nothing deeper than the limit. */
  predicate Packable(v: Value, depth: nat)
    decreases v
  {
    depth <= MAX_DEPTH &&
    match v
    case Table(items, entries) =>
      && (forall i :: 0 <= i < |items| ==> Packable(items[i], depth + 1))
      && (forall i :: 0 <= i < |entries| ==> Packable(entries[i], depth + 1))
    case Other => false
    case _ => true
  }

  /** How many tables deep the deepest part of a value lies. */
  function Depth(v: Value): (r: nat)
    decreases v
  {
    if v.Table? then Max(SeqDepth(v.items), SeqDepth(v.entries)) else 0
  }

  function Max(a: nat, b: nat): nat { if a >= b then a else b }

  /** One more than the deepest element; nothing for an empty sequence. */
  function SeqDepth(vs: seq<Value>): nat
    decreases vs
  {
    if vs == [] then 0 else Max(Depth(vs[0]) + 1, SeqDepth(vs[1..]))
  }

  predicate Supported(v: Value)
    decreases v
  {
    match v
    case Table(items, entries) =>
      (forall i :: 0 <= i < |items| ==> Supported(items[i])) && (forall i :: 0 <= i < |entries| ==> Supported(entries[i]))
    case Other => false
    case _ => true
  }

  /** Packing succeeds exactly when no unsupported type occurs and no part lies deeper than the limit. */
  lemma {:induction false} PackableMeans(v: Value, depth: nat)
    ensures Packable(v, depth) <==> Supported(v) && Depth(v) + depth <= MAX_DEPTH
    decreases v
  {
    if v.Table? {
      PackableSeq(v.items, depth + 1);
      PackableSeq(v.entries, depth + 1);
    }
  }

  lemma {:induction false} PackableSeq(vs: seq<Value>, depth: nat)
    ensures (forall i :: 0 <= i < |vs| ==> Packable(vs[i], depth)) <==>
      (forall i :: 0 <= i < |vs| ==> Supported(vs[i])) && (vs != [] ==> SeqDepth(vs) - 1 + depth <= MAX_DEPTH)
    decreases vs
  {
    if vs != [] {
      PackableMeans(vs[0], depth);
      PackableSeq(vs[1..], depth);
      assert forall i :: 0 < i < |vs| ==> vs[i] == vs[1..][i - 1];
    }
  }

  // Decoding.

  datatype Read<T> = Read(value: T, rest: seq<Byte>)

  /** The C code raises an error on a stream it cannot read. NegativeLength stands for what it does
      with a string whose length is negative as an int: the cursor moves back, and Lua is asked for a
      string of that many bytes as a size_t, which it refuses with an error of its own; what happens
      for -1 is not defined. No value comes of it and nothing is read after it. */
  datatype Error = InvalidStream | NegativeLength

  type Parsed<T> = Result<Read<T>, Error>

  function Take(bytes: seq<Byte>, n: nat): (r: Parsed<seq<Byte>>)
    ensures r.Ok? ==> |r.value.rest| == |bytes| - n && |r.value.value| == n
  {
    if |bytes| < n then Err(InvalidStream) else Ok(Read(bytes[..n], bytes[n..]))
  }

  function DecodeInteger(bytes: seq<Byte>, cookie: int): (r: Parsed<int>)
    ensures r.Ok? ==> |r.value.rest| <= |bytes|
  {
    if cookie == TYPE_NUMBER_ZERO then Ok(Read(0, bytes))
    else
      var n := if cookie == TYPE_NUMBER_BYTE then 1 else if cookie == TYPE_NUMBER_WORD then 2
               else if cookie == TYPE_NUMBER_DWORD then 4 else if cookie == TYPE_NUMBER_QWORD then 8 else 0;
      if n == 0 then Err(InvalidStream)
      else
        var t := Take(bytes, n);
        if t.Err? then Err(t.error)
        else
          var x := Number(t.value.value);
          Ok(Read(if n >= 4 then Signed(x, n) else x, t.value.rest))
  }

  /** A length of four bytes is an int in what follows. */
  function DecodeLength(bytes: seq<Byte>): int { if |bytes| == 4 then Signed(Number(bytes), 4) else Number(bytes) }

  function DecodeString(bytes: seq<Byte>, width: nat): (r: Parsed<seq<Byte>>)
    ensures r.Ok? ==> |r.value.rest| <= |bytes|
  {
    var t := Take(bytes, width);
    if t.Err? then Err(t.error)
    else
      var n := DecodeLength(t.value.value);
      if n < 0 then Err(NegativeLength) else Take(t.value.rest, n)
  }

  /** The size of the array part, after the tag of a table. Larger sizes follow as an integer,
      which is cut down to 32 bits. */
  function DecodeSize(bytes: seq<Byte>, cookie: int): (r: Parsed<int>)
    ensures r.Ok? ==> |r.value.rest| <= |bytes|
  {
    if cookie != MAX_COOKIE - 1 then Ok(Read(cookie, bytes))
    else
      var t := Take(bytes, 1);
      if t.Err? then Err(t.error)
      else
        var tag := t.value.value[0];
        if tag % 8 != TYPE_NUMBER || tag / 8 == TYPE_NUMBER_REAL then Err(InvalidStream)
        else
          var i := DecodeInteger(t.value.rest, tag / 8);
          if i.Err? then Err(i.error) else Ok(Read(Signed(Wrap(i.value.value, 4), 4), i.value.rest))
  }

  /** A table, after its tag. */
  function DecodeTable(rest: seq<Byte>, cookie: int): (r: Parsed<Value>)
    ensures r.Ok? ==> |r.value.rest| <= |rest|
    decreases |rest|, 2
  {
    var size := DecodeSize(rest, cookie);
    if size.Err? then Err(size.error)
    else
      var items := DecodeItems(size.value.rest, size.value.value);
      if items.Err? then Err(items.error)
      else
        var entries := DecodeEntries(items.value.rest);
        if entries.Err? then Err(entries.error)
        else Ok(Read(Table(items.value.value, entries.value.value), entries.value.rest))
  }

  /** What the tag of a value announces. */
  function DecodeKind(rest: seq<Byte>, kind: int, cookie: nat): (r: Parsed<Value>)
    ensures r.Ok? ==> |r.value.rest| <= |rest|
    decreases |rest|, 3
  {
    if kind == TYPE_NIL then Ok(Read(Nil, rest))
    else if kind == TYPE_BOOLEAN then Ok(Read(Boolean(cookie != 0), rest))
    else if kind == TYPE_NUMBER && cookie == TYPE_NUMBER_REAL then
      var t := Take(rest, 8);
      if t.Err? then Err(t.error) else Ok(Read(Real(t.value.value), t.value.rest))
    else if kind == TYPE_NUMBER then
      var i := DecodeInteger(rest, cookie);
      if i.Err? then Err(i.error) else Ok(Read(Integer(i.value.value), i.value.rest))
    else if kind == TYPE_USERDATA then
      var t := Take(rest, 8);
      if t.Err? then Err(t.error) else Ok(Read(Pointer(t.value.value), t.value.rest))
    else if kind == TYPE_SHORT_STRING then
      var t := Take(rest, cookie);
      if t.Err? then Err(t.error) else Ok(Read(Str(t.value.value), t.value.rest))
    else if kind == TYPE_LONG_STRING then
      if cookie != 2 && cookie != 4 then Err(InvalidStream)
      else
        var t := DecodeString(rest, cookie);
        if t.Err? then Err(t.error) else Ok(Read(Str(t.value.value), t.value.rest))
    else if kind == TYPE_TABLE then DecodeTable(rest, cookie)
    else Err(InvalidStream)
  }

  /** One value from the front of a stream. */
  function Decode(bytes: seq<Byte>): (r: Parsed<Value>)
    ensures r.Ok? ==> |r.value.rest| < |bytes|
    decreases |bytes|, 0
  {
    if bytes == [] then Err(InvalidStream) else DecodeKind(bytes[1..], bytes[0] % 8, bytes[0] / 8)
  }

  function DecodeItems(bytes: seq<Byte>, n: int): (r: Parsed<seq<Value>>)
    ensures r.Ok? ==> |r.value.rest| <= |bytes|
    decreases |bytes|, 1
  {
    if n <= 0 then Ok(Read([], bytes))
    else
      var v := Decode(bytes);
      if v.Err? then Err(v.error)
      else
        var more := DecodeItems(v.value.rest, n - 1);
        if more.Err? then Err(more.error) else Ok(Read([v.value.value] + more.value.value, more.value.rest))
  }

  function DecodeEntries(bytes: seq<Byte>): (r: Parsed<seq<Value>>)
    ensures r.Ok? ==> |r.value.rest| <= |bytes|
    decreases |bytes|, 1
  {
    var k := Decode(bytes);
    if k.Err? then Err(k.error)
    else if k.value.value == Nil then Ok(Read([], k.value.rest))
    else
      var v := Decode(k.value.rest);
      if v.Err? then Err(v.error)
      else
        var more := DecodeEntries(v.value.rest);
        if more.Err? then Err(more.error)
        else Ok(Read([k.value.value, v.value.value] + more.value.value, more.value.rest))
  }

  /** All values of a stream. */
  function DecodeAll(bytes: seq<Byte>): (r: Result<seq<Value>, Error>)
    decreases |bytes|
  {
    if bytes == [] then Ok([])
    else
      var v := Decode(bytes);
      if v.Err? then Err(v.error)
      else
        var more := DecodeAll(v.value.rest);
        if more.Err? then Err(more.error) else Ok([v.value.value] + more.value)
  }

  // Round trips.

  lemma TakeFront(a: seq<Byte>, rest: seq<Byte>)
    ensures Take(a + rest, |a|) == Ok(Read(a, rest))
  {
    assert (a + rest)[..|a|] == a && (a + rest)[|a|..] == rest;
  }

  lemma Cons(x: Byte, a: seq<Byte>, rest: seq<Byte>)
    ensures ([x] + a + rest)[0] == x && ([x] + a + rest)[1..] == a + rest
  {
  }

  /** An integer read back from its bytes, whatever follows. */
  lemma IntegerRoundTrip(i: int, rest: seq<Byte>)
    requires -0x8000_0000_0000_0000 <= i < 0x8000_0000_0000_0000
    ensures
      var e := EncInteger(i);
      e != [] && e[0] % 8 == TYPE_NUMBER && e[0] / 8 != TYPE_NUMBER_REAL
      && DecodeInteger((e + rest)[1..], e[0] / 8) == Ok(Read(i, rest))
  {
    hide LittleEndian, Number, Pow256, Signed, Wrap;
    Powers();
    var e := EncInteger(i);
    var body := e[1..];
    assert e == [e[0]] + body;
    Cons(e[0], body, rest);
    TakeFront(body, rest);
    if i == 0 {
    } else if !(-0x8000_0000 <= i < 0x8000_0000) {
      SignedOfWrap(i, 8);
      NumberOfBytes(Wrap(i, 8), 8);
    } else if i < 0 {
      SignedOfWrap(i, 4);
      NumberOfBytes(Wrap(i, 4), 4);
    } else if i < 0x100 {
      NumberOfBytes(i, 1);
    } else if i < 0x10000 {
      NumberOfBytes(i, 2);
    } else {
      NumberOfBytes(i, 4);
      assert Signed(i, 4) == i by { SignedSmall(i); }
    }
  }

  lemma SignedSmall(i: int)
    requires 0 <= i < 0x8000_0000
    ensures Signed(i, 4) == i
  {
    hide Pow256;
    Powers();
  }

  lemma Powers()
    ensures Pow256(1) == 0x100 && Pow256(2) == 0x1_0000 && Pow256(4) == 0x1_0000_0000
    ensures Pow256(8) == 0x1_0000_0000_0000_0000
  {
    assert Pow256(2) == 256 * Pow256(1);
    assert Pow256(4) == 256 * Pow256(3) && Pow256(3) == 256 * Pow256(2);
    assert Pow256(8) == 256 * Pow256(7) && Pow256(7) == 256 * Pow256(6) && Pow256(6) == 256 * Pow256(5)
           && Pow256(5) == 256 * Pow256(4);
  }

  lemma StringRoundTrip(s: seq<Byte>, rest: seq<Byte>)
    requires |s| < 0x8000_0000
    ensures Decode(EncString(s) + rest) == Ok(Read(Str(s), rest))
  {
    hide LittleEndian, Number, Pow256;
    Powers();
    if |s| < MAX_COOKIE {
      Cons(Tag(TYPE_SHORT_STRING, |s|), s, rest);
      TakeFront(s, rest);
    } else {
      var width := if |s| < 0x10000 then 2 else 4;
      var tag, len := Tag(TYPE_LONG_STRING, width), LittleEndian(|s|, width);
      assert EncString(s) + rest == [tag] + len + (s + rest) by { LongString(tag, len, s, rest); }
      Cons(tag, len, s + rest);
      TakeFront(len, s + rest);
      NumberOfBytes(|s|, width);
      TakeFront(s, rest);
    }
  }

  /** A length is negative exactly if it has four bytes and the top bit is set. */
  lemma NegativeExactly(bytes: seq<Byte>, width: nat)
    requires width == 2 || width == 4
    ensures DecodeString(bytes, width) == Err(NegativeLength) <==>
            width == 4 && |bytes| >= 4 && Number(bytes[..4]) >= 0x8000_0000
  {
    hide Pow256, Number;
    Powers();
    if |bytes| >= width { NumberBound(bytes[..width]); }
  }

  /** Streams that announce such a string, in front of anything. */
  lemma NegativeStream(n: nat, rest: seq<Byte>)
    requires 0x8000_0000 <= n < 0x1_0000_0000
    ensures DecodeAll([Tag(TYPE_LONG_STRING, 4)] + LittleEndian(n, 4) + rest) == Err(NegativeLength)
  {
    hide Pow256, Number, LittleEndian;
    Powers();
    var tag, len := Tag(TYPE_LONG_STRING, 4), LittleEndian(n, 4);
    var bytes := [tag] + len + rest;
    Cons(tag, len, rest);
    TakeFront(len, rest);
    NumberOfBytes(n, 4);
    assert Decode(bytes) == Err(NegativeLength);
  }

  lemma LongString(tag: Byte, len: seq<Byte>, s: seq<Byte>, rest: seq<Byte>)
    ensures [tag] + len + s + rest == [tag] + len + (s + rest)
  {
  }

  /** The header of a table gives back the size of its array part. */
  lemma HeaderRoundTrip(size: nat, rest: seq<Byte>)
    requires size < 0x8000_0000
    ensures
      var e := EncHeader(size);
      e != [] && e[0] % 8 == TYPE_TABLE && DecodeSize((e + rest)[1..], e[0] / 8) == Ok(Read(size as int, rest))
  {
    hide EncInteger, DecodeInteger, Pow256;
    var e := EncHeader(size);
    if size < MAX_COOKIE - 1 {
      Cons(e[0], [], rest);
      assert e == [e[0]] + [];
    } else {
      var i := EncInteger(size);
      IntegerRoundTrip(size, rest);
      Cons(e[0], i, rest);
      assert (i + rest)[..1] == [i[0]];
      assert Signed(Wrap(size, 4), 4) == size by { Powers(); SignedOfWrap(size, 4); }
    }
  }

  /** A value read back from its bytes, whatever follows. */
  lemma {:induction false} RoundTrip(v: Value, rest: seq<Byte>)
    requires Wellformed(v) && Supported(v)
    ensures Decode(Enc(v) + rest) == Ok(Read(v, rest))
    decreases v
  {
    hide EncInteger, DecodeInteger, EncString, DecodeString, EncHeader, DecodeSize, EncSeq, DecodeTable;
    match v
    case Nil =>
      Cons(TYPE_NIL, [], rest);
      assert Enc(v) == [TYPE_NIL] + [];
    case Boolean(b) =>
      var tag := Tag(TYPE_BOOLEAN, if b then 1 else 0);
      Cons(tag, [], rest);
      assert Enc(v) == [tag] + [];
    case Integer(i) =>
      IntegerRoundTrip(i, rest);
      var e := EncInteger(i);
      assert (e + rest)[0] == e[0];
    case Real(bits) =>
      Cons(Tag(TYPE_NUMBER, TYPE_NUMBER_REAL), bits, rest);
      TakeFront(bits, rest);
    case Pointer(address) =>
      Cons(TYPE_USERDATA, address, rest);
      TakeFront(address, rest);
    case Str(s) =>
      StringRoundTrip(s, rest);
    case Table(items, entries) =>
      ItemsRoundTrip(items, EncSeq(entries) + ([TYPE_NIL] + rest));
      EntriesRoundTrip(entries, rest);
      TableRoundTrip(items, entries, rest);
  }

  lemma TableRoundTrip(items: seq<Value>, entries: seq<Value>, rest: seq<Byte>)
    requires |items| < 0x8000_0000
    requires
      var tail := EncSeq(entries) + ([TYPE_NIL] + rest);
      && DecodeItems(EncSeq(items) + tail, |items|) == Ok(Read(items, tail))
      && DecodeEntries(tail) == Ok(Read(entries, rest))
    ensures Decode(Enc(Table(items, entries)) + rest) == Ok(Read(Table(items, entries), rest))
  {
    hide EncInteger, DecodeInteger, EncString, DecodeString, EncHeader, DecodeSize, EncSeq, DecodeItems, DecodeEntries;
    var v := Table(items, entries);
    var e, a, h := EncHeader(|items|), EncSeq(items), EncSeq(entries);
    var tail := a + (h + ([TYPE_NIL] + rest));
    TableBytes(e, a, h, rest);
    HeaderRoundTrip(|items|, tail);
    var bytes := Enc(v) + rest;
    assert bytes == e + tail;
    assert bytes[0] == e[0];
    assert DecodeKind(bytes[1..], TYPE_TABLE, bytes[0] / 8) == DecodeTable(bytes[1..], bytes[0] / 8);
  }

  lemma TableBytes(e: seq<Byte>, a: seq<Byte>, h: seq<Byte>, rest: seq<Byte>)
    ensures e + a + h + [TYPE_NIL] + rest == e + (a + (h + ([TYPE_NIL] + rest)))
  {
  }

  lemma {:induction false} ItemsRoundTrip(vs: seq<Value>, rest: seq<Byte>)
    requires forall i :: 0 <= i < |vs| ==> Wellformed(vs[i]) && Supported(vs[i])
    ensures DecodeItems(EncSeq(vs) + rest, |vs|) == Ok(Read(vs, rest))
    decreases vs
  {
    hide Enc, Decode;
    if vs == [] {
      assert EncSeq(vs) + rest == rest;
    } else {
      var more := EncSeq(vs[1..]) + rest;
      Regroup(Enc(vs[0]), EncSeq(vs[1..]), rest);
      RoundTrip(vs[0], more);
      ItemsRoundTrip(vs[1..], rest);
      assert vs == [vs[0]] + vs[1..];
    }
  }

  lemma {:induction false} EntriesRoundTrip(vs: seq<Value>, rest: seq<Byte>)
    requires |vs| % 2 == 0
    requires forall i :: 0 <= i < |vs| ==> Wellformed(vs[i]) && Supported(vs[i])
    requires forall i :: 0 <= i < |vs| && i % 2 == 0 ==> vs[i] != Nil
    ensures DecodeEntries(EncSeq(vs) + ([TYPE_NIL] + rest)) == Ok(Read(vs, rest))
    decreases vs
  {
    hide Enc, Decode;
    var tail := [TYPE_NIL] + rest;
    if vs == [] {
      assert EncSeq(vs) + tail == tail;
      NilFirst(rest);
    } else {
      var more := EncSeq(vs[2..]) + tail;
      TwoFirst(vs);
      Regroup(Enc(vs[0]), Enc(vs[1]) + EncSeq(vs[2..]), tail);
      Regroup(Enc(vs[1]), EncSeq(vs[2..]), tail);
      RoundTrip(vs[0], Enc(vs[1]) + more);
      RoundTrip(vs[1], more);
      assert forall i :: 0 <= i < |vs[2..]| ==> vs[2..][i] == vs[i + 2];
      EntriesRoundTrip(vs[2..], rest);
      EntriesStep(EncSeq(vs) + tail, vs, Enc(vs[1]) + more, more, rest);
    }
  }

  lemma EntriesStep(bytes: seq<Byte>, vs: seq<Value>, after: seq<Byte>, more: seq<Byte>, rest: seq<Byte>)
    requires |vs| >= 2 && vs[0] != Nil
    requires Decode(bytes) == Ok(Read(vs[0], after)) && Decode(after) == Ok(Read(vs[1], more))
    requires DecodeEntries(more) == Ok(Read(vs[2..], rest))
    ensures DecodeEntries(bytes) == Ok(Read(vs, rest))
  {
    hide Decode;
    assert vs == [vs[0], vs[1]] + vs[2..];
  }

  lemma TwoFirst(vs: seq<Value>)
    requires |vs| >= 2
    ensures EncSeq(vs) == Enc(vs[0]) + (Enc(vs[1]) + EncSeq(vs[2..]))
  {
    hide Enc;
    assert vs[1..][1..] == vs[2..];
  }

  lemma NilFirst(rest: seq<Byte>)
    ensures Decode([TYPE_NIL] + rest) == Ok(Read(Nil, rest))
  {
    Cons(TYPE_NIL, [], rest);
    assert [TYPE_NIL] + rest == [TYPE_NIL] + [] + rest;
  }

  /** Any list of values survives being written and read. */
  lemma {:induction false} ListRoundTrip(vs: seq<Value>)
    requires forall i :: 0 <= i < |vs| ==> Wellformed(vs[i]) && Supported(vs[i])
    ensures DecodeAll(EncSeq(vs)) == Ok(vs)
    decreases vs
  {
    hide Enc, Decode;
    if vs != [] {
      RoundTrip(vs[0], EncSeq(vs[1..]));
      ListRoundTrip(vs[1..]);
      assert vs == [vs[0]] + vs[1..];
      assert EncSeq(vs) != [] by { EncNotEmpty(vs[0]); }
    }
  }

  lemma EncNotEmpty(v: Value)
    requires Supported(v)
    ensures Enc(v) != []
  {
  }

  // The writer.

  function Flatten(blocks: seq<seq<Byte>>): seq<Byte> {
    if blocks == [] then [] else Flatten(blocks[..|blocks| - 1]) + blocks[|blocks| - 1]
  }

  lemma FlattenSnoc(blocks: seq<seq<Byte>>, b: seq<Byte>)
    ensures Flatten(blocks + [b]) == Flatten(blocks) + b
  {
    assert (blocks + [b])[..|blocks|] == blocks;
  }

  lemma {:induction false} EncSeqSnoc(vs: seq<Value>, v: Value)
    ensures EncSeq(vs + [v]) == EncSeq(vs) + Enc(v)
  {
    hide Enc;
    if vs == [] {
      assert [] + [v] == [v] && [v][1..] == [];
    } else {
      assert (vs + [v])[0] == vs[0] && (vs + [v])[1..] == vs[1..] + [v];
      EncSeqSnoc(vs[1..], v);
      Regroup(Enc(vs[0]), EncSeq(vs[1..]), Enc(v));
    }
  }

  /** A list of blocks of fixed size, the last of which is being filled. */
  class WriteBlock {
    var blocks: seq<seq<Byte>>
    var len: int
    var ptr: int

    ghost predicate Valid()
      reads this
    {
      && blocks != [] && (forall b :: b in blocks ==> |b| == BLOCK_SIZE)
      && 0 <= ptr <= BLOCK_SIZE && len == (|blocks| - 1) * BLOCK_SIZE + ptr
    }

    /** What has been written. */
    ghost function Contents(): seq<Byte>
      reads this
      requires Valid()
    {
      Flatten(blocks[..|blocks| - 1]) + blocks[|blocks| - 1][..ptr]
    }

    constructor ()
      ensures Valid() && Contents() == []
    {
      blocks := [seq(BLOCK_SIZE, _ => 0)];
      len, ptr := 0, 0;
    }

    method Allocate()
      requires Valid() && ptr == BLOCK_SIZE
      modifies this
      ensures Valid() && ptr == 0 && len == old(len) && Contents() == old(Contents())
    {
      hide Flatten;
      var zeros := seq(BLOCK_SIZE, _ => 0);
      ghost var last := blocks[|blocks| - 1];
      assert blocks == blocks[..|blocks| - 1] + [last];
      FlattenSnoc(blocks[..|blocks| - 1], last);
      assert last[..BLOCK_SIZE] == last;
      ghost var before := blocks;
      blocks := blocks + [zeros];
      assert blocks[..|blocks| - 1] == before;
      assert zeros[..0] == [];
      ptr := 0;
    }

    /** Copies bytes that fit into the current block. */
    method Copy(buf: seq<Byte>)
      requires Valid() && ptr + |buf| <= BLOCK_SIZE
      modifies this
      ensures Valid() && ptr == old(ptr) + |buf| && Contents() == old(Contents()) + buf
    {
      hide Flatten;
      var last := blocks[|blocks| - 1];
      var block := last[..ptr] + buf + last[ptr + |buf|..];
      ghost var init := blocks[..|blocks| - 1];
      blocks := blocks[..|blocks| - 1] + [block];
      assert blocks[..|blocks| - 1] == init;
      assert block[..ptr + |buf|] == last[..ptr] + buf;
      Regroup(Flatten(init), last[..ptr], buf);
      ptr := ptr + |buf|;
      len := len + |buf|;
    }

    /** Appends bytes, across as many blocks as they take. */
    method Push(buf: seq<Byte>)
      requires Valid()
      modifies this
      ensures Valid() && Contents() == old(Contents()) + buf
    {
      hide Contents;
      var buffer := buf;
      ghost var before := Contents();
      if ptr == BLOCK_SIZE { Allocate(); }
      assert before + [] == before;
      ghost var done := [];
      while ptr > BLOCK_SIZE - |buffer|
        invariant Valid() && Contents() == before + done && done + buffer == buf
        invariant ptr < BLOCK_SIZE
        decreases |buffer|
      {
        var n := BLOCK_SIZE - ptr;
        Regroup(before, done, buffer[..n]);
        Copy(buffer[..n]);
        done := done + buffer[..n];
        buffer := buffer[n..];
        Allocate();
      }
      Regroup(before, done, buffer);
      Copy(buffer);
    }

    method WbInteger(v: int)
      requires Valid() && Wellformed(Integer(v))
      modifies this
      ensures Valid() && Contents() == old(Contents()) + EncInteger(v)
    {
      hide Contents, Valid;
      ghost var before := Contents();
      if v == 0 {
        Push([Tag(TYPE_NUMBER, TYPE_NUMBER_ZERO)]);
        return;
      }
      var tag, bytes;
      if !(-0x8000_0000 <= v < 0x8000_0000) {
        tag, bytes := Tag(TYPE_NUMBER, TYPE_NUMBER_QWORD), LittleEndian(Wrap(v, 8), 8);
      } else if v < 0 {
        tag, bytes := Tag(TYPE_NUMBER, TYPE_NUMBER_DWORD), LittleEndian(Wrap(v, 4), 4);
      } else if v < 0x100 {
        tag, bytes := Tag(TYPE_NUMBER, TYPE_NUMBER_BYTE), LittleEndian(v, 1);
      } else if v < 0x10000 {
        tag, bytes := Tag(TYPE_NUMBER, TYPE_NUMBER_WORD), LittleEndian(v, 2);
      } else {
        tag, bytes := Tag(TYPE_NUMBER, TYPE_NUMBER_DWORD), LittleEndian(v, 4);
      }
      Push([tag]);
      Push(bytes);
      Regroup(before, [tag], bytes);
    }

    method WbString(s: seq<Byte>)
      requires Valid() && |s| < 0x8000_0000
      modifies this
      ensures Valid() && Contents() == old(Contents()) + EncString(s)
    {
      hide Contents, Valid;
      ghost var before := Contents();
      if |s| < MAX_COOKIE {
        var n := Tag(TYPE_SHORT_STRING, |s|);
        Push([n]);
        if |s| > 0 { Push(s); }
        Regroup(before, [n], s);
        assert |s| == 0 ==> before + [n] + s == before + [n];
      } else {
        var width := if |s| < 0x10000 then 2 else 4;
        var n, len := Tag(TYPE_LONG_STRING, width), LittleEndian(|s|, width);
        Push([n]);
        Push(len);
        Push(s);
        Regroup(before, [n], len);
        Regroup(before, [n] + len, s);
      }
    }

    /** Writes one value; gives up on an unsupported type and on a part that lies too deep. */
    method PackOne(v: Value, depth: nat) returns (ok: bool)
      requires Valid() && Wellformed(v)
      modifies this
      ensures Valid() && ok == Packable(v, depth)
      ensures ok ==> Contents() == old(Contents()) + Enc(v)
      decreases v
    {
      hide Contents, Valid, EncInteger, EncString;
      if depth > MAX_DEPTH { return false; }
      ok := true;
      match v
      case Nil => Push([TYPE_NIL]);
      case Boolean(b) => Push([Tag(TYPE_BOOLEAN, if b then 1 else 0)]);
      case Integer(i) => WbInteger(i);
      case Real(bits) =>
        ghost var before := Contents();
        Push([Tag(TYPE_NUMBER, TYPE_NUMBER_REAL)]);
        Push(bits);
        Regroup(before, [Tag(TYPE_NUMBER, TYPE_NUMBER_REAL)], bits);
      case Pointer(address) =>
        ghost var before := Contents();
        Push([TYPE_USERDATA]);
        Push(address);
        Regroup(before, [TYPE_USERDATA], address);
      case Str(s) => WbString(s);
      case Table(items, entries) => ok := WbTable(v, depth + 1);
      case Other => ok := false;
    }

    /** Writes the header and the array part, then the other entries and a nil. */
    method WbTable(v: Value, depth: nat) returns (ok: bool)
      requires Valid() && Wellformed(v) && v.Table?
      modifies this
      ensures Valid()
      ensures ok == ((forall i :: 0 <= i < |v.items| ==> Packable(v.items[i], depth))
        && (forall i :: 0 <= i < |v.entries| ==> Packable(v.entries[i], depth)))
      ensures ok ==> Contents() == old(Contents()) + Enc(v)
      decreases v, 0
    {
      hide Contents, Valid, EncInteger, Packable, EncSeq;
      ghost var before := Contents();
      ghost var e, a, h := EncHeader(|v.items|), EncSeq(v.items), EncSeq(v.entries);
      if |v.items| >= MAX_COOKIE - 1 {
        Push([Tag(TYPE_TABLE, MAX_COOKIE - 1)]);
        WbInteger(|v.items|);
        Regroup(before, [Tag(TYPE_TABLE, MAX_COOKIE - 1)], EncInteger(|v.items|));
      } else {
        Push([Tag(TYPE_TABLE, |v.items|)]);
      }
      ok := WbSeq(v.items, depth);
      if !ok { return; }
      ok := WbSeq(v.entries, depth);
      if !ok { return; }
      Push([TYPE_NIL]);
      Regroup(before, e, a);
      Regroup(before, e + a, h);
      Regroup(before, e + a + h, [TYPE_NIL]);
    }

    method WbSeq(vs: seq<Value>, depth: nat) returns (ok: bool)
      requires Valid() && forall i :: 0 <= i < |vs| ==> Wellformed(vs[i])
      modifies this
      ensures Valid() && ok == (forall i :: 0 <= i < |vs| ==> Packable(vs[i], depth))
      ensures ok ==> Contents() == old(Contents()) + EncSeq(vs)
      decreases vs
    {
      hide Contents, Valid, Packable, Enc;
      ghost var before := Contents();
      ok := true;
      assert before + [] == before;
      for i := 0 to |vs|
        invariant Valid() && forall j :: 0 <= j < i ==> Packable(vs[j], depth)
        invariant Contents() == before + EncSeq(vs[..i])
      {
        ok := PackOne(vs[i], depth);
        if !ok { return; }
        Regroup(before, EncSeq(vs[..i]), Enc(vs[i]));
        EncSeqSnoc(vs[..i], vs[i]);
        assert vs[..i + 1] == vs[..i] + [vs[i]];
      }
      assert vs[..|vs|] == vs;
    }

    /** Copies the blocks into one buffer. */
    method Seri() returns (buffer: seq<Byte>)
      requires Valid()
      ensures buffer == Contents()
    {
      var left, b := len, 0;
      buffer := [];
      while left > 0
        invariant 0 <= b <= |blocks| && left == len - b * BLOCK_SIZE >= 0
        invariant buffer == Flatten(blocks[..b])
        decreases left
      {
        if left >= BLOCK_SIZE {
          assert blocks[..b + 1] == blocks[..b] + [blocks[b]];
          FlattenSnoc(blocks[..b], blocks[b]);
          buffer := buffer + blocks[b];
          left := left - BLOCK_SIZE;
          b := b + 1;
        } else {
          assert b == |blocks| - 1 && left == ptr;
          buffer := buffer + blocks[b][..left];
          return;
        }
      }
      ghost var last := blocks[|blocks| - 1];
      if b == |blocks| {
        assert blocks[..b] == blocks[..b - 1] + [last] && last[..ptr] == last;
        FlattenSnoc(blocks[..b - 1], last);
      } else {
        assert last[..ptr] == [];
      }
    }
  }

  /** Packs a list of values into one buffer, unless one of them cannot be packed. */
  method Pack(vs: seq<Value>) returns (r: Option<seq<Byte>>)
    requires forall i :: 0 <= i < |vs| ==> Wellformed(vs[i])
    ensures r == if forall i :: 0 <= i < |vs| ==> Packable(vs[i], 0) then Some(EncSeq(vs)) else None
  {
    hide Packable, Enc, EncSeq;
    var wb := new WriteBlock();
    var ok := wb.WbSeq(vs, 0);
    if !ok { return None; }
    var buffer := wb.Seri();
    assert [] + EncSeq(vs) == EncSeq(vs);
    r := Some(buffer);
  }

  // The reader.

  /** The values read so far, before what a stream goes on with. */
  function Joined(values: seq<Value>, m: Parsed<seq<Value>>): Parsed<seq<Value>> {
    if m.Err? then Err(m.error) else Ok(Read(values + m.value.value, m.value.rest))
  }

  lemma JoinedEnds(m: Parsed<seq<Value>>, values: seq<Value>)
    ensures Joined([], m) == m
    ensures values + [] == values
  {
    assert m.Ok? ==> [] + m.value.value == m.value.value;
  }

  lemma JoinedMore(a: seq<Value>, b: seq<Value>, m: Parsed<seq<Value>>)
    ensures Joined(a, Joined(b, m)) == Joined(a + b, m)
  {
    assert m.Ok? ==> a + (b + m.value.value) == a + b + m.value.value;
  }

  /** A cursor over a buffer. */
  class ReadBlock {
    const buffer: seq<Byte>
    var len: int
    var ptr: int

    ghost predicate Valid()
      reads this
    {
      0 <= ptr && 0 <= len && ptr + len == |buffer|
    }

    ghost function Rest(): seq<Byte>
      reads this
      requires Valid()
    {
      buffer[ptr..]
    }

    constructor (buffer: seq<Byte>)
      ensures Valid() && Rest() == buffer
    {
      this.buffer := buffer;
      len := |buffer|;
      ptr := 0;
    }

    method ReadBytes(sz: nat) returns (r: Option<seq<Byte>>)
      requires Valid()
      modifies this
      ensures Valid()
      ensures
        var t := Take(old(Rest()), sz);
        if t.Err? then r == None && len == old(len) && ptr == old(ptr)
        else r == Some(t.value.value) && Rest() == t.value.rest && len == old(len) - sz
    {
      if len < sz { return None; }
      assert Rest()[..sz] == buffer[ptr..ptr + sz] && Rest()[sz..] == buffer[ptr + sz..];
      r := Some(buffer[ptr..ptr + sz]);
      ptr := ptr + sz;
      len := len - sz;
    }

    method GetInteger(cookie: int) returns (r: Result<int, Error>)
      requires Valid()
      modifies this
      ensures Valid() && len <= old(len)
      ensures
        var t := DecodeInteger(old(Rest()), cookie);
        if t.Err? then r == Err(t.error) else r == Ok(t.value.value) && Rest() == t.value.rest
    {
      hide Pow256, Number;
      if cookie == TYPE_NUMBER_ZERO { return Ok(0); }
      var n: nat;
      if cookie == TYPE_NUMBER_BYTE {
        n := 1;
      } else if cookie == TYPE_NUMBER_WORD {
        n := 2;
      } else if cookie == TYPE_NUMBER_DWORD {
        n := 4;
      } else if cookie == TYPE_NUMBER_QWORD {
        n := 8;
      } else {
        return Err(InvalidStream);
      }
      var bytes := ReadBytes(n);
      if bytes == None { return Err(InvalidStream); }
      var x := Number(bytes.value);
      r := Ok(if n >= 4 then Signed(x, n) else x);
    }

    method GetBuffer(sz: int) returns (r: Result<seq<Byte>, Error>)
      requires Valid()
      modifies this
      ensures Valid() && len <= old(len)
      ensures
        if sz < 0 then r == Err(NegativeLength)
        else
          var t := Take(old(Rest()), sz);
          if t.Err? then r == Err(t.error) else r == Ok(t.value.value) && Rest() == t.value.rest
    {
      if sz < 0 { return Err(NegativeLength); }
      var bytes := ReadBytes(sz);
      r := if bytes == None then Err(InvalidStream) else Ok(bytes.value);
    }

    method GetLongString(width: nat) returns (r: Result<seq<Byte>, Error>)
      requires Valid()
      modifies this
      ensures Valid() && len <= old(len)
      ensures
        var t := DecodeString(old(Rest()), width);
        if t.Err? then r == Err(t.error) else r == Ok(t.value.value) && Rest() == t.value.rest
    {
      hide Number, Pow256;
      var bytes := ReadBytes(width);
      if bytes == None { return Err(InvalidStream); }
      r := GetBuffer(DecodeLength(bytes.value));
    }

    /** Reads one value; the answer is what the front of the stream decodes to. */
    method UnpackOne() returns (r: Result<Value, Error>)
      requires Valid()
      modifies this
      ensures Valid() && len <= old(len) && (r.Ok? ==> len < old(len))
      ensures
        var t := Decode(old(Rest()));
        if t.Err? then r == Err(t.error) else r == Ok(t.value.value) && Rest() == t.value.rest
      decreases len, 0
    {
      hide DecodeKind;
      ghost var all := Rest();
      var t := ReadBytes(1);
      if t == None { return Err(InvalidStream); }
      assert t.value[0] == all[0];
      r := PushValue(t.value[0] % 8, t.value[0] / 8);
    }

    method PushValue(kind: int, cookie: nat) returns (r: Result<Value, Error>)
      requires Valid()
      modifies this
      ensures Valid() && len <= old(len)
      ensures
        var t := DecodeKind(old(Rest()), kind, cookie);
        if t.Err? then r == Err(t.error) else r == Ok(t.value.value) && Rest() == t.value.rest
      decreases len, 3
    {
      hide DecodeInteger, DecodeString, DecodeTable;
      if kind == TYPE_NIL {
        r := Ok(Nil);
      } else if kind == TYPE_BOOLEAN {
        r := Ok(Boolean(cookie != 0));
      } else if kind == TYPE_NUMBER && cookie == TYPE_NUMBER_REAL {
        var b := GetBuffer(8);
        r := if b.Err? then Err(b.error) else Ok(Real(b.value));
      } else if kind == TYPE_NUMBER {
        var i := GetInteger(cookie);
        r := if i.Err? then Err(i.error) else Ok(Integer(i.value));
      } else if kind == TYPE_USERDATA {
        var b := GetBuffer(8);
        r := if b.Err? then Err(b.error) else Ok(Pointer(b.value));
      } else if kind == TYPE_SHORT_STRING {
        var b := GetBuffer(cookie);
        r := if b.Err? then Err(b.error) else Ok(Str(b.value));
      } else if kind == TYPE_LONG_STRING {
        if cookie != 2 && cookie != 4 { return Err(InvalidStream); }
        var b := GetLongString(cookie);
        r := if b.Err? then Err(b.error) else Ok(Str(b.value));
      } else if kind == TYPE_TABLE {
        r := UnpackTable(cookie);
      } else {
        r := Err(InvalidStream);
      }
    }

    method GetSize(cookie: int) returns (r: Result<int, Error>)
      requires Valid()
      modifies this
      ensures Valid() && len <= old(len)
      ensures
        var t := DecodeSize(old(Rest()), cookie);
        if t.Err? then r == Err(t.error) else r == Ok(t.value.value) && Rest() == t.value.rest
    {
      hide DecodeInteger, Pow256;
      if cookie != MAX_COOKIE - 1 { return Ok(cookie); }
      var t := ReadBytes(1);
      if t == None { return Err(InvalidStream); }
      var tag := t.value[0];
      if tag % 8 != TYPE_NUMBER || tag / 8 == TYPE_NUMBER_REAL { return Err(InvalidStream); }
      r := GetInteger(tag / 8);
      if r.Ok? { r := Ok(Signed(Wrap(r.value, 4), 4)); }
    }

    method UnpackTable(cookie: int) returns (r: Result<Value, Error>)
      requires Valid()
      modifies this
      ensures Valid() && len <= old(len)
      ensures
        var t := DecodeTable(old(Rest()), cookie);
        if t.Err? then r == Err(t.error) else r == Ok(t.value.value) && Rest() == t.value.rest
      decreases len, 2
    {
      hide DecodeSize, DecodeItems, DecodeEntries;
      var size := GetSize(cookie);
      if size.Err? { return Err(size.error); }
      var items := UnpackItems(size.value);
      if items.Err? { return Err(items.error); }
      var entries := UnpackEntries();
      r := if entries.Err? then Err(entries.error) else Ok(Table(items.value, entries.value));
    }

    method UnpackItems(n: int) returns (r: Result<seq<Value>, Error>)
      requires Valid()
      modifies this
      ensures Valid() && len <= old(len)
      ensures
        var t := DecodeItems(old(Rest()), n);
        if t.Err? then r == Err(t.error) else r == Ok(t.value.value) && Rest() == t.value.rest
      decreases len, 1
    {
      hide Decode;
      var items := [];
      var i := 1;
      ghost var all := Rest();
      JoinedEnds(DecodeItems(all, n), []);
      while i <= n
        invariant Valid() && len <= old(len) && (1 <= i <= n + 1 || n < i == 1)
        invariant DecodeItems(all, n) == Joined(items, DecodeItems(Rest(), n - i + 1))
        decreases n - i
      {
        var v := UnpackOne();
        if v.Err? { return Err(v.error); }
        JoinedMore(items, [v.value], DecodeItems(Rest(), n - i));
        items := items + [v.value];
        i := i + 1;
      }
      JoinedEnds(Err(InvalidStream), items);
      r := Ok(items);
    }

    method UnpackEntries() returns (r: Result<seq<Value>, Error>)
      requires Valid()
      modifies this
      ensures Valid() && len <= old(len)
      ensures
        var t := DecodeEntries(old(Rest()));
        if t.Err? then r == Err(t.error) else r == Ok(t.value.value) && Rest() == t.value.rest
      decreases len, 1
    {
      hide Decode;
      var entries := [];
      ghost var all := Rest();
      JoinedEnds(DecodeEntries(all), []);
      while true
        invariant Valid() && len <= old(len)
        invariant DecodeEntries(all) == Joined(entries, DecodeEntries(Rest()))
        decreases len
      {
        JoinedEnds(Err(InvalidStream), entries);
        var k := UnpackOne();
        if k.Err? { return Err(k.error); }
        if k.value == Nil { return Ok(entries); }
        var v := UnpackOne();
        if v.Err? { return Err(v.error); }
        JoinedMore(entries, [k.value, v.value], DecodeEntries(Rest()));
        entries := entries + [k.value, v.value];
      }
    }
  }

  /** Reads values until the end of the buffer. */
  method Unpack(buffer: seq<Byte>) returns (r: Result<seq<Value>, Error>)
    ensures r == DecodeAll(buffer)
  {
    hide Decode;
    var rb := new ReadBlock(buffer);
    var values := [];
    AllJoinedEnds(DecodeAll(buffer), []);
    while rb.len > 0
      invariant rb.Valid() && DecodeAll(buffer) == AllJoined(values, DecodeAll(rb.Rest()))
      decreases rb.len
    {
      var v := rb.UnpackOne();
      if v.Err? { return Err(v.error); }
      AllJoinedMore(values, v.value, DecodeAll(rb.Rest()));
      values := values + [v.value];
    }
    AllJoinedEnds(DecodeAll(rb.Rest()), values);
    r := Ok(values);
  }

  function AllJoined(values: seq<Value>, m: Result<seq<Value>, Error>): Result<seq<Value>, Error> {
    if m.Err? then Err(m.error) else Ok(values + m.value)
  }

  lemma AllJoinedEnds(m: Result<seq<Value>, Error>, values: seq<Value>)
    ensures AllJoined([], m) == m
    ensures values + [] == values
  {
    assert m.Ok? ==> [] + m.value == m.value;
  }

  lemma AllJoinedMore(a: seq<Value>, v: Value, m: Result<seq<Value>, Error>)
    ensures AllJoined(a, AllJoined([v], m)) == AllJoined(a + [v], m)
  {
    assert m.Ok? ==> a + ([v] + m.value) == a + [v] + m.value;
  }

  /** What is packed is unpacked unchanged, and packing fails only for the reasons it must. */
  method PackUnpack(vs: seq<Value>) returns (packed: Option<seq<Byte>>, r: Result<seq<Value>, Error>)
    requires forall i :: 0 <= i < |vs| ==> Wellformed(vs[i])
    ensures packed.Some? <==> forall i :: 0 <= i < |vs| ==> Supported(vs[i]) && Depth(vs[i]) <= MAX_DEPTH
    ensures packed.Some? ==> r == Ok(vs)
  {
    hide Packable, Supported, Depth, Wellformed, DecodeAll, EncSeq;
    packed := Pack(vs);
    forall i | 0 <= i < |vs|
      ensures Packable(vs[i], 0) <==> Supported(vs[i]) && Depth(vs[i]) <= MAX_DEPTH
    {
      PackableMeans(vs[i], 0);
    }
    r := Ok([]);
    if packed.Some? {
      r := Unpack(packed.value);
      ListRoundTrip(vs);
    }
  }
}
