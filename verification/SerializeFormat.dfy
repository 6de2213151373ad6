/** The format of the serializer: which tags a stream may have, and that packing wastes nothing: no
    stream that unpacks to the same values is shorter. */
module SerializeFormat {
  import opened Wrappers
  import opened Serialize

  lemma IntegerLength(i: int)
    ensures |EncInteger(i)| <= 9 && (i == 0 ==> |EncInteger(i)| == 1)
    ensures 0 <= i < 0x100 ==> |EncInteger(i)| <= 2
    ensures 0 <= i < 0x1_0000 ==> |EncInteger(i)| <= 3
    ensures -0x8000_0000 <= i < 0x8000_0000 ==> |EncInteger(i)| <= 5
  {
    hide LittleEndian, Wrap;
  }

  /** An integer as wide as the one read is written in no more bytes. */
  lemma IntegerShortest(bytes: seq<Byte>, cookie: int)
    ensures
      var r := DecodeInteger(bytes, cookie);
      r.Ok? ==>
        && |EncInteger(r.value.value)| - 1 <= |bytes| - |r.value.rest|
        && |EncInteger(Signed(Wrap(r.value.value, 4), 4))| - 1 <= |bytes| - |r.value.rest|
  {
    hide LittleEndian, EncInteger, Number, Pow256, Wrap, Signed;
    var r := DecodeInteger(bytes, cookie);
    if r.Ok? {
      var i := r.value.value;
      var n := |bytes| - |r.value.rest|;
      IntegerLength(i);
      IntegerLength(Signed(Wrap(i, 4), 4));
      CutRange(i);
      if cookie != TYPE_NUMBER_ZERO {
        var x := Number(bytes[..n]);
        NumberBound(bytes[..n]);
        Powers();
        if n >= 4 { SignedRange(x, n); }
      }
    }
  }

  lemma CutRange(i: int)
    ensures -0x8000_0000 <= Signed(Wrap(i, 4), 4) < 0x8000_0000
    ensures -0x8000_0000 <= i < 0x8000_0000 ==> Signed(Wrap(i, 4), 4) == i
  {
    hide Pow256;
    Powers();
    if -0x8000_0000 <= i < 0x8000_0000 { SignedOfWrap(i, 4); }
  }

  lemma SignedRange(x: nat, n: nat)
    requires (n == 4 || n == 8) && x < Pow256(n)
    ensures n == 4 ==> -0x8000_0000 <= Signed(x, n) < 0x8000_0000
  {
    hide Pow256;
    Powers();
  }

  lemma SizeShortest(bytes: seq<Byte>, cookie: nat)
    requires cookie < MAX_COOKIE
    ensures
      var r := DecodeSize(bytes, cookie);
      r.Ok? ==> |EncHeader(if r.value.value < 0 then 0 else r.value.value)| - 1 <= |bytes| - |r.value.rest|
  {
    hide EncInteger, DecodeInteger, Wrap, Signed;
    if cookie == MAX_COOKIE - 1 && bytes != [] { IntegerShortest(bytes[1..], bytes[0] / 8); }
  }

  lemma StringLength(s: seq<Byte>)
    ensures |EncString(s)| == |s| + (if |s| < MAX_COOKIE then 1 else if |s| < 0x1_0000 then 3 else 5)
  {
    hide LittleEndian;
  }

  lemma StringShortest(bytes: seq<Byte>, width: nat)
    requires width == 2 || width == 4
    ensures
      var r := DecodeString(bytes, width);
      r.Ok? ==> |EncString(r.value.value)| - 1 <= |bytes| - |r.value.rest|
  {
    hide EncString, Number, Pow256;
    var r := DecodeString(bytes, width);
    if r.Ok? {
      StringLength(r.value.value);
      NumberBound(bytes[..width]);
      Powers();
    }
  }

  lemma EncSeqFirst(v: Value, vs: seq<Value>)
    ensures EncSeq([v] + vs) == Enc(v) + EncSeq(vs)
  {
    hide Enc;
    assert ([v] + vs)[1..] == vs;
  }

  /** A value is written in no more bytes than it was read from. */
  lemma {:induction false} ValueShortest(bytes: seq<Byte>)
    ensures var r := Decode(bytes); r.Ok? ==> |Enc(r.value.value)| <= |bytes| - |r.value.rest|
    decreases |bytes|, 0
  {
    hide Enc, DecodeTable, DecodeInteger, DecodeString, EncInteger, EncString;
    if bytes != [] {
      var rest, kind, cookie := bytes[1..], bytes[0] % 8, bytes[0] / 8;
      var r := Decode(bytes);
      if r.Ok? {
        EncOf(r.value.value);
        if kind == TYPE_NUMBER && cookie != TYPE_NUMBER_REAL { IntegerShortest(rest, cookie); }
        else if kind == TYPE_SHORT_STRING { StringLength(r.value.value.s); }
        else if kind == TYPE_LONG_STRING { StringShortest(rest, cookie); }
        else if kind == TYPE_TABLE { TableShortest(rest, cookie); }
      }
    }
  }

  lemma EncOf(v: Value)
    ensures
      match v
      case Nil => |Enc(v)| == 1
      case Boolean(_) => |Enc(v)| == 1
      case Integer(i) => Enc(v) == EncInteger(i)
      case Real(bits) => |Enc(v)| == 1 + |bits|
      case Pointer(address) => |Enc(v)| == 1 + |address|
      case Str(s) => Enc(v) == EncString(s)
      case Table(items, entries) => |Enc(v)| == |EncHeader(|items|)| + |EncSeq(items)| + |EncSeq(entries)| + 1
      case Other => |Enc(v)| == 0
  {
    hide EncInteger, EncString, EncHeader, EncSeq;
  }

  lemma {:induction false} TableShortest(rest: seq<Byte>, cookie: nat)
    requires cookie < MAX_COOKIE
    ensures var r := DecodeTable(rest, cookie); r.Ok? ==> |Enc(r.value.value)| - 1 <= |rest| - |r.value.rest|
    decreases |rest|, 3
  {
    hide Enc, DecodeSize, DecodeItems, DecodeEntries, EncHeader, EncSeq;
    var size := DecodeSize(rest, cookie);
    if size.Ok? {
      SizeShortest(rest, cookie);
      var items := DecodeItems(size.value.rest, size.value.value);
      if items.Ok? {
        ItemsShortest(size.value.rest, size.value.value);
        EntriesShortest(items.value.rest);
        var entries := DecodeEntries(items.value.rest);
        if entries.Ok? { EncOf(Table(items.value.value, entries.value.value)); }
      }
    }
  }

  lemma {:induction false} ItemsShortest(bytes: seq<Byte>, n: int)
    ensures
      var r := DecodeItems(bytes, n);
      r.Ok? ==> |r.value.value| == (if n < 0 then 0 else n) && |EncSeq(r.value.value)| <= |bytes| - |r.value.rest|
    decreases |bytes|, 1
  {
    hide Enc, Decode, EncSeq;
    if n > 0 {
      var v := Decode(bytes);
      if v.Ok? {
        ValueShortest(bytes);
        ItemsShortest(v.value.rest, n - 1);
        var more := DecodeItems(v.value.rest, n - 1);
        if more.Ok? { EncSeqFirst(v.value.value, more.value.value); }
      }
    } else {
      assert EncSeq([]) == [] by { EncNone(); }
    }
  }

  lemma EncNone()
    ensures EncSeq([]) == []
  {
  }

  lemma {:induction false} EntriesShortest(bytes: seq<Byte>)
    ensures
      var r := DecodeEntries(bytes);
      r.Ok? ==> |EncSeq(r.value.value)| + 1 <= |bytes| - |r.value.rest|
    decreases |bytes|, 1
  {
    hide Enc, Decode, EncSeq;
    var k := Decode(bytes);
    if k.Ok? {
      ValueShortest(bytes);
      if k.value.value == Nil {
        EncNone();
        EncOf(Nil);
      } else {
        ValueShortest(k.value.rest);
        var v := Decode(k.value.rest);
        if v.Ok? {
          EntriesShortest(v.value.rest);
          var more := DecodeEntries(v.value.rest);
          if more.Ok? {
            EncSeqFirst(v.value.value, more.value.value);
            EncSeqFirst(k.value.value, [v.value.value] + more.value.value);
            assert [k.value.value] + ([v.value.value] + more.value.value) == [k.value.value, v.value.value] + more.value.value;
          }
        }
      }
    }
  }

  /** Of all streams that unpack to the same values, none is shorter than the packed ones. */
  lemma {:induction false} PackedIsShortest(bytes: seq<Byte>, vs: seq<Value>)
    requires DecodeAll(bytes) == Ok(vs)
    ensures |EncSeq(vs)| <= |bytes|
    decreases |bytes|
  {
    hide Enc, Decode, EncSeq;
    if bytes == [] {
      EncNone();
    } else {
      ValueShortest(bytes);
      var v := Decode(bytes);
      var more := DecodeAll(v.value.rest);
      PackedIsShortest(v.value.rest, more.value);
      EncSeqFirst(v.value.value, more.value);
    }
  }

  // Which tags are read.

  /** The kinds of values, and what may come with each of them in the upper five bits. */
  predicate Known(tag: Byte) {
    var kind, cookie := tag % 8, tag / 8;
    || kind in {TYPE_NIL, TYPE_BOOLEAN, TYPE_USERDATA, TYPE_SHORT_STRING, TYPE_TABLE}
    || (kind == TYPE_NUMBER &&
        cookie in {TYPE_NUMBER_ZERO, TYPE_NUMBER_BYTE, TYPE_NUMBER_WORD, TYPE_NUMBER_DWORD, TYPE_NUMBER_QWORD, TYPE_NUMBER_REAL})
    || (kind == TYPE_LONG_STRING && cookie in {2, 4})
  }

  function Zeros(n: nat): (r: seq<Byte>)
    ensures |r| == n
  {
    seq(n, _ => 0)
  }

  lemma {:induction false} ZerosAreNothing(n: nat)
    ensures Number(Zeros(n)) == 0
  {
    if n > 0 {
      assert Zeros(n)[1..] == Zeros(n - 1);
      ZerosAreNothing(n - 1);
    }
  }

  lemma TakeZeros(n: nat)
    ensures Take(Zeros(n), n) == Ok(Read(Zeros(n), []))
  {
    assert Zeros(n)[..n] == Zeros(n) && Zeros(n)[n..] == [];
  }

  /** A table of as many nils as its tag says, and the nil that ends it. */
  lemma {:induction false} NilItems(n: nat)
    ensures DecodeItems(Zeros(n + 1), n).Ok? && DecodeItems(Zeros(n + 1), n).value.rest == [0]
  {
    if n == 0 {
      assert Zeros(1) == [0];
    } else {
      assert Zeros(n + 1)[0] == 0 && Zeros(n + 1)[1..] == Zeros(n);
      assert Decode(Zeros(n + 1)) == Ok(Read(Nil, Zeros(n)));
      NilItems(n - 1);
    }
  }

  lemma NilEntries()
    ensures DecodeEntries([0]) == Ok(Read([], []))
  {
    assert Decode([0]) == Ok(Read(Nil, []));
  }

  /** What can follow a known tag. */
  function Filler(tag: Byte): seq<Byte> {
    var kind, cookie := tag % 8, tag / 8;
    if kind == TYPE_NUMBER then
      Zeros(if cookie == TYPE_NUMBER_BYTE then 1 else if cookie == TYPE_NUMBER_WORD then 2 else if cookie == TYPE_NUMBER_DWORD then 4
            else if cookie == TYPE_NUMBER_ZERO then 0 else 8)
    else if kind == TYPE_USERDATA then Zeros(8)
    else if kind in {TYPE_SHORT_STRING, TYPE_LONG_STRING} then Zeros(cookie)
    else if kind == TYPE_TABLE then (if cookie == MAX_COOKIE - 1 then [TYPE_NUMBER, 0] else Zeros(cookie + 1))
    else []
  }

  lemma FilledIsRead(tag: Byte)
    requires Known(tag)
    ensures Decode([tag] + Filler(tag)).Ok?
  {
    hide DecodeItems, DecodeEntries, Number;
    var kind, cookie, rest := tag % 8, tag / 8, Filler(tag);
    assert ([tag] + rest)[1..] == rest;
    TakeZeros(|rest|);
    if kind == TYPE_LONG_STRING {
      ZerosAreNothing(cookie);
    } else if kind == TYPE_TABLE {
      FilledTable(cookie);
    }
  }

  lemma FilledTable(cookie: nat)
    requires cookie < MAX_COOKIE
    ensures DecodeTable(if cookie == MAX_COOKIE - 1 then [TYPE_NUMBER, 0] else Zeros(cookie + 1), cookie).Ok?
  {
    hide DecodeItems, DecodeEntries, Number;
    NilEntries();
    if cookie == MAX_COOKIE - 1 {
      var rest: seq<Byte> := [TYPE_NUMBER, 0];
      assert rest[1..] == [0] && rest[..1] == [TYPE_NUMBER];
      var size := DecodeSize(rest, cookie);
      CutNothing();
      assert size.Ok? && size.value.value == 0 && size.value.rest == [0];
      NoItems([0]);
    } else {
      NilItems(cookie);
      var size := DecodeSize(Zeros(cookie + 1), cookie);
      assert size.Ok? && size.value.value == cookie && size.value.rest == Zeros(cookie + 1);
    }
  }

  lemma CutNothing()
    ensures Signed(Wrap(0, 4), 4) == 0
  {
    Powers();
  }

  lemma NoItems(bytes: seq<Byte>)
    ensures DecodeItems(bytes, 0) == Ok(Read([], bytes))
  {
  }

  /** A stream that begins with a tag can be read if and only if the tag is a known one; how it has to
      go on is another matter. */
  lemma TagsExactly(tag: Byte)
    ensures (exists rest: seq<Byte> :: Decode([tag] + rest).Ok?) <==> Known(tag)
  {
    if Known(tag) {
      FilledIsRead(tag);
    } else {
      forall rest: seq<Byte> ensures Decode([tag] + rest).Err? { assert ([tag] + rest)[1..] == rest; }
    }
  }
}
