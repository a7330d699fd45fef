/** Packing values into bytes and back. */
module Seri {
  import opened Seqs

  newtype byte = x: int | 0 <= x < 256

  type Bytes = seq<byte>

  /** Floating point numbers and pointers are their eight bytes.  A table is its array part, in which values may
      be missing, and the other entries in the order in which they are visited. */
  datatype Value =
    | Nil | Boolean(b: bool) | Integer(n: int) | Real(bits: Bytes) | Pointer(address: Bytes) | Text(s: Bytes)
    | Table(items: seq<Value>, entries: seq<Entry>)

  datatype Entry = Entry(key: Value, value: Value)

  const MAX_COOKIE := 32
  const MAX_DEPTH := 32
  const WORD := 0x1_0000
  const DWORD := 0x1_0000_0000
  const QWORD := 0x1_0000_0000_0000_0000

  // ---------------------------------------------------------------- numbers

  /** `n` in `k` bytes, the lowest first. */
  function Little(n: nat, k: nat): (bs: Bytes)
    ensures |bs| == k
  {
    if k == 0 then [] else [(n % 256) as byte] + Little(n / 256, k - 1)
  }

  function Number(bs: Bytes): nat { if bs == [] then 0 else bs[0] as int + 256 * Number(bs[1..]) }

  function Power(k: nat): nat { if k == 0 then 1 else 256 * Power(k - 1) }

  lemma {:induction false} NumberLittle(n: nat, k: nat)
    requires n < Power(k)
    ensures Number(Little(n, k)) == n
  {
    if k > 0 {
      assert n / 256 < Power(k - 1);
      NumberLittle(n / 256, k - 1);
      assert Little(n, k)[1..] == Little(n / 256, k - 1);
    }
  }

  lemma Powers()
    ensures Power(1) == 256 && Power(2) == WORD && Power(4) == DWORD && Power(8) == QWORD
  {
    assert Power(0) == 1 && Power(1) == 256 && Power(2) == WORD;
    assert Power(3) == 256 * WORD && Power(4) == DWORD;
    assert Power(5) == 256 * DWORD && Power(6) == WORD * DWORD;
    assert Power(7) == 256 * WORD * DWORD && Power(8) == QWORD;
  }

  /** A signed number in two's complement. */
  function Signed(n: nat, size: nat): int { if n < size / 2 then n else n - size }

  function Unsigned(n: int, size: nat): int { if n < 0 then n + size else n }

  // ---------------------------------------------------------------- what is written

  /** A byte for a type and what its higher bits say. */
  function Combine(t: nat, v: nat): byte
    requires t < 8 && v < MAX_COOKIE
  {
    (t + 8 * v) as byte
  }

  predicate Small(n: int) { -0x8000_0000 <= n < 0x8000_0000 }

  function EncodeInteger(n: int): Bytes
    requires -QWORD / 2 <= n < QWORD / 2
  {
    if n == 0 then [Combine(2, 0)]
    else if !Small(n) then [Combine(2, 6)] + Little(Unsigned(n, QWORD), 8)
    else if n < 0 then [Combine(2, 4)] + Little(Unsigned(n, DWORD), 4)
    else if n < 0x100 then [Combine(2, 1)] + Little(n, 1)
    else if n < WORD then [Combine(2, 2)] + Little(n, 2)
    else [Combine(2, 4)] + Little(n, 4)
  }

  function EncodeText(s: Bytes): Bytes
    requires |s| < DWORD / 2
  {
    if |s| < MAX_COOKIE then [Combine(4, |s|)] + s
    else if |s| < WORD then [Combine(5, 2)] + Little(|s|, 2) + s
    else [Combine(5, 4)] + Little(|s|, 4) + s
  }

  function EncodeSize(n: nat): Bytes
    requires n < DWORD / 2
  {
    if n >= MAX_COOKIE - 1 then [Combine(6, MAX_COOKIE - 1)] + EncodeInteger(n) else [Combine(6, n)]
  }

  /** What a value of the interpreter is: numbers of 64 bits, no entry without key or value. */
  predicate Packable(v: Value) {
    match v
    case Integer(n) => -QWORD / 2 <= n < QWORD / 2
    case Real(bits) => |bits| == 8
    case Pointer(address) => |address| == 8
    case Text(s) => |s| < DWORD / 2
    case Table(items, entries) =>
      && |items| < DWORD / 2 && (forall i :: 0 <= i < |items| ==> Packable(items[i]))
      && forall i :: 0 <= i < |entries| ==>
           Packable(entries[i].key) && Packable(entries[i].value) && entries[i].key != Nil && entries[i].value != Nil
    case _ => true
  }

  function Encode(v: Value): (bs: Bytes)
    requires Packable(v)
    ensures |bs| > 0
    decreases v, 1
  {
    match v
    case Nil => [Combine(0, 0)]
    case Boolean(b) => [Combine(1, if b then 1 else 0)]
    case Integer(n) => EncodeInteger(n)
    case Real(bits) => [Combine(2, 8)] + bits
    case Pointer(address) => [Combine(3, 0)] + address
    case Text(s) => EncodeText(s)
    case Table(items, entries) => EncodeSize(|items|) + EncodeItems(v, 0) + EncodeEntries(v, 0)
  }

  /** The items from number `i` on. */
  function EncodeItems(t: Value, i: nat): Bytes
    requires t.Table? && Packable(t) && i <= |t.items|
    decreases t, 0, |t.items| - i
  {
    if i == |t.items| then [] else Encode(t.items[i]) + EncodeItems(t, i + 1)
  }

  /** The entries from number `i` on, and what ends them. */
  function EncodeEntries(t: Value, i: nat): Bytes
    requires t.Table? && Packable(t) && i <= |t.entries|
    decreases t, 0, |t.entries| - i
  {
    if i == |t.entries| then [Combine(0, 0)]
    else Encode(t.entries[i].key) + Encode(t.entries[i].value) + EncodeEntries(t, i + 1)
  }

  // ---------------------------------------------------------------- what is read

  datatype Decoded<T> = Invalid | Got(v: T, rest: Bytes)

  function Read(bs: Bytes, n: nat): Decoded<Bytes> { if |bs| < n then Invalid else Got(bs[..n], bs[n..]) }

  function DecodeInteger(cookie: nat, bs: Bytes): (r: Decoded<int>)
    ensures r.Got? ==> |r.rest| <= |bs|
  {
    if cookie == 0 then Got(0, bs)
    else if cookie == 1 then DecodeNumber(bs, 1)
    else if cookie == 2 then DecodeNumber(bs, 2)
    else if cookie == 4 then DecodeSigned(bs, 4, DWORD)
    else if cookie == 6 then DecodeSigned(bs, 8, QWORD)
    else Invalid
  }

  function DecodeNumber(bs: Bytes, n: nat): (r: Decoded<int>)
    ensures r.Got? ==> |r.rest| <= |bs|
  {
    var b := Read(bs, n);
    if b.Invalid? then Invalid else Got(Number(b.v), b.rest)
  }

  function DecodeSigned(bs: Bytes, n: nat, size: nat): (r: Decoded<int>)
    ensures r.Got? ==> |r.rest| <= |bs|
  {
    var b := Read(bs, n);
    if b.Invalid? then Invalid else Got(Signed(Number(b.v), size), b.rest)
  }

  function DecodeText(bs: Bytes, n: nat): (r: Decoded<Value>)
    ensures r.Got? ==> |r.rest| <= |bs|
  {
    var b := Read(bs, n);
    if b.Invalid? then Invalid else Got(Text(b.v), b.rest)
  }

  /** A text whose length comes first, in `n` bytes. */
  function DecodeLong(bs: Bytes, n: nat): (r: Decoded<Value>)
    ensures r.Got? ==> |r.rest| <= |bs|
  {
    var b := Read(bs, n);
    if b.Invalid? then Invalid else DecodeText(b.rest, Number(b.v))
  }

  /** What is left of an integer in a C `int`. */
  function Truncated(n: int): (r: int)
    ensures -DWORD / 2 <= n < DWORD / 2 ==> r == n
  {
    Signed(n % DWORD, DWORD)
  }

  /** The number of items, with which a table begins; the variable for it has 32 bits. */
  function DecodeSize(cookie: nat, bs: Bytes): (r: Decoded<int>)
    ensures r.Got? ==> |r.rest| <= |bs|
  {
    if cookie != MAX_COOKIE - 1 then Got(cookie, bs)
    else if bs == [] || bs[0] % 8 != 2 || bs[0] / 8 == 8 then Invalid
    else
      var n := DecodeInteger(bs[0] as int / 8, bs[1..]);
      if n.Invalid? then Invalid else Got(Truncated(n.v), n.rest)
  }

  function Decode(bs: Bytes): (r: Decoded<Value>)
    ensures r.Got? ==> |r.rest| < |bs|
    decreases |bs|, 1
  {
    if bs == [] then Invalid
    else
      var t, cookie, body := bs[0] as int % 8, bs[0] as int / 8, bs[1..];
      match t
      case 0 => Got(Nil, body)
      case 1 => Got(Boolean(cookie != 0), body)
      case 2 =>
        if cookie == 8 then
          var b := Read(body, 8);
          if b.Invalid? then Invalid else Got(Real(b.v), b.rest)
        else
          var n := DecodeInteger(cookie, body);
          if n.Invalid? then Invalid else Got(Integer(n.v), n.rest)
      case 3 =>
        var b := Read(body, 8);
        if b.Invalid? then Invalid else Got(Pointer(b.v), b.rest)
      case 4 => DecodeText(body, cookie)
      case 5 => if cookie == 2 then DecodeLong(body, 2) else if cookie == 4 then DecodeLong(body, 4) else Invalid
      case 6 =>
        var n := DecodeSize(cookie, body);
        if n.Invalid? then Invalid
        else
          var items := DecodeItems(n.v, n.rest);
          if items.Invalid? then Invalid
          else
            var entries := DecodeEntries(items.rest);
            if entries.Invalid? then Invalid else Got(Table(items.v, entries.v), entries.rest)
      case _ => Invalid
  }

  /** `n` values. */
  function DecodeItems(n: int, bs: Bytes): (r: Decoded<seq<Value>>)
    ensures r.Got? ==> |r.rest| <= |bs|
    decreases |bs|, 2, n
  {
    if n <= 0 then Got([], bs)
    else
      var one := Decode(bs);
      if one.Invalid? then Invalid
      else
        var more := DecodeItems(n - 1, one.rest);
        if more.Invalid? then Invalid else Got([one.v] + more.v, more.rest)
  }

  /** Keys and values up to a missing key. */
  function DecodeEntries(bs: Bytes): (r: Decoded<seq<Entry>>)
    ensures r.Got? ==> |r.rest| < |bs|
    decreases |bs|, 2
  {
    var k := Decode(bs);
    if k.Invalid? then Invalid
    else if k.v == Nil then Got([], k.rest)
    else
      var v := Decode(k.rest);
      if v.Invalid? then Invalid
      else
        var more := DecodeEntries(v.rest);
        if more.Invalid? then Invalid else Got([Entry(k.v, v.v)] + more.v, more.rest)
  }

  // ---------------------------------------------------------------- reading what was written

  lemma ReadOver(a: Bytes, rest: Bytes)
    ensures Read(a + rest, |a|) == Got(a, rest)
  {
  }

  lemma NumberOver(n: nat, k: nat, rest: Bytes)
    requires n < Power(k)
    ensures Read(Little(n, k) + rest, k) == Got(Little(n, k), rest) && Number(Little(n, k)) == n
  {
    ReadOver(Little(n, k), rest);
    NumberLittle(n, k);
  }

  /** What follows the first byte. */
  lemma Behind(b: byte, a: Bytes, rest: Bytes)
    ensures ([b] + a + rest)[0] == b && ([b] + a + rest)[1..] == a + rest && [b] + a + rest != []
  {
  }

  lemma Parts(t: nat, v: nat)
    requires t < 8 && v < MAX_COOKIE
    ensures Combine(t, v) as int % 8 == t && Combine(t, v) as int / 8 == v
    ensures Combine(t, v) % 8 == t as byte && Combine(t, v) / 8 == v as byte
  {
  }

  /** An integer comes back, and says itself what it is. */
  lemma IntegerOver(n: int, rest: Bytes)
    requires -QWORD / 2 <= n < QWORD / 2
    ensures var bs := EncodeInteger(n) + rest;
            && bs != [] && bs[0] as int % 8 == 2 && bs[0] as int / 8 < 8
            && DecodeInteger(bs[0] as int / 8, bs[1..]) == Got(n, rest)
  {
    Powers();
    if n == 0 {
      Parts(2, 0);
      assert ([Combine(2, 0)] + rest)[1..] == rest;
    } else if !Small(n) {
      IntegerParts(6, Unsigned(n, QWORD), 8, rest);
    } else if n < 0 {
      IntegerParts(4, Unsigned(n, DWORD), 4, rest);
    } else if n < 0x100 {
      IntegerParts(1, n, 1, rest);
    } else if n < WORD {
      IntegerParts(2, n, 2, rest);
    } else {
      IntegerParts(4, n, 4, rest);
    }
  }

  lemma IntegerParts(cookie: nat, n: nat, k: nat, rest: Bytes)
    requires cookie < 8 && n < Power(k)
    ensures var bs := [Combine(2, cookie)] + Little(n, k) + rest;
            && bs != [] && bs[0] as int % 8 == 2 && bs[0] as int / 8 == cookie
            && Read(bs[1..], k) == Got(Little(n, k), rest) && Number(Little(n, k)) == n
  {
    Parts(2, cookie);
    Behind(Combine(2, cookie), Little(n, k), rest);
    NumberOver(n, k, rest);
  }

  lemma TextOver(s: Bytes, rest: Bytes)
    requires |s| < DWORD / 2
    ensures Decode(EncodeText(s) + rest) == Got(Text(s), rest)
  {
    Powers();
    if |s| < MAX_COOKIE {
      Parts(4, |s|);
      Behind(Combine(4, |s|), s, rest);
      ReadOver(s, rest);
    } else if |s| < WORD {
      LongOver(2, s, rest);
    } else {
      LongOver(4, s, rest);
    }
  }

  lemma LongOver(k: nat, s: Bytes, rest: Bytes)
    requires (k == 2 || k == 4) && |s| < Power(k)
    ensures Decode([Combine(5, k)] + Little(|s|, k) + s + rest) == Got(Text(s), rest)
  {
    var size := Little(|s|, k);
    Parts(5, k);
    Assoc4([Combine(5, k)], size, s, rest);
    assert [Combine(5, k)] + size + s + rest == [Combine(5, k)] + (size + s) + rest by { Assoc([Combine(5, k)], size, s); }
    Behind(Combine(5, k), size + s, rest);
    Assoc(size, s, rest);
    NumberOver(|s|, k, s + rest);
    ReadOver(s, rest);
  }

  lemma SizeOver(n: nat, rest: Bytes)
    requires n < DWORD / 2
    ensures var bs := EncodeSize(n) + rest;
            && bs != [] && bs[0] as int % 8 == 6 && DecodeSize(bs[0] as int / 8, bs[1..]) == Got(n, rest)
  {
    if n >= MAX_COOKIE - 1 {
      Parts(6, MAX_COOKIE - 1);
      Behind(Combine(6, MAX_COOKIE - 1), EncodeInteger(n), rest);
      IntegerOver(n, rest);
    } else {
      Parts(6, n);
      assert ([Combine(6, n)] + rest)[1..] == rest;
    }
  }

  /** A packed value, whatever follows it, is read as that value. */
  lemma {:induction false} RoundTrip(v: Value, rest: Bytes)
    requires Packable(v)
    ensures Decode(Encode(v) + rest) == Got(v, rest)
    decreases v, 1
  {
    match v
    case Nil => Parts(0, 0); assert ([Combine(0, 0)] + rest)[1..] == rest;
    case Boolean(b) =>
      Parts(1, if b then 1 else 0);
      assert ([Combine(1, if b then 1 else 0)] + rest)[1..] == rest;
    case Integer(n) => IntegerOver(n, rest);
    case Real(bits) => Parts(2, 8); Behind(Combine(2, 8), bits, rest); ReadOver(bits, rest);
    case Pointer(address) => Parts(3, 0); Behind(Combine(3, 0), address, rest); ReadOver(address, rest);
    case Text(s) => TextOver(s, rest);
    case Table(items, entries) =>
      ItemsOver(v, 0, EncodeEntries(v, 0) + rest);
      EntriesOver(v, 0, rest);
      assert items[0..] == items && entries[0..] == entries;
      TableOver(v, rest);
  }

  lemma TableOver(v: Value, rest: Bytes)
    requires v.Table? && Packable(v)
    requires DecodeItems(|v.items|, EncodeItems(v, 0) + (EncodeEntries(v, 0) + rest)) == Got(v.items, EncodeEntries(v, 0) + rest)
    requires DecodeEntries(EncodeEntries(v, 0) + rest) == Got(v.entries, rest)
    ensures Decode(Encode(v) + rest) == Got(v, rest)
  {
    var a, b, c := EncodeSize(|v.items|), EncodeItems(v, 0), EncodeEntries(v, 0);
    assert Encode(v) == a + b + c;
    Assoc(a + b, c, rest);
    Assoc(a, b, c + rest);
    SizeOver(|v.items|, b + (c + rest));
  }

  lemma {:induction false} ItemsOver(t: Value, i: nat, rest: Bytes)
    requires t.Table? && Packable(t) && i <= |t.items|
    ensures DecodeItems(|t.items| - i, EncodeItems(t, i) + rest) == Got(t.items[i..], rest)
    decreases t, 0, |t.items| - i
  {
    if i == |t.items| {
      assert [] + rest == rest && t.items[i..] == [];
      assert DecodeItems(0, rest) == Got([], rest);
    } else {
      var a, b := Encode(t.items[i]), EncodeItems(t, i + 1);
      Assoc(a, b, rest);
      RoundTrip(t.items[i], b + rest);
      ItemsOver(t, i + 1, rest);
      assert [t.items[i]] + t.items[i + 1..] == t.items[i..];
    }
  }

  lemma {:induction false} EntriesOver(t: Value, i: nat, rest: Bytes)
    requires t.Table? && Packable(t) && i <= |t.entries|
    ensures DecodeEntries(EncodeEntries(t, i) + rest) == Got(t.entries[i..], rest)
    decreases t, 0, |t.entries| - i
  {
    if i == |t.entries| {
      Parts(0, 0);
      var end := [Combine(0, 0)] + rest;
      assert end[0] == Combine(0, 0) && end[1..] == rest;
      assert Decode(end) == Got(Nil, rest);
      assert DecodeEntries(end) == Got([], rest) && t.entries[i..] == [];
    } else {
      var e := t.entries[i];
      var a, b, c := Encode(e.key), Encode(e.value), EncodeEntries(t, i + 1);
      Assoc(a + b, c, rest);
      Assoc(a, b, c + rest);
      RoundTrip(e.key, b + (c + rest));
      RoundTrip(e.value, c + rest);
      EntriesOver(t, i + 1, rest);
      assert [e] + t.entries[i + 1..] == t.entries[i..];
    }
  }

  // ---------------------------------------------------------------- writing

  const BLOCK_SIZE := 128

  /** The bytes in `n` full blocks. */
  function InBlocks(n: nat): nat { 128 * n }

  /** All bytes of some blocks. */
  ghost function Flat(bs: seq<array<byte>>): Bytes
    reads bs
  {
    if bs == [] then [] else Flat(bs[..|bs| - 1]) + bs[|bs| - 1][..]
  }

  /** The packed values: a chain of blocks, of which the last has room from `ptr` on. */
  class WriteBlock {
    var blocks: seq<array<byte>>
    var len: nat
    var ptr: nat

    ghost predicate Valid() reads this {
      && blocks != [] && ptr <= BLOCK_SIZE && len == InBlocks(|blocks| - 1) + ptr
      && (forall i :: 0 <= i < |blocks| ==> blocks[i].Length == BLOCK_SIZE)
      && forall i, j :: 0 <= i < j < |blocks| ==> blocks[i] != blocks[j]
    }

    /** The blocks. */
    ghost function Repr(): set<array<byte>> reads this { set b | b in blocks }

    ghost function Contents(): Bytes
      requires Valid()
      reads this, Repr()
    {
      Flat(blocks[..|blocks| - 1]) + blocks[|blocks| - 1][..ptr]
    }

    constructor ()
      ensures Valid() && Contents() == [] && fresh(Repr())
    {
      var b := new byte[BLOCK_SIZE];
      blocks := [b];
      len, ptr := 0, 0;
    }

    /** A new block, when the last one is full. */
    method AddBlock()
      requires Valid() && ptr == BLOCK_SIZE
      modifies this
      ensures Valid() && ptr == 0 && len == old(len) && Contents() == old(Contents())
      ensures |blocks| == |old(blocks)| + 1 && blocks[..|old(blocks)|] == old(blocks) && fresh(blocks[|blocks| - 1])
    {
      var b := new byte[BLOCK_SIZE];
      var last := blocks[|blocks| - 1];
      assert last[..ptr] == last[..];
      assert (blocks + [b])[..|blocks|] == blocks;
      blocks := blocks + [b];
      ptr := 0;
    }

    /** Bytes that fit into the last block. */
    method Copy(bs: Bytes)
      requires Valid() && ptr + |bs| <= BLOCK_SIZE
      modifies this`len, this`ptr, blocks[|blocks| - 1]
      ensures Valid() && Contents() == old(Contents()) + bs && ptr == old(ptr) + |bs|
    {
      var current := blocks[|blocks| - 1];
      ghost var full := blocks[..|blocks| - 1];
      forall k | 0 <= k < |bs| { current[ptr + k] := bs[k]; }
      assert current[..ptr + |bs|] == old(current[..ptr]) + bs;
      Assoc(Flat(full), old(current[..ptr]), bs);
      ptr := ptr + |bs|;
      len := len + |bs|;
    }

    method Push(bs: Bytes)
      requires Valid()
      modifies this, Repr()
      ensures Valid() && Contents() == old(Contents()) + bs && fresh(Repr() - old(Repr()))
      decreases |bs|
    {
      if ptr == BLOCK_SIZE { AddBlock(); }
      if ptr + |bs| <= BLOCK_SIZE {
        Copy(bs);
      } else {
        var copy := BLOCK_SIZE - ptr;
        ghost var before := Contents();
        Copy(bs[..copy]);
        Assoc(before, bs[..copy], bs[copy..]);
        assert bs[..copy] + bs[copy..] == bs;
        Push(bs[copy..]);
      }
    }
  
    method WriteInteger(n: int)
      requires Valid() && -QWORD / 2 <= n < QWORD / 2
      modifies this, Repr()
      ensures Valid() && Contents() == old(Contents()) + EncodeInteger(n)
      ensures fresh(Repr() - old(Repr()))
    {
      Powers();
      if n == 0 {
        Push([Combine(2, 0)]);
      } else if !Small(n) {
        PushBoth(Combine(2, 6), Little(Unsigned(n, QWORD), 8));
      } else if n < 0 {
        PushBoth(Combine(2, 4), Little(Unsigned(n, DWORD), 4));
      } else if n < 0x100 {
        PushBoth(Combine(2, 1), Little(n, 1));
      } else if n < WORD {
        PushBoth(Combine(2, 2), Little(n, 2));
      } else {
        PushBoth(Combine(2, 4), Little(n, 4));
      }
    }

    method PushBoth(b: byte, bs: Bytes)
      requires Valid()
      modifies this, Repr()
      ensures Valid() && Contents() == old(Contents()) + ([b] + bs)
      ensures fresh(Repr() - old(Repr()))
    {
      Assoc(Contents(), [b], bs);
      Push([b]);
      Push(bs);
    }

    method WriteText(s: Bytes)
      requires Valid() && |s| < DWORD / 2
      modifies this, Repr()
      ensures Valid() && Contents() == old(Contents()) + EncodeText(s)
      ensures fresh(Repr() - old(Repr()))
    {
      ghost var before := Contents();
      if |s| < MAX_COOKIE {
        Push([Combine(4, |s|)]);
        Assoc(before, [Combine(4, |s|)], s);
        if |s| > 0 { Push(s); }
      } else {
        var k := if |s| < WORD then 2 else 4;
        PushBoth(Combine(5, k), Little(|s|, k));
        Assoc(before, [Combine(5, k)] + Little(|s|, k), s);
        Push(s);
      }
    }

    /** A value at some depth.  Tables that are nested too deep are an error. */
    method PackOne(v: Value, depth: nat) returns (ok: bool)
      requires Valid() && Packable(v)
      modifies this, Repr()
      ensures Valid() && fresh(Repr() - old(Repr())) && ok == Fits(v, depth)
      ensures ok ==> Contents() == old(Contents()) + Packed(v)
      decreases v, 1
    {
      PackedIs(v);
      hide Packed, WriteBlock.Contents, WriteBlock.Valid, ItemsPacked, EntriesPacked;
      if depth > MAX_DEPTH { return false; }
      ok := true;
      match v {
        case Nil => Push([Combine(0, 0)]);
        case Boolean(b) => Push([Combine(1, if b then 1 else 0)]);
        case Integer(n) => WriteInteger(n);
        case Real(bits) => PushBoth(Combine(2, 8), bits);
        case Pointer(address) => PushBoth(Combine(3, 0), address);
        case Text(s) => WriteText(s);
        case Table(items, entries) =>
          ok := PackTable(v, depth + 1);
      }
    }

    method PackTable(t: Value, depth: nat) returns (ok: bool)
      requires Valid() && t.Table? && Packable(t)
      modifies this, Repr()
      ensures Valid() && fresh(Repr() - old(Repr())) && ok == (ItemsFit(t, depth) && EntriesFit(t, depth))
      ensures ok ==> Contents() == old(Contents()) + Packed(t)
      decreases t, 0, 1
    {
      hide Packed, WriteBlock.Contents, WriteBlock.Valid, ItemsPacked, EntriesPacked, ItemsFit, EntriesFit, Packable;
      TablePacked(t, Contents());
      PackSize(t);
      ok := PackItems(t, depth);
      if ok { ok := PackEntries(t, depth); }
    }

    method PackSize(t: Value)
      requires Valid() && t.Table? && Packable(t)
      modifies this, Repr()
      ensures Valid() && fresh(Repr() - old(Repr())) && Contents() == old(Contents()) + EncodeSize(|t.items|)
    {
      if |t.items| >= MAX_COOKIE - 1 {
        Assoc(Contents(), [Combine(6, MAX_COOKIE - 1)], EncodeInteger(|t.items|));
        Push([Combine(6, MAX_COOKIE - 1)]);
        WriteInteger(|t.items|);
      } else {
        Push([Combine(6, |t.items|)]);
      }
    }

    method PackItems(t: Value, depth: nat) returns (ok: bool)
      requires Valid() && t.Table? && Packable(t)
      modifies this, Repr()
      ensures Valid() && fresh(Repr() - old(Repr())) && ok == ItemsFit(t, depth)
      ensures ok ==> Contents() == old(Contents()) + ItemsPacked(t, 0)
      decreases t, 0, 0
    {
      hide Packed, WriteBlock.Contents, WriteBlock.Valid, ItemsPacked, Fits;
      ghost var start := Contents();
      for i := 0 to |t.items|
        invariant Valid() && fresh(Repr() - old(Repr()))
        invariant Contents() + ItemsPacked(t, i) == start + ItemsPacked(t, 0)
        invariant forall j :: 0 <= j < i ==> Fits(t.items[j], depth)
      {
        ItemsNext(t, i, Contents());
        ok := PackOne(t.items[i], depth);
        if !ok { return; }
      }
      ok := true;
      ItemsEnd(t, Contents());
    }

    method PackEntries(t: Value, depth: nat) returns (ok: bool)
      requires Valid() && t.Table? && Packable(t)
      modifies this, Repr()
      ensures Valid() && fresh(Repr() - old(Repr())) && ok == EntriesFit(t, depth)
      ensures ok ==> Contents() == old(Contents()) + EntriesPacked(t, 0)
      decreases t, 0, 0
    {
      hide Packed, WriteBlock.Contents, WriteBlock.Valid, EntriesPacked, Fits;
      ghost var start := Contents();
      for i := 0 to |t.entries|
        invariant Valid() && fresh(Repr() - old(Repr()))
        invariant Contents() + EntriesPacked(t, i) == start + EntriesPacked(t, 0)
        invariant forall j :: 0 <= j < i ==> Fits(t.entries[j].key, depth) && Fits(t.entries[j].value, depth)
      {
        EntriesNext(t, i, Contents());
        ok := PackOne(t.entries[i].key, depth);
        if !ok { return; }
        ok := PackOne(t.entries[i].value, depth);
        if !ok { return; }
      }
      EntriesEnd(t);
      Push([Combine(0, 0)]);
      ok := true;
    }

    /** All blocks in one buffer. */
    method Join() returns (buffer: array<byte>)
      requires Valid()
      ensures fresh(buffer) && buffer[..] == Contents()
    {
      buffer := new byte[len];
      var i := CopyFull(buffer);
      var left := len - InBlocks(i);
      JoinEnd(i, left);
      assert InBlocks(i) + left == len && buffer[..len] == buffer[..];
      hide Flat, WriteBlock.Contents, WriteBlock.Valid, InBlocks;
      if left > 0 { CopyTo(buffer, len - left, blocks[i], left); }
    }

    /** The full blocks. */
    method CopyFull(buffer: array<byte>) returns (i: nat)
      requires Valid() && buffer !in Repr() && buffer.Length == len
      modifies buffer
      ensures i <= |blocks| && InBlocks(i) <= len < InBlocks(i) + BLOCK_SIZE && buffer[..InBlocks(i)] == Flat(blocks[..i])
      ensures forall k :: 0 <= k < |blocks| ==> blocks[k].Length == BLOCK_SIZE && blocks[k] != buffer
    {
      assert forall k :: 0 <= k < |blocks| ==> blocks[k] in Repr();
      i := 0;
      while InBlocks(i) + BLOCK_SIZE <= len
        invariant i <= |blocks| && InBlocks(i) <= len
        invariant buffer[..InBlocks(i)] == Flat(blocks[..i])
      {
        CopyTo(buffer, InBlocks(i), blocks[i], BLOCK_SIZE);
        FlatNext(blocks, i);
        assert blocks[i][..BLOCK_SIZE] == blocks[i][..];
        i := i + 1;
      }
    }

    /** The contents as full blocks and the rest. */
    lemma JoinEnd(i: nat, left: nat)
      requires Valid() && len == InBlocks(i) + left && left < BLOCK_SIZE
      ensures left == 0 ==> i <= |blocks| && Contents() == Flat(blocks[..i])
      ensures left > 0 ==> i < |blocks| && Contents() == Flat(blocks[..i]) + blocks[i][..left]
    {
      var n := |blocks| - 1;
      if i == n + 1 {
        FlatNext(blocks, n);
        assert blocks[n][..ptr] == blocks[n][..] && blocks[..n + 1] == blocks[..i];
      } else {
        assert i == n;
      }
    }
  }

  lemma FlatNext(bs: seq<array<byte>>, i: nat)
    requires i < |bs|
    ensures Flat(bs[..i + 1]) == Flat(bs[..i]) + bs[i][..]
  {
    assert bs[..i + 1][..i] == bs[..i];
  }

  method CopyTo(to: array<byte>, at: nat, from: array<byte>, n: nat)
    requires at + n <= to.Length && n <= from.Length && to != from
    modifies to
    ensures to[..at + n] == old(to[..at]) + from[..n]
  {
    forall k | 0 <= k < n { to[at + k] := from[k]; }
  }

  // ---------------------------------------------------------------- reading

  /** More values in front of those read. */
  function Before<T>(vs: seq<T>, r: Decoded<seq<T>>): Decoded<seq<T>> {
    if r.Invalid? then Invalid else Got(vs + r.v, r.rest)
  }

  class ReadBlock {
    const buffer: Bytes
    var len: nat
    var ptr: nat

    ghost predicate Valid() reads this { ptr + len == |buffer| }

    ghost function Rest(): Bytes
      requires Valid()
      reads this
    {
      buffer[ptr..]
    }

    constructor (bs: Bytes)
      ensures Valid() && Rest() == bs && len == |bs|
    {
      buffer, len, ptr := bs, |bs|, 0;
    }

    method Take(n: nat) returns (ok: bool, bs: Bytes)
      requires Valid()
      modifies this
      ensures Valid() && Read(old(Rest()), n) == if ok then Got(bs, Rest()) else Invalid
      ensures ok ==> |bs| == n && len == old(len) - n
      ensures !ok ==> len == old(len)
    {
      if len < n { return false, []; }
      ok, bs := true, buffer[ptr..ptr + n];
      assert bs == Rest()[..n] && buffer[ptr + n..] == Rest()[n..];
      ptr, len := ptr + n, len - n;
    }

    method GetInteger(cookie: nat) returns (ok: bool, n: int)
      requires Valid()
      modifies this
      ensures Valid() && DecodeInteger(cookie, old(Rest())) == if ok then Got(n, Rest()) else Invalid
      ensures len <= old(len)
    {
      ok, n := cookie == 0, 0;
      var bs: Bytes;
      if cookie == 1 || cookie == 2 {
        ok, bs := Take(cookie);
        n := Number(bs);
      } else if cookie == 4 {
        ok, bs := Take(4);
        n := Signed(Number(bs), DWORD);
      } else if cookie == 6 {
        ok, bs := Take(8);
        n := Signed(Number(bs), QWORD);
      }
    }

    method GetText(n: nat) returns (ok: bool, v: Value)
      requires Valid()
      modifies this
      ensures Valid() && DecodeText(old(Rest()), n) == if ok then Got(v, Rest()) else Invalid
      ensures len <= old(len)
    {
      var bs: Bytes;
      ok, bs := Take(n);
      v := Text(bs);
    }

    /** The next value, or an error where the bytes are none. */
    method UnpackOne() returns (ok: bool, v: Value)
      requires Valid()
      modifies this
      ensures Valid() && Decode(old(Rest())) == if ok then Got(v, Rest()) else Invalid
      ensures len <= old(len) && (ok ==> len < old(len))
      decreases len, 0
    {
      var head: Bytes;
      ok, head := Take(1);
      if !ok { return false, Nil; }
      ghost var bs := old(Rest());
      assert bs[1..] == Rest() && head[0] == bs[0];
      var t, cookie := head[0] as int % 8, head[0] as int / 8;
      DecodeIs(bs);
      hide Decode, DecodeInteger, DecodeText, DecodeItems, DecodeEntries, DecodeSize;
      v := Nil;
      if t == 1 {
        v := Boolean(cookie != 0);
      } else if t == 2 && cookie == 8 {
        var bits: Bytes;
        ok, bits := Take(8);
        v := Real(bits);
      } else if t == 2 {
        var n: int;
        ok, n := GetInteger(cookie);
        v := Integer(n);
      } else if t == 3 {
        var address: Bytes;
        ok, address := Take(8);
        v := Pointer(address);
      } else if t == 4 {
        ok, v := GetText(cookie);
      } else if t == 5 {
        ok, v := GetLong(cookie);
      } else if t == 6 {
        ok, v := UnpackTable(cookie);
      } else if t == 7 {
        ok := false;
      }
    }

    /** A table: its size, its items, its entries. */
    method UnpackTable(cookie: nat) returns (ok: bool, v: Value)
      requires Valid()
      modifies this
      ensures Valid() && TableDecoded(cookie, old(Rest())) == if ok then Got(v, Rest()) else Invalid
      ensures len <= old(len)
      decreases len, 2
    {
      v := Nil;
      var n: int;
      ok, n := GetSize(cookie);
      hide DecodeItems, DecodeEntries, DecodeSize;
      if !ok { return; }
      var items: seq<Value>;
      ok, items := UnpackItems(n);
      if !ok { return; }
      var entries: seq<Entry>;
      ok, entries := UnpackEntries();
      v := Table(items, entries);
    }

    method GetSize(cookie: nat) returns (ok: bool, n: int)
      requires Valid()
      modifies this
      ensures Valid() && DecodeSize(cookie, old(Rest())) == if ok then Got(n, Rest()) else Invalid
      ensures len <= old(len)
    {
      hide DecodeInteger;
      if cookie != MAX_COOKIE - 1 { return true, cookie; }
      var head: Bytes;
      n := 0;
      ok, head := Take(1);
      if !ok { return; }
      assert old(Rest())[1..] == Rest() && head[0] == old(Rest())[0];
      if head[0] % 8 != 2 || head[0] / 8 == 8 { return false, 0; }
      ok, n := GetInteger(head[0] as int / 8);
      n := Truncated(n);
    }

    method UnpackItems(n: int) returns (ok: bool, items: seq<Value>)
      requires Valid()
      modifies this
      ensures Valid() && DecodeItems(n, old(Rest())) == if ok then Got(items, Rest()) else Invalid
      ensures len <= old(len)
      decreases len, 1
    {
      ok, items := true, [];
      ghost var bs := Rest();
      BeforeNone(DecodeItems(n, bs));
      var i := 0;
      while i < n
        invariant Valid() && len <= old(len) && 0 <= i
        invariant i <= n || (i == 0 && n < 0)
        invariant DecodeItems(n, bs) == Before(items, DecodeItems(n - i, Rest()))
        decreases n - i
      {
        ItemRead(n - i, Rest(), items);
        hide Decode, DecodeItems;
        var v: Value;
        ok, v := UnpackOne();
        if !ok { return; }
        items := items + [v];
        i := i + 1;
      }
      assert items + [] == items;
    }

    method UnpackEntries() returns (ok: bool, entries: seq<Entry>)
      requires Valid()
      modifies this
      ensures Valid() && DecodeEntries(old(Rest())) == if ok then Got(entries, Rest()) else Invalid
      ensures len <= old(len)
      decreases len, 1
    {
      hide Decode, DecodeEntries;
      entries := [];
      ghost var bs := Rest();
      BeforeNone(DecodeEntries(bs));
      while true
        invariant Valid() && len <= old(len)
        invariant DecodeEntries(bs) == Before(entries, DecodeEntries(Rest()))
        decreases len
      {
        EntryRead(Rest(), entries);
        var k: Value;
        ok, k := UnpackOne();
        if !ok { return; }
        if k == Nil {
          assert entries + [] == entries;
          return;
        }
        var v: Value;
        ok, v := UnpackOne();
        if !ok { return; }
        entries := entries + [Entry(k, v)];
      }
    }

    method GetLong(cookie: nat) returns (ok: bool, v: Value)
      requires Valid()
      modifies this
      ensures Valid() && LongDecoded(cookie, old(Rest())) == if ok then Got(v, Rest()) else Invalid
      ensures len <= old(len)
    {
      v := Nil;
      if cookie != 2 && cookie != 4 { return false, Nil; }
      var size: Bytes;
      ok, size := Take(cookie);
      if ok { ok, v := GetText(Number(size)); }
    }
  }

  // The encodings again, to be used as wholes.

  function Packed(v: Value): Bytes
    requires Packable(v)
  {
    Encode(v)
  }

  function ItemsPacked(t: Value, i: nat): Bytes
    requires t.Table? && Packable(t) && i <= |t.items|
  {
    EncodeItems(t, i)
  }

  function EntriesPacked(t: Value, i: nat): Bytes
    requires t.Table? && Packable(t) && i <= |t.entries|
  {
    EncodeEntries(t, i)
  }

  lemma PackedIs(v: Value)
    requires Packable(v)
    ensures v.Nil? ==> Packed(v) == [Combine(0, 0)]
    ensures v.Boolean? ==> Packed(v) == [Combine(1, if v.b then 1 else 0)]
    ensures v.Integer? ==> Packed(v) == EncodeInteger(v.n)
    ensures v.Real? ==> Packed(v) == [Combine(2, 8)] + v.bits
    ensures v.Pointer? ==> Packed(v) == [Combine(3, 0)] + v.address
    ensures v.Text? ==> Packed(v) == EncodeText(v.s)
  {
  }

  lemma TablePacked(t: Value, before: Bytes)
    requires t.Table? && Packable(t)
    ensures |t.items| < DWORD / 2
    ensures before + Packed(t) == before + EncodeSize(|t.items|) + ItemsPacked(t, 0) + EntriesPacked(t, 0)
  {
    assert Packed(t) == EncodeSize(|t.items|) + ItemsPacked(t, 0) + EntriesPacked(t, 0);
    hide Packed, ItemsPacked, EntriesPacked, EncodeSize;
    Assoc4(before, EncodeSize(|t.items|), ItemsPacked(t, 0), EntriesPacked(t, 0));
  }

  lemma ItemsNext(t: Value, i: nat, before: Bytes)
    requires t.Table? && Packable(t) && i < |t.items|
    ensures before + ItemsPacked(t, i) == before + Packed(t.items[i]) + ItemsPacked(t, i + 1)
  {
    assert ItemsPacked(t, i) == Packed(t.items[i]) + ItemsPacked(t, i + 1);
    hide Packed, ItemsPacked;
    Assoc(before, Packed(t.items[i]), ItemsPacked(t, i + 1));
  }

  lemma ItemsEnd(t: Value, before: Bytes)
    requires t.Table? && Packable(t)
    ensures before + ItemsPacked(t, |t.items|) == before
  {
  }

  lemma EntriesNext(t: Value, i: nat, before: Bytes)
    requires t.Table? && Packable(t) && i < |t.entries|
    ensures before + EntriesPacked(t, i)
         == before + Packed(t.entries[i].key) + Packed(t.entries[i].value) + EntriesPacked(t, i + 1)
  {
    var e := t.entries[i];
    assert EntriesPacked(t, i) == Packed(e.key) + Packed(e.value) + EntriesPacked(t, i + 1);
    hide Packed, EntriesPacked;
    Assoc4(before, Packed(e.key), Packed(e.value), EntriesPacked(t, i + 1));
  }

  lemma EntriesEnd(t: Value)
    requires t.Table? && Packable(t)
    ensures EntriesPacked(t, |t.entries|) == [Combine(0, 0)]
  {
  }

  /** Not nested too deep. */
  predicate Fits(v: Value, depth: nat)
    decreases v, 1
  {
    depth <= MAX_DEPTH && (v.Table? ==> ItemsFit(v, depth + 1) && EntriesFit(v, depth + 1))
  }

  predicate ItemsFit(t: Value, depth: nat)
    requires t.Table?
    decreases t, 0
  {
    forall i :: 0 <= i < |t.items| ==> Fits(t.items[i], depth)
  }

  predicate EntriesFit(t: Value, depth: nat)
    requires t.Table?
    decreases t, 0
  {
    forall i :: 0 <= i < |t.entries| ==> Fits(t.entries[i].key, depth) && Fits(t.entries[i].value, depth)
  }

  function LongDecoded(cookie: nat, bs: Bytes): Decoded<Value> {
    if cookie == 2 then DecodeLong(bs, 2) else if cookie == 4 then DecodeLong(bs, 4) else Invalid
  }

  function TableDecoded(cookie: nat, bs: Bytes): Decoded<Value> {
    var n := DecodeSize(cookie, bs);
    if n.Invalid? then Invalid
    else
      var items := DecodeItems(n.v, n.rest);
      if items.Invalid? then Invalid
      else
        var entries := DecodeEntries(items.rest);
        if entries.Invalid? then Invalid else Got(Table(items.v, entries.v), entries.rest)
  }

  lemma BeforeNone<T>(r: Decoded<seq<T>>)
    ensures Before([], r) == r
  {
    if r.Got? { assert [] + r.v == r.v; }
  }

  lemma ItemRead(n: int, bs: Bytes, before: seq<Value>)
    requires n > 0
    ensures var one := Decode(bs);
            Before(before, DecodeItems(n, bs)) ==
              if one.Invalid? then Invalid else Before(before + [one.v], DecodeItems(n - 1, one.rest))
  {
    var one := Decode(bs);
    if one.Got? {
      var more := DecodeItems(n - 1, one.rest);
      if more.Got? { Assoc(before, [one.v], more.v); }
    }
  }

  lemma EntryRead(bs: Bytes, before: seq<Entry>)
    ensures var k := Decode(bs);
            && (k.Invalid? ==> Before(before, DecodeEntries(bs)) == Invalid)
            && (k.Got? && k.v == Nil ==> Before(before, DecodeEntries(bs)) == Got(before + [], k.rest))
            && (k.Got? && k.v != Nil ==>
                  var v := Decode(k.rest);
                  Before(before, DecodeEntries(bs)) ==
                    if v.Invalid? then Invalid else Before(before + [Entry(k.v, v.v)], DecodeEntries(v.rest)))
  {
    var k := Decode(bs);
    if k.Got? && k.v != Nil {
      var v := Decode(k.rest);
      if v.Got? {
        var more := DecodeEntries(v.rest);
        if more.Got? { Assoc(before, [Entry(k.v, v.v)], more.v); }
      }
    }
  }

  /** Decoding, case by case. */
  lemma DecodeIs(bs: Bytes)
    requires bs != []
    ensures var t, cookie, body, r := bs[0] as int % 8, bs[0] as int / 8, bs[1..], Decode(bs);
            && (t == 0 ==> r == Got(Nil, body))
            && (t == 1 ==> r == Got(Boolean(cookie != 0), body))
            && (t == 2 && cookie == 8 ==> r == var b := Read(body, 8); if b.Invalid? then Invalid else Got(Real(b.v), b.rest))
            && (t == 2 && cookie != 8 ==>
                  r == var n := DecodeInteger(cookie, body); if n.Invalid? then Invalid else Got(Integer(n.v), n.rest))
            && (t == 3 ==> r == var b := Read(body, 8); if b.Invalid? then Invalid else Got(Pointer(b.v), b.rest))
            && (t == 4 ==> r == DecodeText(body, cookie))
            && (t == 5 ==> r == LongDecoded(cookie, body))
            && (t == 6 ==> r == TableDecoded(cookie, body))
            && (t == 7 ==> r == Invalid)
  {
  }

  // ---------------------------------------------------------------- lists of values

  function EncodeAll(vs: seq<Value>): Bytes
    requires forall i :: 0 <= i < |vs| ==> Packable(vs[i])
  {
    if vs == [] then [] else Encode(vs[0]) + EncodeAll(vs[1..])
  }

  /** Values up to the end. */
  function DecodeAll(bs: Bytes): Decoded<seq<Value>>
    decreases |bs|
  {
    if bs == [] then Got([], [])
    else
      var one := Decode(bs);
      if one.Invalid? then Invalid else Before([one.v], DecodeAll(one.rest))
  }

  lemma {:induction false} AllOver(vs: seq<Value>)
    requires forall i :: 0 <= i < |vs| ==> Packable(vs[i])
    ensures DecodeAll(EncodeAll(vs)) == Got(vs, [])
    decreases |vs|
  {
    if vs != [] {
      AllOver(vs[1..]);
      RoundTrip(vs[0], EncodeAll(vs[1..]));
      assert [vs[0]] + vs[1..] == vs;
    }
  }

  /** Pack values; an error if one is nested too deep. */
  method Pack(vs: seq<Value>) returns (ok: bool, buffer: array<byte>)
    requires forall i :: 0 <= i < |vs| ==> Packable(vs[i])
    ensures ok <==> forall i :: 0 <= i < |vs| ==> Fits(vs[i], 0)
    ensures ok ==> fresh(buffer) && buffer[..] == EncodeAll(vs)
  {
    var wb := new WriteBlock();
    hide Packable, Fits, WriteBlock.Contents, WriteBlock.Valid;
    for i := 0 to |vs|
      invariant wb.Valid() && fresh(wb) && fresh(wb.Repr())
      invariant wb.Contents() + EncodeAll(vs[i..]) == EncodeAll(vs)
      invariant forall j :: 0 <= j < i ==> Fits(vs[j], 0)
    {
      AllNext(vs, i, wb.Contents());
      ok := wb.PackOne(vs[i], 0);
      if !ok {
        buffer := new byte[0];
        return;
      }
    }
    assert vs[|vs|..] == [] && wb.Contents() + [] == wb.Contents();
    ok := true;
    buffer := wb.Join();
  }

  lemma AllNext(vs: seq<Value>, i: nat, before: Bytes)
    requires i < |vs| && forall j :: 0 <= j < |vs| ==> Packable(vs[j])
    ensures before + EncodeAll(vs[i..]) == before + Packed(vs[i]) + EncodeAll(vs[i + 1..])
  {
    assert vs[i..][0] == vs[i] && vs[i..][1..] == vs[i + 1..];
    assert EncodeAll(vs[i..]) == Packed(vs[i]) + EncodeAll(vs[i + 1..]);
    hide Packed, EncodeAll, Packable;
    Assoc(before, Packed(vs[i]), EncodeAll(vs[i + 1..]));
  }

  method Unpack(bs: Bytes) returns (ok: bool, vs: seq<Value>)
    ensures DecodeAll(bs) == if ok then Got(vs, []) else Invalid
  {
    var rb := new ReadBlock(bs);
    vs := [];
    BeforeNone(DecodeAll(bs));
    hide DecodeAll, Decode;
    while rb.len > 0
      invariant rb.Valid() && fresh(rb)
      invariant DecodeAll(bs) == Before(vs, DecodeAll(rb.Rest()))
      decreases rb.len
    {
      OneRead(rb.Rest(), vs);
      var v: Value;
      ok, v := rb.UnpackOne();
      if !ok { return; }
      vs := vs + [v];
    }
    ok := true;
    AllRead(rb.Rest(), vs);
  }

  lemma OneRead(bs: Bytes, before: seq<Value>)
    requires bs != []
    ensures var one := Decode(bs);
            Before(before, DecodeAll(bs)) ==
              if one.Invalid? then Invalid else Before(before + [one.v], DecodeAll(one.rest))
  {
    var one := Decode(bs);
    if one.Got? {
      var more := DecodeAll(one.rest);
      if more.Got? { Assoc(before, [one.v], more.v); }
    }
  }

  lemma AllRead(bs: Bytes, before: seq<Value>)
    requires bs == []
    ensures Before(before, DecodeAll(bs)) == Got(before, [])
  {
    assert before + [] == before;
  }

  /** Packing and unpacking gives back the same values. */
  method ThereAndBack(vs: seq<Value>) returns (same: seq<Value>)
    requires forall i :: 0 <= i < |vs| ==> Packable(vs[i]) && Fits(vs[i], 0)
    ensures same == vs
  {
    var ok, buffer := Pack(vs);
    AllOver(vs);
    ok, same := Unpack(buffer[..]);
  }
}
