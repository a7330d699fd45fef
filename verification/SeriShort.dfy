/** The encoding of a value is the shortest byte sequence that decodes to it. */
module SeriShort {
  import opened Seri

  /** Byte `j` of a number. */
  lemma {:induction false} LittleAt(n: nat, k: nat, j: nat)
    requires j < k
    ensures Power(j) > 0 && Little(n, k)[j] as int == n / Power(j) % 256
    decreases j
  {
    if j > 0 {
      LittleAt(n / 256, k - 1, j - 1);
      DivideTwice(n, Power(j - 1));
    }
  }

  lemma DivideTwice(n: nat, p: nat)
    requires p > 0
    ensures n / 256 / p == n / (256 * p)
  {
    var q, r := n / (256 * p), n % (256 * p);
    assert n == 256 * p * q + r;
    var s := r / 256;
    assert s >= p ==> r >= 256 * s >= 256 * p;
    assert n / 256 == p * q + s by { assert n == 256 * (p * q + s) + r % 256; }
    QuotientIs(p * q + s, p, q, s);
  }

  lemma QuotientIs(n: nat, p: nat, q: nat, s: nat)
    requires n == p * q + s && s < p
    ensures n / p == q
  {
    var d := n / p;
    assert n == p * d + n % p;
    assert d > q ==> p * d >= p * (q + 1);
    assert d < q ==> p * q >= p * (d + 1);
  }

  lemma {:induction false} NumberBelow(bs: Bytes)
    ensures Number(bs) < Power(|bs|)
    decreases |bs|
  {
    if bs != [] { NumberBelow(bs[1..]); }
  }

  predicate Long(n: int) { -QWORD / 2 <= n < QWORD / 2 }

  /** How many bytes an integer takes. */
  lemma IntegerTakes(n: int)
    requires Long(n)
    ensures |EncodeInteger(n)| == 1 + if n == 0 then 0 else if 0 < n < 0x100 then 1 else if 0 < n < WORD then 2 else if Small(n) then 4 else 8
  {
  }

  /** What an integer that is read was written in, and what it can be then. */
  lemma IntegerRead(cookie: nat, bs: Bytes)
    ensures var r := DecodeInteger(cookie, bs);
            r.Got? ==>
              var used := |bs| - |r.rest|;
              || (used == 0 && r.v == 0) || (used == 1 && 0 <= r.v < 0x100) || (used == 2 && 0 <= r.v < WORD)
              || (used == 4 && Small(r.v)) || (used == 8 && Long(r.v))
  {
    Powers();
    forall k: nat | k <= |bs| ensures Number(bs[..k]) < Power(k) { NumberBelow(bs[..k]); }
    hide Number, Power;
  }

  lemma ShortInteger(cookie: nat, bs: Bytes)
    ensures var r := DecodeInteger(cookie, bs); r.Got? && Long(r.v) ==> |EncodeInteger(r.v)| + |r.rest| <= 1 + |bs|
  {
    IntegerRead(cookie, bs);
    var r := DecodeInteger(cookie, bs);
    if r.Got? && Long(r.v) { IntegerTakes(r.v); }
  }

  lemma ShortText(bs: Bytes, k: nat)
    requires k == 2 || k == 4
    ensures var r := DecodeLong(bs, k);
            r.Got? ==> r.v.Text? && (|r.v.s| < DWORD / 2 ==> |EncodeText(r.v.s)| + |r.rest| <= 1 + |bs|)
  {
    Powers();
    if |bs| >= k { NumberBelow(bs[..k]); }
    hide Number, Power;
  }

  /** A size that is read: if it is that of a list of `n` items, none with a negative one, it takes as much as it has to. */
  lemma ShortSize(cookie: nat, bs: Bytes, n: nat)
    requires cookie < MAX_COOKIE && n < DWORD / 2
    ensures var r := DecodeSize(cookie, bs);
            r.Got? && (r.v == n || (r.v < 0 && n == 0)) ==> |EncodeSize(n)| + |r.rest| <= 1 + |bs|
  {
    if cookie == MAX_COOKIE - 1 && bs != [] && bs[0] % 8 == 2 && bs[0] / 8 != 8 {
      IntegerRead(bs[0] as int / 8, bs[1..]);
      if n >= MAX_COOKIE - 1 { IntegerTakes(n); }
    }
  }

  /** As many items are read as the size says. */
  lemma {:induction false} ItemsRead(n: int, bs: Bytes)
    ensures var r := DecodeItems(n, bs); r.Got? ==> |r.v| == if n < 0 then 0 else n
    decreases |bs|, n
  {
    if n > 0 {
      var one := Decode(bs);
      if one.Got? { ItemsRead(n - 1, one.rest); }
    }
  }

  /** Whatever decodes to a value has at least as many bytes as its encoding. */
  lemma {:induction false} Shortest(v: Value, bs: Bytes, rest: Bytes)
    requires Packable(v) && Decode(bs) == Got(v, rest)
    ensures |Encode(v)| + |rest| <= |bs|
    decreases v, 1
  {
    var t, cookie, body := bs[0] as int % 8, bs[0] as int / 8, bs[1..];
    match v
    case Integer(n) => ShortInteger(cookie, body);
    case Text(_) => if t == 5 { ShortText(body, cookie); }
    case Table(items, entries) =>
      var n := DecodeSize(cookie, body);
      var i := DecodeItems(n.v, n.rest);
      var e := DecodeEntries(i.rest);
      assert i == Got(items, i.rest) && e == Got(entries, rest);
      ItemsRead(n.v, n.rest);
      ShortSize(cookie, body, |items|);
      ShortItems(v, 0, n.v, n.rest, i.rest);
      ShortEntries(v, 0, i.rest, rest);
    case _ =>
  }

  lemma {:induction false} ShortItems(t: Value, i: nat, n: int, bs: Bytes, rest: Bytes)
    requires t.Table? && Packable(t) && i <= |t.items| && DecodeItems(n, bs) == Got(t.items[i..], rest)
    ensures |EncodeItems(t, i)| + |rest| <= |bs|
    decreases t, 0, |t.items| - i
  {
    if i < |t.items| {
      var one := Decode(bs);
      var more := DecodeItems(n - 1, one.rest);
      assert t.items[i..][0] == t.items[i] && t.items[i..][1..] == t.items[i + 1..];
      assert [one.v] + more.v == t.items[i..];
      assert more.v == t.items[i + 1..] by { assert ([one.v] + more.v)[1..] == more.v; }
      Shortest(t.items[i], bs, one.rest);
      ShortItems(t, i + 1, n - 1, one.rest, rest);
    }
  }

  lemma {:induction false} ShortEntries(t: Value, i: nat, bs: Bytes, rest: Bytes)
    requires t.Table? && Packable(t) && i <= |t.entries| && DecodeEntries(bs) == Got(t.entries[i..], rest)
    ensures |EncodeEntries(t, i)| + |rest| <= |bs|
    decreases t, 0, |t.entries| - i
  {
    if i < |t.entries| {
      var k := Decode(bs);
      var v := Decode(k.rest);
      var more := DecodeEntries(v.rest);
      assert [Entry(k.v, v.v)] + more.v == t.entries[i..];
      assert t.entries[i] == Entry(k.v, v.v) && more.v == t.entries[i + 1..] by {
        assert ([Entry(k.v, v.v)] + more.v)[1..] == more.v && ([Entry(k.v, v.v)] + more.v)[0] == Entry(k.v, v.v);
        assert t.entries[i..][0] == t.entries[i] && t.entries[i..][1..] == t.entries[i + 1..];
      }
      Shortest(t.entries[i].key, bs, k.rest);
      Shortest(t.entries[i].value, k.rest, v.rest);
      ShortEntries(t, i + 1, v.rest, rest);
    }
  }
}
