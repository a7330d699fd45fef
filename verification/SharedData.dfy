/** Shared read-only tables: the integer keys from 1 to some bound in an array, all others in a hash table
    that has exactly one slot for each, in which keys with the same main position are chained. */
module SharedData {

  type Bytes = seq<bv8>

  newtype int32 = x: int | -0x8000_0000 <= x < 0x8000_0000

  datatype Key = Num(n: int32) | Str(s: Bytes)

  /** A nested table is a reference. */
  datatype Value = Nil | Integer(d: int) | Real(n: real) | Text(s: Bytes) | Boolean(b: bool) | Nested(table: nat)

  datatype Entry = Entry(key: Key, value: Value)

  type Source = t: seq<Entry> | Distinct(t)

  // ---------------------------------------------------------------- the source table

  /** Each key once, and no key without a value. */
  predicate Distinct(t: seq<Entry>) {
    (forall i, j :: 0 <= i < j < |t| ==> t[i].key != t[j].key) && forall i :: 0 <= i < |t| ==> t[i].value != Nil
  }

  function Find(t: seq<Entry>, k: Key): Value {
    if t == [] then Nil else if t[0].key == k then t[0].value else Find(t[1..], k)
  }

  /** The keys for the hash table, of those the array does not hold. */
  predicate IsHashKey(k: Key, sizearray: nat) { !(k.Num? && 0 < k.n as int <= sizearray) }

  function HashKeys(t: seq<Entry>, sizearray: nat): set<Key> {
    set i | 0 <= i < |t| && IsHashKey(t[i].key, sizearray) :: t[i].key
  }

  lemma {:induction false} FindThere(t: Source, i: nat)
    requires i < |t|
    ensures Find(t, t[i].key) == t[i].value
  {
    if i > 0 {
      assert t[0].key != t[i].key;
      FindThere(t[1..], i - 1);
    }
  }

  lemma {:induction false} FindSome(t: Source, k: Key)
    ensures Find(t, k) != Nil <==> exists i :: 0 <= i < |t| && t[i].key == k
  {
    if t != [] {
      FindSome(t[1..], k);
      if t[0].key != k && exists i :: 0 <= i < |t| && t[i].key == k {
        var i :| 0 <= i < |t| && t[i].key == k;
        assert t[1..][i - 1].key == k;
      }
      if Find(t, k) != Nil && t[0].key != k {
        var i :| 0 <= i < |t[1..]| && t[1..][i].key == k;
        assert t[i + 1].key == k;
      }
    }
  }

  lemma {:induction false} FindNext(t: Source, i: nat, k: Key)
    requires i < |t|
    ensures Find(t[..i + 1], k) == if k == t[i].key then t[i].value else Find(t[..i], k)
  {
    if i > 0 {
      FindNext(t[1..], i - 1, k);
      assert t[1..][..i] == t[..i + 1][1..] && t[1..][..i - 1] == t[..i][1..];
      assert t[0].key != t[i].key;
    }
  }

  // ---------------------------------------------------------------- hashing

  /** The hash of a string: some of its bytes, from the last to the first. */
  function Mix(s: Bytes, h: bv32, l1: nat, step: nat): bv32
    requires l1 <= |s| && step > 0
    decreases l1
  {
    if l1 < step then h else Mix(s, h ^ ((h << 5) + (h >> 2) + s[l1 - 1] as bv32), l1 - step, step)
  }

  const WORD := 0x1_0000_0000

  method CalcHash(s: Bytes) returns (h: bv32)
    ensures h == StringHash(s)
  {
    h := (|s| % WORD) as bv32;
    var l1 := |s|;
    var step := |s| / 32 + 1;
    while l1 >= step
      invariant 0 <= l1 <= |s|
      invariant Mix(s, h, l1, step) == StringHash(s)
    {
      h := h ^ ((h << 5) + (h >> 2) + s[l1 - 1] as bv32);
      l1 := l1 - step;
    }
  }

  function StringHash(s: Bytes): bv32 { Mix(s, (|s| % WORD) as bv32, |s|, |s| / 32 + 1) }

  function HashOf(k: Key): nat {
    match k
    case Num(n) => n as int % WORD
    case Str(s) => StringHash(s) as nat
  }

  // ---------------------------------------------------------------- the hash table

  /** A slot.  A key is an integer, or the place of a string in the pool. */
  datatype Node = Node(value: Value, key: int, next: int, keyhash: nat, isString: bool, nocolliding: bool)

  predicate Used(n: Node) { n.value != Nil }

  /** The first strings of the pool are at 2. */
  predicate Readable(n: Node, pool: seq<Bytes>) {
    if n.isString then 2 <= n.key < |pool| + 2 else -0x8000_0000 <= n.key < 0x8000_0000
  }

  function KeyOf(n: Node, pool: seq<Bytes>): Key
    requires Readable(n, pool)
  {
    if n.isString then Str(pool[n.key - 2]) else Num(n.key as int32)
  }

  /** Every slot in use holds a key of its own, with its hash. */
  ghost predicate Keyed(h: seq<Node>, pool: seq<Bytes>) {
    && (forall i :: 0 <= i < |h| && Used(h[i]) ==> Readable(h[i], pool) && h[i].keyhash == HashOf(KeyOf(h[i], pool)))
    && (forall i, j :: 0 <= i < j < |h| && Used(h[i]) && Used(h[j]) ==> KeyOf(h[i], pool) != KeyOf(h[j], pool))
  }

  function Main(keyhash: nat, size: nat): (m: nat)
    requires size > 0
    ensures m < size
  {
    keyhash % size
  }

  /** The slots whose keys have main position `m`, in the order of their links. */
  ghost predicate ChainOk(h: seq<Node>, m: nat, c: seq<int>)
    requires m < |h|
  {
    && (c != [] ==> c[0] == m) && (forall i, j :: 0 <= i < j < |c| ==> c[i] != c[j])
    && (forall j :: 0 <= j < |c| ==> 0 <= c[j] < |h| && Used(h[c[j]]) && Main(h[c[j]].keyhash, |h|) == m)
    && (forall i, j :: 0 <= i < |c| && 0 <= j < |c| && j == i + 1 ==> h[c[i]].next == c[j])
    && (c != [] ==> h[c[|c| - 1]].next == -1)
    && (forall j :: 0 <= j < |c| ==> (h[c[j]].nocolliding <==> |c| == 1))
  }

  ghost predicate Chained(h: seq<Node>, cs: seq<seq<int>>) {
    && |cs| == |h|
    && (forall m :: 0 <= m < |h| ==> ChainOk(h, m, cs[m]))
    && (forall i :: 0 <= i < |h| && Used(h[i]) ==> i in cs[Main(h[i].keyhash, |h|)])
  }

  /** What the slots hold is in the source. */
  ghost predicate Sourced(h: seq<Node>, pool: seq<Bytes>, t: seq<Entry>, sizearray: nat)
    requires Keyed(h, pool)
  {
    forall i :: 0 <= i < |h| && Used(h[i]) ==>
      IsHashKey(KeyOf(h[i], pool), sizearray) && Find(t, KeyOf(h[i], pool)) == h[i].value
  }

  ghost predicate Holds(h: seq<Node>, pool: seq<Bytes>, k: Key)
    requires Keyed(h, pool)
  {
    exists i :: 0 <= i < |h| && Used(h[i]) && KeyOf(h[i], pool) == k
  }

  // ---------------------------------------------------------------- filling slots

  /** More strings in the pool change no key. */
  lemma PoolGrows(h: seq<Node>, pool: seq<Bytes>, more: seq<Bytes>, t: seq<Entry>, sizearray: nat)
    requires Keyed(h, pool) && Sourced(h, pool, t, sizearray) && pool <= more
    ensures Keyed(h, more) && Sourced(h, more, t, sizearray)
    ensures forall i :: 0 <= i < |h| && Used(h[i]) ==> KeyOf(h[i], more) == KeyOf(h[i], pool)
  {
    assert forall i :: 0 <= i < |h| && Used(h[i]) ==> Readable(h[i], more) && KeyOf(h[i], more) == KeyOf(h[i], pool);
  }

  /** A node for a key of the source. */
  ghost predicate NewNode(n: Node, h: seq<Node>, pool: seq<Bytes>, t: seq<Entry>, sizearray: nat)
    requires Keyed(h, pool)
  {
    && Used(n) && Readable(n, pool) && n.keyhash == HashOf(KeyOf(n, pool)) && !Holds(h, pool, KeyOf(n, pool))
    && IsHashKey(KeyOf(n, pool), sizearray) && Find(t, KeyOf(n, pool)) == n.value
  }

  lemma PutKeyed(h: seq<Node>, pool: seq<Bytes>, t: seq<Entry>, sizearray: nat, f: nat, n: Node)
    requires Keyed(h, pool) && Sourced(h, pool, t, sizearray) && f < |h| && !Used(h[f])
    requires NewNode(n, h, pool, t, sizearray)
    ensures Keyed(h[f := n], pool) && Sourced(h[f := n], pool, t, sizearray)
  {
    hide HashOf, Find, IsHashKey;
    forall i | 0 <= i < |h| && Used(h[i]) ensures KeyOf(h[i], pool) != KeyOf(n, pool) {}
  }

  /** A key is put in its free main position. */
  lemma PutMain(h: seq<Node>, cs: seq<seq<int>>, m: nat, n: Node)
    requires Chained(h, cs) && m < |h| && !Used(h[m])
    requires Used(n) && Main(n.keyhash, |h|) == m && n.next == -1 && n.nocolliding
    ensures Chained(h[m := n], cs[m := [m]])
  {
    hide Main, ChainOk;
    var h', cs' := h[m := n], cs[m := [m]];
    forall k | 0 <= k < |h| ensures ChainOk(h', k, cs'[k]) {
      assert ChainOk(h, k, cs[k]);
      if k == m { OnlySlot(h, m, n); } else { ChainStays(h, k, cs[k], m, n); }
    }
    EmptyChain(h, m, cs[m]);
    forall i | 0 <= i < |h'| && Used(h'[i]) ensures i in cs'[Main(h'[i].keyhash, |h|)] {
      if i == m { assert cs'[m][0] == m; }
    }
  }

  lemma OnlySlot(h: seq<Node>, m: nat, n: Node)
    requires m < |h| && Used(n) && Main(n.keyhash, |h|) == m && n.next == -1 && n.nocolliding
    ensures ChainOk(h[m := n], m, [m])
  {
  }

  lemma ChainStays(h: seq<Node>, k: nat, c: seq<int>, m: nat, n: Node)
    requires k < |h| && m < |h| && !Used(h[m]) && ChainOk(h, k, c)
    ensures ChainOk(h[m := n], k, c)
  {
    hide Main;
    var h' := h[m := n];
    forall j | 0 <= j < |c| ensures h'[c[j]] == h[c[j]] {}
  }

  lemma EmptyChain(h: seq<Node>, m: nat, c: seq<int>)
    requires m < |h| && !Used(h[m]) && ChainOk(h, m, c)
    ensures c == []
  {
  }

  /** The link of a chain's first slot changes. */
  function Linked(h: seq<Node>, m: nat, f: nat): seq<Node>
    requires m < |h|
  {
    h[m := h[m].(next := f, nocolliding := false)]
  }

  /** A chain with slot `f` in second place. */
  ghost predicate Behind(c: seq<int>, f: int, d: seq<int>)
    requires c != []
  {
    && |d| == |c| + 1 && d[0] == c[0] && d[1] == f
    && (forall j :: 2 <= j < |d| ==> d[j] == c[j - 1])
    && (forall i, j :: 0 <= i < j < |d| ==> d[i] != d[j])
  }

  lemma BehindSlots(c: seq<int>, f: int)
    requires c != [] && f !in c && forall i, j :: 0 <= i < j < |c| ==> c[i] != c[j]
    ensures Behind(c, f, [c[0], f] + c[1..])
  {
    var d := [c[0], f] + c[1..];
    forall j | 2 <= j < |d| ensures d[j] == c[j - 1] {}
    forall i, j | 0 <= i < j < |d| ensures d[i] != d[j] {
      if i >= 2 { assert d[i] == c[i - 1] && d[j] == c[j - 1]; }
      else if j >= 2 { assert d[j] == c[j - 1] && c[j - 1] in c; }
    }
  }

  lemma BehindOk(h: seq<Node>, h': seq<Node>, c: seq<int>, d: seq<int>, m: nat, f: nat, n: Node)
    requires m < |h| && f < |h| && Used(h[m]) && !Used(h[f]) && ChainOk(h, m, c) && c != [] && Behind(c, f, d)
    requires Used(n) && Main(n.keyhash, |h|) == m && n.next == h[m].next && !n.nocolliding
    requires |h'| == |h| && h'[f] == n && h'[m] == h[m].(next := f, nocolliding := false)
    requires forall i :: 0 <= i < |h| && i != f && i != m ==> h'[i] == h[i]
    ensures ChainOk(h', m, d)
  {
    hide Main;
    forall j | 0 <= j < |d| ensures 0 <= d[j] < |h'| && !h'[d[j]].nocolliding && Used(h'[d[j]]) {
      if j >= 2 { assert d[j] != d[0] && d[j] != d[1] && h'[d[j]] == h[c[j - 1]]; }
    }
    forall j | 0 <= j < |d| ensures Main(h'[d[j]].keyhash, |h'|) == m {
      if j == 0 { assert h'[d[j]].keyhash == h[c[0]].keyhash; }
      if j >= 2 { assert d[j] != d[0] && d[j] != d[1] && h'[d[j]] == h[c[j - 1]]; }
    }
    forall i, j | 0 <= i < |d| && 0 <= j < |d| && j == i + 1 ensures h'[d[i]].next == d[j] {
      if i == 1 { assert h[c[0]].next == c[1]; }
      if i >= 2 {
        assert d[i] != d[0] && d[i] != d[1] && h'[d[i]] == h[c[i - 1]];
        assert h[c[i - 1]].next == c[j - 1];
      }
    }
    assert h'[d[|d| - 1]].next == -1 by {
      if |d| > 2 { assert d[|d| - 1] != d[0] && d[|d| - 1] != d[1] && h'[d[|d| - 1]] == h[c[|c| - 1]]; }
    }
  }

  lemma ElsewhereOk(h: seq<Node>, c: seq<int>, m: nat, f: nat, n: Node, k: nat)
    requires m < |h| && f < |h| && k < |h| && k != m && !Used(h[f]) && ChainOk(h, k, c)
    requires Main(h[m].keyhash, |h|) == m
    ensures ChainOk(Linked(h, m, f)[f := n], k, c)
  {
    hide Main;
    var h' := Linked(h, m, f)[f := n];
    forall j | 0 <= j < |c| ensures h'[c[j]] == h[c[j]] { assert c[j] != m && c[j] != f; }
  }

  /** A key is put in a free slot, behind the one in its main position. */
  lemma PutBehind(h: seq<Node>, cs: seq<seq<int>>, m: nat, f: nat, n: Node)
    requires Chained(h, cs) && m < |h| && f < |h| && Used(h[m]) && !Used(h[f]) && Main(h[m].keyhash, |h|) == m
    requires Used(n) && Main(n.keyhash, |h|) == m && n.next == h[m].next && !n.nocolliding
    ensures m in cs[m] && cs[m][0] == m
    ensures Chained(Linked(h, m, f)[f := n], cs[m := [m, f] + cs[m][1..]])
  {
    var h', c := Linked(h, m, f)[f := n], cs[m];
    var cs' := cs[m := [m, f] + c[1..]];
    assert ChainOk(h, m, c) && m in c;
    hide Main;
    forall k | 0 <= k < |h| ensures ChainOk(h', k, cs'[k]) {
      assert ChainOk(h, k, cs[k]);
      if k == m {
        BehindSlots(c, f);
        BehindOk(h, h', c, [m, f] + c[1..], m, f, n);
      } else {
        ElsewhereOk(h, cs[k], m, f, n, k);
      }
    }
    forall i | 0 <= i < |h'| && Used(h'[i]) ensures i in cs'[Main(h'[i].keyhash, |h|)] {
      if i == f { assert cs'[m][1] == f; }
      if i == m { assert cs'[m][0] == m; }
      if i != f && i != m {
        assert h'[i] == h[i];
        if i in c { assert i in c[1..]; }
      }
    }
  }

  // ---------------------------------------------------------------- counting

  /** The keys in the first `n` slots. */
  ghost function SlotKeys(h: seq<Node>, pool: seq<Bytes>, n: nat): set<Key>
    requires Keyed(h, pool) && n <= |h|
  {
    set i | 0 <= i < n && Used(h[i]) :: KeyOf(h[i], pool)
  }

  lemma NewKey(h: seq<Node>, pool: seq<Bytes>, n: nat)
    requires Keyed(h, pool) && 0 < n <= |h| && Used(h[n - 1])
    ensures KeyOf(h[n - 1], pool) !in SlotKeys(h, pool, n - 1)
  {
    hide HashOf, KeyOf, Readable;
  }

  lemma {:induction false} SlotKeysCount(h: seq<Node>, pool: seq<Bytes>, n: nat)
    requires Keyed(h, pool) && n <= |h|
    ensures |SlotKeys(h, pool, n)| <= n
    ensures |SlotKeys(h, pool, n)| == n <==> forall i :: 0 <= i < n ==> Used(h[i])
  {
    hide HashOf, KeyOf, Readable;
    if n > 0 {
      SlotKeysCount(h, pool, n - 1);
      var before := SlotKeys(h, pool, n - 1);
      if Used(h[n - 1]) {
        NewKey(h, pool, n);
        assert SlotKeys(h, pool, n) == before + {KeyOf(h[n - 1], pool)};
      } else {
        assert SlotKeys(h, pool, n) == before;
      }
    }
  }

  /** While a key is missing there is a free slot. */
  lemma RoomLeft(h: seq<Node>, pool: seq<Bytes>, t: Source, sizearray: nat, k: Key)
    requires Keyed(h, pool) && Sourced(h, pool, t, sizearray) && |h| == |HashKeys(t, sizearray)|
    requires k in HashKeys(t, sizearray) && !Holds(h, pool, k)
    ensures exists f :: 0 <= f < |h| && !Used(h[f])
  {
    SlotKeysCount(h, pool, |h|);
    var here := SlotKeys(h, pool, |h|);
    forall i | 0 <= i < |h| && Used(h[i]) ensures KeyOf(h[i], pool) in HashKeys(t, sizearray) {
      FindSome(t, KeyOf(h[i], pool));
    }
    assert here <= HashKeys(t, sizearray) - {k};
    assert |HashKeys(t, sizearray) - {k}| == |h| - 1;
    if forall i :: 0 <= i < |h| ==> Used(h[i]) { Subset(here, HashKeys(t, sizearray) - {k}); }
  }

  lemma {:induction false} Subset(a: set<Key>, b: set<Key>)
    requires a <= b
    ensures |a| <= |b| && (|a| == |b| ==> a == b)
  {
    assert b == a + (b - a);
  }

  /** When no key is missing, no slot is free. */
  lemma NoRoomLeft(h: seq<Node>, pool: seq<Bytes>, t: Source, sizearray: nat)
    requires Keyed(h, pool) && |h| == |HashKeys(t, sizearray)|
    requires forall k :: k in HashKeys(t, sizearray) ==> Holds(h, pool, k)
    ensures forall i :: 0 <= i < |h| ==> Used(h[i])
  {
    SlotKeysCount(h, pool, |h|);
    assert HashKeys(t, sizearray) <= SlotKeys(h, pool, |h|);
    Subset(HashKeys(t, sizearray), SlotKeys(h, pool, |h|));
  }

  lemma HashKeysNext(t: Source, sizearray: nat, i: nat)
    requires i < |t|
    ensures |HashKeys(t[..i + 1], sizearray)| == |HashKeys(t[..i], sizearray)| + if IsHashKey(t[i].key, sizearray) then 1 else 0
  {
    var before := HashKeys(t[..i], sizearray);
    assert t[i].key !in before;
    hide IsHashKey;
    if IsHashKey(t[i].key, sizearray) {
      assert HashKeys(t[..i + 1], sizearray) == before + {t[i].key};
    } else {
      assert HashKeys(t[..i + 1], sizearray) == before;
    }
  }

  method CountSize(t: Source, sizearray: nat) returns (n: nat)
    ensures n == |HashKeys(t, sizearray)|
  {
    n := 0;
    for i := 0 to |t|
      invariant n == |HashKeys(t[..i], sizearray)|
    {
      HashKeysNext(t, sizearray, i);
      if IsHashKey(t[i].key, sizearray) { n := n + 1; }
    }
    assert t[..|t|] == t;
  }

  // ---------------------------------------------------------------- the order of keys

  datatype MaybeKey = NoKey | One(k: Key)

  /** The keys of the array part, from place `i`. */
  function ArrayKeys(vs: seq<Value>, i: nat): (ks: seq<Key>)
    requires i <= |vs| < 0x8000_0000
    ensures forall k :: k in ks ==> k.Num? && i < k.n as int <= |vs| && vs[k.n as int - 1] != Nil
    decreases |vs| - i
  {
    if i == |vs| then []
    else if vs[i] != Nil then [Num((i + 1) as int32)] + ArrayKeys(vs, i + 1)
    else ArrayKeys(vs, i + 1)
  }

  lemma {:induction false} ArrayKeysAll(vs: seq<Value>, i: nat, x: nat)
    requires i <= x < |vs| < 0x8000_0000 && vs[x] != Nil
    ensures Num((x + 1) as int32) in ArrayKeys(vs, i)
    decreases |vs| - i
  {
    if i < x { ArrayKeysAll(vs, i + 1, x); }
  }

  lemma {:induction false} ArrayKeysOnce(vs: seq<Value>, i: nat)
    requires i <= |vs| < 0x8000_0000
    ensures forall a, b :: 0 <= a < b < |ArrayKeys(vs, i)| ==> ArrayKeys(vs, i)[a] != ArrayKeys(vs, i)[b]
    decreases |vs| - i
  {
    if i < |vs| {
      ArrayKeysOnce(vs, i + 1);
      var rest := ArrayKeys(vs, i + 1);
      if vs[i] != Nil {
        forall b | 0 <= b < |rest| ensures rest[b] != Num((i + 1) as int32) { assert rest[b] in rest; }
      }
    }
  }

  /** After a key come those behind its place. */
  lemma {:induction false} ArrayKeysAfter(vs: seq<Value>, i: nat, a: nat)
    requires i <= |vs| < 0x8000_0000 && a < |ArrayKeys(vs, i)|
    ensures var k := ArrayKeys(vs, i)[a];
            k in ArrayKeys(vs, i) && ArrayKeys(vs, i)[a + 1..] == ArrayKeys(vs, k.n as int)
    decreases |vs| - i
  {
    var ks := ArrayKeys(vs, i);
    if vs[i] == Nil {
      ArrayKeysAfter(vs, i + 1, a);
    } else if a > 0 {
      ArrayKeysAfter(vs, i + 1, a - 1);
      assert ks[a + 1..] == ArrayKeys(vs, i + 1)[a..];
    }
  }

  /** The keys of the slots, in order. */
  function SlotList(h: seq<Node>, pool: seq<Bytes>): (ks: seq<Key>)
    requires Keyed(h, pool) && forall s :: 0 <= s < |h| ==> Used(h[s])
    ensures |ks| == |h| && forall s :: 0 <= s < |h| ==> ks[s] == KeyOf(h[s], pool)
  {
    seq(|h|, s requires 0 <= s < |h| => KeyOf(h[s], pool))
  }

  ghost function AllKeys(vs: seq<Value>, h: seq<Node>, pool: seq<Bytes>): seq<Key>
    requires |vs| < 0x8000_0000 && Keyed(h, pool) && forall s :: 0 <= s < |h| ==> Used(h[s])
  {
    ArrayKeys(vs, 0) + SlotList(h, pool)
  }

  /** The array part and the slots hold what the source does. */
  ghost predicate Complete(vs: seq<Value>, h: seq<Node>, pool: seq<Bytes>, t: Source, sizearray: nat) {
    && |vs| == sizearray < 0x8000_0000
    && (forall x :: 0 <= x < sizearray ==> vs[x] == Find(t, Num((x + 1) as int32)))
    && Keyed(h, pool) && Sourced(h, pool, t, sizearray) && (forall s :: 0 <= s < |h| ==> Used(h[s]))
    && (forall k :: k in HashKeys(t, sizearray) ==> Holds(h, pool, k))
  }

  lemma NoSlots(vs: seq<Value>, pool: seq<Bytes>, t: Source, sizearray: nat)
    requires |vs| == sizearray < 0x8000_0000 && |HashKeys(t, sizearray)| == 0
    requires forall x :: 0 <= x < sizearray ==> vs[x] == Find(t, Num((x + 1) as int32))
    ensures Complete(vs, [], pool, t, sizearray)
  {
    assert HashKeys(t, sizearray) == {};
  }

  lemma AllKeysOnce(vs: seq<Value>, h: seq<Node>, pool: seq<Bytes>, t: Source, sizearray: nat)
    requires Complete(vs, h, pool, t, sizearray)
    ensures var ks := AllKeys(vs, h, pool); forall i, j :: 0 <= i < j < |ks| ==> ks[i] != ks[j]
  {
    var a, b := ArrayKeys(vs, 0), SlotList(h, pool);
    ArrayKeysOnce(vs, 0);
    hide Find, Holds, HashOf, ArrayKeys, SlotList;
    forall i, j | 0 <= i < j < |a + b| ensures (a + b)[i] != (a + b)[j] {
      if i < |a| <= j {
        assert a[i] in a && b[j - |a|] == KeyOf(h[j - |a|], pool);
      }
    }
  }

  lemma KeyVisited(vs: seq<Value>, h: seq<Node>, pool: seq<Bytes>, t: Source, sizearray: nat, k: Key)
    requires Complete(vs, h, pool, t, sizearray)
    ensures k in AllKeys(vs, h, pool) <==> Find(t, k) != Nil
  {
    var b := SlotList(h, pool);
    if IsHashKey(k, sizearray) {
      FindSome(t, k);
      if Find(t, k) != Nil {
        var i :| 0 <= i < |t| && t[i].key == k;
        EntryKey(t, sizearray, i);
        var s :| 0 <= s < |h| && Used(h[s]) && KeyOf(h[s], pool) == k;
        assert b[s] == k;
      }
      hide Find, HashOf, SlotList;
      if k in b {
        var s :| 0 <= s < |h| && b[s] == k;
        assert Used(h[s]);
      }
    } else {
      hide Find, HashOf, SlotList;
      assert forall s :: 0 <= s < |h| ==> Used(h[s]) && IsHashKey(b[s], sizearray);
      var x := k.n as int - 1;
      assert vs[x] == Find(t, k);
      if vs[x] != Nil { ArrayKeysAll(vs, 0, x); }
    }
  }

  lemma AfterArrayKey(vs: seq<Value>, h: seq<Node>, pool: seq<Bytes>, t: Source, sizearray: nat, i: nat)
    requires Complete(vs, h, pool, t, sizearray)
    requires i < |AllKeys(vs, h, pool)| && !IsHashKey(AllKeys(vs, h, pool)[i], sizearray)
    ensures var n := AllKeys(vs, h, pool)[i].n as int;
            0 < n <= sizearray && AllKeys(vs, h, pool)[i + 1..] == ArrayKeys(vs, n) + SlotList(h, pool)
  {
    var a, b := ArrayKeys(vs, 0), SlotList(h, pool);
    hide Find, Holds, HashOf, SlotList;
    assert forall s :: 0 <= s < |h| ==> Used(h[s]) && IsHashKey(b[s], sizearray);
    assert i < |a|;
    ArrayKeysAfter(vs, 0, i);
    assert (a + b)[i + 1..] == a[i + 1..] + b;
  }

  lemma AfterHashKey(vs: seq<Value>, h: seq<Node>, pool: seq<Bytes>, t: Source, sizearray: nat, i: nat, slot: int)
    requires Complete(vs, h, pool, t, sizearray)
    requires i < |AllKeys(vs, h, pool)| && IsHashKey(AllKeys(vs, h, pool)[i], sizearray) && -1 <= slot < |h|
    requires slot >= 0 ==> KeyOf(h[slot], pool) == AllKeys(vs, h, pool)[i]
    requires slot < 0 ==> |h| == 0 || !Holds(h, pool, AllKeys(vs, h, pool)[i])
    ensures slot >= 0 && AllKeys(vs, h, pool)[i + 1..] == SlotList(h, pool)[slot + 1..]
  {
    var a, b := ArrayKeys(vs, 0), SlotList(h, pool);
    hide Find, HashOf, SlotList, ArrayKeys;
    assert forall j :: 0 <= j < |a| ==> a[j] in a && !IsHashKey(a[j], sizearray);
    var s := i - |a|;
    assert (a + b)[i] == KeyOf(h[s], pool) && Used(h[s]);
    assert slot == s;
    assert (a + b)[i + 1..] == b[s + 1..];
  }

  function HeadOf(ks: seq<Key>): MaybeKey { if ks == [] then NoKey else One(ks[0]) }

  // ---------------------------------------------------------------- the shared table

  /** Strings are at one place each. */
  predicate Pooled(pool: seq<Bytes>) { forall i, j :: 0 <= i < j < |pool| ==> pool[i] != pool[j] }

  /** What the slots in use hold is from `t`, and can be found. */
  ghost predicate Consistent(h: seq<Node>, pool: seq<Bytes>, cs: seq<seq<int>>, t: seq<Entry>, sizearray: nat) {
    |h| > 0 && Pooled(pool) && Keyed(h, pool) && Chained(h, cs) && Sourced(h, pool, t, sizearray)
  }

  ghost predicate Among(k: Key, t: seq<Entry>, i: nat) { exists j :: 0 <= j < i && j < |t| && t[j].key == k }

  /** The first pass has come to entry `i`: keys are in their main positions, and those of all keys so far are
      taken. */
  ghost predicate First(h: seq<Node>, pool: seq<Bytes>, cs: seq<seq<int>>, t: seq<Entry>, sizearray: nat, i: nat) {
    && Consistent(h, pool, cs, t, sizearray)
    && (forall s :: 0 <= s < |h| && Used(h[s]) ==> Main(h[s].keyhash, |h|) == s && Among(KeyOf(h[s], pool), t, i))
    && (forall j :: 0 <= j < i && j < |t| && IsHashKey(t[j].key, sizearray) ==> Used(h[Main(HashOf(t[j].key), |h|)]))
  }

  /** The second pass has come to entry `i`: all keys so far are there, and the others at most in their main
      positions. */
  ghost predicate Second(h: seq<Node>, pool: seq<Bytes>, cs: seq<seq<int>>, t: seq<Entry>, sizearray: nat, i: nat) {
    Consistent(h, pool, cs, t, sizearray) && SecondDone(h, pool, t, sizearray, i)
  }

  ghost predicate SecondDone(h: seq<Node>, pool: seq<Bytes>, t: seq<Entry>, sizearray: nat, i: nat)
    requires |h| > 0 && Keyed(h, pool)
  {
    && (forall s :: 0 <= s < |h| && Used(h[s]) && Main(h[s].keyhash, |h|) != s ==> Among(KeyOf(h[s], pool), t, i))
    && (forall j :: 0 <= j < |t| && IsHashKey(t[j].key, sizearray) ==>
          var m := Main(HashOf(t[j].key), |h|); Used(h[m]) && Main(h[m].keyhash, |h|) == m)
    && (forall j :: 0 <= j < i && j < |t| && IsHashKey(t[j].key, sizearray) ==> Holds(h, pool, t[j].key))
  }

  lemma FirstIsSecond(h: seq<Node>, pool: seq<Bytes>, cs: seq<seq<int>>, t: seq<Entry>, sizearray: nat)
    requires First(h, pool, cs, t, sizearray, |t|)
    ensures Second(h, pool, cs, t, sizearray, 0)
  {
  }

  /** A node for the key of entry `i`. */
  ghost predicate NodeFor(n: Node, pool: seq<Bytes>, e: Entry, sizearray: nat) {
    && n.value == e.value && Readable(n, pool) && KeyOf(n, pool) == e.key && n.keyhash == HashOf(e.key)
    && IsHashKey(e.key, sizearray)
  }

  lemma FirstGrows(
      h: seq<Node>, pool: seq<Bytes>, more: seq<Bytes>, cs: seq<seq<int>>, t: seq<Entry>, sizearray: nat, i: nat)
    requires First(h, pool, cs, t, sizearray, i) && pool <= more && Pooled(more)
    ensures First(h, more, cs, t, sizearray, i)
  {
    PoolGrows(h, pool, more, t, sizearray);
    hide Main, HashOf, Find, IsHashKey, ChainOk;
  }

  lemma FirstSkip(h: seq<Node>, pool: seq<Bytes>, cs: seq<seq<int>>, t: seq<Entry>, sizearray: nat, i: nat)
    requires First(h, pool, cs, t, sizearray, i) && i < |t|
    requires IsHashKey(t[i].key, sizearray) ==> Used(h[Main(HashOf(t[i].key), |h|)])
    ensures First(h, pool, cs, t, sizearray, i + 1)
  {
    hide Main, HashOf, Find, IsHashKey, ChainOk;
  }

  lemma FirstPut(h: seq<Node>, pool: seq<Bytes>, cs: seq<seq<int>>, t: Source, sizearray: nat, i: nat, m: nat, n: Node)
    requires First(h, pool, cs, t, sizearray, i) && i < |t| && NodeFor(n, pool, t[i], sizearray)
    requires m == Main(n.keyhash, |h|) && !Used(h[m]) && n.next == -1 && n.nocolliding
    ensures First(h[m := n], pool, cs[m := [m]], t, sizearray, i + 1)
  {
    FindThere(t, i);
    assert !Holds(h, pool, t[i].key);
    PutKeyed(h, pool, t, sizearray, m, n);
    PutMain(h, cs, m, n);
    hide Main, HashOf, Find, IsHashKey, ChainOk;
    assert Among(t[i].key, t, i + 1);
  }

  lemma SecondGrows(
      h: seq<Node>, pool: seq<Bytes>, more: seq<Bytes>, cs: seq<seq<int>>, t: seq<Entry>, sizearray: nat, i: nat)
    requires Second(h, pool, cs, t, sizearray, i) && pool <= more && Pooled(more)
    ensures Second(h, more, cs, t, sizearray, i)
  {
    PoolGrows(h, pool, more, t, sizearray);
    hide Main, HashOf, Find, IsHashKey, ChainOk;
    forall k | Holds(h, pool, k) ensures Holds(h, more, k) {
      var s :| 0 <= s < |h| && Used(h[s]) && KeyOf(h[s], pool) == k;
      assert KeyOf(h[s], more) == k;
    }
  }

  lemma SecondSkip(h: seq<Node>, pool: seq<Bytes>, cs: seq<seq<int>>, t: seq<Entry>, sizearray: nat, i: nat)
    requires Second(h, pool, cs, t, sizearray, i) && i < |t|
    requires IsHashKey(t[i].key, sizearray) ==> Holds(h, pool, t[i].key)
    ensures Second(h, pool, cs, t, sizearray, i + 1)
  {
    hide Main, HashOf, Find, IsHashKey, ChainOk;
  }

  /** A key whose main position holds another is nowhere else. */
  lemma NotYet(h: seq<Node>, pool: seq<Bytes>, cs: seq<seq<int>>, t: Source, sizearray: nat, i: nat, m: nat)
    requires Second(h, pool, cs, t, sizearray, i) && i < |t| && IsHashKey(t[i].key, sizearray)
    requires m == Main(HashOf(t[i].key), |h|)
    ensures Used(h[m]) && Main(h[m].keyhash, |h|) == m
    ensures KeyOf(h[m], pool) != t[i].key ==> !Holds(h, pool, t[i].key)
  {
    hide Main, HashOf, Find, IsHashKey, ChainOk;
    if s :| 0 <= s < |h| && Used(h[s]) && KeyOf(h[s], pool) == t[i].key {
      assert Main(h[s].keyhash, |h|) == m;
      if s != m { assert Among(t[i].key, t, i); }
    }
  }

  lemma BehindConsistent(
      h: seq<Node>, pool: seq<Bytes>, cs: seq<seq<int>>, t: Source, sizearray: nat, e: Entry, m: nat, f: nat, n: Node)
    requires Consistent(h, pool, cs, t, sizearray) && NodeFor(n, pool, e, sizearray) && Find(t, e.key) == e.value != Nil
    requires m == Main(n.keyhash, |h|) && Used(h[m]) && Main(h[m].keyhash, |h|) == m && !Holds(h, pool, e.key)
    requires f < |h| && !Used(h[f]) && n.next == h[m].next && !n.nocolliding
    ensures Consistent(Linked(h, m, f)[f := n], pool, cs[m := [m, f] + cs[m][1..]], t, sizearray)
  {
    PutBehind(h, cs, m, f, n);
    LinkedSame(h, pool, t, sizearray, m, f, e.key);
    hide Main, HashOf, Find, IsHashKey, ChainOk, Chained;
    PutKeyed(Linked(h, m, f), pool, t, sizearray, f, n);
    hide Linked, Sourced;
  }

  lemma SecondPut(
      h: seq<Node>, pool: seq<Bytes>, cs: seq<seq<int>>, t: Source, sizearray: nat, i: nat, m: nat, f: nat, n: Node)
    requires Second(h, pool, cs, t, sizearray, i) && i < |t| && NodeFor(n, pool, t[i], sizearray)
    requires m == Main(n.keyhash, |h|) && Used(h[m]) && KeyOf(h[m], pool) != t[i].key
    requires f < |h| && !Used(h[f]) && n.next == h[m].next && !n.nocolliding
    ensures Second(Linked(h, m, f)[f := n], pool, cs[m := [m, f] + cs[m][1..]], t, sizearray, i + 1)
  {
    FindThere(t, i);
    NotYet(h, pool, cs, t, sizearray, i, m);
    hide Main, HashOf, Find, IsHashKey, ChainOk, Chained, Among, Sourced, Keyed, Linked, SecondDone;
    BehindConsistent(h, pool, cs, t, sizearray, t[i], m, f, n);
    SecondBehind(h, pool, t, sizearray, i, m, f, n);
  }

  lemma SecondBehind(
      h: seq<Node>, pool: seq<Bytes>, t: Source, sizearray: nat, i: nat, m: nat, f: nat, n: Node)
    requires |h| > 0 && Keyed(h, pool) && SecondDone(h, pool, t, sizearray, i) && i < |t|
    requires Used(n) && Readable(n, pool) && KeyOf(n, pool) == t[i].key
    requires m < |h| && f < |h| && !Used(h[f]) && Used(h[m]) && Keyed(Linked(h, m, f)[f := n], pool)
    ensures SecondDone(Linked(h, m, f)[f := n], pool, t, sizearray, i + 1)
  {
    hide Main, HashOf, Find, IsHashKey, Among, Keyed, SecondDone, Holds, KeyOf, Readable;
    var h' := Linked(h, m, f)[f := n];
    assert |h'| == |h| && h'[f] == n;
    forall s | 0 <= s < |h| && s != f
      ensures h'[s].value == h[s].value && h'[s].key == h[s].key && h'[s].isString == h[s].isString && h'[s].keyhash == h[s].keyhash {
    }
    StillHolds(h, h', pool, f);
    HoldsAt(h', pool, f, t[i].key);
    SecondRest(h, h', pool, t, sizearray, i, f);
  }

  lemma HoldsAt(h: seq<Node>, pool: seq<Bytes>, s: nat, k: Key)
    requires Keyed(h, pool) && s < |h| && Used(h[s]) && Readable(h[s], pool) && KeyOf(h[s], pool) == k
    ensures Holds(h, pool, k)
  {
  }

  lemma SecondRest(
      h: seq<Node>, h': seq<Node>, pool: seq<Bytes>, t: Source, sizearray: nat, i: nat, f: nat)
    requires |h| > 0 && Keyed(h, pool) && SecondDone(h, pool, t, sizearray, i) && i < |t| && Keyed(h', pool) && |h'| == |h|
    requires f < |h| && !Used(h[f]) && Used(h'[f]) && KeyOf(h'[f], pool) == t[i].key
    requires forall s :: 0 <= s < |h| && s != f ==>
               h'[s].value == h[s].value && h'[s].key == h[s].key && h'[s].isString == h[s].isString && h'[s].keyhash == h[s].keyhash
    requires forall k :: Holds(h, pool, k) ==> Holds(h', pool, k)
    requires Holds(h', pool, t[i].key)
    ensures |h'| > 0 && SecondDone(h', pool, t, sizearray, i + 1)
  {
    hide Main, HashOf, Find, IsHashKey, ChainOk, Chained, Holds, Sourced;
    assert Among(t[i].key, t, i + 1);
    forall s | 0 <= s < |h'| && Used(h'[s]) && Main(h'[s].keyhash, |h'|) != s ensures Among(KeyOf(h'[s], pool), t, i + 1) {
      if s != f { assert KeyOf(h'[s], pool) == KeyOf(h[s], pool) && Among(KeyOf(h[s], pool), t, i); }
    }
    forall j | 0 <= j < |t| && IsHashKey(t[j].key, sizearray)
      ensures var m := Main(HashOf(t[j].key), |h|); Used(h'[m]) && Main(h'[m].keyhash, |h|) == m {
      var m := Main(HashOf(t[j].key), |h|);
      assert Used(h[m]) && Main(h[m].keyhash, |h|) == m && m != f;
    }
  }

  lemma StillHolds(h: seq<Node>, h': seq<Node>, pool: seq<Bytes>, f: nat)
    requires Keyed(h, pool) && Keyed(h', pool) && |h| == |h'| && f < |h| && !Used(h[f])
    requires forall s :: 0 <= s < |h| && s != f && Used(h[s]) ==> Used(h'[s]) && h'[s].key == h[s].key && h'[s].isString == h[s].isString
    ensures forall k :: Holds(h, pool, k) ==> Holds(h', pool, k)
  {
    hide HashOf;
    forall k | Holds(h, pool, k) ensures Holds(h', pool, k) {
      var s :| 0 <= s < |h| && Used(h[s]) && KeyOf(h[s], pool) == k;
      assert KeyOf(h'[s], pool) == k;
    }
  }

  lemma LinkedSame(h: seq<Node>, pool: seq<Bytes>, t: seq<Entry>, sizearray: nat, m: nat, f: nat, k: Key)
    requires Keyed(h, pool) && Sourced(h, pool, t, sizearray) && m < |h| && Used(h[m]) && !Holds(h, pool, k)
    ensures Keyed(Linked(h, m, f), pool) && Sourced(Linked(h, m, f), pool, t, sizearray) && !Holds(Linked(h, m, f), pool, k)
  {
    hide HashOf, Find, IsHashKey;
    var g := Linked(h, m, f);
    forall s | 0 <= s < |g| && Used(g[s]) ensures Used(h[s]) && g[s].key == h[s].key && g[s].isString == h[s].isString
      ensures Readable(g[s], pool) && KeyOf(g[s], pool) == KeyOf(h[s], pool) {}
  }

  lemma SecondKeyed(h: seq<Node>, pool: seq<Bytes>, cs: seq<seq<int>>, t: seq<Entry>, sizearray: nat, i: nat)
    requires Second(h, pool, cs, t, sizearray, i)
    ensures Keyed(h, pool) && Sourced(h, pool, t, sizearray)
    ensures i < |t| && IsHashKey(t[i].key, sizearray) ==> |cs| == |h| > 0
    ensures i < |t| && IsHashKey(t[i].key, sizearray) ==> cs[Main(HashOf(t[i].key), |h|)] != []
  {
  }

  lemma EmptyFirst(h: seq<Node>, cs: seq<seq<int>>, t: seq<Entry>, sizearray: nat)
    requires |cs| == |h| > 0 && (forall i :: 0 <= i < |h| ==> h[i] == EmptyNode && cs[i] == [])
    ensures First(h, [], cs, t, sizearray, 0)
  {
    assert EmptyNode.value == Nil;
  }

  lemma SecondComplete(h: seq<Node>, pool: seq<Bytes>, cs: seq<seq<int>>, t: Source, sizearray: nat)
    requires Second(h, pool, cs, t, sizearray, |t|) && |h| == |HashKeys(t, sizearray)|
    ensures Consistent(h, pool, cs, t, sizearray) && Keyed(h, pool) && Sourced(h, pool, t, sizearray)
    ensures forall k :: k in HashKeys(t, sizearray) ==> Holds(h, pool, k)
    ensures forall i :: 0 <= i < |h| ==> Used(h[i])
  {
    forall k | k in HashKeys(t, sizearray) ensures Holds(h, pool, k) {
      hide Holds, Main, HashOf, ChainOk;
      var i :| 0 <= i < |t| && IsHashKey(t[i].key, sizearray) && t[i].key == k;
    }
    hide Holds, Main, HashOf, ChainOk;
    NoRoomLeft(h, pool, t, sizearray);
  }

  lemma SlotsComplete(vs: seq<Value>, h: seq<Node>, pool: seq<Bytes>, cs: seq<seq<int>>, t: Source, sizearray: nat)
    requires Second(h, pool, cs, t, sizearray, |t|) && |h| == |HashKeys(t, sizearray)|
    requires |vs| == sizearray < 0x8000_0000
    requires forall x :: 0 <= x < sizearray ==> vs[x] == Find(t, Num((x + 1) as int32))
    ensures Consistent(h, pool, cs, t, sizearray) && Complete(vs, h, pool, t, sizearray)
  {
    hide Second, Find, HashKeys, Holds, Keyed, Sourced, Consistent;
    SecondComplete(h, pool, cs, t, sizearray);
  }

  lemma NothingFound(t: seq<Entry>)
    ensures forall k :: Find(t[..0], k) == Nil
  {
  }

  /** What the interpreter finds in the source. */
  method RawGet(t: Source, k: Key) returns (v: Value)
    ensures v == Find(t, k)
  {
    v := Find(t, k);
  }

  /** Keys are compared by their kind and number. */
  lemma SameKey(n: Node, pool: seq<Bytes>, k: Key, key: int, isString: bool)
    requires Pooled(pool) && Readable(n, pool) && isString == k.Str?
    requires k.Num? ==> key == k.n as int
    requires k.Str? ==> 2 <= key < |pool| + 2 && pool[key - 2] == k.s
    ensures KeyOf(n, pool) == k <==> n.isString == isString && n.key == key
  {
  }

  lemma NewNodeFor(n: Node, pool: seq<Bytes>, e: Entry, key: int, keyhash: nat, isString: bool, sizearray: nat)
    requires n.value == e.value && n.key == key && n.keyhash == keyhash == HashOf(e.key) && n.isString == isString
    requires isString == e.key.Str? && IsHashKey(e.key, sizearray)
    requires e.key.Num? ==> key == e.key.n as int
    requires e.key.Str? ==> 2 <= key < |pool| + 2 && pool[key - 2] == e.key.s
    ensures NodeFor(n, pool, e, sizearray)
  {
  }

  lemma EntryKey(t: Source, sizearray: nat, i: nat)
    requires i < |t| && IsHashKey(t[i].key, sizearray)
    ensures t[i].key in HashKeys(t, sizearray)
  {
  }

  lemma MainIs(keyhash: nat, size: nat)
    requires size > 0
    ensures keyhash % size == Main(keyhash, size)
  {
  }

  /** A key that is in a slot is in the chain that starts at its main position. */
  lemma InChain(h: seq<Node>, pool: seq<Bytes>, cs: seq<seq<int>>, k: Key, s: nat, m: nat)
    requires |h| > 0 && Keyed(h, pool) && Chained(h, cs) && m == Main(HashOf(k), |h|)
    requires s < |h| && Used(h[s]) && KeyOf(h[s], pool) == k
    ensures s in cs[m] && cs[m][0] == m && Used(h[m]) && Main(h[m].keyhash, |h|) == m
  {
    assert ChainOk(h, m, cs[m]);
    hide Main, HashOf;
    assert Main(h[cs[m][0]].keyhash, |h|) == m;
  }

  /** Slots in use, each linked to the next. */
  ghost predicate Walk(h: seq<Node>, c: seq<int>) {
    && (forall q :: 0 <= q < |c| ==> 0 <= c[q] < |h| && Used(h[c[q]]))
    && (forall i, j :: 0 <= i < |c| && 0 <= j < |c| && j == i + 1 ==> h[c[i]].next == c[j])
    && (c != [] ==> h[c[|c| - 1]].next == -1)
    && (forall q :: 0 <= q < |c| && h[c[q]].nocolliding ==> |c| == 1)
  }

  lemma WalkOf(h: seq<Node>, m: nat, c: seq<int>)
    requires m < |h| && ChainOk(h, m, c)
    ensures Walk(h, c)
  {
  }

  /** Slot `s` holds a key other than `k`. */
  ghost predicate Distant(h: seq<Node>, pool: seq<Bytes>, s: int, k: Key)
    requires Keyed(h, pool)
  {
    0 <= s < |h| && Used(h[s]) && KeyOf(h[s], pool) != k
  }

  lemma DistantIf(h: seq<Node>, pool: seq<Bytes>, s: nat, k: Key, keyhash: nat)
    requires Keyed(h, pool) && s < |h| && Used(h[s]) && keyhash == HashOf(k)
    ensures keyhash != h[s].keyhash ==> Distant(h, pool, s, k)
    ensures Readable(h[s], pool) && (KeyOf(h[s], pool) != k ==> Distant(h, pool, s, k))
  {
  }

  /** When the chain has been followed to its end, the key is nowhere. */
  lemma NotInChain(h: seq<Node>, pool: seq<Bytes>, cs: seq<seq<int>>, k: Key, m: nat, p0: nat)
    requires |h| > 0 && Keyed(h, pool) && Chained(h, cs) && m == Main(HashOf(k), |h|) && Used(h[m])
    requires var c := cs[Main(h[m].keyhash, |h|)];
             p0 < |c| && c[p0] == m
             && (forall q :: p0 <= q < |c| ==> Distant(h, pool, c[q], k))
    ensures !Holds(h, pool, k)
  {
    assert ChainOk(h, m, cs[m]);
    if s :| 0 <= s < |h| && Used(h[s]) && KeyOf(h[s], pool) == k {
      InChain(h, pool, cs, k, s, m);
    }
  }

  const EmptyNode := Node(Nil, 0, 0, 0, false, false)

  class Table {
    var sizearray: nat
    var values: array<Value>    // the array part
    var hash: array<Node>
    var pool: seq<Bytes>        // the strings of the keys
    ghost var chains: seq<seq<int>>

    ghost var source: Source

    ghost predicate ArrayTo(t: seq<Entry>, i: nat) reads this, values
      requires i <= |t|
    {
      values.Length == sizearray < 0x8000_0000
      && forall x :: 0 <= x < sizearray ==> values[x] == Find(t[..i], Num((x + 1) as int32))
    }

    /** The table is finished. */
    ghost predicate Valid() reads this, values, hash {
      && Complete(values[..], hash[..], pool, source, sizearray)
      && (hash.Length > 0 ==> Consistent(hash[..], pool, chains, source, sizearray))
    }

    constructor ()
      ensures sizearray == 0 && fresh(values) && fresh(hash) && values.Length == 0 && hash.Length == 0
    {
      sizearray := 0;
      values := new Value[0];
      hash := new Node[0];
      pool := [];
      chains := [];
      source := [];
    }

    /** The place of a string, new if need be. */
    method StringIndex(s: Bytes) returns (index: int)
      requires Pooled(pool)
      modifies this`pool
      ensures Pooled(pool) && old(pool) <= pool && 2 <= index < |pool| + 2 && pool[index - 2] == s
    {
      for i := 0 to |pool|
        invariant forall j :: 0 <= j < i ==> pool[j] != s
      {
        if pool[i] == s { return i + 2; }
      }
      pool := pool + [s];
      index := |pool| + 1;
    }

    /** A key as the slots hold it, if it is one for them. */
    method HashKey(k: Key) returns (ok: bool, key: int, keyhash: nat, isString: bool)
      requires Pooled(pool)
      modifies this`pool
      ensures Pooled(pool) && old(pool) <= pool
      ensures ok == IsHashKey(k, sizearray)
      ensures ok ==> keyhash == HashOf(k) && isString == k.Str?
      ensures ok && k.Num? ==> key == k.n as int
      ensures ok && k.Str? ==> 2 <= key < |pool| + 2 && pool[key - 2] == k.s
    {
      match k
      case Num(n) =>
        ok, key, keyhash, isString := !(0 < n as int <= sizearray), n as int, n as int % WORD, false;
      case Str(s) =>
        var h := CalcHash(s);
        key := StringIndex(s);
        ok, keyhash, isString := true, h as nat, true;
    }

  
    /** An element of the array part. */
    method SetArray(n: int32, v: Value, ghost t: Source, ghost i: nat)
      requires i < |t| && ArrayTo(t, i) && t[i] == Entry(Num(n), v) && 0 < n as int <= sizearray
      modifies values
      ensures ArrayTo(t, i + 1)
    {
      forall k ensures Find(t[..i + 1], k) == if k == t[i].key then v else Find(t[..i], k) {
        FindNext(t, i, k);
      }
      hide Find;
      values[n as int - 1] := v;
    }

    lemma ArrayLater(t: Source, i: nat)
      requires i < |t| && ArrayTo(t, i) && IsHashKey(t[i].key, sizearray)
      ensures ArrayTo(t, i + 1)
    {
      forall k | k != t[i].key ensures Find(t[..i + 1], k) == Find(t[..i], k) { FindNext(t, i, k); }
      hide Find;
    }

    /** The first pass: the array part, and every key whose main position is free. */
    method FillNoColliding(t: Source)
      requires First(hash[..], pool, chains, t, sizearray, 0) && ArrayTo(t, 0)
      requires Pooled(pool) && hash.Length > 0 && |chains| == hash.Length
      modifies this`pool, this`chains, hash, values
      ensures First(hash[..], pool, chains, t, sizearray, |t|) && ArrayTo(t, |t|)
      ensures Pooled(pool) && |chains| == hash.Length
    {
      hide First, HashOf, Find, Main;
      for i := 0 to |t|
        invariant Pooled(pool) && |chains| == hash.Length
        invariant First(hash[..], pool, chains, t, sizearray, i) && ArrayTo(t, i)
      {
        var e := t[i];
        ghost var was := pool;
        var ok, key, keyhash, isString := HashKey(e.key);
        FirstGrows(hash[..], was, pool, chains, t, sizearray, i);
        if !ok {
          SetArray(e.key.n, e.value, t, i);
          FirstSkip(hash[..], pool, chains, t, sizearray, i);
        } else {
          var m := keyhash % hash.Length;
          ArrayLater(t, i);
          assert m == Main(HashOf(e.key), hash.Length) by { MainIs(keyhash, hash.Length); }
          if hash[m].value == Nil {
            var n := Node(e.value, key, -1, keyhash, isString, true);
            FirstPut(hash[..], pool, chains, t, sizearray, i, m, n);
            hash[m] := n;
            chains := chains[m := [m]];
          } else {
            FirstSkip(hash[..], pool, chains, t, sizearray, i);
          }
        }
      }
    }

    /** The second pass: the other keys, each in a free slot behind its main position.  There is always
        one. */
    method FillColliding(t: Source)
      requires Second(hash[..], pool, chains, t, sizearray, 0) && hash.Length == |HashKeys(t, sizearray)|
      requires Pooled(pool) && hash.Length > 0 && |chains| == hash.Length
      modifies this`pool, this`chains, hash
      ensures Second(hash[..], pool, chains, t, sizearray, |t|)
    {
      hide Second, HashOf, Find, Main, HashKeys, NodeFor;
      for i := 0 to |t|
        invariant Pooled(pool) && |chains| == hash.Length
        invariant Second(hash[..], pool, chains, t, sizearray, i)
      {
        var e := t[i];
        ghost var was := pool;
        var ok, key, keyhash, isString := HashKey(e.key);
        SecondGrows(hash[..], was, pool, chains, t, sizearray, i);
        if !ok {
          SecondSkip(hash[..], pool, chains, t, sizearray, i);
        } else {
          var m := keyhash % hash.Length;
          assert m == Main(HashOf(e.key), hash.Length) by { MainIs(keyhash, hash.Length); }
          NotYet(hash[..], pool, chains, t, sizearray, i, m);
          SecondKeyed(hash[..], pool, chains, t, sizearray, i);
          SameKey(hash[m], pool, e.key, key, isString);
          if hash[m].isString == isString && hash[m].key == key {
            SecondSkip(hash[..], pool, chains, t, sizearray, i);
          } else {
            EntryKey(t, sizearray, i);
            RoomLeft(hash[..], pool, t, sizearray, e.key);
            var f := FreeSlot();
            ghost var h, cs := hash[..], chains;
            var n := Node(e.value, key, hash[m].next, keyhash, isString, false);
            hash[m] := hash[m].(next := f, nocolliding := false);
            hash[f] := n;
            chains := chains[m := [m, f] + chains[m][1..]];
            assert NodeFor(n, pool, e, sizearray) by { NewNodeFor(n, pool, e, key, keyhash, isString, sizearray); }
            SecondPut(h, pool, cs, t, sizearray, i, m, f, n);
            assert hash[..] == Linked(h, m, f)[f := n];
          }
        }
      }
    }

    method FreeSlot() returns (f: nat)
      requires exists s :: 0 <= s < hash.Length && !Used(hash[s])
      ensures f < hash.Length && !Used(hash[f])
    {
      f := 0;
      while hash[f].value != Nil
        invariant f < hash.Length && forall s :: 0 <= s < f ==> Used(hash[s])
        decreases hash.Length - f
      {
        f := f + 1;
      }
    }

    /** Builds the table for `t`, of which the keys up to `border` go to the array. */
    method ConvTable(t: Source, border: nat)
      requires border < 0x8000_0000
      modifies this
      ensures Valid() && source == t && fresh(values) && fresh(hash)
    {
      hide Valid, ArrayTo, HashKeys, Find;
      source := t;
      sizearray := border;
      values := new Value[border](_ => Nil);
      pool := [];
      var sizehash := CountSize(t, border);
      hash := new Node[sizehash](_ => EmptyNode);
      chains := seq(sizehash, _ => []);
      if sizehash > 0 {
        FillSlots(t);
      } else {
        FillPlain(t);
      }
    }

    /** Nothing is in the table yet. */
    ghost predicate Empty() reads this, values, hash {
      && values.Length == sizearray < 0x8000_0000 && pool == [] && |chains| == hash.Length
      && (forall x :: 0 <= x < values.Length ==> values[x] == Nil)
      && (forall x :: 0 <= x < hash.Length ==> hash[x] == EmptyNode && chains[x] == [])
    }

    /** A table with slots is filled in two passes. */
    method FillSlots(t: Source)
      requires source == t && Empty() && hash.Length == |HashKeys(t, sizearray)| > 0
      modifies this`pool, this`chains, hash, values
      ensures Valid()
    {
      hide First, Second, Find, Main, HashOf, Consistent, Holds, Keyed, Sourced, Complete, HashKeys;
      assert ArrayTo(t, 0) by { NothingFound(t); }
      EmptyFirst(hash[..], chains, t, sizearray);
      FillNoColliding(t);
      FirstIsSecond(hash[..], pool, chains, t, sizearray);
      FillColliding(t);
      assert t[..|t|] == t;
      SlotsComplete(values[..], hash[..], pool, chains, t, sizearray);
    }

    /** One without needs its array only. */
    method FillPlain(t: Source)
      requires source == t && Empty() && hash.Length == 0 == |HashKeys(t, sizearray)|
      modifies values
      ensures Valid()
    {
      hide Find, Keyed, Sourced, Complete, HashKeys, Consistent;
      FillArray(t);
      assert hash[..] == [];
      NoSlots(values[..], pool, t, sizearray);
    }

    method FillArray(t: Source)
      requires values.Length == sizearray < 0x8000_0000
      modifies values
      ensures forall x :: 0 <= x < sizearray ==> values[x] == Find(t, Num((x + 1) as int32))
    {
      hide Find;
      for i := 0 to sizearray
        invariant forall x :: 0 <= x < i ==> values[x] == Find(t, Num((x + 1) as int32))
      {
        var v := RawGet(t, Num((i + 1) as int32));
        values[i] := v;
      }
    }
  
    /** The slot of a key in the rest of a chain, or -1. */
    method FollowChain(k: Key, keyhash: nat, start: nat, ghost c: seq<int>, ghost p0: nat) returns (slot: int)
      requires Keyed(hash[..], pool) && Walk(hash[..], c) && keyhash == HashOf(k)
      requires p0 < |c| && c[p0] == start
      ensures -1 <= slot < hash.Length
      ensures slot >= 0 ==> Used(hash[slot]) && KeyOf(hash[slot], pool) == k
      ensures slot < 0 ==> forall q :: p0 <= q < |c| ==> Distant(hash[..], pool, c[q], k)
    {
      hide HashOf, Keyed;
      ghost var p := p0;
      slot := start;
      while true
        invariant 0 <= slot < hash.Length && p0 <= p < |c| && c[p] == slot
        invariant forall q :: p0 <= q < p ==> Distant(hash[..], pool, c[q], k)
        decreases |c| - p
      {
        DistantIf(hash[..], pool, slot, k, keyhash);
        if keyhash == hash[slot].keyhash {
          var same := SameText(hash[slot], k);
          if same { return; }
        }
        assert p + 1 < |c| ==> hash[..][c[p]].next == c[p + 1];
        if hash[slot].next < 0 { return -1; }
        slot := hash[slot].next;
        p := p + 1;
      }
    }

    /** The slot of a key, or -1. */
    method LookupKey(k: Key, keyhash: nat) returns (slot: int)
      requires Valid() && keyhash == HashOf(k)
      ensures -1 <= slot < hash.Length
      ensures slot >= 0 ==> Consistent(hash[..], pool, chains, source, sizearray) && KeyOf(hash[slot], pool) == k
      ensures slot < 0 ==> hash.Length == 0 || (Consistent(hash[..], pool, chains, source, sizearray) && !Holds(hash[..], pool, k))
    {
      hide HashOf, Find, Main, Holds, HashKeys, Table.ArrayTo;
      if hash.Length == 0 { return -1; }
      var m := keyhash % hash.Length;
      MainIs(keyhash, hash.Length);
      ghost var h := hash[..];
      ghost var home := Main(h[m].keyhash, |h|);
      ghost var c := chains[home];
      assert Used(h[m]) && ChainOk(h, home, c) && m in c;
      WalkOf(h, home, c);
      DistantIf(h, pool, m, k, keyhash);
      hide Keyed, Chained, ChainOk, Sourced;
      if keyhash != hash[m].keyhash && hash[m].nocolliding {
        assert |c| == 1 && c[0] == m;
        NotInChain(h, pool, chains, k, m, 0);
        return -1;
      }
      ghost var p0: nat :| p0 < |c| && c[p0] == m;
      slot := FollowChain(k, keyhash, m, c, p0);
      if slot < 0 { NotInChain(h, pool, chains, k, m, p0); }
    }

    /** Integers are compared as they are, strings by their text. */
    method SameText(n: Node, k: Key) returns (same: bool)
      requires Readable(n, pool)
      ensures same <==> KeyOf(n, pool) == k
    {
      match k
      case Num(d) => same := !n.isString && n.key == d as int;
      case Str(s) => same := n.isString && pool[n.key - 2] == s;
    }

    method KeyHash(k: Key) returns (keyhash: nat)
      ensures keyhash == HashOf(k)
    {
      match k
      case Num(n) => keyhash := n as int % WORD;
      case Str(s) =>
        var h := CalcHash(s);
        keyhash := h as nat;
    }

    /** The table answers as the source does. */
    method Index(k: Key) returns (v: Value)
      requires Valid()
      ensures v == Find(source, k)
    {
      assert source[..|source|] == source;
      if k.Num? && 0 < k.n as int <= sizearray { return values[k.n as int - 1]; }
      var keyhash := KeyHash(k);
      var slot := LookupKey(k, keyhash);
      if slot >= 0 {
        v := hash[slot].value;
      } else {
        NotThere(k);
        v := Nil;
      }
    }

    lemma NotThere(k: Key)
      requires Valid() && IsHashKey(k, sizearray)
      requires hash.Length == 0 || !Holds(hash[..], pool, k)
      ensures Find(source, k) == Nil
    {
      FindSome(source, k);
      if Find(source, k) != Nil {
        var i :| 0 <= i < |source| && source[i].key == k;
        EntryKey(source, sizearray, i);
      }
    }

    /** All keys, in the order in which they are visited. */
    ghost function Keys(): seq<Key>
      requires Valid()
      reads this, values, hash
    {
      AllKeys(values[..], hash[..], pool)
    }

    /** Every key of the source is visited, once. */
    lemma KeysOnce()
      requires Valid()
      ensures forall i, j :: 0 <= i < j < |Keys()| ==> Keys()[i] != Keys()[j]
      ensures forall k :: k in Keys() <==> Find(source, k) != Nil
    {
      AllKeysOnce(values[..], hash[..], pool, source, sizearray);
      hide AllKeys, Find;
      forall k ensures k in Keys() <==> Find(source, k) != Nil {
        KeyVisited(values[..], hash[..], pool, source, sizearray, k);
      }
    }

    /** The first key of the array part from place `i`, or else of the slots. */
    method FirstFrom(i: nat) returns (r: MaybeKey)
      requires Valid() && i <= sizearray
      ensures r == HeadOf(ArrayKeys(values[..], i) + SlotList(hash[..], pool))
    {
      hide Find, Holds, Consistent, HashOf, Sourced, Keyed;
      for x := i to sizearray
        invariant ArrayKeys(values[..], i) == ArrayKeys(values[..], x)
      {
        if values[x] != Nil { return One(Num((x + 1) as int32)); }
      }
      if hash.Length > 0 {
        r := PushKey(0);
      } else {
        r := NoKey;
      }
    }

    method PushKey(s: nat) returns (r: MaybeKey)
      requires Keyed(hash[..], pool) && s < hash.Length && forall i :: 0 <= i < hash.Length ==> Used(hash[..][i])
      ensures r == One(SlotList(hash[..], pool)[s])
    {
      hide HashOf;
      var n := hash[s];
      assert Used(hash[..][s]) && Readable(n, pool);
      r := One(if n.isString then Str(pool[n.key - 2]) else Num(n.key as int32));
    }

    /** The key visited after `k`, or first. */
    method NextKey(k: MaybeKey) returns (r: MaybeKey)
      requires Valid()
      ensures k.NoKey? ==> r == HeadOf(Keys())
      ensures forall i :: 0 <= i < |Keys()| && k == One(Keys()[i]) ==> r == HeadOf(Keys()[i + 1..])
    {
      hide Find, Holds, Consistent, HashOf, Sourced, Keyed, HashKeys;
      ghost var ks := Keys();
      if k.NoKey? {
        r := FirstFrom(0);
        return;
      }
      if k.k.Num? && 0 < k.k.n as int <= sizearray {
        r := FirstFrom(k.k.n as int);
        forall i | 0 <= i < |ks| && k == One(ks[i]) ensures r == HeadOf(ks[i + 1..]) {
          AfterArrayKey(values[..], hash[..], pool, source, sizearray, i);
        }
        return;
      }
      var keyhash := KeyHash(k.k);
      var slot := LookupKey(k.k, keyhash);
      r := NoKey;
      if slot >= 0 && slot + 1 < hash.Length { r := PushKey(slot + 1); }
      forall i | 0 <= i < |ks| && k == One(ks[i]) ensures r == HeadOf(ks[i + 1..]) {
        AfterHashKey(values[..], hash[..], pool, source, sizearray, i, slot);
      }
    }
  }
}
