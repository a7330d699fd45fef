/** The write side of a TCP socket: packets wait in a list of high and one of low priority, the kernel
    takes as many bytes as it likes at a time, and a socket that is closed may first have to drain. */
module SocketWrite {
  import opened Seqs

  type Bytes = seq<bv8>

  datatype Packet = Packet(low: bool, data: Bytes)

  /** A packet that waits: `ptr` bytes are written, `sz` are not. */
  datatype WriteBuffer = WriteBuffer(packet: Packet, ptr: nat, sz: nat)

  datatype SocketType = Invalid | Reserve | PListen | Listen | Connecting | Connected | HalfClose | PAccept | Bind

  /** What the kernel answers to a write. */
  datatype Answer = Wrote(n: nat) | Interrupted | WouldBlock | Failed

  /** What the kernel answers to a read. */
  datatype Input = Got | EndOfFile | NotNow | ReadError

  /** What is reported to the service. */
  datatype Report = Nothing | Opened | Data | Close | Error

  /** How a connection ended. */
  datatype Ending = Open | Drained | Shutdown | PeerClosed | Broken

  // ---------------------------------------------------------------- what is owed

  function Concat(ps: seq<Packet>): Bytes {
    if ps == [] then [] else Concat(ps[..|ps| - 1]) + ps[|ps| - 1].data
  }

  /** The packets of one priority. */
  function Of(ps: seq<Packet>, low: bool): seq<Packet> {
    if ps == [] then []
    else Of(ps[..|ps| - 1], low) + if ps[|ps| - 1].low == low then [ps[|ps| - 1]] else []
  }

  function Packets(q: seq<WriteBuffer>): seq<Packet> { seq(|q|, i requires 0 <= i < |q| => q[i].packet) }

  function Left(q: seq<WriteBuffer>): nat { if q == [] then 0 else q[0].sz + Left(q[1..]) }

  /** The written part of the first packet that waits. */
  function Started(q: seq<WriteBuffer>): Bytes {
    if q == [] || q[0].ptr > |q[0].packet.data| then [] else q[0].packet.data[..q[0].ptr]
  }

  predicate Unsent(b: WriteBuffer) { b.ptr == 0 && b.sz == |b.packet.data| }

  /** Only the first packet that waits may have been started. */
  predicate Queue(q: seq<WriteBuffer>) {
    (q != [] ==> q[0].ptr + q[0].sz == |q[0].packet.data|) && forall k :: 0 < k < |q| ==> Unsent(q[k])
  }

  /** The bytes written are those of the packets sent, followed by the part of the next; and sent and
      waiting packets are, in each priority, the accepted ones in the order they came. */
  ghost predicate Kept(wire: Bytes, sent: seq<Packet>, q: seq<WriteBuffer>, accepted: seq<Packet>) {
    && Queue(q)
    && wire == Concat(sent) + Started(q)
    && Of(sent + Packets(q), true) == Of(accepted, true) && Of(sent + Packets(q), false) == Of(accepted, false)
  }

  lemma OfSnoc(a: seq<Packet>, p: Packet, low: bool)
    ensures Of(a + [p], low) == Of(a, low) + if p.low == low then [p] else []
  {
    assert (a + [p])[..|a|] == a;
  }

  lemma ConcatLast(ps: seq<Packet>, p: Packet)
    ensures Concat(ps + [p]) == Concat(ps) + p.data
  {
    assert (ps + [p])[..|ps|] == ps;
  }

  lemma {:induction false} OfConcat(a: seq<Packet>, b: seq<Packet>, low: bool)
    ensures Of(a + b, low) == Of(a, low) + Of(b, low)
  {
    if b == [] {
      assert a + b == a;
    } else {
      hide Of;
      var c, p := b[..|b| - 1], b[|b| - 1];
      OfConcat(a, c, low);
      assert b == c + [p];
      OfSnoc(c, p, low);
      OfSnoc(a + c, p, low);
      Assoc(a, c, [p]);
      Assoc(Of(a, low), Of(c, low), if p.low == low then [p] else []);
    }
  }

  lemma {:induction false} LeftConcat(a: seq<WriteBuffer>, b: seq<WriteBuffer>)
    ensures Left(a + b) == Left(a) + Left(b)
  {
    if a == [] {
      assert a + b == b;
    } else {
      LeftConcat(a[1..], b);
      assert (a + b)[1..] == a[1..] + b;
    }
  }

  lemma {:induction false} ConcatConcat(a: seq<Packet>, b: seq<Packet>)
    ensures Concat(a + b) == Concat(a) + Concat(b)
  {
    if b == [] {
      assert a + b == a;
    } else {
      hide Concat;
      var c, p := b[..|b| - 1], b[|b| - 1];
      ConcatConcat(a, c);
      assert b == c + [p];
      ConcatLast(c, p);
      ConcatLast(a + c, p);
      Assoc(a, c, [p]);
      Assoc(Concat(a), Concat(c), p.data);
    }
  }

  lemma Split(data: Bytes, i: nat, n: nat)
    requires i + n <= |data|
    ensures data[..i] + data[i..][..n] == data[..i + n]
  {
  }

  /** Part of the first packet is written. */
  lemma KeptAdvance(wire: Bytes, sent: seq<Packet>, q: seq<WriteBuffer>, accepted: seq<Packet>, n: nat)
    requires Kept(wire, sent, q, accepted) && q != [] && n <= q[0].sz
    ensures var b := q[0];
            Kept(wire + b.packet.data[b.ptr..][..n], sent, [b.(ptr := b.ptr + n, sz := b.sz - n)] + q[1..], accepted)
    ensures var b := q[0]; sent + Packets([b.(ptr := b.ptr + n, sz := b.sz - n)] + q[1..]) == sent + Packets(q)
  {
    var b := q[0];
    var c := b.(ptr := b.ptr + n, sz := b.sz - n);
    Split(b.packet.data, b.ptr, n);
    HeadChanged(q, c);
    assert Started(q) == b.packet.data[..b.ptr] && Started([c] + q[1..]) == c.packet.data[..c.ptr];
    hide Concat, Of, Packets, Started, Queue;
    Assoc(Concat(sent), b.packet.data[..b.ptr], b.packet.data[b.ptr..][..n]);
  }

  lemma HeadChanged(q: seq<WriteBuffer>, c: WriteBuffer)
    requires Queue(q) && q != [] && c.packet == q[0].packet && c.ptr + c.sz == |c.packet.data|
    ensures Queue([c] + q[1..]) && Packets([c] + q[1..]) == Packets(q)
  {
    var r := [c] + q[1..];
    assert forall k :: 1 <= k < |q| ==> r[k] == q[k];
  }

  lemma QueueTail(q: seq<WriteBuffer>)
    requires Queue(q) && q != []
    ensures Queue(q[1..]) && Started(q[1..]) == [] && Packets(q) == [q[0].packet] + Packets(q[1..])
    ensures Started(q) + q[0].packet.data[q[0].ptr..] == q[0].packet.data
  {
  }

  /** All of the first packet is written. */
  lemma KeptFinish(wire: Bytes, sent: seq<Packet>, q: seq<WriteBuffer>, accepted: seq<Packet>)
    requires Kept(wire, sent, q, accepted) && q != []
    ensures Kept(wire + q[0].packet.data[q[0].ptr..], sent + [q[0].packet], q[1..], accepted)
    ensures sent + [q[0].packet] + Packets(q[1..]) == sent + Packets(q)
  {
    var b := q[0];
    QueueTail(q);
    ConcatLast(sent, b.packet);
    Assoc(sent, [b.packet], Packets(q[1..]));
    Assoc(Concat(sent), Started(q), b.packet.data[b.ptr..]);
    hide Concat, Of, Packets, Started, Queue;
  }

  lemma QueueInsert(high: seq<WriteBuffer>, low: seq<WriteBuffer>, b: WriteBuffer)
    requires Queue(high + low) && Unsent(b) && forall k :: 0 <= k < |low| ==> Unsent(low[k])
    ensures Queue(high + [b] + low) && Started(high + [b] + low) == Started(high + low)
  {
    assert forall k :: 0 <= k < |high| ==> (high + low)[k] == high[k] && (high + [b] + low)[k] == high[k];
    assert high == [] ==> high + low == low && high + [b] + low == [b] + low;
  }

  lemma PacketsInsert(high: seq<WriteBuffer>, low: seq<WriteBuffer>, b: WriteBuffer)
    ensures Packets(high + low) == Packets(high) + Packets(low)
    ensures Packets(high + [b] + low) == Packets(high) + [b.packet] + Packets(low)
  {
  }

  lemma OfInsert(a: seq<Packet>, p: Packet, c: seq<Packet>, accepted: seq<Packet>, low: bool)
    requires Of(a + c, low) == Of(accepted, low) && (p.low ==> c == []) && forall k :: 0 <= k < |c| ==> c[k].low
    ensures Of(a + ([p] + c), low) == Of(accepted + [p], low)
  {
    OfConcat(a, [p] + c, low);
    OfConcat([p], c, low);
    OfConcat(a, c, low);
    OfConcat(accepted, [p], low);
    AllLow(c);
    OfOne(p);
    hide Of;
    if p.low {
      assert Of([p], low) + Of([], low) == Of([p], low);
      assert Of(a, low) + Of([], low) == Of(a, low);
    } else if low {
      assert Of([p], low) == [];
      assert Of([p], low) + c == c;
      assert Of(accepted, low) + [] == Of(accepted, low);
    } else {
      assert Of(a, low) + [] == Of(a, low);
      assert [p] + [] == [p];
    }
  }

  /** A packet is accepted: behind those of high priority, or last. */
  lemma KeptAccept(
      wire: Bytes, sent: seq<Packet>, high: seq<WriteBuffer>, low: seq<WriteBuffer>, accepted: seq<Packet>, b: WriteBuffer)
    requires Kept(wire, sent, high + low, accepted) && Unsent(b)
    requires forall k :: 0 <= k < |low| ==> low[k].packet.low && Unsent(low[k])
    requires b.packet.low ==> low == []
    ensures Kept(wire, sent, high + [b] + low, accepted + [b.packet])
    ensures sent + Packets(high + [b] + low) == sent + Packets(high) + [b.packet] + Packets(low)
  {
    var p := b.packet;
    var a := sent + Packets(high);
    QueueInsert(high, low, b);
    PacketsInsert(high, low, b);
    Assoc(sent, Packets(high), Packets(low));
    Assoc(sent, Packets(high), [p] + Packets(low));
    Assoc(Packets(high), [p], Packets(low));
    Assoc(a, [p], Packets(low));
    assert forall k :: 0 <= k < |low| ==> Packets(low)[k].low;
    assert p.low ==> Packets(low) == [];
    hide Concat, Of, Packets, Started, Queue;
    OfInsert(a, p, Packets(low), accepted, true);
    OfInsert(a, p, Packets(low), accepted, false);
  }

  lemma OfOne(p: Packet)
    ensures Of([p], p.low) == [p] && Of([p], !p.low) == []
  {
  }

  lemma {:induction false} AllLow(ps: seq<Packet>)
    requires forall k :: 0 <= k < |ps| ==> ps[k].low
    ensures Of(ps, true) == ps && Of(ps, false) == []
  {
    if ps != [] { AllLow(ps[..|ps| - 1]); }
  }

  /** The list without its first packet, or with `n` more bytes of it written. */
  function Taken(list: seq<WriteBuffer>, n: nat): seq<WriteBuffer>
    requires list != [] && n <= list[0].sz
  {
    if n == list[0].sz then list[1..]
    else [list[0].(ptr := list[0].ptr + n, sz := list[0].sz - n)] + list[1..]
  }

  function NowSent(sent: seq<Packet>, list: seq<WriteBuffer>, n: nat): seq<Packet>
    requires list != [] && n <= list[0].sz
  {
    if n == list[0].sz then sent + [list[0].packet] else sent
  }

  lemma TakenLeft(list: seq<WriteBuffer>, n: nat)
    requires list != [] && n <= list[0].sz
    ensures Left(Taken(list, n)) + n == Left(list) && |Taken(list, n)| <= |list|
    ensures n == list[0].sz || n > 0 ==> Left(Taken(list, n)) + |Taken(list, n)| < Left(list) + |list|
  {
    var b := list[0].(ptr := list[0].ptr + n, sz := list[0].sz - n);
    assert ([b] + list[1..])[1..] == list[1..];
  }

  lemma TakenBefore(high: seq<WriteBuffer>, low: seq<WriteBuffer>, n: nat)
    requires high != [] && n <= high[0].sz
    ensures (high + low)[0] == high[0] && Taken(high + low, n) == Taken(high, n) + low
  {
    assert (high + low)[1..] == high[1..] + low;
  }

  lemma KeptHead(wire: Bytes, sent: seq<Packet>, q: seq<WriteBuffer>, accepted: seq<Packet>)
    requires Kept(wire, sent, q, accepted) && q != []
    ensures q[0].ptr + q[0].sz == |q[0].packet.data|
  {
  }

  lemma NothingLeft(sent: seq<Packet>)
    ensures Left([]) == 0 && Packets([]) == [] && Queue([]) && Started([]) == [] && sent + [] == sent
  {
  }

  lemma HeadLeft(q: seq<WriteBuffer>)
    requires q != []
    ensures Left([q[0]]) + Left(q[1..]) == Left(q) && q[..1] == [q[0]] && [q[0]] + q[1..] == q
  {
    LeftConcat([q[0]], q[1..]);
    assert [q[0]] + q[1..] == q;
  }

  lemma Untouched(wire: Bytes, sent: seq<Packet>, q: seq<WriteBuffer>, accepted: seq<Packet>)
    requires Kept(wire, sent, q, accepted)
    ensures q != [] ==> forall k :: 0 <= k < |q| - 1 ==> Unsent(q[1..][k])
    ensures q != [] && q[0].ptr == 0 ==> forall k :: 0 <= k < |q| ==> Unsent(q[k])
  {
  }

  /** Some of the first packet is written. */
  lemma KeptTaken(wire: Bytes, sent: seq<Packet>, q: seq<WriteBuffer>, accepted: seq<Packet>, n: nat)
    requires Kept(wire, sent, q, accepted) && q != [] && n <= q[0].sz
    ensures Kept(wire + q[0].packet.data[q[0].ptr..][..n], NowSent(sent, q, n), Taken(q, n), accepted)
    ensures NowSent(sent, q, n) + Packets(Taken(q, n)) == sent + Packets(q)
  {
    if n == q[0].sz {
      KeptFinish(wire, sent, q, accepted);
      assert q[0].packet.data[q[0].ptr..][..n] == q[0].packet.data[q[0].ptr..];
    } else {
      KeptAdvance(wire, sent, q, accepted, n);
    }
  }

  lemma OneLeft(p: Packet, n: nat)
    requires n <= |p.data|
    ensures var q := [WriteBuffer(p, n, |p.data| - n)]; Packets(q) == [p] && Queue(q) && Started(q) == p.data[..n]
  {
  }

  lemma OfLast(sent: seq<Packet>, accepted: seq<Packet>, p: Packet, low: bool)
    requires Of(sent, low) == Of(accepted, low)
    ensures Of(sent + [p], low) == Of(accepted + [p], low)
  {
    OfConcat(sent, [p], low);
    OfConcat(accepted, [p], low);
    hide Of;
  }

  /** A packet is written at once, or `n` bytes of it. */
  lemma KeptDirect(wire: Bytes, sent: seq<Packet>, accepted: seq<Packet>, p: Packet, n: nat)
    requires Kept(wire, sent, [], accepted) && n <= |p.data|
    ensures n == |p.data| ==> Kept(wire + p.data[..n], sent + [p], [], accepted + [p])
    ensures n < |p.data| ==> Kept(wire + p.data[..n], sent, [WriteBuffer(p, n, |p.data| - n)], accepted + [p])
    ensures Packets([WriteBuffer(p, n, |p.data| - n)]) == [p]
  {
    hide Packets, Started, Of, Concat, Queue;
    NothingLeft(sent);
    NothingLeft(sent + [p]);
    OneLeft(p, n);
    assert wire == Concat(sent);
    ConcatLast(sent, p);
    OfLast(sent, accepted, p, true);
    OfLast(sent, accepted, p, false);
  }

  /** The lists with one more packet. */
  function HighWith(high: seq<WriteBuffer>, b: WriteBuffer): seq<WriteBuffer> { if b.packet.low then high else high + [b] }

  function LowWith(low: seq<WriteBuffer>, b: WriteBuffer): seq<WriteBuffer> { if b.packet.low then low + [b] else low }

  lemma KeptWith(
      wire: Bytes, sent: seq<Packet>, high: seq<WriteBuffer>, low: seq<WriteBuffer>, accepted: seq<Packet>, b: WriteBuffer)
    requires Kept(wire, sent, high + low, accepted) && Unsent(b)
    requires forall k :: 0 <= k < |low| ==> low[k].packet.low && Unsent(low[k])
    ensures Kept(wire, sent, HighWith(high, b) + LowWith(low, b), accepted + [b.packet])
    ensures sent + Packets(HighWith(high, b) + LowWith(low, b)) ==
            if b.packet.low then sent + Packets(high + low) + [b.packet] else sent + Packets(high) + [b.packet] + Packets(low)
    ensures Left(HighWith(high, b)) + Left(LowWith(low, b)) == Left(high) + Left(low) + b.sz
  {
    LeftLast(high, b);
    LeftLast(low, b);
    hide Kept, Left, Of, Concat, Started, Queue;
    if b.packet.low {
      var none: seq<WriteBuffer> := [];
      assert high + low + none == high + low && high + low + [b] + none == high + (low + [b]);
      assert Packets(none) == [];
      KeptAccept(wire, sent, high + low, none, accepted, b);
      hide Packets;
    } else {
      hide Packets;
      KeptAccept(wire, sent, high, low, accepted, b);
    }
  }

  lemma LeftLast(q: seq<WriteBuffer>, b: WriteBuffer)
    ensures Left(q + [b]) == Left(q) + b.sz
  {
    LeftConcat(q, [b]);
    assert Left([b]) == b.sz + Left([]);
  }

  // ---------------------------------------------------------------- the socket

  /** A kernel that takes something of every write. */
  predicate Willing(kernel: seq<Answer>) {
    forall k :: 0 <= k < |kernel| ==> kernel[k].Wrote? && kernel[k].n > 0
  }

  /** A slot of the socket table.  Memory that only serves to state what happens is ghost. */
  class Socket {
    var id: int
    var typ: SocketType
    var high: seq<WriteBuffer>
    var low: seq<WriteBuffer>
    var wbSize: int
    var watching: bool           // told when it can be written to
    var kernel: seq<Answer>      // what the kernel will answer
    ghost var wire: Bytes        // what the kernel has taken
    ghost var sent: seq<Packet>
    ghost var accepted: seq<Packet>
    ghost var lost: seq<WriteBuffer>  // what waited when the connection ended
    ghost var ending: Ending
    ghost var bound: bool        // not opened here but handed in
    ghost var stuck: bool        // the last write did not take everything

    predicate Empty() reads this { high == [] && low == [] }

    ghost function Waiting(): seq<WriteBuffer> reads this { if ending.Open? then high + low else lost }

    /** Everything accepted, in the order it is written. */
    ghost function Order(): seq<Packet> reads this { sent + Packets(Waiting()) }

    ghost function Work(): nat reads this { if ending.Open? then Left(high) + Left(low) + |high| + |low| + 1 else 0 }

    ghost predicate Held() reads this {
      && Kept(wire, sent, Waiting(), accepted)
      && (ending.Open? <==> !typ.Invalid?)
      && (typ.Connecting? || typ.Connected? || typ.HalfClose? || typ.Bind? || Empty())
      && (ending.Drained? ==> lost == [])
      && (forall k :: 0 <= k < |low| ==> low[k].packet.low)
      && (typ.Invalid? || typ.Reserve? || wbSize == Left(high) + Left(low))
    }

    /** Whoever has something to write is told when it can, unless it was handed in. */
    ghost predicate Watched() reads this {
      && (bound ==> !watching && (typ.Bind? || typ.HalfClose? || typ.Invalid?))
      && (typ.Bind? ==> bound)
      && (!bound ==> typ.Connecting? || typ.HalfClose? || (typ.Connected? && !Empty()) ==> watching)
    }

    ghost predicate Valid() reads this {
      Held() && Watched() && forall k :: 0 <= k < |low| ==> Unsent(low[k])
    }

    /** Nothing is in progress in the low list. */
    predicate LowWhole() reads this { low == [] || low[0].ptr == 0 }

    method Write(data: Bytes) returns (a: Answer)
      modifies this`kernel, this`wire, this`stuck
      ensures a.Wrote? ==> a.n <= |data| && wire == old(wire) + data[..a.n]
      ensures !a.Wrote? ==> wire == old(wire)
      ensures stuck <==> !(a.Wrote? && a.n == |data|)
      ensures if old(kernel) == [] then kernel == [] && a == WouldBlock else kernel == old(kernel)[1..]
      ensures Willing(old(kernel)) ==> Willing(kernel)
      ensures Willing(old(kernel)) && old(kernel) != [] ==> a.Wrote? && (a.n > 0 || data == [])
    {
      if kernel == [] {
        a := WouldBlock;
      } else {
        a := kernel[0];
        if a.Wrote? && a.n > |data| { a := Wrote(|data|); }
        kernel := kernel[1..];
        if a.Wrote? { wire := wire + data[..a.n]; }
      }
      stuck := !(a.Wrote? && a.n == |data|);
    }

    method ForceClose(ghost why: Ending)
      requires Held() && !typ.Reserve? && !why.Open?
      requires why.Drained? ==> Empty()
      modifies this`typ, this`high, this`low, this`watching, this`lost, this`ending
      ensures Held() && typ.Invalid? && Empty() && Order() == old(Order())
      ensures !watching || (old(typ).Invalid? && watching == old(watching))
      ensures ending == if old(typ).Invalid? then old(ending) else why
    {
      hide Kept, Left, Packets, Of, Concat, Started, Queue;
      if typ.Invalid? { return; }
      lost := high + low;
      high, low := [], [];
      watching := false;
      typ := Invalid;
      ending := why;
    }
  
    /** The list of one priority. */
    function Queued(isLow: bool): seq<WriteBuffer> reads this { if isLow then low else high }

    /** Writes the first packet of a list, or some of it. */
    method WriteHead(isLow: bool) returns (a: Answer)
      requires Held() && !typ.Invalid? && !typ.Reserve? && Queued(isLow) != [] && (isLow ==> high == [])
      modifies this`high, this`low, this`wbSize, this`kernel, this`wire, this`sent, this`stuck
      ensures Held() && Order() == old(Order())
      ensures if old(kernel) == [] then kernel == [] && a.WouldBlock? else kernel == old(kernel)[1..]
      ensures Willing(old(kernel)) ==> Willing(kernel)
      ensures Willing(old(kernel)) && old(kernel) != [] ==> a.Wrote? && Work() < old(Work())
      ensures a.Wrote? && a.n == old(Queued(isLow))[0].sz ==> |Queued(isLow)| < |old(Queued(isLow))|
      ensures a.Wrote? ==> a.n <= old(Queued(isLow))[0].sz
      ensures Queued(isLow) == if a.Wrote? then Taken(old(Queued(isLow)), a.n) else old(Queued(isLow))
      ensures Queued(!isLow) == old(Queued(!isLow))
      ensures sent == if a.Wrote? then NowSent(old(sent), old(Queued(isLow)), a.n) else old(sent)
      ensures stuck <==> !(a.Wrote? && a.n == old(Queued(isLow))[0].sz)
      ensures Work() <= old(Work()) && old(wire) <= wire && (!a.Wrote? ==> wire == old(wire))
    {
      hide Kept, Left, Packets, Started, Willing, Of, Concat, Queue, Unsent, Socket.Watched;
      var list := Queued(isLow);
      var tmp := list[0];
      ghost var q := high + low;
      assert high == [] ==> q == low;
      KeptHead(wire, sent, q, accepted);
      a := Write(tmp.packet.data[tmp.ptr..]);
      if a.Wrote? {
        KeptTaken(old(wire), sent, q, accepted, a.n);
        TakenLeft(list, a.n);
        if !isLow { TakenBefore(high, low, a.n); }
        sent := NowSent(sent, list, a.n);
        wbSize := wbSize - a.n;
        if a.n != tmp.sz {
          list := [tmp.(ptr := tmp.ptr + a.n, sz := tmp.sz - a.n)] + list[1..];
        } else {
          list := list[1..];
        }
        assert list == Taken(old(Queued(isLow)), a.n);
        hide Taken;
        if isLow {
          low := list;
          assert high + low == low && q == old(low);
        } else {
          high := list;
        }
        assert Waiting() == Taken(q, a.n);
        assert sent == NowSent(old(sent), q, a.n);
      }
    }
  
    /** Writes the packets of one list, as far as the kernel takes them. */
    method SendListTcp(isLow: bool) returns (r: Report)
      requires Held() && !typ.Invalid? && !typ.Reserve? && (isLow ==> high == [])
      modifies this`typ, this`high, this`low, this`wbSize, this`watching, this`kernel,
               this`wire, this`sent, this`lost, this`ending, this`stuck
      ensures Held() && Order() == old(Order()) && Work() <= old(Work())
      ensures Willing(old(kernel)) ==> Willing(kernel)
      ensures Willing(old(kernel)) && |old(kernel)| >= old(Work()) ==> r.Nothing? && |kernel| >= Work()
      ensures Willing(old(kernel)) && old(kernel) != [] && old(Queued(isLow)) != [] ==> Work() < old(Work())
      ensures old(Queued(isLow)) == [] ==> r.Nothing? && kernel == old(kernel) && Queued(isLow) == []
      ensures r.Nothing? ==> typ == old(typ) && watching == old(watching) && ending == old(ending)
      ensures r.Nothing? ==> Queued(!isLow) == old(Queued(!isLow)) && (Queued(isLow) != [] ==> stuck)
      ensures !r.Nothing? ==> r.Close? && ending.Broken? && !watching
      ensures old(wire) <= wire
      ensures old(kernel) == [] ==> r.Nothing? && kernel == [] && wire == old(wire) && Queued(isLow) == old(Queued(isLow))
    {
      hide Kept, Left, Packets, Started, Of, Concat, Willing, Taken, NowSent, Queue;
      while Queued(isLow) != []
        invariant Held() && Order() == old(Order()) && Work() <= old(Work())
        invariant typ == old(typ) && watching == old(watching) && ending == old(ending)
        invariant Queued(!isLow) == old(Queued(!isLow)) && old(wire) <= wire
        invariant old(kernel) == [] ==> kernel == [] && wire == old(wire) && Queued(isLow) == old(Queued(isLow))
        invariant Willing(old(kernel)) ==> Willing(kernel)
        invariant |kernel| <= |old(kernel)| && (old(Queued(isLow)) == [] ==> kernel == old(kernel) && Queued(isLow) == [])
        invariant Willing(old(kernel)) && |old(kernel)| >= old(Work()) ==> |kernel| >= Work()
        invariant Willing(old(kernel)) && old(kernel) != [] ==>
                    Work() < old(Work()) || (kernel == old(kernel) && Queued(isLow) == old(Queued(isLow)))
        decreases |Queued(isLow)|, |kernel|
      {
        var tmp := Queued(isLow)[0];
        var a := WriteHead(isLow);
        if a.Interrupted? { continue; }
        if a.WouldBlock? { return Nothing; }
        if a.Failed? {
          ForceClose(Broken);
          return Close;
        }
        if a.n != tmp.sz { return Nothing; }
      }
      r := Nothing;
    }

    /** The packet begun at the head of the low list moves to the high one. */
    method RaiseUncomplete()
      requires Held() && !typ.Invalid? && !typ.Reserve? && high == [] && low != []
      modifies this`high, this`low
      ensures Held() && Order() == old(Order()) && Work() == old(Work())
      ensures high == old(low)[..1] && low == old(low)[1..]
      ensures forall k :: 0 <= k < |low| ==> Unsent(low[k])
    {
      hide Kept, Left, Packets, Of, Concat, Started, Queue;
      NothingLeft(sent);
      assert high + low == low;
      HeadLeft(low);
      Untouched(wire, sent, low, accepted);
      high := [low[0]];
      low := low[1..];
      assert high + low == old(low);
    }

    /** What a round of writing leaves. */
    twostate predicate Flushed(r: Report) reads this {
      && Held() && Order() == old(Order()) && Work() <= old(Work()) && accepted == old(accepted) && old(wire) <= wire
      && (old(kernel) == [] && !old(Empty()) ==> r.Nothing? && wire == old(wire) && !Empty())
      && (forall k :: 0 <= k < |low| ==> Unsent(low[k]))
      && (r.Nothing? ==> typ == old(typ) && (!Empty() ==> stuck && watching == old(watching)))
      && (!r.Nothing? ==> r.Close? && typ.Invalid? && (ending.Broken? || (ending.Drained? && old(typ).HalfClose?)))
    }

    /** On a kernel that takes something of every write, a round leaves less to do, does not break the connection
        and needs no more answers than there was work; a half-closed socket with nothing to write ends. */
    ghost predicate Progress(answers: seq<Answer>, work: nat, empty: bool, before: SocketType) reads this {
      && (Willing(answers) ==> Willing(kernel))
      && (Willing(answers) && |answers| >= work ==> !ending.Broken? && |kernel| >= Work())
      && (Willing(answers) && answers != [] && (!empty || before.HalfClose?) ==> Work() < work)
      && (before.HalfClose? && empty ==> ending.Drained?)
      && (typ == before || ending.Broken? || (ending.Drained? && before.HalfClose?))
    }

    /** Writes the low list, when the high one is empty. */
    method SendLow() returns (r: Report)
      requires Held() && !typ.Invalid? && !typ.Reserve? && high == [] && forall k :: 0 <= k < |low| ==> Unsent(low[k])
      modifies this`typ, this`high, this`low, this`wbSize, this`watching, this`kernel,
               this`wire, this`sent, this`lost, this`ending, this`stuck
      ensures Flushed(r) && (typ == old(typ) ==> watching == old(watching)) && (typ.Invalid? ==> !watching)
      ensures Willing(old(kernel)) ==> Willing(kernel)
      ensures Willing(old(kernel)) && |old(kernel)| >= old(Work()) ==> !ending.Broken? && |kernel| >= Work()
      ensures Willing(old(kernel)) && old(kernel) != [] && old(low) != [] ==> Work() < old(Work())
      ensures ending.Broken? || ending.Open?
    {
      hide Kept, Left, Packets, Willing, Of, Concat, Started, Queue;
      r := SendListTcp(true);
      if r.Close? { return; }
      assert high + low == low;
      Untouched(wire, sent, low, accepted);
      if !LowWhole() { RaiseUncomplete(); }
    }

    /** Writes what the kernel takes: high priority first, then low; and ends a socket that was closed
        when nothing is left. */
    method SendBuffer() returns (r: Report)
      requires Valid() && !typ.Invalid? && !typ.Reserve?
      modifies this`typ, this`high, this`low, this`wbSize, this`watching, this`kernel,
               this`wire, this`sent, this`lost, this`ending, this`stuck
      ensures Flushed(r)
      ensures Watched() || (typ.Connecting? && Empty())
      ensures Progress(old(kernel), old(Work()), old(Empty()), old(typ))
      ensures old(Empty()) || (old(low) == [] && Empty()) ==> !watching
    {
      hide Kept, Left, Packets, Willing, Of, Concat, Started, Queue;
      r := SendListTcp(false);
      if r.Close? { return; }
      if high == [] {
        if low != [] {
          r := SendLow();
        } else {
          r := CheckClose();
        }
      }
    }

    /** Nothing is left: no more events, and the end of a socket that was closed. */
    method CheckClose() returns (r: Report)
      requires Held() && !typ.Invalid? && !typ.Reserve? && Empty()
      modifies this`typ, this`high, this`low, this`watching, this`lost, this`ending
      ensures Held() && Order() == old(Order()) && Work() <= old(Work()) && Empty() && !watching
      ensures if old(typ).HalfClose? then r.Close? && typ.Invalid? && ending.Drained?
              else r.Nothing? && typ == old(typ) && ending == old(ending)
    {
      hide Kept, Left, Packets, Of, Concat, Started, Queue;
      watching := false;
      if typ.HalfClose? {
        ForceClose(Drained);
        return Close;
      }
      r := Nothing;
    }
  
    method Append(b: WriteBuffer, isLow: bool)
      modifies this`high, this`low, this`wbSize
      ensures Queued(isLow) == old(Queued(isLow)) + [b] && Queued(!isLow) == old(Queued(!isLow))
      ensures wbSize == old(wbSize) + b.sz
    {
      if isLow { low := low + [b]; } else { high := high + [b]; }
      wbSize := wbSize + b.sz;
    }

    /** Nothing can be sent on this slot under this id. */
    predicate Refuses(id: int) reads this {
      typ.Invalid? || this.id != id || typ.HalfClose? || typ.PAccept? || typ.PListen? || typ.Listen?
    }

    /** The order with one more packet. */
    ghost function With(p: Packet): seq<Packet> reads this {
      if p.low then Order() + [p] else sent + Packets(high) + [p] + Packets(low)
    }

    /** A packet joins its list. */
    method Enqueue(p: Packet)
      requires Valid() && (typ.Connecting? || typ.Connected? || typ.Bind?) && (typ.Connected? ==> !Empty())
      modifies this`high, this`low, this`wbSize, this`accepted
      ensures Valid() && accepted == old(accepted) + [p] && !Empty()
      ensures Order() == old(With(p))
    {
      hide Kept, Left, Packets, Of, Concat, Started, Queue;
      var b := WriteBuffer(p, 0, |p.data|);
      KeptWith(wire, sent, high, low, accepted, b);
      Append(b, p.low);
      accepted := accepted + [p];
    }

    /** What is left of a packet after `n` bytes goes to the high list, whatever its priority. */
    method KeepRest(p: Packet, n: nat, ghost before: Bytes)
      requires Kept(before, sent, [], accepted) && n <= |p.data| && wire == before + p.data[..n]
      requires typ.Connected? && ending.Open? && Empty() && wbSize == 0 && !bound
      modifies this`high, this`low, this`wbSize, this`watching, this`sent, this`accepted
      ensures Valid() && accepted == old(accepted) + [p] && Order() == old(sent) + [p]
    {
      hide Kept, Left, Packets, Of, Concat, Started, Queue;
      KeptDirect(before, sent, accepted, p, n);
      NothingLeft(sent);
      NothingLeft(sent + [p]);
      accepted := accepted + [p];
      if n == |p.data| {
        sent := sent + [p];
        assert Waiting() == [];
      } else {
        LeftLast(high, WriteBuffer(p, n, |p.data| - n));
        Append(WriteBuffer(p, n, |p.data| - n), false);
        assert Waiting() == [WriteBuffer(p, n, |p.data| - n)];
        watching := true;
      }
    }

    /** A packet goes out at once as far as it can. */
    method SendDirect(p: Packet) returns (r: Report)
      requires Valid() && typ.Connected? && Empty()
      modifies this
      ensures Valid() && id == old(id) && bound == old(bound) && old(wire) <= wire
      ensures r.Nothing? ==> typ == old(typ) && accepted == old(accepted) + [p] && Order() == old(With(p))
      ensures !r.Nothing? ==> r.Close? && ending.Broken? && accepted == old(accepted) && Order() == old(Order())
    {
      hide Kept, Left, Packets, Of, Concat, Started, Queue;
      NothingLeft(sent);
      NothingLeft(sent + [p]);
      assert Waiting() == [];
      var a := Write(p.data);
      if a.Failed? {
        ForceClose(Broken);
        return Close;
      }
      KeepRest(p, if a.Wrote? then a.n else 0, old(wire));
      r := Nothing;
    }

    /** A packet is written, or waits for its turn behind those of its priority and of a higher one. */
    method SendSocket(id: int, p: Packet) returns (r: Report)
      requires Valid() && (typ.Reserve? ==> this.id != id)
      modifies this
      ensures Valid() && this.id == old(this.id) && bound == old(bound)
      ensures old(Refuses(id)) ==> r.Nothing? && unchanged(this)
      ensures !old(Refuses(id)) && r.Nothing? ==>
                && typ == old(typ) && accepted == old(accepted) + [p]
                && Order() == old(With(p))
      ensures !r.Nothing? ==>
                r.Close? && ending.Broken? && accepted == old(accepted) && Order() == old(Order()) && old(typ).Connected?
      ensures old(wire) <= wire
      ensures !old(Refuses(id)) && !old(typ).Connected? ==> wire == old(wire) && kernel == old(kernel) && !Empty()
    {
      hide Kept, Left, Packets, Of, Concat, Started, Queue, Unsent;
      hide Socket.With, Socket.Valid, Socket.Held, Socket.Watched, Socket.Order, Socket.Waiting;
      if typ.Invalid? || this.id != id || typ.HalfClose? || typ.PAccept? { return Nothing; }
      if typ.PListen? || typ.Listen? { return Nothing; }
      if Empty() && typ.Connected? {
        r := SendDirect(p);
      } else {
        Enqueue(p);
        r := Nothing;
      }
    }

    /** Closes at once, or when what was accepted is written. */
    method CloseSocket(id: int, shutdown: bool) returns (r: Report)
      requires Valid() && (typ.Reserve? ==> this.id != id)
      modifies this
      ensures Valid() && this.id == old(this.id)
      ensures old(typ).Invalid? || old(this.id) != id ==> r.Close? && unchanged(this)
      ensures !old(typ).Invalid? && old(this.id) == id ==>
                && Order() == old(Order()) && accepted == old(accepted)
                && (r.Close? <==> typ.Invalid?) && (r.Nothing? <==> typ.HalfClose?) && (r.Nothing? ==> !Empty() && stuck)
                && (r.Close? ==> ending.Drained? || ending.Broken? || (shutdown && ending.Shutdown?))
                && (r.Nothing? ==> bound == old(bound)) && (if shutdown then r.Close? else r.Close? || r.Nothing?)
      ensures old(wire) <= wire
      ensures old(kernel) == [] && !old(Empty()) && !shutdown && !old(typ).Invalid? && old(this.id) == id ==>
                r.Nothing? && wire == old(wire)
    {
      hide Kept, Left, Packets, Of, Concat, Started, Queue, Willing;
      if typ.Invalid? || this.id != id { return Close; }
      if !Empty() {
        r := SendBuffer();
        if !r.Nothing? { return; }
      }
      if shutdown || Empty() {
        ForceClose(if Empty() then Drained else Shutdown);
        return Close;
      }
      typ := HalfClose;
      r := Nothing;
    }
  
    /** A free slot. */
    constructor ()
      ensures Valid() && typ.Invalid? && kernel == []
    {
      id, typ, high, low, wbSize, watching, kernel := 0, Invalid, [], [], 0, false, [];
      wire, sent, accepted, lost, ending, bound, stuck := [], [], [], [], Drained, false, false;
    }

    /** The slot is taken, if it is free. */
    method ReserveSlot(newId: int)
      requires Valid()
      modifies this
      ensures Valid() && kernel == old(kernel)
      ensures if old(typ).Invalid? then typ.Reserve? && id == newId && wire == [] && accepted == [] else unchanged(this)
    {
      hide Kept, Left, Packets, Of, Concat, Started, Queue;
      if typ.Invalid? {
        typ := Reserve;
        id := newId;
        wire, sent, accepted, ending, bound, watching := [], [], [], Open, false, false;
        assert high + low == [];
        KeptFresh();
      }
    }

    /** A reserved slot gets its connection; the event pool may not take it. */
    method NewFd(kind: SocketType, added: bool)
      requires Valid() && typ.Reserve?
      requires kind.Connecting? || kind.Connected? || kind.PAccept? || kind.PListen? || kind.Bind?
      modifies this
      ensures Valid() && accepted == old(accepted) && Order() == old(Order()) && kernel == old(kernel) && wire == old(wire)
      ensures typ == (if added then kind else Invalid) && id == old(id)
      ensures added ==> bound == kind.Bind? && (watching <==> kind.Connecting?)
    {
      hide Kept, Packets, Of, Concat, Started, Queue;
      if added {
        wbSize := 0;
        assert high == [] && low == [];
        typ := kind;
        watching := kind.Connecting?;
        bound := kind.Bind?;
      } else {
        lost := high + low;
        assert lost == [];
        typ := Invalid;
        ending := Drained;
      }
    }

    method StartSocket(id: int, added: bool) returns (r: Report)
      requires Valid()
      modifies this
      ensures Valid() && accepted == old(accepted) && Order() == old(Order()) && wire == old(wire) && this.id == old(this.id)
      ensures old(typ).Invalid? || old(this.id) != id ==> r.Error? && unchanged(this)
      ensures !old(typ).Invalid? && old(this.id) == id ==>
                if old(typ).PAccept? || old(typ).PListen?
                then if added then r.Opened? && typ == (if old(typ).PAccept? then Connected else Listen)
                     else r.Error? && typ.Invalid? && ending.Broken?
                else unchanged(this) && (r.Opened? <==> typ.Connected?) && (r.Nothing? <==> !typ.Connected?)
    {
      hide Kept, Left, Packets, Of, Concat, Started, Queue;
      if typ.Invalid? || this.id != id { return Error; }
      if typ.PAccept? || typ.PListen? {
        if !added {
          ForceClose(Broken);
          return Error;
        }
        typ := if typ.PAccept? then Connected else Listen;
        return Opened;
      }
      r := if typ.Connected? then Opened else Nothing;
    }

    method ReportConnect(ok: bool) returns (r: Report)
      requires Valid() && typ.Connecting?
      modifies this
      ensures Valid() && accepted == old(accepted) && Order() == old(Order()) && wire == old(wire) && id == old(id)
      ensures if ok then r.Opened? && typ.Connected? && (Empty() ==> !watching) else r.Error? && typ.Invalid? && ending.PeerClosed?
    {
      hide Kept, Left, Packets, Of, Concat, Started, Queue;
      if !ok {
        ForceClose(PeerClosed);
        return Error;
      }
      typ := Connected;
      if Empty() { watching := false; }
      r := Opened;
    }

    method ForwardMessage(input: Input) returns (r: Report)
      requires Valid() && (typ.Connected? || typ.HalfClose? || typ.Bind?)
      modifies this
      ensures Valid() && accepted == old(accepted) && Order() == old(Order()) && wire == old(wire) && id == old(id)
      ensures (r.Error? <==> input.ReadError?) && (r.Close? <==> input.EndOfFile?) && !r.Opened?
      ensures if input.ReadError? || input.EndOfFile? then ending.PeerClosed? else unchanged(this)
      ensures r.Data? <==> input.Got? && !old(typ).HalfClose?
    {
      hide Kept, Left, Packets, Of, Concat, Started, Queue;
      match input
      case NotNow => r := Nothing;
      case ReadError =>
        ForceClose(PeerClosed);
        r := Error;
      case EndOfFile =>
        ForceClose(PeerClosed);
        r := Close;
      case Got => r := if typ.HalfClose? then Nothing else Data;
    }

    /** The socket can be read or written to. */
    method ReadAndWrite(read: bool, input: Input, write: bool) returns (r: Report)
      requires Valid() && (typ.Connected? || typ.HalfClose? || typ.Bind?) && (write ==> !bound)
      modifies this
      ensures Valid() && accepted == old(accepted) && Order() == old(Order()) && old(wire) <= wire && id == old(id)
      ensures typ.Invalid? ==> r.Close? || r.Error?
      ensures if read && (input.ReadError? || input.EndOfFile?) then ending.PeerClosed?
              else if write then bound == old(bound) && Progress(old(kernel), old(Work()), old(Empty()), old(typ))
                                 && (old(Empty()) ==> !watching)
              else unchanged(this)
    {
      hide Kept, Left, Packets, Of, Concat, Started, Queue, Willing;
      r := Nothing;
      if read { r := ForwardMessage(input); }
      if write && !r.Close? && !r.Error? {
        assert Empty() == old(Empty()) && Work() == old(Work());
        r := SendBuffer();
      }
    }

    /** When something waits, it can only be stuck for good in a socket that was handed in. */
    lemma Heard()
      requires Valid() && !Empty()
      ensures watching <==> !bound
    {
    }

    /** The wire carries whole packets in the promised order, and the first bytes of the next one. */
    lemma Promise()
      requires Held()
      ensures wire <= Concat(Order())
      ensures sent <= Order() && Concat(sent) <= wire
      ensures var rest := wire[|Concat(sent)|..];
              rest == [] || (|sent| < |Order()| && rest <= Order()[|sent|].data)
      ensures ending.Drained? ==> wire == Concat(Order()) && Order() == sent
      ensures Of(Order(), true) == Of(accepted, true) && Of(Order(), false) == Of(accepted, false)
    {
      KeptPrefix(wire, sent, Waiting(), accepted);
      assert Waiting() == [] ==> Packets(Waiting()) == [] && sent + [] == sent;
      hide Concat, Of, Kept;
    }
  }

  lemma KeptFresh()
    ensures Kept([], [], [], [])
  {
    assert [] + Packets([]) == [];
  }

  lemma ConcatPackets(q: seq<WriteBuffer>)
    requires q != []
    ensures q[0].packet.data <= Concat(Packets(q))
  {
    var p := q[0].packet;
    assert Packets(q) == [p] + Packets(q[1..]);
    assert Concat([p]) == p.data by { ConcatLast([], p); assert [] + [p] == [p]; }
    ConcatConcat([p], Packets(q[1..]));
  }

  lemma KeptPrefix(wire: Bytes, sent: seq<Packet>, q: seq<WriteBuffer>, accepted: seq<Packet>)
    requires Kept(wire, sent, q, accepted)
    ensures wire <= Concat(sent + Packets(q)) && wire == Concat(sent) + Started(q)
    ensures q == [] ==> wire == Concat(sent + Packets(q))
    ensures Of(sent + Packets(q), true) == Of(accepted, true) && Of(sent + Packets(q), false) == Of(accepted, false)
  {
    ConcatConcat(sent, Packets(q));
    if q != [] { ConcatPackets(q); }
    hide Concat, Of, Packets;
  }

  /** What can happen to a slot. */
  datatype Event =
    | Reserved(newId: int)
    | NewSocket(kind: SocketType, added: bool)
    | StartAsked(id: int, added: bool)
    | Sent(id: int, p: Packet)
    | Closed(id: int, shutdown: bool)
    | Polled(connected: bool, read: bool, input: Input, write: bool)

  /** Who knows an id has got it with its connection, and only a socket that is ever watched is reported
      ready. */
  ghost predicate Proper(s: Socket, e: Event) reads s {
    match e
    case Sent(id, _) => s.typ.Reserve? ==> id != s.id
    case Closed(id, _) => s.typ.Reserve? ==> id != s.id
    case NewSocket(kind, _) =>
      s.typ.Reserve? && (kind.Connecting? || kind.Connected? || kind.PAccept? || kind.PListen? || kind.Bind?)
    case Polled(_, _, _, write) => write ==> !s.bound
    case _ => true
  }

  /** The peer is gone. */
  predicate HangsUp(e: Event) { e.Polled? && e.read && (e.input.EndOfFile? || e.input.ReadError?) }

  /** One command or event.  Bytes that are written stay, and packets keep their order.  A socket that was
      closed while packets waited accepts no more, and loses none unless it is shut down or the connection
      breaks; but one that was handed in just stays as it is.  A packet that is not refused is accepted, a request to
      start or to close is done, and an event that the socket can be written to has it written.  The service is
      told when the connection ends. */
  method Poll(s: Socket, e: Event) returns (r: Report)
    requires s.Valid() && Proper(s, e)
    modifies s
    ensures s.Valid()
    ensures s.wire <= Concat(s.Order()) && (s.ending.Drained? ==> s.wire == Concat(s.Order()))
    ensures !(e.Reserved? && old(s.typ).Invalid?) ==> old(s.wire) <= s.wire
    ensures old(s.typ).HalfClose? ==> s.accepted == old(s.accepted) && s.Order() == old(s.Order())
    ensures old(s.typ).HalfClose? && s.ending.Shutdown? ==> e.Closed? && e.shutdown
    ensures old(s.typ).HalfClose? && old(s.bound) && !e.Closed? && !HangsUp(e) ==> unchanged(s)
    ensures !old(s.typ).Invalid? && s.typ.Invalid? && !e.NewSocket? ==> r.Close? || r.Error?
    ensures Does(s, e, r)
  {
    hide Kept, Packets, Of, Concat, Willing, Left, Started, Queue;
    hide Socket.With;
    r := Nothing;
    match e {
      case Reserved(newId) => s.ReserveSlot(newId);
      case NewSocket(kind, added) => s.NewFd(kind, added);
      case StartAsked(id, added) => r := s.StartSocket(id, added);
      case Sent(id, p) => r := s.SendSocket(id, p);
      case Closed(id, shutdown) => r := s.CloseSocket(id, shutdown);
      case Polled(connected, read, input, write) =>
        if s.typ.Connecting? {
          r := s.ReportConnect(connected);
        } else if s.typ.Connected? || s.typ.HalfClose? || s.typ.Bind? {
          r := s.ReadAndWrite(read, input, write);
        }
    }
    s.Promise();
  }

  /** What a command or event has done. */
  twostate predicate Does(s: Socket, e: Event, r: Report)
    reads s
  {
    match e
    case Reserved(newId) => if old(s.typ).Invalid? then s.typ.Reserve? && s.id == newId && s.accepted == [] else unchanged(s)
    case NewSocket(kind, added) => s.typ == (if added then kind else Invalid) && s.accepted == old(s.accepted)
    case StartAsked(id, added) =>
      if (old(s.typ).PAccept? || old(s.typ).PListen?) && old(s.id) == id
      then s.typ == (if !added then Invalid else if old(s.typ).PAccept? then Connected else Listen)
      else unchanged(s)
    case Sent(id, p) =>
      if old(s.Refuses(id)) then unchanged(s)
      else
        || (s.ending.Broken? && s.accepted == old(s.accepted))
        || (s.typ == old(s.typ) && s.accepted == old(s.accepted) + [p] && s.Order() == old(s.With(p)))
    case Closed(id, shutdown) =>
      if old(s.typ).Invalid? || old(s.id) != id then unchanged(s)
      else s.accepted == old(s.accepted) && (s.typ.Invalid? || (s.typ.HalfClose? && !shutdown && !s.Empty()))
    case Polled(connected, _, _, write) =>
      && s.accepted == old(s.accepted) && s.Order() == old(s.Order())
      && (old(s.typ).Connecting? ==>
            if connected then s.typ.Connected? && r.Opened? && (s.Empty() ==> !s.watching) else s.ending.PeerClosed?)
      && ((old(s.typ).Connected? || old(s.typ).HalfClose? || old(s.typ).Bind?) && HangsUp(e) ==> s.ending.PeerClosed?)
      && ((old(s.typ).Connected? || old(s.typ).HalfClose?) && !HangsUp(e) ==>
            if write
            then s.bound == old(s.bound) && s.Progress(old(s.kernel), old(s.Work()), old(s.Empty()), old(s.typ))
                 && (old(s.Empty()) ==> !s.watching)
            else unchanged(s))
  }

  /** A socket that was closed while packets waited and is told when it can be written to: once the kernel
      takes something of each write, these events have all of them written and the connection ended. */
  method DrainOut(s: Socket)
    requires s.Valid() && s.typ.HalfClose? && s.watching
    requires Willing(s.kernel) && |s.kernel| >= s.Work()
    modifies s
    ensures s.Valid() && s.ending.Drained? && s.accepted == old(s.accepted)
    ensures s.Order() == old(s.Order()) && s.wire == Concat(s.Order()) && old(s.wire) <= s.wire
  {
    hide Kept, Left, Packets, Of, Concat, Willing, Started, Queue;
    while s.typ.HalfClose?
      invariant s.Valid() && (s.typ.HalfClose? || s.ending.Drained?) && !s.bound
      invariant Willing(s.kernel) && |s.kernel| >= s.Work()
      invariant s.Order() == old(s.Order()) && s.accepted == old(s.accepted) && old(s.wire) <= s.wire
      decreases s.Work()
    {
      assert s.watching;
      var _ := Poll(s, Polled(false, false, NotNow, true));
    }
    s.Promise();
  }

  /** One that was handed in, with a packet that could not be written when it was closed: nothing but a
      later close or the end of the peer changes it, so the packet is never written. */
  method HandedIn(p: Packet) returns (s: Socket)
    ensures fresh(s) && s.Valid() && s.typ.HalfClose? && s.bound && !s.watching
    ensures s.accepted == [p] && s.wire == [] && !s.Empty()
  {
    hide Kept, Left, Packets, Of, Concat, Willing;
    s := new Socket();
    s.ReserveSlot(1);
    s.NewFd(Bind, true);
    var _ := s.SendSocket(1, p);
    var _ := s.CloseSocket(1, false);
  }
}
