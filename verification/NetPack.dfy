/** Splitting byte streams into packets: each starts with its length in two bytes, the chunks of many streams
    arrive interleaved, and a chunk may end anywhere, or hold many packets. */
module NetPack {
  import opened Seqs
  import opened ServiceQueue

  newtype byte = x: int | 0 <= x < 256

  type Bytes = seq<byte>

  // ---------------------------------------------------------------- one stream, byte by byte

  /** What has been read of the next packet: nothing, the first byte of its length, or some of it. */
  datatype Partial = Nothing | Header(h: byte) | Body(size: nat, got: Bytes)

  datatype Parsed = Parsed(packets: seq<Bytes>, rest: Partial)

  function SizeOf(h: byte, b: byte): nat { h as int * 256 + b as int }

  function Opened(size: nat): Parsed { if size == 0 then Parsed([[]], Nothing) else Parsed([], Body(size, [])) }

  function Take(p: Partial, b: byte): Parsed {
    match p
    case Nothing => Parsed([], Header(b))
    case Header(h) => Opened(SizeOf(h, b))
    case Body(size, got) =>
      if |got| + 1 < size then Parsed([], Body(size, got + [b])) else Parsed([got + [b]], Nothing)
  }

  /** The packets that more bytes complete, and what is left. */
  function Parse(p: Partial, bs: Bytes): Parsed
    decreases bs
  {
    if bs == [] then Parsed([], p)
    else
      var t := Take(p, bs[0]);
      var u := Parse(t.rest, bs[1..]);
      Parsed(t.packets + u.packets, u.rest)
  }

  /** Where a stream is cut does not matter. */
  lemma {:induction false} ParseConcat(p: Partial, a: Bytes, b: Bytes)
    ensures var r := Parse(p, a);
            var t := Parse(r.rest, b);
            Parse(p, a + b) == Parsed(r.packets + t.packets, t.rest)
    decreases a
  {
    if a == [] {
      assert a + b == b;
    } else {
      var t := Take(p, a[0]);
      ParseConcat(t.rest, a[1..], b);
      assert (a + b)[0] == a[0] && (a + b)[1..] == a[1..] + b;
      var u := Parse(t.rest, a[1..]);
      Assoc(t.packets, u.packets, Parse(u.rest, b).packets);
    }
  }

  /** A body that a chunk does not complete. */
  lemma {:induction false} ParseShort(size: nat, got: Bytes, bs: Bytes)
    requires |got| + |bs| < size
    ensures Parse(Body(size, got), bs) == Parsed([], Body(size, got + bs))
    decreases bs
  {
    if bs == [] {
      assert got + bs == got;
    } else {
      ParseShort(size, got + [bs[0]], bs[1..]);
      assert got + [bs[0]] + bs[1..] == got + bs;
    }
  }

  /** A body that a chunk completes. */
  lemma {:induction false} ParseLong(size: nat, got: Bytes, bs: Bytes)
    requires |got| < size <= |got| + |bs|
    ensures var n := size - |got|;
            var t := Parse(Nothing, bs[n..]);
            Parse(Body(size, got), bs) == Parsed([got + bs[..n]] + t.packets, t.rest)
    decreases bs
  {
    var n := size - |got|;
    if n == 1 {
      assert got + [bs[0]] == got + bs[..1];
    } else {
      ParseLong(size, got + [bs[0]], bs[1..]);
      assert bs[1..][n - 1..] == bs[n..] && got + [bs[0]] + bs[1..][..n - 1] == got + bs[..n];
    }
  }

  /** A length just read, and what follows it. */
  lemma ParseOpened(size: nat, bs: Bytes)
    ensures var o := Opened(size);
            var r := Parse(o.rest, bs);
            |bs| < size ==> o.packets + r.packets == [] && r.rest == Body(size, bs)
    ensures var o := Opened(size);
            var r := Parse(o.rest, bs);
            size <= |bs| ==>
              var t := Parse(Nothing, bs[size..]); o.packets + r.packets == [bs[..size]] + t.packets && r.rest == t.rest
  {
    if |bs| < size {
      ParseShort(size, [], bs);
      assert [] + bs == bs;
    } else if size > 0 {
      ParseLong(size, [], bs);
      assert [] + bs[..size] == bs[..size];
    } else {
      assert bs[0..] == bs && bs[..0] == [];
    }
  }

  /** The same from the beginning of a packet. */
  lemma ParseFrom(bs: Bytes)
    requires |bs| >= 2
    ensures var size := SizeOf(bs[0], bs[1]);
            var body := bs[2..];
            var r := Parse(Nothing, bs);
            if |body| < size then r == Parsed([], Body(size, body))
            else var t := Parse(Nothing, body[size..]); r == Parsed([body[..size]] + t.packets, t.rest)
  {
    var size := SizeOf(bs[0], bs[1]);
    assert bs[1..][1..] == bs[2..] && bs[1..][0] == bs[1];
    ParseOpened(size, bs[2..]);
    assert Take(Nothing, bs[0]) == Parsed([], Header(bs[0]));
    var u := Parse(Header(bs[0]), bs[1..]);
    assert Take(Header(bs[0]), bs[1]) == Opened(size);
    assert [] + u.packets == u.packets;
  }

  // ---------------------------------------------------------------- what senders send

  const MAXPACKET := 0x1_0000

  predicate Fit(ps: seq<Bytes>) { forall j :: 0 <= j < |ps| ==> |ps[j]| < MAXPACKET }

  /** A packet as it is sent: its length, the high byte first, and its bytes. */
  function Framed(p: Bytes): Bytes
    requires |p| < MAXPACKET
  {
    [(|p| / 256) as byte, (|p| % 256) as byte] + p
  }

  /** Packets one after the other. */
  function Frames(ps: seq<Bytes>): Bytes
    requires Fit(ps)
  {
    if ps == [] then [] else Framed(ps[0]) + Frames(ps[1..])
  }

  /** Put the length into the first two bytes. */
  method WriteSize(buffer: array<byte>, len: nat)
    requires buffer.Length >= 2 && len < MAXPACKET
    modifies buffer
    ensures buffer[0] == (len / 256) as byte && buffer[1] == (len % 256) as byte
    ensures forall j :: 2 <= j < buffer.Length ==> buffer[j] == old(buffer[j])
  {
    assert len / 256 % 256 == len / 256;
    buffer[0] := (len / 256 % 256) as byte;
    buffer[1] := (len % 256) as byte;
  }

  /** Frame a packet; an error if it is too long. */
  method Pack(data: Bytes) returns (ok: bool, frame: Bytes)
    ensures ok <==> |data| < MAXPACKET
    ensures ok ==> frame == Framed(data)
  {
    if |data| >= MAXPACKET { return false, []; }
    var buffer := new byte[|data| + 2];
    WriteSize(buffer, |data|);
    for j := 0 to |data|
      invariant forall i :: 0 <= i < j ==> buffer[i + 2] == data[i]
      invariant buffer[0] == (|data| / 256) as byte && buffer[1] == (|data| % 256) as byte
    {
      buffer[j + 2] := data[j];
    }
    ok, frame := true, buffer[..];
    assert frame[2..] == data && frame == [frame[0], frame[1]] + frame[2..];
  }

  /** The packets that were framed are read again, and nothing is left over. */
  lemma {:induction false} ParseFrames(ps: seq<Bytes>)
    requires Fit(ps)
    ensures Parse(Nothing, Frames(ps)) == Parsed(ps, Nothing)
    decreases |ps|
  {
    if ps != [] {
      var p, bs := ps[0], Frames(ps);
      var more := Frames(ps[1..]);
      assert bs == Framed(p) + more;
      assert SizeOf(bs[0], bs[1]) == |p| && bs[2..] == p + more;
      assert bs[2..][..|p|] == p && bs[2..][|p|..] == more;
      ParseFrom(bs);
      ParseFrames(ps[1..]);
      assert [p] + ps[1..] == ps;
    }
  }

  // ---------------------------------------------------------------- incomplete packets

  const HASHSIZE := 4096
  const QUEUESIZE := 1024

  datatype Packet = Packet(id: int, data: Bytes)

  /** A packet that is not complete: `read` is -1 while only the first byte of its length is known. */
  datatype Uncomplete = Uncomplete(id: int, size: nat, buffer: Bytes, read: int, header: byte)

  predicate Good(uc: Uncomplete) { uc.read == -1 || (uc.read == |uc.buffer| && uc.read < uc.size) }

  function PartialOf(uc: Uncomplete): Partial { if uc.read < 0 then Header(uc.header) else Body(uc.size, uc.buffer) }

  function HashFd(fd: int): nat { (fd / 0x100_0000 + fd / 0x1000 + fd) % HASHSIZE }

  /** What a list has of `fd`. */
  function Search(list: seq<Uncomplete>, fd: int): Partial {
    if list == [] then Nothing else if list[0].id == fd then PartialOf(list[0]) else Search(list[1..], fd)
  }

  /** Each stream once, and in its own list. */
  ghost predicate ListOk(list: seq<Uncomplete>, h: nat) {
    && (forall i :: 0 <= i < |list| ==> Good(list[i]) && HashFd(list[i].id) == h)
    && (forall i, j :: 0 <= i < j < |list| ==> list[i].id != list[j].id)
  }

  lemma {:induction false} SearchAt(list: seq<Uncomplete>, h: nat, i: nat)
    requires ListOk(list, h) && i < |list|
    ensures Search(list, list[i].id) == PartialOf(list[i])
  {
    if i > 0 { SearchAt(list[1..], h, i - 1); }
  }

  lemma {:induction false} SearchNone(list: seq<Uncomplete>, fd: int)
    requires forall i :: 0 <= i < |list| ==> list[i].id != fd
    ensures Search(list, fd) == Nothing
  {
    if list != [] { SearchNone(list[1..], fd); }
  }

  /** Taking an entry out leaves the others. */
  lemma {:induction false} SearchWithout(list: seq<Uncomplete>, h: nat, i: nat, fd: int)
    requires ListOk(list, h) && i < |list|
    ensures ListOk(list[..i] + list[i + 1..], h)
    ensures Search(list[..i] + list[i + 1..], fd) == if fd == list[i].id then Nothing else Search(list, fd)
  {
    var less := list[..i] + list[i + 1..];
    assert forall j :: 0 <= j < |less| ==> less[j] == if j < i then list[j] else list[j + 1];
    if fd == list[i].id {
      SearchNone(less, fd);
    } else if i > 0 {
      SearchWithout(list[1..], h, i - 1, fd);
      assert less[1..] == list[1..][..i - 1] + list[1..][i..] && less[0] == list[0];
    } else {
      assert less == list[1..];
    }
  }

  function Tag(fd: int, ps: seq<Bytes>): seq<Packet> { seq(|ps|, i requires 0 <= i < |ps| => Packet(fd, ps[i])) }

  // ---------------------------------------------------------------- the queue

  /** What filtering a chunk reports: nothing, one packet, or that there are packets in the queue. */
  datatype Result = Quiet | Data(data: Bytes) | More

  class PackQueue {
    var cap: nat
    var head: nat
    var tail: nat
    var hash: array<seq<Uncomplete>>
    var queue: array<Packet>

    ghost predicate RingOk() reads this {
      queue.Length == cap > 0 && head < cap && tail < cap
    }

    ghost predicate Valid() reads this, hash {
      RingOk() && hash.Length == HASHSIZE && forall h :: 0 <= h < HASHSIZE ==> ListOk(hash[h], h)
    }

    ghost function Contents(): seq<Packet>
      requires RingOk()
      reads this, queue
    {
      Ring(queue[..], head, tail)
    }

    /** What has been read of the next packet of a stream. */
    ghost function State(fd: int): Partial
      requires hash.Length == HASHSIZE
      reads this, hash
    {
      Search(hash[HashFd(fd)], fd)
    }

    constructor ()
      ensures Valid() && fresh(hash) && fresh(queue) && Contents() == [] && forall fd :: State(fd) == Nothing
    {
      cap, head, tail := QUEUESIZE, 0, 0;
      hash := new seq<Uncomplete>[HASHSIZE](_ => []);
      queue := new Packet[QUEUESIZE](_ => Packet(0, []));
    }

    /** Take the incomplete packet of a stream out, if it has one. */
    method FindUncomplete(fd: int) returns (found: bool, uc: Uncomplete)
      requires Valid()
      modifies hash
      ensures Valid() && State(fd) == Nothing && forall g :: g != fd ==> State(g) == old(State(g))
      ensures if found then Good(uc) && uc.id == fd && old(State(fd)) == PartialOf(uc) else old(State(fd)) == Nothing
    {
      found, uc := false, Uncomplete(0, 0, [], 0, 0);
      var h := HashFd(fd);
      var list := hash[h];
      hide HashFd;
      for i := 0 to |list|
        invariant forall j :: 0 <= j < i ==> list[j].id != fd
      {
        if list[i].id == fd {
          found, uc := true, list[i];
          SearchAt(list, h, i);
          forall g ensures ListOk(list[..i] + list[i + 1..], h)
            ensures Search(list[..i] + list[i + 1..], g) == if g == list[i].id then Nothing else Search(list, g) {
            SearchWithout(list, h, i, g);
          }
          hide Search, ListOk;
          hash[h] := list[..i] + list[i + 1..];
          return;
        }
      }
      SearchNone(list, fd);
    }

    /** Keep an incomplete packet. */
    method SaveUncomplete(uc: Uncomplete)
      requires Valid() && Good(uc) && State(uc.id) == Nothing
      modifies hash
      ensures Valid() && State(uc.id) == PartialOf(uc) && forall g :: g != uc.id ==> State(g) == old(State(g))
    {
      var h := HashFd(uc.id);
      SearchAbsent(hash[h], h, uc.id);
      hash[h] := [uc] + hash[h];
    }

    /** A full ring becomes a larger one. */
    method ExpandQueue(ghost all: seq<Packet>)
      requires queue.Length == cap > 0 && head == tail < cap && all == queue[head..] + queue[..head]
      modifies this`cap, this`head, this`tail, this`queue
      ensures RingOk() && fresh(queue) && Contents() == all
    {
      var q, h, n := queue, head, cap;
      var more := new Packet[n + QUEUESIZE](_ => Packet(0, []));
      for i := 0 to n
        modifies more
        invariant forall j :: 0 <= j < i ==> more[j] == all[j]
      {
        RoundTrip(h, i, n);
        assert all[i] == if h + i < n then q[h + i] else q[h + i - n];
        more[i] := q[(h + i) % n];
      }
      head, tail, cap := 0, n, n + QUEUESIZE;
      queue := more;
      assert more[..n] == all;
    }

    method PushData(fd: int, data: Bytes)
      requires RingOk()
      modifies this`cap, this`head, this`tail, this`queue, queue
      ensures RingOk() && (queue == old(queue) || fresh(queue)) && Contents() == old(Contents()) + [Packet(fd, data)]
    {
      ghost var before := Contents();
      queue[tail] := Packet(fd, data);
      tail := tail + 1;
      if tail >= cap { tail := tail - cap; }
      if head == tail {
        assert queue[head..] + queue[..head] == before + [Packet(fd, data)];
        ExpandQueue(before + [Packet(fd, data)]);
      }
    }

    method Pop() returns (ok: bool, p: Packet)
      requires RingOk()
      modifies this`head
      ensures RingOk() && (ok <==> old(Contents()) != [])
      ensures if ok then [p] + Contents() == old(Contents()) else Contents() == []
    {
      RingPop(queue[..], head, tail);
      hide Ring;
      ok, p := head != tail, queue[head];
      if ok {
        head := head + 1;
        if head >= cap { head := 0; }
      }
    }

    /** Nothing of `fd` is kept; the others are as they were. */
    twostate predicate Others(fd: int)
      requires hash.Length == HASHSIZE && old(hash.Length) == HASHSIZE
      reads this, hash
    {
      hash == old(hash) && forall g :: g != fd ==> State(g) == old(State(g))
    }

    /** Split what follows a complete packet. */
    method PushMore(fd: int, buffer: Bytes)
      requires Valid() && buffer != [] && State(fd) == Nothing
      modifies this`cap, this`head, this`tail, this`queue, queue, hash
      ensures Valid() && (queue == old(queue) || fresh(queue)) && Others(fd)
      ensures Contents() == old(Contents()) + Tag(fd, Parse(Nothing, buffer).packets)
      ensures State(fd) == Parse(Nothing, buffer).rest
      decreases buffer
    {
      hide Ring, ListOk, HashFd, Tag, Search;
      TagNone(fd, Contents());
      if |buffer| == 1 {
        ParseOne(buffer);
        SaveUncomplete(Uncomplete(fd, 0, [], -1, buffer[0]));
        return;
      }
      ParseFrom(buffer);
      var size := SizeOf(buffer[0], buffer[1]);
      var body := buffer[2..];
      if |body| < size {
        SaveUncomplete(Uncomplete(fd, size, body, |body|, 0));
        return;
      }
      ghost var rest := Parse(Nothing, body[size..]);
      TagMore(fd, body[..size], rest.packets, Contents());
      assert |body| == size ==> rest == Parsed([], Nothing);
      PushData(fd, body[..size]);
      TagNone(fd, Contents());
      if |body| > size { PushMore(fd, body[size..]); }
    }

    /** A chunk of a stream: what it completes is reported, or put into the queue, in order; what it does
        not complete is kept. */
    method FilterData(fd: int, chunk: Bytes) returns (r: Result)
      requires Valid() && chunk != []
      modifies this`cap, this`head, this`tail, this`queue, queue, hash
      ensures Valid() && (queue == old(queue) || fresh(queue)) && Others(fd)
      ensures State(fd) == Parse(old(State(fd)), chunk).rest
      ensures Reports(r, fd, Parse(old(State(fd)), chunk).packets, old(Contents()), Contents())
    {
      hide Ring, ListOk, HashFd, Tag, Parse, Search, Reports, PartialOf, Good;
      var found, uc := FindUncomplete(fd);
      if found {
        r := FilterRest(fd, uc, chunk);
      } else {
        r := FilterNew(fd, chunk);
      }
    }

    /** A chunk that goes on with an incomplete packet. */
    method FilterRest(fd: int, uc: Uncomplete, chunk: Bytes) returns (r: Result)
      requires Valid() && chunk != [] && State(fd) == Nothing && Good(uc) && uc.id == fd
      modifies this`cap, this`head, this`tail, this`queue, queue, hash
      ensures Valid() && (queue == old(queue) || fresh(queue)) && Others(fd)
      ensures State(fd) == Parse(PartialOf(uc), chunk).rest
      ensures Reports(r, fd, Parse(PartialOf(uc), chunk).packets, old(Contents()), Contents())
    {
      hide Ring, ListOk, HashFd, Tag, Parse, Search, SizeOf;
      ParseRest(uc, chunk);
      var size, got, bytes := uc.size, uc.buffer, chunk;
      if uc.read < 0 { size, got, bytes := SizeOf(uc.header, chunk[0]), [], chunk[1..]; }
      var need := size - |got|;
      if |bytes| < need {
        SaveUncomplete(uc.(size := size, buffer := got + bytes, read := |got| + |bytes|));
        return Quiet;
      }
      if |bytes| == need {
        assert bytes[..need] == bytes && bytes[need..] == [];
        ParseNone();
        return Data(got + bytes);
      }
      TagMore(fd, got + bytes[..need], Parse(Nothing, bytes[need..]).packets, Contents());
      PushData(fd, got + bytes[..need]);
      PushMore(fd, bytes[need..]);
      r := More;
    }

    /** A chunk that begins with a packet. */
    method FilterNew(fd: int, chunk: Bytes) returns (r: Result)
      requires Valid() && chunk != [] && State(fd) == Nothing
      modifies this`cap, this`head, this`tail, this`queue, queue, hash
      ensures Valid() && (queue == old(queue) || fresh(queue)) && Others(fd)
      ensures State(fd) == Parse(Nothing, chunk).rest
      ensures Reports(r, fd, Parse(Nothing, chunk).packets, old(Contents()), Contents())
    {
      hide Ring, ListOk, HashFd, Tag, Parse, Search;
      if |chunk| == 1 {
        ParseOne(chunk);
        SaveUncomplete(Uncomplete(fd, 0, [], -1, chunk[0]));
        return Quiet;
      }
      ParseFrom(chunk);
      var size := SizeOf(chunk[0], chunk[1]);
      var body := chunk[2..];
      if |body| < size {
        SaveUncomplete(Uncomplete(fd, size, body, |body|, 0));
        return Quiet;
      }
      if |body| == size {
        assert body[..size] == body && body[size..] == [];
        ParseNone();
        return Data(body);
      }
      TagMore(fd, body[..size], Parse(Nothing, body[size..]).packets, Contents());
      PushData(fd, body[..size]);
      PushMore(fd, body[size..]);
      r := More;
    }

    method CloseUncomplete(fd: int)
      requires Valid()
      modifies hash
      ensures Valid() && State(fd) == Nothing && forall g :: g != fd ==> State(g) == old(State(g))
    {
      var _, _ := FindUncomplete(fd);
    }
  }

  lemma {:induction false} SearchAbsent(list: seq<Uncomplete>, h: nat, fd: int)
    requires ListOk(list, h) && Search(list, fd) == Nothing
    ensures forall i :: 0 <= i < |list| ==> list[i].id != fd
  {
    forall i | 0 <= i < |list| ensures list[i].id != fd { SearchAt(list, h, i); }
  }

  /** What a result says of the packets of a chunk, and the queue before and after. */
  ghost predicate Reports(r: Result, fd: int, ps: seq<Bytes>, before: seq<Packet>, now: seq<Packet>) {
    match r
    case Quiet => ps == [] && now == before
    case Data(x) => ps == [x] && now == before
    case More => now == before + Tag(fd, ps)
  }

  lemma TagNone(fd: int, q: seq<Packet>)
    ensures q + Tag(fd, []) == q
  {
  }

  lemma TagMore(fd: int, p: Bytes, ps: seq<Bytes>, q: seq<Packet>)
    ensures q + [Packet(fd, p)] + Tag(fd, ps) == q + Tag(fd, [p] + ps)
  {
    assert Tag(fd, [p] + ps) == [Packet(fd, p)] + Tag(fd, ps);
  }

  lemma ParseOne(bs: Bytes)
    requires |bs| == 1
    ensures Parse(Nothing, bs) == Parsed([], Header(bs[0]))
  {
  }

  lemma ParseNone()
    ensures Parse(Nothing, []) == Parsed([], Nothing) && forall p: Bytes :: [p] + [] == [p]
  {
  }

  lemma ParseRest(uc: Uncomplete, chunk: Bytes)
    requires Good(uc) && chunk != []
    ensures var size := if uc.read < 0 then SizeOf(uc.header, chunk[0]) else uc.size;
            var got := if uc.read < 0 then [] else uc.buffer;
            var bytes := if uc.read < 0 then chunk[1..] else chunk;
            var need := size - |got|;
            var r := Parse(PartialOf(uc), chunk);
            if |bytes| < need then r == Parsed([], Body(size, got + bytes))
            else var t := Parse(Nothing, bytes[need..]); r == Parsed([got + bytes[..need]] + t.packets, t.rest)
  {
    if uc.read < 0 {
      var size := SizeOf(uc.header, chunk[0]);
      assert Take(Header(uc.header), chunk[0]) == Opened(size);
      ParseOpened(size, chunk[1..]);
      assert [] + chunk[1..] == chunk[1..];
      if size <= |chunk[1..]| { assert [] + chunk[1..][..size] == chunk[1..][..size]; }
    } else if |uc.buffer| + |chunk| < uc.size {
      ParseShort(uc.size, uc.buffer, chunk);
    } else {
      ParseLong(uc.size, uc.buffer, chunk);
    }
  }

  // ---------------------------------------------------------------- many streams

  datatype Chunk = Chunk(fd: int, bytes: Bytes)

  /** The bytes of one stream. */
  function Stream(cs: seq<Chunk>, fd: int): Bytes {
    if cs == [] then []
    else Stream(cs[..|cs| - 1], fd) + if cs[|cs| - 1].fd == fd then cs[|cs| - 1].bytes else []
  }

  /** The packets delivered of one stream. */
  function Of(ps: seq<Packet>, fd: int): seq<Bytes> {
    if ps == [] then []
    else Of(ps[..|ps| - 1], fd) + if ps[|ps| - 1].id == fd then [ps[|ps| - 1].data] else []
  }

  /** The packets a chunk completes, after others. */
  function Completed(cs: seq<Chunk>, c: Chunk): seq<Bytes> {
    Parse(Parse(Nothing, Stream(cs, c.fd)).rest, c.bytes).packets
  }

  function Delivered(cs: seq<Chunk>): seq<Packet> {
    if cs == [] then []
    else
      var c := cs[|cs| - 1];
      Delivered(cs[..|cs| - 1]) + Tag(c.fd, Completed(cs[..|cs| - 1], c))
  }

  lemma TagLast(fd: int, ps: seq<Bytes>, p: Bytes)
    ensures Tag(fd, ps + [p]) == Tag(fd, ps) + [Packet(fd, p)]
  {
  }

  lemma {:induction false} OfTag(q: seq<Packet>, fd: int, ps: seq<Bytes>, g: int)
    ensures Of(q + Tag(fd, ps), g) == Of(q, g) + if g == fd then ps else []
    decreases |ps|
  {
    if ps == [] {
      TagNone(fd, q);
    } else {
      hide Of, Tag;
      var n := |ps| - 1;
      var init, p := ps[..n], ps[n];
      OfTag(q, fd, init, g);
      assert ps == init + [p];
      TagLast(fd, init, p);
      Assoc(q, Tag(fd, init), [Packet(fd, p)]);
      OfLast(q + Tag(fd, init), Packet(fd, p), g);
      Assoc(Of(q, g), init, [p]);
      assert Of(q, g) + [] == Of(q, g);
    }
  }

  lemma OfLast(q: seq<Packet>, p: Packet, g: int)
    ensures Of(q + [p], g) == Of(q, g) + if p.id == g then [p.data] else []
  {
    assert (q + [p])[..|q|] == q;
  }

  lemma StreamLast(cs: seq<Chunk>, c: Chunk, g: int)
    ensures Stream(cs + [c], g) == Stream(cs, g) + if c.fd == g then c.bytes else []
    ensures Delivered(cs + [c]) == Delivered(cs) + Tag(c.fd, Completed(cs, c))
  {
    assert (cs + [c])[..|cs|] == cs;
  }

  /** However the streams are cut and interleaved, the packets delivered of each are those of its bytes taken
      together, in order. */
  lemma {:induction false} Independent(cs: seq<Chunk>, fd: int)
    ensures Of(Delivered(cs), fd) == Parse(Nothing, Stream(cs, fd)).packets
    decreases |cs|
  {
    if cs != [] {
      var before, c := cs[..|cs| - 1], cs[|cs| - 1];
      Independent(before, fd);
      assert cs == before + [c];
      StreamLast(before, c, fd);
      OfTag(Delivered(before), c.fd, Completed(before, c), fd);
      hide Of, Stream, Parse, Delivered;
      if c.fd == fd {
        ParseConcat(Nothing, Stream(before, fd), c.bytes);
      } else {
        assert Stream(before, fd) + [] == Stream(before, fd);
      }
    }
  }

  /** However the packets of senders are cut and interleaved on their way, of each stream the packets that were sent are
      delivered, in order: the first ones at any time, and all of them in the end. */
  lemma SentArrive(cs: seq<Chunk>, fd: int, ps: seq<Bytes>)
    requires Fit(ps) && Stream(cs, fd) <= Frames(ps)
    ensures Of(Delivered(cs), fd) <= ps
    ensures Stream(cs, fd) == Frames(ps) ==> Of(Delivered(cs), fd) == ps && Parse(Nothing, Stream(cs, fd)).rest == Nothing
  {
    Independent(cs, fd);
    ParseFrames(ps);
    var come := Stream(cs, fd);
    var more := Frames(ps)[|come|..];
    assert Frames(ps) == come + more;
    ParseConcat(Nothing, come, more);
  }

  /** Filtering chunk after chunk, and emptying the queue after each. */
  method FilterAll(q: PackQueue, cs: seq<Chunk>) returns (out: seq<Packet>)
    requires q.Valid() && q.Contents() == [] && (forall fd :: q.State(fd) == Nothing)
    requires forall c :: c in cs ==> c.bytes != []
    modifies q, q.queue, q.hash
    ensures q.Valid() && q.Contents() == [] && out == Delivered(cs)
    ensures forall fd :: q.State(fd) == Parse(Nothing, Stream(cs, fd)).rest
    ensures forall fd :: Of(out, fd) == Parse(Nothing, Stream(cs, fd)).packets
    ensures forall fd, ps :: Fit(ps) && Stream(cs, fd) <= Frames(ps) ==> Of(out, fd) <= ps
    ensures forall fd, ps :: Fit(ps) && Stream(cs, fd) == Frames(ps) ==> Of(out, fd) == ps && q.State(fd) == Nothing
  {
    out := [];
    for n := 0 to |cs|
      invariant q.Valid() && q.Contents() == [] && q.hash == old(q.hash) && (q.queue == old(q.queue) || fresh(q.queue))
      invariant out == Delivered(cs[..n])
      invariant forall fd :: q.State(fd) == Parse(Nothing, Stream(cs[..n], fd)).rest
    {
      assert cs[n] in cs && cs[..n + 1] == cs[..n] + [cs[n]];
      out := FilterOne(q, cs[n], out, cs[..n]);
    }
    assert cs[..|cs|] == cs;
    forall fd ensures Of(out, fd) == Parse(Nothing, Stream(cs, fd)).packets { Independent(cs, fd); }
    forall fd, ps: seq<Bytes> | Fit(ps) && Stream(cs, fd) <= Frames(ps) ensures Of(out, fd) <= ps
      ensures Stream(cs, fd) == Frames(ps) ==> Of(out, fd) == ps && q.State(fd) == Nothing {
      SentArrive(cs, fd, ps);
    }
  }

  /** The next chunk, after those of `cs`. */
  method FilterOne(q: PackQueue, c: Chunk, out0: seq<Packet>, ghost cs: seq<Chunk>) returns (out: seq<Packet>)
    requires q.Valid() && q.Contents() == [] && c.bytes != [] && out0 == Delivered(cs)
    requires forall fd :: q.State(fd) == Parse(Nothing, Stream(cs, fd)).rest
    modifies q, q.queue, q.hash
    ensures q.Valid() && q.Contents() == [] && q.hash == old(q.hash) && (q.queue == old(q.queue) || fresh(q.queue))
    ensures out == Delivered(cs + [c])
    ensures forall fd :: q.State(fd) == Parse(Nothing, Stream(cs + [c], fd)).rest
  {
    hide Parse, Stream, Delivered, Completed, Tag, Search, Ring, ListOk, HashFd;
    out := out0;
    var r := q.FilterData(c.fd, c.bytes);
    if r.Data? { out := out + [Packet(c.fd, r.data)]; }
    if r.More? { out := DrainTo(q, out); }
    assert Completed(cs, c) == Parse(old(q.State(c.fd)), c.bytes).packets by { CompletedIs(cs, c); }
    ChunkDone(cs, c, r, out0, out);
    forall g ensures q.State(g) == Parse(Nothing, Stream(cs + [c], g)).rest { StreamNext(cs, c, g); }
  }

  lemma CompletedIs(cs: seq<Chunk>, c: Chunk)
    ensures Completed(cs, c) == Parse(Parse(Nothing, Stream(cs, c.fd)).rest, c.bytes).packets
  {
  }

  lemma ChunkDone(cs: seq<Chunk>, c: Chunk, r: Result, done: seq<Packet>, out: seq<Packet>)
    requires done == Delivered(cs)
    requires match r
             case Quiet => Completed(cs, c) == [] && out == done
             case Data(x) => Completed(cs, c) == [x] && out == done + [Packet(c.fd, x)]
             case More => out == done + Tag(c.fd, Completed(cs, c))
    ensures out == Delivered(cs + [c])
  {
    StreamLast(cs, c, c.fd);
    if r.Quiet? { TagNone(c.fd, done); }
    if r.Data? {
      TagMore(c.fd, r.data, [], done);
      TagNone(c.fd, done + [Packet(c.fd, r.data)]);
      assert [r.data] + [] == [r.data];
    }
  }

  lemma StreamNext(cs: seq<Chunk>, c: Chunk, g: int)
    ensures Parse(Nothing, Stream(cs + [c], g)).rest ==
            (var p := Parse(Nothing, Stream(cs, g)).rest; if c.fd == g then Parse(p, c.bytes).rest else p)
  {
    StreamLast(cs, c, g);
    hide Stream;
    if c.fd == g { ParseConcat(Nothing, Stream(cs, g), c.bytes); } else { assert Stream(cs, g) + [] == Stream(cs, g); }
  }

  method DrainTo(q: PackQueue, out0: seq<Packet>) returns (out: seq<Packet>)
    requires q.Valid()
    modifies q`head
    ensures q.Valid() && q.Contents() == [] && out == out0 + old(q.Contents())
  {
    hide Ring;
    out := out0;
    var ok, p := q.Pop();
    while ok
      invariant q.Valid() && (ok ==> out + [p] + q.Contents() == out0 + old(q.Contents()))
      invariant !ok ==> q.Contents() == [] && out == out0 + old(q.Contents())
      decreases ok, |q.Contents()|
    {
      out := out + [p];
      ok, p := q.Pop();
    }
  }
}
