/**
  One client and its server thread: two vectors, three byte streams, one chain.
  Commands go up and replies come down on one socket, notifications come down on another, and every packet
  in either direction, on either socket, advances the vector of whichever end touches it.
 */
module Session {
  import opened Bytes
  import opened Cbc
  import opened Packet

  datatype Lane = Up | Reply | Push

  datatype End = Client | Server

  function Sender(lane: Lane): End { if lane.Up? then Client else Server }

  function Other(e: End): End { if e.Client? then Server else Client }

  datatype Event = Send(lane: Lane, data: seq<byte>) | Receive(lane: Lane, maxsize: nat)

  datatype Got<+V> = Got(bytes: seq<byte>, rest: seq<byte>, iv: V) | Failed

  /**
    How packets are put on a stream under a vector and taken off it again, the vector after each, and when a
    packet written under one vector can be read under another.
   */
  datatype Codec<!V> = Codec(
    wire: (V, seq<byte>) -> seq<byte>,
    after: (V, seq<byte>) -> V,
    read: (V, seq<byte>, nat) -> Got<V>,
    agrees: (V, V) -> bool,
    limit: nat
  )

  /**
    Under the vector it was written with, a packet within the limit is read back and the reader ends with
    the writer's next vector, and one beyond the limit is refused; every packet takes room on the stream,
    and an empty stream gives none.
   */
  ghost predicate Faithful<V(!new)>(c: Codec<V>) {
    && (forall v, data, rest, maxsize :: |data| <= c.limit ==>
      c.read(v, c.wire(v, data) + rest, maxsize) == Got(data[..Min(|data|, maxsize)], rest, c.after(v, data)))
    && (forall v, data, rest, maxsize :: c.limit < |data| < WORD - 16 ==>
      c.read(v, c.wire(v, data) + rest, maxsize).Failed?)
    && (forall v, data :: c.wire(v, data) != [])
    && (forall v, maxsize :: c.read(v, [], maxsize).Failed?)
  }

  /** A read that returns the packet, leaves exactly what follows it, and takes over the writer's next vector. */
  predicate Arrives<V(==)>(c: Codec<V>, v: V, w: V, data: seq<byte>, rest: seq<byte>, maxsize: nat) {
    c.read(w, c.wire(v, data) + rest, maxsize) == Got(data[..Min(|data|, maxsize)], rest, c.after(v, data))
  }

  /**
    Besides: a packet written under `v` arrives under `w` if and only if the two agree, whatever follows it;
    and one that does not, and stands alone, yields less than its whole blocks.
   */
  ghost predicate Exact<V(!new)>(c: Codec<V>) {
    && Faithful(c)
    && (forall v, w, data, rest, maxsize :: |data| <= c.limit ==>
      (Arrives(c, v, w, data, rest, maxsize) <==> c.agrees(v, w)))
    && (forall v, w, data, maxsize :: |data| <= c.limit && !c.agrees(v, w) ==>
      Short(c.read(w, c.wire(v, data), maxsize), data))
  }

  predicate Short<V>(r: Got<V>, data: seq<byte>) {
    r.Got? ==> |r.bytes| <= |data| / 16 * 16
  }

  lemma AgreesWithItself<V(!new)>(c: Codec<V>, v: V)
    requires Exact(c)
    ensures c.agrees(v, v)
  {
    assert Arrives(c, v, v, [], [], 0);
  }

  datatype Link<+V> = Link(clientIv: V, serverIv: V, up: seq<byte>, reply: seq<byte>, push: seq<byte>) {
    function Iv(e: End): V { if e.Client? then clientIv else serverIv }

    function SetIv(e: End, iv: V): Link<V> { if e.Client? then this.(clientIv := iv) else this.(serverIv := iv) }

    function Stream(lane: Lane): seq<byte> {
      match lane
      case Up => up
      case Reply => reply
      case Push => push
    }

    function SetStream(lane: Lane, data: seq<byte>): Link<V> {
      match lane
      case Up => this.(up := data)
      case Reply => this.(reply := data)
      case Push => this.(push := data)
    }
  }

  // ----- the two ends as they run -----

  function AfterSend<V>(c: Codec<V>, link: Link<V>, lane: Lane, data: seq<byte>): Link<V> {
    var e := Sender(lane);
    link.SetStream(lane, link.Stream(lane) + c.wire(link.Iv(e), data)).SetIv(e, c.after(link.Iv(e), data))
  }

  function Fetch<V>(c: Codec<V>, link: Link<V>, lane: Lane, maxsize: nat): Got<V> {
    c.read(link.Iv(Other(Sender(lane))), link.Stream(lane), maxsize)
  }

  function AfterReceive<V>(link: Link<V>, lane: Lane, r: Got<V>): Link<V> {
    if r.Got? then link.SetStream(lane, r.rest).SetIv(Other(Sender(lane)), r.iv) else link
  }

  /**
    The client writes commands, the server replies and notifications, each under its own vector, which it moves on;
    the other end reads them under its own.
   */
  lemma Directions<V(!new)>(c: Codec<V>, link: Link<V>, data: seq<byte>, maxsize: nat)
    ensures var (u, v) := (link.clientIv, link.serverIv);
      && AfterSend(c, link, Up, data) == Link(c.after(u, data), v, link.up + c.wire(u, data), link.reply, link.push)
      && AfterSend(c, link, Reply, data) == Link(u, c.after(v, data), link.up, link.reply + c.wire(v, data), link.push)
      && AfterSend(c, link, Push, data) == Link(u, c.after(v, data), link.up, link.reply, link.push + c.wire(v, data))
      && Fetch(c, link, Up, maxsize) == c.read(v, link.up, maxsize)
      && Fetch(c, link, Reply, maxsize) == c.read(u, link.reply, maxsize)
      && Fetch(c, link, Push, maxsize) == c.read(u, link.push, maxsize)
  {}

  /** A packet taken off a stream leaves the others, and the writer's vector, as they are; no packet leaves all. */
  lemma Taking<V(!new)>(link: Link<V>, bytes: seq<byte>, rest: seq<byte>, iv: V)
    ensures var r := Got(bytes, rest, iv);
      && AfterReceive(link, Up, r) == link.(serverIv := iv, up := rest)
      && AfterReceive(link, Reply, r) == link.(clientIv := iv, reply := rest)
      && AfterReceive(link, Push, r) == link.(clientIv := iv, push := rest)
    ensures forall lane :: AfterReceive(link, lane, Failed) == link
  {}

  /** What the successive `srv_ReadPacket` calls return. */
  function Run<V>(c: Codec<V>, link: Link<V>, events: seq<Event>): seq<Option<seq<byte>>>
    decreases |events|
  {
    if events == [] then []
    else match events[0] {
      case Send(lane, data) => Run(c, AfterSend(c, link, lane, data), events[1..])
      case Receive(lane, maxsize) =>
        var r := Fetch(c, link, lane, maxsize);
        [if r.Got? then Some(r.bytes) else None] + Run(c, AfterReceive(link, lane, r), events[1..])
    }
  }

  function RunLink<V>(c: Codec<V>, link: Link<V>, events: seq<Event>): Link<V>
    decreases |events|
  {
    if events == [] then link
    else match events[0] {
      case Send(lane, data) => RunLink(c, AfterSend(c, link, lane, data), events[1..])
      case Receive(lane, maxsize) => RunLink(c, AfterReceive(link, lane, Fetch(c, link, lane, maxsize)), events[1..])
    }
  }

  // ----- the same conversation without encryption -----

  datatype Item = Item(lane: Lane, data: seq<byte>)

  /**
    Nobody sends towards an end that has packets travelling to the other, and packets are taken in the order
    they were sent.
   */
  predicate HalfDuplex(limit: nat, queue: seq<Item>, events: seq<Event>)
    decreases |events|
  {
    if events == [] then true
    else match events[0] {
      case Send(lane, data) =>
        && |data| <= limit
        && (forall i :: 0 <= i < |queue| ==> Sender(queue[i].lane) == Sender(lane))
        && HalfDuplex(limit, queue + [Item(lane, data)], events[1..])
      case Receive(lane, maxsize) =>
        queue != [] && queue[0].lane == lane && HalfDuplex(limit, queue[1..], events[1..])
    }
  }

  datatype Exchange = Exchange(lane: Lane, data: seq<byte>, maxsize: nat)

  /** One packet after another, each read before the next is written. */
  function InTurns(turns: seq<Exchange>): seq<Event> {
    if turns == [] then []
    else [Send(turns[0].lane, turns[0].data), Receive(turns[0].lane, turns[0].maxsize)] + InTurns(turns[1..])
  }

  /** In whatever directions they go, packets that take turns keep the schedule. */
  lemma {:induction false} TurnsAreHalfDuplex(limit: nat, turns: seq<Exchange>)
    requires forall i :: 0 <= i < |turns| ==> |turns[i].data| <= limit
    ensures HalfDuplex(limit, [], InTurns(turns))
    decreases |turns|
  {
    if turns == [] {
    } else {
      var t, rest := turns[0], InTurns(turns[1..]);
      var events := InTurns(turns);
      TurnsAreHalfDuplex(limit, turns[1..]);
      assert events[1..][1..] == rest;
      var x := Item(t.lane, t.data);
      assert [] + [x] == [x] && [x][1..] == [];
      assert HalfDuplex(limit, [x], events[1..]);
    }
  }

  function Fifo(queue: seq<Item>, events: seq<Event>): seq<Option<seq<byte>>>
    decreases |events|
  {
    if events == [] then []
    else match events[0] {
      case Send(lane, data) => Fifo(queue + [Item(lane, data)], events[1..])
      case Receive(lane, maxsize) =>
        if queue == [] then [None] + Fifo(queue, events[1..])
        else [Some(queue[0].data[..Min(|queue[0].data|, maxsize)])] + Fifo(queue[1..], events[1..])
    }
  }

  function FifoLeft(queue: seq<Item>, events: seq<Event>): seq<Item>
    decreases |events|
  {
    if events == [] then queue
    else match events[0] {
      case Send(lane, data) => FifoLeft(queue + [Item(lane, data)], events[1..])
      case Receive(lane, maxsize) => FifoLeft(if queue == [] then queue else queue[1..], events[1..])
    }
  }

  // ----- the chain in flight -----

  /** The vector after the queued packets, starting from `iv`. */
  function Chain<V>(c: Codec<V>, iv: V, queue: seq<Item>): V
    decreases |queue|
  {
    if queue == [] then iv else Chain(c, c.after(iv, queue[0].data), queue[1..])
  }

  /** The bytes the queued packets put on one stream. */
  function OnLane<V>(c: Codec<V>, iv: V, queue: seq<Item>, lane: Lane): seq<byte>
    decreases |queue|
  {
    if queue == [] then []
    else
      (if queue[0].lane == lane then c.wire(iv, queue[0].data) else []) +
      OnLane(c, c.after(iv, queue[0].data), queue[1..], lane)
  }

  /**
    All queued packets come from `e`; what is on the streams is their encryption; it chains from the receiver's
    vector to the sender's.
   */
  ghost predicate InFlight<V(!new)>(c: Codec<V>, link: Link<V>, queue: seq<Item>, e: End) {
    && (forall i :: 0 <= i < |queue| ==> Sender(queue[i].lane) == e)
    && link.Iv(e) == Chain(c, link.Iv(Other(e)), queue)
    && (forall lane :: link.Stream(lane) == OnLane(c, link.Iv(Other(e)), queue, lane))
  }

  ghost predicate InStep<V(!new)>(c: Codec<V>, link: Link<V>, queue: seq<Item>) {
    InFlight(c, link, queue, Client) || InFlight(c, link, queue, Server)
  }

  /** With nothing in flight the two vectors are equal and the streams empty, whoever sent last. */
  lemma InStepEmpty<V(!new)>(c: Codec<V>, link: Link<V>)
    ensures InStep(c, link, []) <==> link == Link(link.clientIv, link.clientIv, [], [], [])
    ensures InStep(c, link, []) ==> InFlight(c, link, [], Client) && InFlight(c, link, [], Server)
  {
    if InStep(c, link, []) {
      assert link.Stream(Up) == [] && link.Stream(Reply) == [] && link.Stream(Push) == [];
    }
  }

  lemma {:induction false} ChainAppend<V(!new)>(c: Codec<V>, iv: V, queue: seq<Item>, x: Item, lane: Lane)
    ensures Chain(c, iv, queue + [x]) == c.after(Chain(c, iv, queue), x.data)
    ensures OnLane(c, iv, queue + [x], lane) ==
      OnLane(c, iv, queue, lane) + (if x.lane == lane then c.wire(Chain(c, iv, queue), x.data) else [])
  {
    if queue == [] {
      assert [x][1..] == [] && queue + [x] == [x];
    } else {
      var next := c.after(iv, queue[0].data);
      ChainAppend(c, next, queue[1..], x, lane);
      assert (queue + [x])[1..] == queue[1..] + [x];
      var mine := if queue[0].lane == lane then c.wire(iv, queue[0].data) else [];
      var last := if x.lane == lane then c.wire(Chain(c, iv, queue), x.data) else [];
      Concat(mine, OnLane(c, next, queue[1..], lane), last);
    }
  }

  lemma SendKeepsStep<V(!new)>(c: Codec<V>, link: Link<V>, queue: seq<Item>, lane: Lane, data: seq<byte>)
    requires InStep(c, link, queue)
    requires forall i :: 0 <= i < |queue| ==> Sender(queue[i].lane) == Sender(lane)
    ensures InStep(c, AfterSend(c, link, lane, data), queue + [Item(lane, data)])
  {
    var e := Sender(lane);
    if queue == [] {
      InStepEmpty(c, link);
    } else {
      assert Sender(queue[0].lane) == e;
    }
    assert InFlight(c, link, queue, e);
    hide OnLane, Chain;
    var after := AfterSend(c, link, lane, data);
    var x := Item(lane, data);
    forall l: Lane
      ensures after.Stream(l) == OnLane(c, after.Iv(Other(e)), queue + [x], l)
    {
      ChainAppend(c, link.Iv(Other(e)), queue, x, l);
    }
    ChainAppend(c, link.Iv(Other(e)), queue, x, lane);
    assert InFlight(c, after, queue + [x], e);
  }

  lemma ReceiveKeepsStep<V(!new)>(c: Codec<V>, link: Link<V>, queue: seq<Item>, maxsize: nat)
    requires Faithful(c) && queue != [] && InStep(c, link, queue) && |queue[0].data| <= c.limit
    ensures
      var x := queue[0];
      var r := Fetch(c, link, x.lane, maxsize);
      r.Got? && r.bytes == x.data[..Min(|x.data|, maxsize)] && InStep(c, AfterReceive(link, x.lane, r), queue[1..])
  {
    var x := queue[0];
    var e := Sender(x.lane);
    assert InFlight(c, link, queue, e);
    var iv := link.Iv(Other(e));
    var next := c.after(iv, x.data);
    assert link.Stream(x.lane) == c.wire(iv, x.data) + OnLane(c, next, queue[1..], x.lane);
    var after := AfterReceive(link, x.lane, Fetch(c, link, x.lane, maxsize));
    forall l: Lane
      ensures after.Stream(l) == OnLane(c, next, queue[1..], l)
    {
      assert link.Stream(l) == OnLane(c, iv, queue, l);
      assert [] + OnLane(c, next, queue[1..], l) == OnLane(c, next, queue[1..], l);
    }
    assert InFlight(c, after, queue[1..], e);
  }

  ghost predicate Fits(limit: nat, queue: seq<Item>) {
    forall i :: 0 <= i < |queue| ==> |queue[i].data| <= limit
  }

  /**
    For every half-duplex run of any length the encrypted link returns what a plain first-in-first-out queue
    returns, and ends with the leftover packets, and only those, chained between the two vectors.
   */
  lemma {:induction false} RunRefinesFifo<V(!new)>(c: Codec<V>, link: Link<V>, queue: seq<Item>, events: seq<Event>)
    requires Faithful(c) && InStep(c, link, queue) && Fits(c.limit, queue) && HalfDuplex(c.limit, queue, events)
    ensures Run(c, link, events) == Fifo(queue, events)
    ensures InStep(c, RunLink(c, link, events), FifoLeft(queue, events))
    decreases |events|
  {
    if events == [] {
    } else {
      match events[0]
      case Send(lane, data) =>
        SendKeepsStep(c, link, queue, lane, data);
        RunRefinesFifo(c, AfterSend(c, link, lane, data), queue + [Item(lane, data)], events[1..]);
      case Receive(lane, maxsize) =>
        ReceiveKeepsStep(c, link, queue, maxsize);
        RunRefinesFifo(c, AfterReceive(link, lane, Fetch(c, link, lane, maxsize)), queue[1..], events[1..]);
    }
  }

  /** From a fresh session; and once everything sent has been read, the two ends agree on the vector again. */
  lemma SessionRefinesFifo<V(!new)>(c: Codec<V>, iv: V, events: seq<Event>)
    requires Faithful(c) && HalfDuplex(c.limit, [], events)
    ensures Run(c, Link(iv, iv, [], [], []), events) == Fifo([], events)
    ensures FifoLeft([], events) == [] ==>
      var last := RunLink(c, Link(iv, iv, [], [], []), events);
      last.clientIv == last.serverIv && last.up == last.reply == last.push == []
  {
    var start := Link(iv, iv, [], [], []);
    InStepEmpty(c, start);
    RunRefinesFifo(c, start, [], events);
    InStepEmpty(c, RunLink(c, start, events));
  }

  // ----- any schedule -----

  /** A packet on its way, with the vector it was written under. */
  datatype Sealed<+V> = Sealed(lane: Lane, data: seq<byte>, iv: V)

  /** What the packets on their way put on one stream. */
  function SealedOn<V>(c: Codec<V>, queue: seq<Sealed<V>>, lane: Lane): seq<byte> {
    if queue == [] then []
    else (if queue[0].lane == lane then c.wire(queue[0].iv, queue[0].data) else []) + SealedOn(c, queue[1..], lane)
  }

  /** The position of the next packet on a lane, or the end. */
  function NextOn<V>(queue: seq<Sealed<V>>, lane: Lane): (i: nat)
    ensures i <= |queue|
    ensures i < |queue| ==> queue[i].lane == lane
  {
    if queue == [] || queue[0].lane == lane then 0 else 1 + NextOn(queue[1..], lane)
  }

  function Without<V>(queue: seq<Sealed<V>>, i: nat): seq<Sealed<V>>
    requires i < |queue|
  {
    queue[..i] + queue[i + 1..]
  }

  ghost predicate Carries<V(!new)>(c: Codec<V>, link: Link<V>, queue: seq<Sealed<V>>) {
    forall lane :: link.Stream(lane) == SealedOn(c, queue, lane)
  }

  /** Every read of the run returns the oldest packet of its lane, and leaves exactly those behind it. */
  ghost predicate AllArrive<V(!new)>(c: Codec<V>, link: Link<V>, queue: seq<Sealed<V>>, events: seq<Event>)
    decreases |events|
  {
    if events == [] then true
    else match events[0] {
      case Send(lane, data) =>
        AllArrive(c, AfterSend(c, link, lane, data), queue + [Sealed(lane, data, link.Iv(Sender(lane)))], events[1..])
      case Receive(lane, maxsize) =>
        var i := NextOn(queue, lane);
        && i < |queue|
        && var x, r := queue[i], Fetch(c, link, lane, maxsize);
           && r == Got(x.data[..Min(|x.data|, maxsize)], SealedOn(c, Without(queue, i), lane), c.after(x.iv, x.data))
           && AllArrive(c, AfterReceive(link, lane, r), Without(queue, i), events[1..])
    }
  }

  /**
    At every read the packet's vector agrees with the reader's; after it the reader holds the packet's next one,
    whatever it held.
   */
  ghost predicate AllAgree<V(!new)>(c: Codec<V>, clientIv: V, serverIv: V, queue: seq<Sealed<V>>, events: seq<Event>)
    decreases |events|
  {
    if events == [] then true
    else match events[0] {
      case Send(lane, data) =>
        var iv := if Sender(lane).Client? then clientIv else serverIv;
        var next := c.after(iv, data);
        var queue := queue + [Sealed(lane, data, iv)];
        if Sender(lane).Client? then AllAgree(c, next, serverIv, queue, events[1..])
        else AllAgree(c, clientIv, next, queue, events[1..])
      case Receive(lane, _) =>
        var i := NextOn(queue, lane);
        && i < |queue|
        && var next := c.after(queue[i].iv, queue[i].data);
           if Sender(lane).Client? then c.agrees(queue[i].iv, serverIv)
             && AllAgree(c, clientIv, next, Without(queue, i), events[1..])
           else c.agrees(queue[i].iv, clientIv) && AllAgree(c, next, serverIv, Without(queue, i), events[1..])
    }
  }

  ghost predicate SealedFit<V(!new)>(limit: nat, queue: seq<Sealed<V>>, events: seq<Event>) {
    && (forall i :: 0 <= i < |queue| ==> |queue[i].data| <= limit)
    && (forall i :: 0 <= i < |events| && events[i].Send? ==> |events[i].data| <= limit)
  }

  lemma {:induction false} SealedAppend<V(!new)>(c: Codec<V>, queue: seq<Sealed<V>>, x: Sealed<V>, lane: Lane)
    ensures SealedOn(c, queue + [x], lane)
      == SealedOn(c, queue, lane) + (if x.lane == lane then c.wire(x.iv, x.data) else [])
  {
    if queue == [] {
      assert queue + [x] == [x] && [x][1..] == [];
    } else {
      SealedAppend(c, queue[1..], x, lane);
      assert (queue + [x])[1..] == queue[1..] + [x];
      var mine := if queue[0].lane == lane then c.wire(queue[0].iv, queue[0].data) else [];
      Concat(mine, SealedOn(c, queue[1..], lane), if x.lane == lane then c.wire(x.iv, x.data) else []);
    }
  }

  lemma WithoutFirst<V>(queue: seq<Sealed<V>>)
    requires queue != []
    ensures Without(queue, 0) == queue[1..]
  {}

  lemma SealedWithout<V(!new)>(c: Codec<V>, queue: seq<Sealed<V>>, i: nat, lane: Lane)
    requires 0 < i < |queue|
    ensures SealedOn(c, Without(queue, i), lane) ==
      (if queue[0].lane == lane then c.wire(queue[0].iv, queue[0].data) else []) +
        SealedOn(c, Without(queue[1..], i - 1), lane)
  {
    assert Without(queue, i)[1..] == Without(queue[1..], i - 1) && Without(queue, i)[0] == queue[0];
  }

  lemma OneEmpty(a: seq<byte>, b: seq<byte>, rest: seq<byte>)
    requires a == [] || b == []
    ensures a + (b + rest) == b + (a + rest)
  {}

  /** The oldest packet of a lane stands at the front of its stream, and on no other. */
  lemma {:induction false} SealedNext<V(!new)>(c: Codec<V>, queue: seq<Sealed<V>>, lane: Lane, other: Lane)
    ensures var i := NextOn(queue, lane);
      if i < |queue| then
        SealedOn(c, queue, other) ==
          (if other == lane then c.wire(queue[i].iv, queue[i].data) else []) + SealedOn(c, Without(queue, i), other)
      else SealedOn(c, queue, lane) == []
  {
    hide Without;
    var i := NextOn(queue, lane);
    if queue == [] {
    } else if i == 0 {
      WithoutFirst(queue);
    } else {
      SealedNext(c, queue[1..], lane, other);
      if i < |queue| {
        SealedWithout(c, queue, i, other);
        var mine := if queue[0].lane == other then c.wire(queue[0].iv, queue[0].data) else [];
        var found := if other == lane then c.wire(queue[i].iv, queue[i].data) else [];
        OneEmpty(mine, found, SealedOn(c, Without(queue[1..], i - 1), other));
      }
    }
  }

  lemma SendCarries<V(!new)>(c: Codec<V>, link: Link<V>, queue: seq<Sealed<V>>, lane: Lane, data: seq<byte>)
    requires Carries(c, link, queue)
    ensures Carries(c, AfterSend(c, link, lane, data), queue + [Sealed(lane, data, link.Iv(Sender(lane)))])
  {
    hide SealedOn;
    var x := Sealed(lane, data, link.Iv(Sender(lane)));
    forall l: Lane
      ensures AfterSend(c, link, lane, data).Stream(l) == SealedOn(c, queue + [x], l)
    {
      SealedAppend(c, queue, x, l);
    }
  }

  /**
    One read: it is the right one if and only if the vectors agree, and then what is left on the streams is what
    is left on its way.
   */
  lemma ReceiveCarries<V(!new)>(c: Codec<V>, link: Link<V>, queue: seq<Sealed<V>>, lane: Lane, maxsize: nat)
    requires Exact(c) && Carries(c, link, queue) && NextOn(queue, lane) < |queue|
    requires |queue[NextOn(queue, lane)].data| <= c.limit
    ensures
      var i := NextOn(queue, lane);
      var x, left, r := queue[i], Without(queue, i), Fetch(c, link, lane, maxsize);
      var right := r == Got(x.data[..Min(|x.data|, maxsize)], SealedOn(c, left, lane), c.after(x.iv, x.data));
      && (right <==> c.agrees(x.iv, link.Iv(Other(Sender(lane)))))
      && (right ==> Carries(c, AfterReceive(link, lane, r), left))
  {
    hide SealedOn, NextOn;
    var i := NextOn(queue, lane);
    var x, left, r := queue[i], Without(queue, i), Fetch(c, link, lane, maxsize);
    SealedNext(c, queue, lane, lane);
    assert link.Stream(lane) == c.wire(x.iv, x.data) + SealedOn(c, left, lane);
    assert Arrives(c, x.iv, link.Iv(Other(Sender(lane))), x.data, SealedOn(c, left, lane), maxsize) <==>
      c.agrees(x.iv, link.Iv(Other(Sender(lane))));
    forall l: Lane | l != lane
      ensures link.Stream(l) == SealedOn(c, left, l)
    {
      SealedNext(c, queue, lane, l);
      assert [] + SealedOn(c, left, l) == SealedOn(c, left, l);
    }
  }

  /**
    For every schedule whatever, half-duplex or not: all reads return what was written if and only if at each
    of them the vector the packet was written under agrees with the reader's.
   */
  lemma {:induction false} AllArriveIff<V(!new)>(c: Codec<V>, link: Link<V>, queue: seq<Sealed<V>>, events: seq<Event>)
    requires Exact(c) && Carries(c, link, queue) && SealedFit(c.limit, queue, events)
    ensures AllArrive(c, link, queue, events) <==> AllAgree(c, link.clientIv, link.serverIv, queue, events)
    decreases |events|
  {
    hide Exact, Carries, SealedOn, NextOn;
    if events == [] {
    } else {
      match events[0]
      case Send(lane, data) =>
        SendCarries(c, link, queue, lane, data);
        var x := Sealed(lane, data, link.Iv(Sender(lane)));
        AllArriveIff(c, AfterSend(c, link, lane, data), queue + [x], events[1..]);
      case Receive(lane, maxsize) =>
        var i := NextOn(queue, lane);
        if i < |queue| {
          ReceiveCarries(c, link, queue, lane, maxsize);
          var r := Fetch(c, link, lane, maxsize);
          if c.agrees(queue[i].iv, link.Iv(Other(Sender(lane)))) {
            AllArriveIff(c, AfterReceive(link, lane, r), Without(queue, i), events[1..]);
          }
        }
    }
  }

  // ----- a notification crossing a command -----

  /** The command and the notification are written, neither end having read the other's. */
  function CrossingLink<V>(c: Codec<V>, iv: V, command: seq<byte>, notice: seq<byte>): Link<V> {
    AfterSend(c, AfterSend(c, Link(iv, iv, [], [], []), Up, command), Push, notice)
  }

  /**
    When a command and a notification cross: the client gets the notification exactly when the vector after the
    command agrees with the one before it, the server gets the command exactly when the vector after the
    notification does; and even if both do, the ends are left on two different chains, in step again only if
    these happen to meet.
   */
  lemma CrossingIff<V(!new)>(c: Codec<V>, iv: V, command: seq<byte>, notice: seq<byte>, maxsize: nat)
    requires Exact(c) && |command| <= c.limit && |notice| <= c.limit
    ensures
      var (u, v) := (c.after(iv, command), c.after(iv, notice));
      var link := CrossingLink(c, iv, command, notice);
      var heard, asked := Fetch(c, link, Push, maxsize), Fetch(c, link, Up, maxsize);
      && (heard == Got(notice[..Min(|notice|, maxsize)], [], v) <==> c.agrees(iv, u))
      && (asked == Got(command[..Min(|command|, maxsize)], [], u) <==> c.agrees(iv, v))
      && (c.agrees(iv, u) && c.agrees(iv, v) ==>
        var last := AfterReceive(AfterReceive(link, Push, heard), Up, asked);
        last == Link(v, u, [], [], []) && (InStep(c, last, []) <==> u == v))
  {
    var (u, v) := (c.after(iv, command), c.after(iv, notice));
    var link := CrossingLink(c, iv, command, notice);
    var x, y := c.wire(iv, command), c.wire(iv, notice);
    assert [] + x == x && x + [] == x && [] + y == y && y + [] == y;
    assert link == Link(u, v, x, [], y);
    assert Arrives(c, iv, u, notice, [], maxsize) <==> c.agrees(iv, u);
    assert Arrives(c, iv, v, command, [], maxsize) <==> c.agrees(iv, v);
    InStepEmpty(c, Link(v, u, [], [], []));
  }

  // ----- the real packets -----

  /** Vectors are blocks throughout; this only makes the codec's functions total. */
  function Vector(iv: seq<byte>): (v: seq<byte>)
    ensures IsBlock(v) && (IsBlock(iv) ==> v == iv)
  {
    if IsBlock(iv) then iv else Zeros(16)
  }

  function PacketWire(k: Key, iv: seq<byte>, data: seq<byte>): seq<byte> { Wire(k, Vector(iv), data) }

  function PacketAfter(k: Key, iv: seq<byte>, data: seq<byte>): seq<byte> { AfterWire(k, Vector(iv), data) }

  function PacketRead(k: Key, iv: seq<byte>, wire: seq<byte>, maxsize: nat): Got<seq<byte>> {
    match ReadWire(k, Vector(iv), wire, maxsize)
    case Packet(bytes, rest, next) => Got(bytes, rest, next)
    case NoPacket => Failed
    case Fault => Failed
  }

  function PacketCodec(k: Key): Codec<seq<byte>> {
    Codec(
      (iv, data) => PacketWire(k, iv, data),
      (iv, data) => PacketAfter(k, iv, data),
      (iv, wire, maxsize) => PacketRead(k, iv, wire, maxsize),
      (iv, other) => HeaderSurvives(Vector(iv), Vector(other)),
      MAX_PLAIN)
  }

  lemma PacketCodecFaithful(k: Key)
    ensures Faithful(PacketCodec(k))
  {
    hide Open, CbcEncrypt, ReadBody;
    var c := PacketCodec(k);
    forall iv, data, rest, maxsize | |data| < WORD - 16
      ensures c.read(iv, c.wire(iv, data) + rest, maxsize) ==
        if |data| <= c.limit then Got(data[..Min(|data|, maxsize)], rest, c.after(iv, data)) else Failed
    {
      ReadWritten(k, Vector(iv), data, rest, maxsize);
    }
  }

  /**
    The packets of `srv_WritePacket` and `srv_ReadPacket` are read back as stated, and under a wrong vector
    exactly when their header survives.
   */
  lemma PacketCodecExact(k: Key)
    ensures Exact(PacketCodec(k))
  {
    PacketCodecFaithful(k);
    hide ReadWire, Wire, AfterWire, HeaderSurvives, Faithful;
    var c := PacketCodec(k);
    forall v, w, data, rest, maxsize | |data| <= c.limit
      ensures Arrives(c, v, w, data, rest, maxsize) <==> c.agrees(v, w)
    {
      ReadUnderWrongIvIff(k, Vector(v), Vector(w), data, rest, maxsize);
    }
    forall v, w, data, maxsize | |data| <= c.limit && !c.agrees(v, w)
      ensures Short(c.read(w, c.wire(v, data), maxsize), data)
    {
      WrongIvShort(k, Vector(v), Vector(w), data, maxsize);
    }
  }

  /** They make every half-duplex session a plain queue. */
  lemma PacketSession(k: Key, iv: seq<byte>, events: seq<Event>)
    requires HalfDuplex(MAX_PLAIN, [], events)
    ensures Run(PacketCodec(k), Link(iv, iv, [], [], []), events) == Fifo([], events)
    ensures FifoLeft([], events) == [] ==>
      var last := RunLink(PacketCodec(k), Link(iv, iv, [], [], []), events);
      last.clientIv == last.serverIv && last.up == last.reply == last.push == []
  {
    PacketCodecFaithful(k);
    SessionRefinesFifo(PacketCodec(k), iv, events);
  }
}
