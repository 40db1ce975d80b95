/** A message from one client to another: two channels under different keys, and the server between them. */
module Relay {
  import opened Bytes
  import Md5Block
  import opened Cbc
  import opened Packet
  import opened Session
  import opened Lookup
  import opened Push
  import opened Server
  import opened Runs
  import opened Provenance

  const PTYPE_MESSAGE: u32 := 3

  /** `protocol_BuildMsgPacket` */
  function MessageRequest(to: u32, msglen: u32): (p: seq<byte>)
    ensures |p| == PACKET_SIZE
  {
    PacketOf(PTYPE_MESSAGE, Le(to, 4) + (Le(msglen, 4) + Zeros(56)))
  }

  lemma RequestFields(to: u32, msglen: u32)
    ensures var p := MessageRequest(to, msglen);
      && Word(p, 0) == PACK && Word(p, 4) == 0 && Word(p, 8) == PTYPE_MESSAGE && Word(p, 12) == to
        && Word(p, 16) == msglen
      && forall i :: 20 <= i < PACKET_SIZE ==> p[i] == 0
  {
    var p := MessageRequest(to, msglen);
    assert forall i :: 20 <= i < PACKET_SIZE ==> p[i] == (Le(to, 4) + (Le(msglen, 4) + Zeros(56)))[i - 12];
    hide PacketOf, Word;
    var tail := Le(msglen, 4) + Zeros(56);
    var body := Le(to, 4) + tail;
    PacketFields(PTYPE_MESSAGE, body);
    BodyWords(PTYPE_MESSAGE, body);
    LeadingWord(to, tail);
    LeadingWord(msglen, Zeros(56));
    SecondWord(body);
  }

  lemma SecondWord(s: seq<byte>)
    requires |s| >= 8
    ensures Word(s, 4) == Word(s[4..], 0)
  {
    assert s[4..][0..4] == s[4..8];
  }

  /**
    After the server has dealt with one packet of a connection: the body to forward, if it got that far, and
    where it reads on.
   */
  datatype Handled<+V> = Handled(to: u32, body: Option<seq<byte>>, rest: seq<byte>, iv: V) | Unhandled

  /**
    `in_handler` reading a MESSAGE request and `protocol_Message` reading the body behind it, which it does
    only for an online target. A body shorter than announced leaves memory the model does not know.
   */
  function HandleMessage<V>(c: Codec<V>, iv: V, wire: seq<byte>, online: set<u32>): Handled<V> {
    match c.read(iv, wire, MAX_PACKET)
    case Failed => Unhandled
    case Got(p, rest, next) =>
      if |p| < PACKET_SIZE || Word(p, 0) != PACK || Word(p, 8) != PTYPE_MESSAGE then Unhandled
      else if Word(p, 12) !in online then Handled(Word(p, 12), None, rest, next)
      else
        match c.read(next, rest, Word(p, 16))
        case Failed => Unhandled
        case Got(body, rest, next) =>
          if |body| == Word(p, 16) then Handled(Word(p, 12), Some(body), rest, next) else Unhandled
  }

  /** A packet that is not a whole MESSAGE request is not taken for one. */
  lemma OtherPacket<V(!new)>(c: Codec<V>, iv: V, wire: seq<byte>, online: set<u32>)
    ensures var r := c.read(iv, wire, MAX_PACKET);
      r.Failed? || |r.bytes| < PACKET_SIZE || Word(r.bytes, 0) != PACK || Word(r.bytes, 8) != PTYPE_MESSAGE ==>
      HandleMessage(c, iv, wire, online).Unhandled?
  {
    hide Word;
  }

  /** A text is taken only for somebody online, and only if it is as long as announced. */
  lemma TextTaken<V(!new)>(c: Codec<V>, iv: V, wire: seq<byte>, online: set<u32>)
    ensures var h, r := HandleMessage(c, iv, wire, online), c.read(iv, wire, MAX_PACKET);
      h.Handled? ==>
        && r.Got? && |r.bytes| >= PACKET_SIZE && h.to == Word(r.bytes, 12)
        && (h.body.Some? <==> h.to in online)
        && (h.body.Some? ==> |h.body.value| == Word(r.bytes, 16))
  {
    hide Word;
  }

  /** What the sending client writes: the request and then the text. */
  function Typed(to: u32, body: seq<byte>): seq<Item>
    requires |body| < WORD
  {
    [Item(Lane.Up, MessageRequest(to, |body|))] + [Item(Lane.Up, body)]
  }

  lemma ReadUp<V(!new)>(c: Codec<V>, iv: V, data: seq<byte>, rest: seq<Item>, maxsize: nat)
    requires Faithful(c) && |data| < WORD - 16
    ensures
      var queue := [Item(Lane.Up, data)] + rest;
      c.read(iv, OnLane(c, iv, queue, Lane.Up), maxsize) ==
        if |data| <= c.limit
        then Got(data[..Min(|data|, maxsize)], OnLane(c, c.after(iv, data), rest, Lane.Up), c.after(iv, data))
        else Failed
  {}

  lemma MessageHandled<V(!new)>(c: Codec<V>, iv: V, to: u32, body: seq<byte>, online: set<u32>)
    requires Faithful(c) && PACKET_SIZE <= c.limit && |body| < WORD - 16
    ensures
      var h := HandleMessage(c, iv, OnLane(c, iv, Typed(to, body), Lane.Up), online);
      var next := c.after(iv, MessageRequest(to, |body|));
      h == if to !in online then Handled(to, None, c.wire(next, body), next)
           else if |body| <= c.limit then Handled(to, Some(body), [], c.after(next, body))
           else Unhandled
  {
    hide Word, MessageRequest;
    RequestFields(to, |body|);
    var p := MessageRequest(to, |body|);
    var next := c.after(iv, p);
    assert p[..Min(|p|, MAX_PACKET)] == p && body[..Min(|body|, |body|)] == body;
    ReadUp(c, iv, p, [Item(Lane.Up, body)], MAX_PACKET);
    assert [Item(Lane.Up, body)] + [] == [Item(Lane.Up, body)];
    ReadUp(c, next, body, [], |body|);
    assert OnLane(c, next, [Item(Lane.Up, body)], Lane.Up)
      == c.wire(next, body) + OnLane(c, c.after(next, body), [], Lane.Up);
    assert c.wire(next, body) + [] == c.wire(next, body);
  }

  /**
    A failed send leaves the text unread, in front of the connection's next request: the server consumed exactly
    what the client wrote if and only if the target was online.
   */
  lemma ConsumedIffOnline<V(!new)>(c: Codec<V>, iv: V, to: u32, body: seq<byte>, online: set<u32>)
    requires Faithful(c) && PACKET_SIZE <= c.limit && |body| <= c.limit && c.limit < WORD - 16
    ensures
      var h := HandleMessage(c, iv, OnLane(c, iv, Typed(to, body), Lane.Up), online);
      h.Handled? && (h.rest == [] <==> to in online)
  {
    hide HandleMessage, OnLane, Typed;
    MessageHandled(c, iv, to, body, online);
    assert c.wire(c.after(iv, MessageRequest(to, |body|)), body) != [];
  }

  /** One notification on its own is shown if and only if it fits. */
  lemma AloneIff<V(!new)>(c: Codec<V>, v: V, n: Notice, scenes: nat -> Scene)
    requires Exact(c) && PACKET_SIZE <= c.limit && Deliverable(n, PRINTABLE) && !n.Canc?
    ensures ShownTogether(c, v, [n], scenes) == [n] <==> Deliverable(n, c.limit)
  {
    hide Hear, OnLane, Exact, Packets, AfterNotice, AfterNotices, Deliverable;
    DeliverableBoth(n, n, PRINTABLE);
    Alone(c, v, n);
    if Deliverable(n, c.limit) {
      LastAsks(c, v, [n], scenes, 0);
      HearAllPrinted(c, v, Ends(v, AfterNotices(c, v, [n])), [n], scenes, 0);
      assert Visible([n]) == [n] + Visible([]);
    } else {
      HearOversized(c, v, n, []);
      assert OnPush(Packets(n)) + [] == OnPush(Packets(n));
    }
  }

  lemma Alone<V>(c: Codec<V>, v: V, n: Notice)
    requires WellFormed(n)
    ensures Items([n]) == OnPush(Packets(n)) && AfterNotices(c, v, [n]) == AfterNotice(c, v, n)
    ensures [n][1..] == []
  {
    assert OnPush(Packets(n)) + [] == OnPush(Packets(n));
    assert AfterNotices(c, AfterNotice(c, v, n), []) == AfterNotice(c, v, n);
  }

  // ----- through the server -----

  /** What came to an inbox. */
  function Added(before: seq<Notice>, after: seq<Notice>): seq<Notice> {
    if |before| <= |after| then after[|before|..] else []
  }

  /**
    What `to` is shown when the server, in state `s`, has dealt with what connection `k` wrote: the request and
    the text are read, the request is served, and what comes to the inbox of `to` is printed to it from equal
    vectors and handled.
   */
  ghost function Relayed<V, W>(c: Codec<V>, iv: V, wire: seq<byte>, s: System, k: nat, to: u32,
                               c': Codec<W>, v: W, scenes: nat -> Scene): seq<Notice> {
    match HandleMessage(c, iv, wire, Uids(s.world.online))
    case Unhandled => []
    case Handled(target, body, _, _) =>
      var before, after := s.world.online, Next(s, Ask(k, Message(target, body))).world.online;
      var i := Index(before, to);
      if i < |before| && i < |after| then ShownTogether(c', v, Added(before[i].inbox, after[i].inbox), scenes) else []
  }

  /**
    End to end, in every run, under independent keys: the target is shown the sender's text, byte for byte and
    with the uid the sender's connection logged in as, if and only if it is online, its push socket works, and
    the text fits in a packet on both channels.
   */
  lemma RelayIff<V(!new), W(!new)>(c: Codec<V>, iv: V, events: seq<Server.Event>, k: nat, to: u32, body: seq<byte>,
                                   c': Codec<W>, v: W, scenes: nat -> Scene)
    requires Faithful(c) && PACKET_SIZE <= c.limit && Exact(c') && PACKET_SIZE <= c'.limit && |body| <= PRINTABLE
    requires var s := After(Start(), events);
      k in s.holds && s.holds[k].Some?
    ensures
      var s := After(Start(), events);
      Relayed(c, iv, OnLane(c, iv, Typed(to, body), Lane.Up), s, k, to, c', v, scenes)
        == [Mesg(s.holds[k].value, body)]
      <==> Writable(s.world.online, to) && |body| <= c.limit && |body| <= c'.limit
  {
    hide HandleMessage, ShownTogether, OnLane, Typed, Faithful, Exact, MessageRequest, After, Serve, Uids, Index;
    var s := After(Start(), events);
    var online, me := s.world.online, s.holds[k].value;
    MessageHandled(c, iv, to, body, Uids(online));
    OnlineIff(online, to);
    if to in Uids(online) && |body| <= c.limit {
      var i := Index(online, to);
      ServeHeard(s.world, me, Message(to, Some(body)), i);
      MessageAdds(online[i].inbox, online[i].writable, Mesg(me, body));
      AloneIff(c', v, Mesg(me, body), scenes);
      NothingShown(c', v, scenes);
    }
  }

  lemma MessageAdds(inbox: seq<Notice>, writable: bool, n: Notice)
    ensures Added(inbox, inbox + (if writable then [n] else [])) == if writable then [n] else []
  {}

  lemma NothingShown<V(!new)>(c: Codec<V>, v: V, scenes: nat -> Scene)
    requires Exact(c)
    ensures ShownTogether(c, v, [], scenes) == []
  {
    NothingHeard(c, Ends(v, v), scenes(0));
  }

  // ----- the sizes that get through -----

  /**
    The server takes announced lengths up to 65536, and reads a text of up to 65519 bytes; a member is shown the
    message if and only if it has at most 65515.
   */
  lemma GroupMessageHeardIff(k: Key, v: seq<byte>, from: u32, gid: u32, body: seq<byte>, scenes: nat -> Scene)
    requires |body| <= 0x10000
    ensures
      ShownTogether(PacketCodec(k), v, [Gmsg(from, gid, body)], scenes) == [Gmsg(from, gid, body)] <==> |body| <= 65515
  {
    hide ShownTogether;
    PacketCodecExact(k);
    AloneIff(PacketCodec(k), v, Gmsg(from, gid, body), scenes);
  }

  /**
    The server's own read of a group message's text, of any announced length, gets it if and only if it has at
    most 65519 bytes.
   */
  lemma GroupTextReadIff(k: Key, iv: seq<byte>, body: seq<byte>, rest: seq<byte>)
    requires IsBlock(iv) && |body| <= 0x10000
    ensures ReadWire(k, iv, Wire(k, iv, body) + rest, |body|) == Packet(body, rest, AfterWire(k, iv, body))
      <==> |body| <= 65519
  {
    hide ReadWire, Wire, AfterWire;
    ReadWritten(k, iv, body, rest, |body|);
    assert body[..|body|] == body;
  }

  // ----- a text that crosses a notification -----

  /**
    A client sends a message, request and text, while the server prints it a notification: whatever the key and
    the vector, and whatever the notification, there is a text after which the client cannot read it.
   */
  lemma CrossingLost(k: Key, iv: seq<byte>, to: u32, notice: seq<byte>, maxsize: nat)
    requires |notice| <= MAX_PLAIN
    ensures exists body :: |body| == 15 && Missed(PacketCodec(k), iv, to, body, notice, maxsize)
  {
    var c := PacketCodec(k);
    PacketCodecExact(k);
    assert |notice| <= c.limit;
    hide Exact, Missed, PacketCodec;
    SomeTextMoves(k, iv, c.after(iv, MessageRequest(to, 15)));
    var body :| |body| == 15 && !c.agrees(iv, c.after(c.after(iv, MessageRequest(to, 15)), body));
    MissedIff(c, iv, to, body, notice, maxsize);
  }

  /**
    The client, having written its message, does not get the notification the server wrote before reading any of
    it.
   */
  predicate Missed<V(==)>(c: Codec<V>, iv: V, to: u32, body: seq<byte>, notice: seq<byte>, maxsize: nat)
    requires |body| < WORD
  {
    var asked := AfterSend(c, Link(iv, iv, [], [], []), Up, MessageRequest(to, |body|));
    var link := AfterSend(c, AfterSend(c, asked, Up, body), Lane.Push, notice);
    Fetch(c, link, Lane.Push, maxsize) != Got(notice[..Min(|notice|, maxsize)], [], c.after(iv, notice))
  }

  lemma MissedIff<V(!new)>(c: Codec<V>, iv: V, to: u32, body: seq<byte>, notice: seq<byte>, maxsize: nat)
    requires Exact(c) && |body| < WORD && |notice| <= c.limit
    ensures Missed(c, iv, to, body, notice, maxsize) <==>
      !c.agrees(iv, c.after(c.after(iv, MessageRequest(to, |body|)), body))
  {
    hide MessageRequest;
    var y := c.wire(iv, notice);
    assert [] + y == y && y + [] == y;
    var w := c.after(c.after(iv, MessageRequest(to, |body|)), body);
    assert Arrives(c, iv, w, notice, [], maxsize) <==> c.agrees(iv, w);
  }

  /** The reply to a friend query can be read if and only if it names at most 16379 friends. */
  lemma FriendListReadIff(k: Key, iv: seq<byte>, uids: seq<u32>)
    requires IsBlock(iv) && |uids| < 0x1000_0000
    ensures
      var list := Md5Block.EncodeWords(uids);
      ReadWire(k, iv, Wire(k, iv, list), |list|) == Packet(list, [], AfterWire(k, iv, list)) <==> |uids| <= 16379
  {
    hide ReadWire, Wire, AfterWire;
    var list := Md5Block.EncodeWords(uids);
    ReadWritten(k, iv, list, [], |list|);
    assert Wire(k, iv, list) + [] == Wire(k, iv, list) && list[..|list|] == list;
  }
}
