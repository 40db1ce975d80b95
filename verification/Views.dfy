/** From what a client's handler shows back to the server's state. */
module Views {
  import opened Bytes
  import opened Cbc
  import opened Session
  import opened Lookup
  import opened Push
  import opened Conversation
  import opened Server
  import opened Runs
  import opened Provenance

  lemma {:induction false} ReplayFront(base: set<u32>, inbox: seq<Notice>)
    requires inbox != []
    ensures Replay(base, inbox) == Replay(Seen(base, inbox[0]), inbox[1..])
  {
    var last := |inbox| - 1;
    if last == 0 {
    } else {
      ReplayFront(base, inbox[..last]);
      assert inbox[..last][1..] == inbox[1..][..last - 1];
    }
  }

  /** The notifications the client passes over say nothing about presence. */
  lemma {:induction false} ReplayVisible(base: set<u32>, inbox: seq<Notice>)
    ensures Replay(base, Visible(inbox)) == Replay(base, inbox)
    decreases |inbox|
  {
    if inbox == [] {
    } else {
      ReplayFront(base, inbox);
      ReplayVisible(Seen(base, inbox[0]), inbox[1..]);
      if inbox[0].Canc? {
        assert [] + Visible(inbox[1..]) == Visible(inbox[1..]);
      } else {
        var shown := [inbox[0]] + Visible(inbox[1..]);
        ReplayFront(base, shown);
        assert shown[1..] == Visible(inbox[1..]);
      }
    }
  }

  /**
    In every run, a client that has been sent its notifications between requests and replies of any kind, over
    one shared vector, each handled with its lookups before the next act, finds by replaying what its handler
    showed over the users online when it logged in exactly the users online now but itself.
   */
  lemma ConversationSeesOnlineList<V(!new)>(c: Codec<V>, v: V, acts: seq<Act>,
                                            events: seq<Server.Event>, j: nat)
    requires Exact(c) && PACKET_SIZE <= c.limit <= PRINTABLE && AllSayable(acts, c.limit) && AllSayable(acts, PRINTABLE)
    requires j < |After(Start(), events).world.online|
    requires var e := After(Start(), events).world.online[j];
      e.writable && Pushed(acts) == e.inbox
    ensures
      var online := After(Start(), events).world.online;
      Replay(online[j].atLogin, ShownIn(Converse(c, Ends(v, v), acts))) == Uids(online) - {online[j].uid}
  {
    hide Converse, ShownIn, Pushed, Visible, Exact;
    var e := After(Start(), events).world.online[j];
    ConversationShows(c, v, acts);
    RunInvariant(events);
    ReplayVisible(e.atLogin, e.inbox);
  }

  /** And what it was shown is the visible part of exactly the log of what happened since its login. */
  lemma ShownExactly<V(!new)>(c: Codec<V>, v: V, acts: seq<Act>,
                              events: seq<Server.Event>, j: nat)
    requires Exact(c) && PACKET_SIZE <= c.limit <= PRINTABLE && AllSayable(acts, c.limit) && AllSayable(acts, PRINTABLE)
    requires j < |After(Start(), events).world.online|
    requires Pushed(acts) == After(Start(), events).world.online[j].inbox
    ensures
      var e := After(Start(), events).world.online[j];
      exists a: nat, b: nat ::
        && Explains(events, e, a, b)
        && ShownIn(Converse(c, Ends(v, v), acts)) == Visible(Log(events, e.uid, a, b))
  {
    hide After, Converse, ShownIn, Pushed, IsOnline, Log, Exact, Visible;
    var e := After(Start(), events).world.online[j];
    InboxExactly(events, j);
    ConversationShows(c, v, acts);
    var a: nat, b: nat :| Explains(events, e, a, b);
    assert e.inbox == Log(events, e.uid, a, b);
  }

  lemma {:induction false} LastFileSizeVisible(inbox: seq<Notice>, initial: u32)
    ensures LastFileSize(Visible(inbox), initial) == LastFileSize(inbox, initial)
    decreases |inbox|
  {
    if inbox == [] {
    } else {
      var last := |inbox| - 1;
      LastFileSizeVisible(inbox[..last], initial);
      VisibleAppend(inbox[..last], inbox[last]);
      assert inbox == inbox[..last] + [inbox[last]];
      LastFileSizeNext(Visible(inbox[..last]), if inbox[last].Canc? then None else Some(inbox[last]), initial);
    }
  }

  lemma {:induction false} VisibleAppend(ns: seq<Notice>, n: Notice)
    ensures Visible(ns + [n]) == Visible(ns) + Shown(if n.Canc? then None else Some(n))
  {
    if ns == [] {
      assert [n][1..] == [] && [] + [n] == [n];
    } else {
      VisibleAppend(ns[1..], n);
      assert (ns + [n])[1..] == ns[1..] + [n];
    }
  }

  /**
    So in every run a client with a file on offer that has handled its notifications remembers, whatever it
    remembered at first, the size of that very file: the number of bytes it will ask its peer for.
   */
  lemma FileSizeKnown<V(!new)>(c: Codec<V>, v: V, acts: seq<Act>,
                               events: seq<Server.Event>, j: nat, initial: u32)
    requires Exact(c) && PACKET_SIZE <= c.limit <= PRINTABLE && AllSayable(acts, c.limit) && AllSayable(acts, PRINTABLE)
    requires j < |After(Start(), events).world.online|
    requires var e := After(Start(), events).world.online[j];
      e.writable && e.slot.Some? && Pushed(acts) == e.inbox
    ensures LastFileSize(ShownIn(Converse(c, Ends(v, v), acts)), initial)
      == After(Start(), events).world.online[j].slot.value.size
  {
    hide After, Converse, ShownIn, Pushed, Exact, Visible, LastFileSize;
    ConversationShows(c, v, acts);
    SizeAlwaysTold(events, j);
    LastFileSizeVisible(After(Start(), events).world.online[j].inbox, initial);
  }

  // ----- a run that goes wrong -----

  /** Two users log in, and the second sends the first a message. */
  function TextRun(a: u32, b: u32, ip: u32, body: seq<byte>): seq<Server.Event> {
    [Connect(0), Connect(1), Login(0, a, true, true, ip), Login(1, b, true, true, ip), Ask(1, Message(a, Some(body)))]
  }

  lemma {:induction false} AfterSplit(s: System, events: seq<Server.Event>, more: seq<Server.Event>)
    ensures After(s, events + more) == After(After(s, events), more)
    decreases |events|
  {
    if events == [] {
      assert events + more == more;
    } else {
      assert (events + more)[1..] == events[1..] + more;
      AfterSplit(Next(s, events[0]), events[1..], more);
    }
  }

  lemma AfterOne(s: System, ev: Server.Event)
    ensures After(s, [ev]) == Next(s, ev)
  {
    assert [ev][1..] == [];
  }

  /** Both users online, and the first with nothing in the inbox but the other's login. */
  lemma BothOnline(a: u32, b: u32, ip: u32, body: seq<byte>)
    requires a != b
    ensures
      var s := After(Start(), TextRun(a, b, ip, body)[..4]);
      && s.holds == map[0 := Some(a), 1 := Some(b)] && |s.world.online| == 2
      && s.world.online[0] == Entry(a, ip, None, true, [Onli(b, 0, ip)], {})
  {
    var events := TextRun(a, b, ip, body);
    assert events[..4] == [events[0]] + ([events[1]] + ([events[2]] + [events[3]]));
    var s1 := Next(Start(), events[0]);
    var s2 := Next(s1, events[1]);
    var s3 := Next(s2, events[2]);
    AfterSplit(Start(), [events[0]], [events[1]] + ([events[2]] + [events[3]]));
    AfterOne(Start(), events[0]);
    AfterSplit(s1, [events[1]], [events[2]] + [events[3]]);
    AfterOne(s1, events[1]);
    AfterSplit(s2, [events[2]], [events[3]]);
    AfterOne(s2, events[2]);
    AfterOne(s3, events[3]);
    FirstOnline(a, ip);
    SecondOnline(a, b, ip, s3.world);
  }

  lemma FirstOnline(a: u32, ip: u32)
    ensures Joined(Start().world, a, ip).online == [Entry(a, ip, None, true, [], {})]
  {
    var e := Entry(a, ip, None, true, [], {});
    assert Uids([]) == {} && [] + [e] == [e];
  }

  lemma SecondOnline(a: u32, b: u32, ip: u32, w: World)
    requires a != b && w.online == [Entry(a, ip, None, true, [], {})]
    ensures !IsOnline(w.online, b)
    ensures |Joined(w, b, ip).online| == 2
    ensures Joined(w, b, ip).online[0] == Entry(a, ip, None, true, [Onli(b, 0, ip)], {})
  {
    assert w.online[1..] == [];
    var e := Entry(b, ip, None, true, [], Uids(w.online));
    var grown := w.online + [e];
    assert grown[0].uid in Uids(grown) - {b};
    assert [] + [Onli(b, 0, ip)] == [Onli(b, 0, ip)];
  }

  lemma TextRunInbox(a: u32, b: u32, ip: u32, body: seq<byte>)
    requires a != b
    ensures
      var online := After(Start(), TextRun(a, b, ip, body)).world.online;
      online != [] && online[0].uid == a && online[0].inbox == [Onli(b, 0, ip), Mesg(b, body)]
  {
    var events := TextRun(a, b, ip, body);
    var s := After(Start(), events[..4]);
    assert events == events[..4] + [events[4]];
    AfterSplit(Start(), events[..4], [events[4]]);
    AfterOne(s, events[4]);
    BothOnline(a, b, ip, body);
    hide After;
    ServeHeard(s.world, b, Message(a, Some(body)), 0);
    assert [Onli(b, 0, ip)] + [Mesg(b, body)] == [Onli(b, 0, ip), Mesg(b, body)];
  }

  /**
    The message is in the first user's inbox, behind the login; and that client, reading both only now, shows
    the login alone.
   */
  ghost predicate LosesText<V>(c: Codec<V>, v: V, a: u32, b: u32, ip: u32, body: seq<byte>, scenes: nat -> Scene) {
    var online := After(Start(), TextRun(a, b, ip, body)).world.online;
    && online != [] && online[0].uid == a && online[0].inbox == [Onli(b, 0, ip), Mesg(b, body)]
    && ShownTogether(c, v, online[0].inbox, scenes) == [Onli(b, 0, ip)]
  }

  /**
    Whatever the key and the vector, and whatever the handler's turns find, there is a text with which this run
    goes wrong.
   */
  lemma RunLosesText(k: Key, v: seq<byte>, a: u32, b: u32, ip: u32, scenes: nat -> Scene)
    requires a != b
    ensures exists body :: |body| == 15 && LosesText(PacketCodec(k), v, a, b, ip, body, scenes)
  {
    hide After, ShownTogether, PacketCodec;
    TwoInFlightLost(k, v, b, ip, b, scenes);
    var body :| |body| == 15 && OnlyFirst(PacketCodec(k), v, Onli(b, 0, ip), Mesg(b, body), scenes);
    TextRunInbox(a, b, ip, body);
    assert LosesText(PacketCodec(k), v, a, b, ip, body, scenes);
  }
}
