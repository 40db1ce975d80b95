/**
  Where every notification comes from: an inbox is exactly what the events since its owner's login caused, in
  order.
 */
module Provenance {
  import opened Bytes
  import opened Push
  import opened Server
  import opened Runs
  import opened Fanout

  // ----- one request, from the side of whoever hears of it -----

  function Repeated(n: Notice, k: nat): (s: seq<Notice>)
    ensures |s| == k
  {
    seq(k, _ => n)
  }

  function When(b: bool, n: Notice): seq<Notice> { if b then [n] else [] }

  /** What `uid` hears when `me` makes a request. */
  function Heard(w: World, me: u32, r: Request, uid: u32): seq<Notice> {
    match r
    case Message(to, buffer) => if buffer.Some? then When(to == uid, Mesg(me, buffer.value)) else []
    case SendFile(to, size, name) =>
      When(to == uid && size <= MAX_FILE && SlotOf(w.online, uid).None?, File(me, size, Name40(name)))
    case FopDone(result, target) => When(result == CANCEL && target == uid, Canc)
    case ChangeName(name, stored) => When(uid != me && |name| <= 25 && Alphanumeric(name) && stored, Name(me, name))
    case AddFriend(to) => When(to == uid, Dawg(me))
    case BeFriend(to) => When(to == uid && to != me && (me, to) !in w.friends && (to, me) !in w.friends, Helo(me))
    case DeleteFriend(to) => When(to == uid, Died(me))
    case CreateGroup(gid, count, users) =>
      if count <= 10 && users.Some? && uid != me then Repeated(Grup(me, gid), Count(users.value, uid)) else []
    case GroupMessage(gid, msglen, buffer) =>
      if buffer.None? then []
      else When(msglen <= 0x10000 && (gid, uid) in w.groups && uid != me, Gmsg(me, gid, buffer.value))
  }

  /** `after` is `before` having heard `ns`, with its push socket as it was. */
  predicate Heeds(before: Entry, after: Entry, ns: seq<Notice>) {
    after.uid == before.uid && after.writable == before.writable
      && after.inbox == before.inbox + (if before.writable then ns else [])
  }

  lemma DeliverHeard(online: seq<Entry>, audience: set<u32>, n: Notice, i: nat)
    requires i < |online|
    ensures Heeds(online[i], Deliver(online, audience, n)[i], When(online[i].uid in audience, n))
  {}

  lemma {:induction false} TimesHeard(e: Entry, n: Notice, k: nat)
    ensures Heeds(e, Times(e, n, k), Repeated(n, k))
  {
    if k == 0 {
    } else {
      TimesHeard(e, n, k - 1);
      assert Repeated(n, k) == Repeated(n, k - 1) + [n];
    }
  }

  lemma HereIsOnline(online: seq<Entry>, i: nat)
    requires i < |online|
    ensures IsOnline(online, online[i].uid)
  {}

  lemma FileHeard(w: World, me: u32, r: Request, i: nat)
    requires i < |w.online| && (r.SendFile? || r.FopDone?)
    ensures |Serve(w, me, r).0.online| == |w.online|
    ensures Heeds(w.online[i], Serve(w, me, r).0.online[i], Heard(w, me, r, w.online[i].uid))
  {
    hide Deliver, Name40, Index, SlotOf;
    HereIsOnline(w.online, i);
    if r.SendFile? {
      DeliverHeard(SetSlot(w.online, r.to, Some(FileRequest(me, r.size, r.name))), {r.to},
        File(me, r.size, Name40(r.name)), i);
    } else {
      DeliverHeard(SetSlot(w.online, r.uid, None), {r.uid}, Canc, i);
    }
  }

  lemma GroupHeard(w: World, me: u32, r: Request, i: nat)
    requires i < |w.online| && ((r.CreateGroup? && r.users.Some?) || (r.GroupMessage? && r.buffer.Some?))
    ensures |Serve(w, me, r).0.online| == |w.online|
    ensures Heeds(w.online[i], Serve(w, me, r).0.online[i], Heard(w, me, r, w.online[i].uid))
  {
    hide Deliver, NotifyEach, Rows, Members;
    var e := w.online[i];
    if r.CreateGroup? {
      var n := Grup(me, r.gid);
      NotifyEachExactly(w.online, r.users.value, me, n, i);
      TimesHeard(e, n, if e.uid == me then 0 else Count(r.users.value, e.uid));
    } else {
      DeliverHeard(w.online, Members(w.groups, r.gid) - {me}, Gmsg(me, r.gid, r.buffer.value), i);
      MemberIff(w.groups, r.gid, e.uid);
    }
  }

  /** A request is heard by exactly those it is for, as often as they are named, and by no one else. */
  lemma ServeHeard(w: World, me: u32, r: Request, i: nat)
    requires i < |w.online|
    ensures |Serve(w, me, r).0.online| == |w.online|
    ensures Heeds(w.online[i], Serve(w, me, r).0.online[i], Heard(w, me, r, w.online[i].uid))
  {
    hide Deliver, Alphanumeric, Index;
    HereIsOnline(w.online, i);
    match r
    case Message(to, buffer) => if buffer.Some? { DeliverHeard(w.online, {to}, Mesg(me, buffer.value), i); }
    case SendFile(_, _, _) => FileHeard(w, me, r, i);
    case FopDone(_, _) => FileHeard(w, me, r, i);
    case ChangeName(name, stored) => DeliverHeard(w.online, Uids(w.online) - {me}, Name(me, name), i);
    case AddFriend(to) => DeliverHeard(w.online, {to}, Dawg(me), i);
    case BeFriend(to) => DeliverHeard(w.online, {to}, Helo(me), i);
    case DeleteFriend(to) => DeliverHeard(w.online, {to}, Died(me), i);
    case CreateGroup(_, _, users) => if users.Some? { GroupHeard(w, me, r, i); }
    case GroupMessage(_, _, buffer) => if buffer.Some? { GroupHeard(w, me, r, i); }
  }

  // ----- one event -----

  /** What `uid` hears when an event happens. */
  function Caused(s: System, ev: Server.Event, uid: u32): seq<Notice> {
    match ev
    case Login(k, who, passed, connected, ip) =>
      When(k in s.holds && passed && connected && !IsOnline(s.world.online, who) && uid != who, Onli(who, 0, ip))
    case Ask(k, request) =>
      if k in s.holds && s.holds[k].Some? then Heard(s.world, s.holds[k].value, request, uid) else []
    case Close(k) =>
      if k in s.holds && s.holds[k].Some? && IsOnline(s.world.online, s.holds[k].value) then
        var who := s.holds[k].value;
        When(uid != who, Onli(who, 1, s.world.online[Index(s.world.online, who)].ip))
      else []
    case _ => []
  }

  /** What an event leaves in the slot of somebody who was online before and is after it. */
  function SlotAfter(s: System, ev: Server.Event, e: Entry): Option<FileRequest> {
    if !ev.Ask? || ev.conn !in s.holds || s.holds[ev.conn].None? then e.slot else
      var me, r := s.holds[ev.conn].value, ev.request;
      if r.SendFile? && r.to == e.uid && r.size <= MAX_FILE && e.slot.None? then Some(FileRequest(me, r.size, r.name))
      else if r.FopDone? && (e.uid == me || (r.result == CANCEL && e.uid == r.uid)) then None
      else e.slot
  }

  /** `e` has just joined with this event. */
  ghost predicate Fresh(s: System, ev: Server.Event, e: Entry) {
    ev.Login? && ev.uid == e.uid && !IsOnline(s.world.online, e.uid) && e.inbox == [] && e.writable && e.slot.None?
  }

  /** `before` has become `after` with this event. */
  ghost predicate Stays(s: System, ev: Server.Event, before: Entry, after: Entry) {
    && after.uid == before.uid
    && after.slot == SlotAfter(s, ev, before)
    && after.inbox == before.inbox + (if before.writable then Caused(s, ev, before.uid) else [])
    && (after.writable <==> before.writable && ev != SocketBreaks(before.uid))
  }

  lemma SlotAt(online: seq<Entry>, i: nat)
    requires Distinct(online) && i < |online|
    ensures SlotOf(online, online[i].uid) == online[i].slot && IsOnline(online, online[i].uid)
  {
    HereIsOnline(online, i);
  }

  lemma AskedHeard(s: System, ev: Server.Event, j: nat)
    requires Invariant(s) && ev.Ask? && ev.conn in s.holds && s.holds[ev.conn].Some?
    requires j < |Next(s, ev).world.online|
    ensures j < |s.world.online| && Stays(s, ev, s.world.online[j], Next(s, ev).world.online[j])
  {
    hide Serve, Heard, SlotOf, IsOnline, View, Presence, Offers, Holding, Symmetric;
    var w, me, r := s.world, s.holds[ev.conn].value, ev.request;
    var after := Serve(w, me, r).0.online;
    ServeQuiet(w, me, r);
    UidsSame(w.online, after);
    ServeHeard(w, me, r, j);
    SlotAt(w.online, j);
    SlotAt(after, j);
    ServeSlots(w, me, r, w.online[j].uid);
  }

  lemma JoinedHeard(s: System, ev: Server.Event, j: nat)
    requires ev.Login? && !IsOnline(s.world.online, ev.uid) && ev.conn in s.holds && ev.passed && ev.connected
    requires j < |Next(s, ev).world.online|
    ensures var online := s.world.online;
      if j < |online| then Stays(s, ev, online[j], Next(s, ev).world.online[j])
        else Fresh(s, ev, Next(s, ev).world.online[j])
  {}

  lemma LeftHeard(s: System, ev: Server.Event, j: nat) returns (i: nat)
    requires Invariant(s) && ev.Close? && ev.conn in s.holds && s.holds[ev.conn].Some?
    requires j < |Next(s, ev).world.online|
    ensures i < |s.world.online| && Stays(s, ev, s.world.online[i], Next(s, ev).world.online[j])
  {
    hide View, Pending, Presence, Remove, Offers;
    var online, who := s.world.online, s.holds[ev.conn].value;
    OnlineIff(online, who);
    var n := Onli(who, 1, online[Index(online, who)].ip);
    var told := Deliver(online, Uids(online) - {who}, n);
    UidsSame(online, told);
    OnlineIff(told, who);
    i := RemoveFrom(told, who, j);
    DeliverHeard(online, Uids(online) - {who}, n, i);
  }

  /**
    After any event everyone online either has just joined, with an empty inbox, or has heard exactly what the
    event caused.
   */
  lemma NextHeard(s: System, ev: Server.Event, j: nat)
    requires Invariant(s) && j < |Next(s, ev).world.online|
    ensures var after := Next(s, ev).world.online[j];
      Fresh(s, ev, after) || exists i :: 0 <= i < |s.world.online| && Stays(s, ev, s.world.online[i], after)
  {
    hide Serve, Joined, Left, Invariant, Heard;
    var online := s.world.online;
    var after := Next(s, ev).world.online[j];
    match ev
    case Login(k, uid, passed, connected, ip) =>
      if k in s.holds && passed && connected && !IsOnline(online, uid) {
        JoinedHeard(s, ev, j);
      } else {
        assert Stays(s, ev, online[j], after);
      }
    case Ask(k, request) =>
      if k in s.holds && s.holds[k].Some? {
        AskedHeard(s, ev, j);
      }
      assert Stays(s, ev, online[j], after);
    case Close(k) =>
      if k in s.holds && s.holds[k].Some? {
        var i := LeftHeard(s, ev, j);
      } else {
        assert Stays(s, ev, online[j], after);
      }
    case _ => assert Stays(s, ev, online[j], after);
  }

  // ----- whole runs -----

  function StateAt(events: seq<Server.Event>, e: nat): System
    requires e <= |events|
  {
    After(Start(), events[..e])
  }

  /** What the events from `a` up to `b` caused `uid` to hear, in order. */
  function Log(events: seq<Server.Event>, uid: u32, a: nat, b: nat): seq<Notice>
    requires a <= b <= |events|
  {
    if a == b then [] else Log(events, uid, a, b - 1) + Caused(StateAt(events, b - 1), events[b - 1], uid)
  }

  /**
    `e` joined with event `a - 1` and has been online since; it heard everything caused from then up to `b`,
    where the run ends or its push socket breaks for the first time, and nothing after that.
   */
  ghost predicate Explains(events: seq<Server.Event>, e: Entry, a: nat, b: nat) {
    && 0 < a <= b <= |events|
    && events[a - 1].Login? && events[a - 1].uid == e.uid && !IsOnline(StateAt(events, a - 1).world.online, e.uid)
    && (forall t :: a <= t <= |events| ==> IsOnline(StateAt(events, t).world.online, e.uid))
    && (forall t :: a <= t < b ==> events[t] != SocketBreaks(e.uid))
    && (if e.writable then b == |events| else b < |events| && events[b] == SocketBreaks(e.uid))
    && e.inbox == Log(events, e.uid, a, b)
  }

  lemma {:induction false} AfterAppend(s: System, events: seq<Server.Event>, ev: Server.Event)
    ensures After(s, events + [ev]) == Next(After(s, events), ev)
    decreases |events|
  {
    if events == [] {
      assert [ev][1..] == [];
    } else {
      assert (events + [ev])[1..] == events[1..] + [ev];
      AfterAppend(Next(s, events[0]), events[1..], ev);
    }
  }

  lemma StateAtPrefix(events: seq<Server.Event>, n: nat, e: nat)
    requires e <= n <= |events|
    ensures StateAt(events[..n], e) == StateAt(events, e)
  {
    assert events[..n][..e] == events[..e];
  }

  lemma {:induction false} LogPrefix(events: seq<Server.Event>, n: nat, uid: u32, a: nat, b: nat)
    requires a <= b <= n <= |events|
    ensures Log(events[..n], uid, a, b) == Log(events, uid, a, b)
    decreases b - a
  {
    hide Caused, StateAt;
    if a == b {
    } else {
      LogPrefix(events, n, uid, a, b - 1);
      StateAtPrefix(events, n, b - 1);
      assert events[..n][b - 1] == events[b - 1];
    }
  }

  /** One more event. */
  lemma ExplainsNext(events: seq<Server.Event>, before: Entry, after: Entry, a: nat, b: nat) returns (b': nat)
    requires events != []
    requires var n := |events| - 1;
      Explains(events[..n], before, a, b) && Stays(StateAt(events, n), events[n], before, after)
    requires IsOnline(StateAt(events, |events|).world.online, after.uid)
    ensures Explains(events, after, a, b')
  {
    hide Caused, IsOnline, Log, StateAt;
    var n := |events| - 1;
    var prior := events[..n];
    LogPrefix(events, n, before.uid, a, b);
    StateAtPrefix(events, n, a - 1);
    forall t | a <= t <= |events|
      ensures IsOnline(StateAt(events, t).world.online, after.uid)
    {
      if t <= n {
        StateAtPrefix(events, n, t);
      }
    }
    b' := if after.writable then |events| else b;
    LogNext(events, after.uid, a, n);
    if before.writable && !after.writable {
      QuietBreak(StateAt(events, n), after.uid, after.uid);
    }
  }

  lemma LogNext(events: seq<Server.Event>, uid: u32, a: nat, n: nat)
    requires a <= n < |events|
    ensures Log(events, uid, a, n + 1) == Log(events, uid, a, n) + Caused(StateAt(events, n), events[n], uid)
  {}

  lemma QuietBreak(s: System, who: u32, uid: u32)
    ensures Caused(s, SocketBreaks(who), uid) == []
  {}

  lemma JustJoined(events: seq<Server.Event>, e: Entry)
    requires events != [] && Fresh(StateAt(events, |events| - 1), events[|events| - 1], e)
    requires IsOnline(StateAt(events, |events|).world.online, e.uid)
    ensures Explains(events, e, |events|, |events|)
  {}

  /**
    In every run, every inbox is exactly the log of what happened between its owner's login and the break of
    its push socket or now: in order, nothing lost, nothing twice, nothing made up.
   */
  lemma {:induction false} InboxExactly(events: seq<Server.Event>, j: nat)
    requires j < |After(Start(), events).world.online|
    ensures exists a: nat, b: nat :: Explains(events, After(Start(), events).world.online[j], a, b)
    decreases |events|
  {
    hide Explains, Stays, Next, Caused, IsOnline;
    var n := |events| - 1;
    assert events[..|events|] == events;
    var last := After(Start(), events).world.online[j];
    var s, ev := StateAt(events, n), events[n];
    assert events == events[..n] + [ev];
    AfterAppend(Start(), events[..n], ev);
    RunInvariant(events[..n]);
    NextHeard(s, ev, j);
    LastIsOnline(events, j);
    if Fresh(s, ev, last) {
      JustJoined(events, last);
    } else {
      var i :| 0 <= i < |s.world.online| && Stays(s, ev, s.world.online[i], last);
      InboxExactly(events[..n], i);
      var a: nat, b: nat :| Explains(events[..n], s.world.online[i], a, b);
      var b' := ExplainsNext(events, s.world.online[i], last, a, b);
    }
  }

  lemma LastIsOnline(events: seq<Server.Event>, j: nat)
    requires j < |After(Start(), events).world.online|
    ensures IsOnline(StateAt(events, |events|).world.online, After(Start(), events).world.online[j].uid)
  {
    assert events[..|events|] == events;
    HereIsOnline(After(Start(), events).world.online, j);
  }

  // ----- who said it -----

  predicate SignedBy(n: Notice, me: u32) {
    match n
    case Onli(_, _, _) => false
    case Canc => false
    case _ => n.from == me
  }

  /** What an event makes somebody hear names as its sender the user whose connection asked for it. */
  lemma CausedSigned(s: System, ev: Server.Event, uid: u32, n: Notice)
    requires n in Caused(s, ev, uid)
    ensures
      if ev.Ask? then
        && ev.conn in s.holds && s.holds[ev.conn].Some?
        && (SignedBy(n, s.holds[ev.conn].value) || (n.Canc? && ev.request.FopDone?))
      else n.Onli? && n.uid != uid
  {}

  ghost predicate CausedAt(events: seq<Server.Event>, t: nat, uid: u32, n: Notice) {
    t < |events| && n in Caused(StateAt(events, t), events[t], uid)
  }

  lemma {:induction false} LogFrom(events: seq<Server.Event>, uid: u32, a: nat, b: nat, n: Notice)
    requires a <= b <= |events| && n in Log(events, uid, a, b)
    ensures exists t: nat :: CausedAt(events, t, uid, n)
    decreases b - a
  {
    hide Caused, StateAt;
    if n in Log(events, uid, a, b - 1) {
      LogFrom(events, uid, a, b - 1, n);
    } else {
      assert CausedAt(events, b - 1, uid, n);
    }
  }

  /** At event `t` the user `me` asked for something, on a connection that held their client. */
  ghost predicate Asked(events: seq<Server.Event>, t: nat, me: u32) {
    && t < |events| && events[t].Ask?
    && var holds := StateAt(events, t).holds; events[t].conn in holds && holds[events[t].conn] == Some(me)
  }

  /** No notification in any inbox, in any run, names a sender who did not, while logged in, ask for it. */
  lemma InboxAuthentic(events: seq<Server.Event>, j: nat, n: Notice, me: u32)
    requires j < |After(Start(), events).world.online|
    requires n in After(Start(), events).world.online[j].inbox && SignedBy(n, me)
    ensures exists t: nat :: Asked(events, t, me) && CausedAt(events, t, After(Start(), events).world.online[j].uid, n)
  {
    hide Caused, After, IsOnline, Log;
    InboxExactly(events, j);
    var e := After(Start(), events).world.online[j];
    var a: nat, b: nat :| Explains(events, e, a, b);
    LogFrom(events, e.uid, a, b, n);
    var t: nat :| CausedAt(events, t, e.uid, n);
    CausedSigned(StateAt(events, t), events[t], e.uid, n);
    assert Asked(events, t, me);
  }

  // ----- the size of a pending offer -----

  /** A client that can be written to and has a file offered was told its size, and of no other file since. */
  ghost predicate SizeTold(e: Entry) {
    e.writable && e.slot.Some? ==> forall initial :: LastFileSize(e.inbox, initial) == e.slot.value.size
  }

  predicate NoFile(ns: seq<Notice>) {
    forall i :: 0 <= i < |ns| ==> !ns[i].File?
  }

  lemma {:induction false} LastFileSizeKept(inbox: seq<Notice>, ns: seq<Notice>, initial: u32)
    requires NoFile(ns)
    ensures LastFileSize(inbox + ns, initial) == LastFileSize(inbox, initial)
  {
    if ns == [] {
      assert inbox + ns == inbox;
    } else {
      var front := ns[..|ns| - 1];
      LastFileSizeKept(inbox, front, initial);
      assert (inbox + ns)[..|inbox + ns| - 1] == inbox + front;
    }
  }

  /** A file notification is caused by an offer that fills the slot, and by nothing else. */
  lemma CausedFile(s: System, ev: Server.Event, e: Entry)
    requires SlotOf(s.world.online, e.uid) == e.slot
    ensures
      var ns := Caused(s, ev, e.uid);
      NoFile(ns) || (e.slot.None? && SlotAfter(s, ev, e).Some? && |ns| == 1 && ns[0].File?
        && ns[0].size == SlotAfter(s, ev, e).value.size)
    ensures NoFile(Caused(s, ev, e.uid)) ==> SlotAfter(s, ev, e) == e.slot || SlotAfter(s, ev, e).None?
  {
    hide Alphanumeric, Name40, Count, SlotOf, IsOnline, Index;
    if SlotAfter(s, ev, e) != e.slot && SlotAfter(s, ev, e).Some? {
      assert Caused(s, ev, e.uid)[0].File?;
    }
  }

  lemma SizeToldNext(s: System, ev: Server.Event, i: nat, after: Entry)
    requires Distinct(s.world.online) && i < |s.world.online| && SizeTold(s.world.online[i])
    requires Stays(s, ev, s.world.online[i], after)
    ensures SizeTold(after)
  {
    hide Caused, SlotAfter;
    var e := s.world.online[i];
    var ns := Caused(s, ev, e.uid);
    SlotAt(s.world.online, i);
    CausedFile(s, ev, e);
    if after.writable {
      forall initial: u32
        ensures after.slot.Some? ==> LastFileSize(after.inbox, initial) == after.slot.value.size
      {
        if NoFile(ns) {
          LastFileSizeKept(e.inbox, ns, initial);
        } else {
          assert ns == [ns[0]];
          LastFileSizeNext(e.inbox, Some(ns[0]), initial);
        }
      }
    }
  }

  /** In every run. */
  lemma {:induction false} SizeAlwaysTold(events: seq<Server.Event>, j: nat)
    requires j < |After(Start(), events).world.online|
    ensures SizeTold(After(Start(), events).world.online[j])
    decreases |events|
  {
    hide SizeTold, Stays, Next, Fresh, View, Presence, Offers;
    if events == [] {
    } else {
      var n := |events| - 1;
      var s, ev, last := After(Start(), events[..n]), events[n], After(Start(), events).world.online[j];
      assert events == events[..n] + [ev];
      AfterAppend(Start(), events[..n], ev);
      RunInvariant(events[..n]);
      NextHeard(s, ev, j);
      if Fresh(s, ev, last) {
        FreshSizeTold(s, ev, last);
      } else {
        var i :| 0 <= i < |s.world.online| && Stays(s, ev, s.world.online[i], last);
        SizeAlwaysTold(events[..n], i);
        SizeToldNext(s, ev, i, last);
      }
    }
  }

  lemma FreshSizeTold(s: System, ev: Server.Event, e: Entry)
    requires Fresh(s, ev, e)
    ensures SizeTold(e)
  {}

  // ----- group messages -----

  /**
    After any run, a group message adds itself once to the inbox of each online member other than its sender that
    can be written to, and adds nothing to any other.
   */
  lemma GroupMessageReaches(events: seq<Server.Event>, k: nat, gid: u32, msglen: u32, buffer: seq<byte>, j: nat)
    requires msglen <= 0x10000
    requires var s := After(Start(), events);
      k in s.holds && s.holds[k].Some? && j < |s.world.online|
    ensures
      var s := After(Start(), events);
      var me, e := s.holds[k].value, s.world.online[j];
      var after := After(Start(), events + [Ask(k, GroupMessage(gid, msglen, Some(buffer)))]).world.online;
      && |after| == |s.world.online| && after[j].uid == e.uid
      && after[j].inbox == e.inbox +
         When(e.writable && (gid, e.uid) in s.world.groups && e.uid != me, Gmsg(me, gid, buffer))
  {
    var s, r := After(Start(), events), GroupMessage(gid, msglen, Some(buffer));
    AfterAppend(Start(), events, Ask(k, r));
    hide After, Serve;
    ServeHeard(s.world, s.holds[k].value, r, j);
  }
}
