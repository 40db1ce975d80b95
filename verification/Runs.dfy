/** What holds of the server after every run, whatever its connections do. */
module Runs {
  import opened Bytes
  import opened Push
  import opened Server

  // ----- the list operations and the set of online users -----

  ghost predicate Distinct(online: seq<Entry>) {
    forall i, j :: 0 <= i < j < |online| ==> online[i].uid != online[j].uid
  }

  ghost predicate SameUids(a: seq<Entry>, b: seq<Entry>) {
    |a| == |b| && forall i :: 0 <= i < |a| ==> a[i].uid == b[i].uid
  }

  lemma UidsSame(a: seq<Entry>, b: seq<Entry>)
    requires SameUids(a, b)
    ensures Uids(a) == Uids(b)
    ensures Distinct(a) <==> Distinct(b)
  {}

  lemma OnlineIff(online: seq<Entry>, uid: u32)
    ensures IsOnline(online, uid) <==> uid in Uids(online)
  {}

  lemma UidsAppend(online: seq<Entry>, e: Entry)
    ensures Uids(online + [e]) == Uids(online) + {e.uid}
  {
    var r := online + [e];
    forall u
      ensures u in Uids(r) <==> u in Uids(online) || u == e.uid
    {
      if u in Uids(online) {
        var i :| 0 <= i < |online| && online[i].uid == u;
        assert r[i].uid == u;
      }
      assert r[|online|].uid == e.uid;
    }
  }

  /** Taking an entry out keeps the order of the others and leaves nobody else out. */
  lemma UidsRemove(online: seq<Entry>, uid: u32)
    requires Distinct(online)
    ensures Uids(Remove(online, uid)) == Uids(online) - {uid}
    ensures Distinct(Remove(online, uid))
  {
    var i, r := Index(online, uid), Remove(online, uid);
    if i < |online| {
      forall u
        ensures u in Uids(r) <==> u in Uids(online) && u != uid
      {
        if u in Uids(r) {
          var j :| 0 <= j < |r| && r[j].uid == u;
          assert online[if j < i then j else j + 1].uid == u;
        }
        if u in Uids(online) && u != uid {
          var j :| 0 <= j < |online| && online[j].uid == u;
          assert r[if j < i then j else j - 1].uid == u;
        }
      }
    }
  }

  // ----- what a client makes of its notifications -----

  /** What one notification does to a client's picture of who is online. */
  function Seen(view: set<u32>, n: Notice): set<u32> {
    if !n.Onli? then view else if n.disconnect == 0 then view + {n.uid} else view - {n.uid}
  }

  /** The picture after replaying an inbox over an earlier one. */
  function Replay(base: set<u32>, inbox: seq<Notice>): set<u32> {
    if inbox == [] then base else Seen(Replay(base, inbox[..|inbox| - 1]), inbox[|inbox| - 1])
  }

  function View(e: Entry): set<u32> { Replay(e.atLogin, e.inbox) }

  lemma ToldView(e: Entry, n: Notice)
    ensures View(Told(e, n)) == if e.writable then Seen(View(e), n) else View(e)
  {}

  /** Nobody joined or left, and nobody who can still be written to sees it otherwise. */
  ghost predicate Quiet(a: seq<Entry>, b: seq<Entry>) {
    && SameUids(a, b)
    && forall i :: 0 <= i < |a| ==> View(a[i]) == View(b[i]) && (b[i].writable ==> a[i].writable)
  }

  lemma DeliverQuiet(online: seq<Entry>, audience: set<u32>, n: Notice)
    requires !n.Onli?
    ensures Quiet(online, Deliver(online, audience, n))
  {}

  lemma SetSlotQuiet(online: seq<Entry>, uid: u32, slot: Option<FileRequest>)
    ensures Quiet(online, SetSlot(online, uid, slot))
  {}

  lemma {:induction false} NotifyEachQuiet(online: seq<Entry>, users: seq<u32>, from: u32, n: Notice)
    requires !n.Onli?
    ensures Quiet(online, NotifyEach(online, users, from, n))
    decreases |users|
  {
    if users == [] {
    } else {
      DeliverQuiet(online, {users[0]}, n);
      NotifyEachQuiet(if users[0] == from then online else Deliver(online, {users[0]}, n), users[1..], from, n);
    }
  }

  lemma QuietTrans(a: seq<Entry>, b: seq<Entry>, c: seq<Entry>)
    requires Quiet(a, b) && Quiet(b, c)
    ensures Quiet(a, c)
  {}

  /** No request of a logged-in client changes who is online, or anybody's picture of it. */
  lemma ServeQuiet(w: World, me: u32, r: Request)
    ensures Quiet(w.online, Serve(w, me, r).0.online)
  {
    hide Deliver, SetSlot, NotifyEach, View, AddFriends, Rows, Members, Alphanumeric, Name40, Index, SlotOf;
    match r
    case Message(to, buffer) =>
      if buffer.Some? {
        DeliverQuiet(w.online, {to}, Mesg(me, buffer.value));
      }
    case SendFile(to, size, name) =>
      var offered := SetSlot(w.online, to, Some(FileRequest(me, size, name)));
      SetSlotQuiet(w.online, to, Some(FileRequest(me, size, name)));
      DeliverQuiet(offered, {to}, File(me, size, Name40(name)));
      QuietTrans(w.online, offered, Deliver(offered, {to}, File(me, size, Name40(name))));
    case FopDone(result, uid) =>
      var cleared := SetSlot(w.online, uid, None);
      var told := Deliver(cleared, {uid}, Canc);
      SetSlotQuiet(w.online, uid, None);
      DeliverQuiet(cleared, {uid}, Canc);
      QuietTrans(w.online, cleared, told);
      SetSlotQuiet(w.online, me, None);
      SetSlotQuiet(told, me, None);
      QuietTrans(w.online, told, SetSlot(told, me, None));
    case ChangeName(name, stored) => DeliverQuiet(w.online, Uids(w.online) - {me}, Name(me, name));
    case AddFriend(to) => DeliverQuiet(w.online, {to}, Dawg(me));
    case BeFriend(to) => DeliverQuiet(w.online, {to}, Helo(me));
    case DeleteFriend(to) => DeliverQuiet(w.online, {to}, Died(me));
    case CreateGroup(gid, count, users) =>
      if users.Some? {
        NotifyEachQuiet(w.online, users.value, me, Grup(me, gid));
      }
    case GroupMessage(gid, msglen, buffer) =>
      if buffer.Some? {
        DeliverQuiet(w.online, Members(w.groups, gid) - {me}, Gmsg(me, gid, buffer.value));
      }
  }

  // ----- presence -----

  /** Whoever can be written to sees exactly the others online. */
  ghost predicate Presence(online: seq<Entry>) {
    forall i :: 0 <= i < |online| && online[i].writable ==> View(online[i]) == Uids(online) - {online[i].uid}
  }

  lemma QuietPresence(a: seq<Entry>, b: seq<Entry>)
    requires Quiet(a, b) && Distinct(a) && Presence(a)
    ensures Distinct(b) && Presence(b)
  {}

  lemma JoinedPresence(w: World, uid: u32, ip: u32)
    requires Distinct(w.online) && Presence(w.online) && !IsOnline(w.online, uid)
    ensures Distinct(Joined(w, uid, ip).online) && Presence(Joined(w, uid, ip).online)
    ensures Uids(Joined(w, uid, ip).online) == Uids(w.online) + {uid}
  {
    var e := Entry(uid, ip, None, true, [], Uids(w.online));
    var grown := w.online + [e];
    var r := Joined(w, uid, ip).online;
    OnlineIff(w.online, uid);
    UidsAppend(w.online, e);
    assert SameUids(grown, r);
    UidsSame(grown, r);
    forall i | 0 <= i < |r| && r[i].writable
      ensures View(r[i]) == Uids(r) - {r[i].uid}
    {
      if i < |w.online| {
        assert grown[i] == w.online[i] && w.online[i].uid in Uids(w.online);
        ToldView(w.online[i], Onli(uid, 0, ip));
      }
    }
  }

  /** Every entry that is left is some other entry that was there. */
  lemma RemoveFrom(online: seq<Entry>, uid: u32, j: nat) returns (m: nat)
    requires Distinct(online) && IsOnline(online, uid) && j < |Remove(online, uid)|
    ensures m < |online| && Remove(online, uid)[j] == online[m] && online[m].uid != uid && online[m].uid in Uids(online)
  {
    m := if j < Index(online, uid) then j else j + 1;
    assert online[m].uid in Uids(online);
  }

  lemma LeftPresence(w: World, uid: u32)
    requires Distinct(w.online) && Presence(w.online)
    ensures Distinct(Left(w, uid).online) && Presence(Left(w, uid).online)
    ensures Uids(Left(w, uid).online) == Uids(w.online) - {uid}
  {
    hide View, Remove, Distinct;
    OnlineIff(w.online, uid);
    var i := Index(w.online, uid);
    if i < |w.online| {
      var n := Onli(uid, 1, w.online[i].ip);
      var told := Deliver(w.online, Uids(w.online) - {uid}, n);
      var r := Remove(told, uid);
      UidsSame(w.online, told);
      UidsRemove(told, uid);
      OnlineIff(told, uid);
      forall j | 0 <= j < |r| && r[j].writable
        ensures View(r[j]) == Uids(r) - {r[j].uid}
      {
        var m := RemoveFrom(told, uid, j);
        assert told[m] == Told(w.online[m], n);
        ToldView(w.online[m], n);
      }
    }
  }

  // ----- file offers -----

  /** The requests now waiting in somebody's slot. */
  function Pending(online: seq<Entry>): multiset<FileRequest> {
    if online == [] then multiset{} else Held(online[0].slot) + Pending(online[1..])
  }

  /** Every accepted request is either still pending or has been released, once. */
  ghost predicate Ledger(w: World) { w.accepted == Pending(w.online) + w.released }

  ghost predicate SmallOffers(online: seq<Entry>) {
    forall i :: 0 <= i < |online| && online[i].slot.Some? ==> online[i].slot.value.size <= MAX_FILE
  }

  ghost predicate SameSlots(a: seq<Entry>, b: seq<Entry>) {
    |a| == |b| && forall i :: 0 <= i < |a| ==> a[i].slot == b[i].slot
  }

  lemma {:induction false} PendingSame(a: seq<Entry>, b: seq<Entry>)
    requires SameSlots(a, b)
    ensures Pending(a) == Pending(b)
  {
    if a == [] {
    } else {
      PendingSame(a[1..], b[1..]);
    }
  }

  lemma SplitAround(online: seq<Entry>, i: nat)
    requires 0 < i < |online|
    ensures online[..i] + online[i + 1..] == [online[0]] + (online[1..][..i - 1] + online[1..][i..])
  {}

  lemma {:induction false} PendingTaken(online: seq<Entry>, i: nat)
    requires i < |online|
    ensures Pending(online) == Pending(online[..i] + online[i + 1..]) + Held(online[i].slot)
  {
    if i == 0 {
      assert online[..0] + online[1..] == online[1..];
    } else {
      var tail := online[1..];
      var rest := tail[..i - 1] + tail[i..];
      PendingTaken(tail, i - 1);
      SplitAround(online, i);
      assert ([online[0]] + rest)[1..] == rest;
    }
  }

  lemma PendingReplaced(online: seq<Entry>, i: nat, e: Entry)
    requires i < |online|
    ensures Pending(online[i := e]) + Held(online[i].slot) == Pending(online) + Held(e.slot)
  {
    PendingTaken(online, i);
    PendingTaken(online[i := e], i);
    assert online[i := e][..i] == online[..i] && online[i := e][i + 1..] == online[i + 1..];
  }

  lemma {:induction false} PendingAppend(online: seq<Entry>, e: Entry)
    ensures Pending(online + [e]) == Pending(online) + Held(e.slot)
  {
    PendingTaken(online + [e], |online|);
    assert (online + [e])[..|online|] + (online + [e])[|online| + 1..] == online;
  }

  /** Setting a slot moves exactly its old content out of the pending requests and the new one in. */
  lemma PendingSetSlot(online: seq<Entry>, uid: u32, slot: Option<FileRequest>)
    requires Distinct(online)
    ensures IsOnline(online, uid) || slot.None? ==>
      Pending(SetSlot(online, uid, slot)) + Held(SlotOf(online, uid)) == Pending(online) + Held(slot)
    ensures !IsOnline(online, uid) ==> SetSlot(online, uid, slot) == online
  {
    hide Pending;
    var i := Index(online, uid);
    if i < |online| {
      assert SetSlot(online, uid, slot) == online[i := online[i].(slot := slot)];
      PendingReplaced(online, i, online[i].(slot := slot));
    } else {
      assert SetSlot(online, uid, slot) == online;
    }
  }

  /** Pushing a notification leaves every slot and every user where it was. */
  lemma DeliverSlots(online: seq<Entry>, audience: set<u32>, n: Notice)
    ensures SameSlots(online, Deliver(online, audience, n)) && SameUids(online, Deliver(online, audience, n))
    ensures Pending(Deliver(online, audience, n)) == Pending(online)
  {
    assert SameSlots(online, Deliver(online, audience, n)) by { hide Pending; }
    PendingSame(online, Deliver(online, audience, n));
  }

  lemma {:induction false} NotifyEachSlots(online: seq<Entry>, users: seq<u32>, from: u32, n: Notice)
    ensures SameSlots(online, NotifyEach(online, users, from, n))
    decreases |users|
  {
    if users == [] {
    } else {
      NotifyEachSlots(if users[0] == from then online else Deliver(online, {users[0]}, n), users[1..], from, n);
    }
  }

  lemma SetSlotUids(online: seq<Entry>, uid: u32, slot: Option<FileRequest>)
    ensures SameUids(online, SetSlot(online, uid, slot))
  {}

  ghost predicate Offers(w: World) { Ledger(w) && SmallOffers(w.online) }

  lemma SmallSame(a: seq<Entry>, b: seq<Entry>)
    requires SameSlots(a, b) && SmallOffers(a)
    ensures SmallOffers(b)
  {}

  lemma SmallSet(online: seq<Entry>, uid: u32, slot: Option<FileRequest>)
    requires SmallOffers(online) && (slot.Some? ==> slot.value.size <= MAX_FILE)
    ensures SmallOffers(SetSlot(online, uid, slot))
  {}

  lemma PushOffers(w: World, audience: set<u32>, n: Notice)
    requires Offers(w)
    ensures Offers(w.(online := Deliver(w.online, audience, n)))
  {
    hide Deliver, Pending;
    DeliverSlots(w.online, audience, n);
    SmallSame(w.online, Deliver(w.online, audience, n));
  }

  lemma ClearedOffers(w: World, uid: u32)
    requires Distinct(w.online) && Offers(w)
    ensures Distinct(Cleared(w, uid).online) && Offers(Cleared(w, uid))
  {
    hide SetSlot, Pending, Index;
    PendingSetSlot(w.online, uid, None);
    assert Pending(w.online) + Held(None) == Pending(w.online);
    SmallSet(w.online, uid, None);
    SetSlotUids(w.online, uid, None);
    UidsSame(w.online, SetSlot(w.online, uid, None));
    SlotOfOnline(w.online, uid);
    MovedOut(Pending(SetSlot(w.online, uid, None)), Held(SlotOf(w.online, uid)), Pending(w.online), w.released);
  }

  lemma MovedOut(left: multiset<FileRequest>, out: multiset<FileRequest>, pending: multiset<FileRequest>,
                 released: multiset<FileRequest>)
    requires left + out == pending
    ensures left + (released + out) == pending + released
  {}

  lemma MovedIn(now: multiset<FileRequest>, before: multiset<FileRequest>, f: FileRequest,
                released: multiset<FileRequest>)
    requires now + Held(None) == before + Held(Some(f))
    ensures now + released == (before + released) + multiset{f}
  {
    assert now + multiset{} == now;
  }

  lemma SlotOfOnline(online: seq<Entry>, uid: u32)
    ensures SlotOf(online, uid).Some? ==> IsOnline(online, uid)
  {}

  lemma OfferedOffers(w: World, to: u32, f: FileRequest)
    requires Offers(w) && Distinct(w.online) && IsOnline(w.online, to) && SlotOf(w.online, to).None?
      && f.size <= MAX_FILE
    ensures Offers(Offered(w, to, f))
  {
    hide SetSlot, Pending, Index, SlotOf;
    PendingSetSlot(w.online, to, Some(f));
    SmallSet(w.online, to, Some(f));
    MovedIn(Pending(SetSlot(w.online, to, Some(f))), Pending(w.online), f, w.released);
  }

  lemma DoneOffers(w: World, me: u32, result: u32, uid: u32)
    requires Distinct(w.online) && Offers(w)
    ensures Offers(Serve(w, me, FopDone(result, uid)).0)
  {
    hide Deliver, SetSlot, SlotOf, Index, Offers, Distinct;
    if result == CANCEL && IsOnline(w.online, uid) {
      var cleared := Cleared(w, uid);
      ClearedOffers(w, uid);
      PushOffers(cleared, {uid}, Canc);
      DeliverSlots(cleared.online, {uid}, Canc);
      UidsSame(cleared.online, Push1(cleared, uid, Canc).online);
      ClearedOffers(Push1(cleared, uid, Canc), me);
    } else {
      ClearedOffers(w, me);
    }
  }

  lemma ServeOffers(w: World, me: u32, r: Request)
    requires Distinct(w.online) && Offers(w)
    ensures Offers(Serve(w, me, r).0)
  {
    hide Deliver, SetSlot, NotifyEach, AddFriends, Rows, Members, Alphanumeric, Name40, Index, SlotOf, Pending;
    match r
    case SendFile(to, size, name) =>
      if IsOnline(w.online, to) && size <= MAX_FILE && SlotOf(w.online, to).None? {
        OfferedOffers(w, to, FileRequest(me, size, name));
        PushOffers(Offered(w, to, FileRequest(me, size, name)), {to}, File(me, size, Name40(name)));
      }
    case FopDone(result, uid) => DoneOffers(w, me, result, uid);
    case CreateGroup(gid, count, users) =>
      if users.Some? {
        var told := NotifyEach(w.online, users.value, me, Grup(me, gid));
        NotifyEachSlots(w.online, users.value, me, Grup(me, gid));
        PendingSame(w.online, told);
        SmallSame(w.online, told);
      }
    case Message(to, buffer) => if buffer.Some? { PushOffers(w, {to}, Mesg(me, buffer.value)); }
    case ChangeName(name, stored) => PushOffers(w, Uids(w.online) - {me}, Name(me, name));
    case AddFriend(to) => PushOffers(w, {to}, Dawg(me));
    case BeFriend(to) => PushOffers(w, {to}, Helo(me));
    case DeleteFriend(to) => PushOffers(w, {to}, Died(me));
    case GroupMessage(gid, msglen, buffer) =>
      if buffer.Some? { PushOffers(w, Members(w.groups, gid) - {me}, Gmsg(me, gid, buffer.value)); }
  }

  lemma SlotOfDelivered(online: seq<Entry>, audience: set<u32>, n: Notice, uid: u32)
    ensures SlotOf(Deliver(online, audience, n), uid) == SlotOf(online, uid)
  {
    IndexSame(online, Deliver(online, audience, n), uid);
  }

  lemma SlotOfSet(online: seq<Entry>, to: u32, slot: Option<FileRequest>, uid: u32)
    ensures SlotOf(SetSlot(online, to, slot), uid)
      == if uid == to && IsOnline(online, uid) then slot else SlotOf(online, uid)
  {
    IndexSame(online, SetSlot(online, to, slot), uid);
  }

  /**
    What every request does to every slot: an offer that is small enough fills the empty slot of its target
    with the sender's own uid; FOPDONE empties the caller's slot and, with the cancel code, the named
    user's; nothing else touches a slot.
   */
  lemma ServeSlots(w: World, me: u32, r: Request, uid: u32)
    requires IsOnline(w.online, uid)
    ensures SlotOf(Serve(w, me, r).0.online, uid) ==
      if r.SendFile? && r.to == uid && r.size <= MAX_FILE && SlotOf(w.online, uid).None?
        then Some(FileRequest(me, r.size, r.name))
      else if r.FopDone? && (uid == me || (r.result == CANCEL && uid == r.uid)) then None
      else SlotOf(w.online, uid)
  {
    hide Deliver, SetSlot, NotifyEach, AddFriends, Rows, Members, Alphanumeric, Name40, Index, SlotOf;
    match r
    case SendFile(to, size, name) =>
      var f := FileRequest(me, size, name);
      SlotOfSet(w.online, to, Some(f), uid);
      SlotOfDelivered(SetSlot(w.online, to, Some(f)), {to}, File(me, size, Name40(name)), uid);
    case FopDone(result, target) =>
      var cleared := SetSlot(w.online, target, None);
      var told := Deliver(cleared, {target}, Canc);
      SlotOfSet(w.online, target, None, uid);
      SlotOfDelivered(cleared, {target}, Canc, uid);
      SlotOfSet(w.online, me, None, uid);
      SlotOfSet(told, me, None, uid);
      IndexSameSet(w.online, target, uid);
      IndexSameDelivered(cleared, {target}, Canc, uid);
    case Message(to, buffer) => if buffer.Some? { SlotOfDelivered(w.online, {to}, Mesg(me, buffer.value), uid); }
    case ChangeName(name, stored) => SlotOfDelivered(w.online, Uids(w.online) - {me}, Name(me, name), uid);
    case AddFriend(to) => SlotOfDelivered(w.online, {to}, Dawg(me), uid);
    case BeFriend(to) => SlotOfDelivered(w.online, {to}, Helo(me), uid);
    case DeleteFriend(to) => SlotOfDelivered(w.online, {to}, Died(me), uid);
    case CreateGroup(gid, count, users) =>
      if users.Some? { SlotOfNotified(w.online, users.value, me, Grup(me, gid), uid); }
    case GroupMessage(gid, msglen, buffer) =>
      if buffer.Some? { SlotOfDelivered(w.online, Members(w.groups, gid) - {me}, Gmsg(me, gid, buffer.value), uid); }
  }

  lemma IndexSameSet(online: seq<Entry>, to: u32, uid: u32)
    ensures IsOnline(SetSlot(online, to, None), uid) <==> IsOnline(online, uid)
  {
    IndexSame(online, SetSlot(online, to, None), uid);
  }

  lemma IndexSameDelivered(online: seq<Entry>, audience: set<u32>, n: Notice, uid: u32)
    ensures IsOnline(Deliver(online, audience, n), uid) <==> IsOnline(online, uid)
  {
    IndexSame(online, Deliver(online, audience, n), uid);
  }

  lemma {:induction false} SlotOfNotified(online: seq<Entry>, users: seq<u32>, from: u32, n: Notice, uid: u32)
    ensures SlotOf(NotifyEach(online, users, from, n), uid) == SlotOf(online, uid)
    decreases |users|
  {
    hide Deliver, SlotOf;
    if users == [] {
    } else {
      SlotOfDelivered(online, {users[0]}, n, uid);
      SlotOfNotified(if users[0] == from then online else Deliver(online, {users[0]}, n), users[1..], from, n, uid);
    }
  }

  lemma JoinedOffers(w: World, uid: u32, ip: u32)
    requires Offers(w)
    ensures Offers(Joined(w, uid, ip))
  {
    hide Deliver, Pending;
    var e := Entry(uid, ip, None, true, [], Uids(w.online));
    PendingAppend(w.online, e);
    PushOffers(w.(online := w.online + [e]), Uids(w.online + [e]) - {uid}, Onli(uid, 0, ip));
  }

  lemma LeftOffers(w: World, uid: u32)
    requires Offers(w)
    ensures Offers(Left(w, uid))
  {
    hide Deliver, Pending;
    var i := Index(w.online, uid);
    if i < |w.online| {
      var n := Onli(uid, 1, w.online[i].ip);
      var told := PushOthers(w, uid, n);
      PushOffers(w, Uids(w.online) - {uid}, n);
      DeliverSlots(w.online, Uids(w.online) - {uid}, n);
      IndexSame(w.online, told.online, uid);
      PendingTaken(told.online, i);
    }
  }

  lemma IndexSame(a: seq<Entry>, b: seq<Entry>, uid: u32)
    requires SameUids(a, b)
    ensures Index(a, uid) == Index(b, uid)
  {}

  // ----- friends -----

  ghost predicate Symmetric(friends: set<(u32, u32)>) {
    forall a, b :: (a, b) in friends ==> (b, a) in friends
  }

  /**
    Befriending leaves the pair, both ways, in the table, and reports success just when it was new and of two
    users.
   */
  lemma AddFriendsEffect(friends: set<(u32, u32)>, a: u32, b: u32)
    requires Symmetric(friends)
    ensures AddFriends(friends, a, b).0 == friends + {(a, b), (b, a)}
    ensures AddFriends(friends, a, b).1 == 0 <==> a != b && (a, b) !in friends
  {}

  lemma ServeSymmetric(w: World, me: u32, r: Request)
    requires Symmetric(w.friends)
    ensures Symmetric(Serve(w, me, r).0.friends)
  {}

  // ----- connections and the clients they hold -----

  ghost predicate Holding(s: System) {
    && (forall k :: k in s.holds && s.holds[k].Some? ==> s.holds[k].value in Uids(s.world.online))
    && (forall j, k :: j in s.holds && k in s.holds && j != k && s.holds[j].Some? ==> s.holds[j] != s.holds[k])
  }

  ghost predicate Invariant(s: System) {
    && Distinct(s.world.online)
    && Presence(s.world.online)
    && Offers(s.world)
    && Symmetric(s.world.friends)
    && Holding(s)
  }

  lemma BreakQuiet(online: seq<Entry>, uid: u32)
    ensures Quiet(online, Break(online, uid)) && SameSlots(online, Break(online, uid))
    ensures Pending(Break(online, uid)) == Pending(online)
  {
    PendingSame(online, Break(online, uid));
  }

  lemma NextInvariant(s: System, ev: Event)
    requires Invariant(s)
    ensures Invariant(Next(s, ev))
  {
    hide Serve, Deliver, Remove, Break, Index, Presence, SmallOffers, Pending, Symmetric, Distinct, Uids, View;
    var w := s.world;
    match ev
    case Connect(_) =>
    case Register(_) =>
    case Login(k, uid, passed, connected, ip) =>
      OnlineIff(w.online, uid);
      if !IsOnline(w.online, uid) {
        JoinedPresence(w, uid, ip);
        JoinedOffers(w, uid, ip);
      }
    case Ask(k, request) =>
      if k in s.holds && s.holds[k].Some? {
        var me := s.holds[k].value;
        ServeQuiet(w, me, request);
        QuietPresence(w.online, Serve(w, me, request).0.online);
        UidsSame(w.online, Serve(w, me, request).0.online);
        ServeOffers(w, me, request);
        ServeSymmetric(w, me, request);
      }
    case Close(k) =>
      if k in s.holds && s.holds[k].Some? {
        LeftPresence(w, s.holds[k].value);
        LeftOffers(w, s.holds[k].value);
      }
    case SocketBreaks(uid) =>
      BreakQuiet(w.online, uid);
      QuietPresence(w.online, Break(w.online, uid));
      SmallSame(w.online, Break(w.online, uid));
      UidsSame(w.online, Break(w.online, uid));
  }

  lemma {:induction false} AfterInvariant(s: System, events: seq<Event>)
    requires Invariant(s)
    ensures Invariant(After(s, events))
    decreases |events|
  {
    if events == [] {
    } else {
      NextInvariant(s, events[0]);
      AfterInvariant(Next(s, events[0]), events[1..]);
    }
  }

  /** Every run from the empty server keeps the invariant. */
  lemma RunInvariant(events: seq<Event>)
    ensures Invariant(After(Start(), events))
  {
    AfterInvariant(Start(), events);
  }

  /** After every run no user is online twice, and every accepted offer is pending with somebody or was released. */
  lemma RunKeeps(events: seq<Event>)
    ensures
      var w := After(Start(), events).world;
      && (forall i, j :: 0 <= i < j < |w.online| ==> w.online[i].uid != w.online[j].uid)
      && w.accepted == Pending(w.online) + w.released
      && (forall i :: 0 <= i < |w.online| && w.online[i].slot.Some? ==> w.online[i].slot.value.size <= MAX_FILE)
  {
    RunInvariant(events);
  }

  /** So after every run the friends queried for two users name each other or do not. */
  lemma FriendsMutual(events: seq<Event>, a: u32, b: u32)
    ensures var friends := After(Start(), events).world.friends;
      b in FriendsOf(friends, a) <==> a in FriendsOf(friends, b)
  {
    RunInvariant(events);
  }

  // ----- clients nobody holds -----

  function HeldUids(s: System): set<u32> {
    set k | k in s.holds && s.holds[k].Some? :: s.holds[k].value
  }

  /** Online users whose connection no longer knows them: nothing will ever disconnect these. */
  function Orphans(s: System): set<u32> { Uids(s.world.online) - HeldUids(s) }

  /**
    What one event leaves behind: the client a connection held when another of its logins got as far as the
    online list.
   */
  function Abandons(s: System, ev: Event): set<u32> {
    if ev.Login? && ev.conn in s.holds && s.holds[ev.conn].Some? && ev.passed && ev.connected
      then {s.holds[ev.conn].value} else {}
  }

  function Abandoned(s: System, events: seq<Event>): set<u32>
    decreases |events|
  {
    if events == [] then {} else Abandons(s, events[0]) + Abandoned(Next(s, events[0]), events[1..])
  }

  lemma HeldRebound(s: System, k: nat, held: Option<u32>)
    requires Holding(s)
    ensures HeldUids(s.(holds := s.holds[k := held])) ==
      HeldUids(s) - (if k in s.holds && s.holds[k].Some? then {s.holds[k].value} else {}) +
        (if held.Some? then {held.value} else {})
  {
    var r := s.(holds := s.holds[k := held]);
    forall u
      ensures u in HeldUids(r) <==> (u in HeldUids(s) && !(k in s.holds && s.holds[k] == Some(u))) || held == Some(u)
    {
      if u in HeldUids(s) && !(k in s.holds && s.holds[k] == Some(u)) {
        var j :| j in s.holds && s.holds[j] == Some(u);
        assert j in r.holds && r.holds[j] == Some(u);
      }
      if held == Some(u) {
        assert k in r.holds && r.holds[k] == Some(u);
      }
      if u in HeldUids(r) {
        var j :| j in r.holds && r.holds[j] == Some(u);
        if j != k {
          assert j in s.holds && s.holds[j] == Some(u);
        }
      }
    }
  }

  lemma HeldDropped(s: System, k: nat)
    requires Holding(s) && k in s.holds
    ensures HeldUids(s.(holds := s.holds - {k})) == HeldUids(s) - (if s.holds[k].Some? then {s.holds[k].value} else {})
  {
    var r := s.(holds := s.holds - {k});
    forall u
      ensures u in HeldUids(r) <==> u in HeldUids(s) && s.holds[k] != Some(u)
    {
      if u in HeldUids(s) && s.holds[k] != Some(u) {
        var j :| j in s.holds && s.holds[j] == Some(u);
        assert j in r.holds && r.holds[j] == Some(u);
      }
      if u in HeldUids(r) {
        var j :| j in r.holds && r.holds[j] == Some(u);
        assert j in s.holds && s.holds[j] == Some(u);
      }
    }
  }

  lemma NextOrphans(s: System, ev: Event)
    requires Invariant(s)
    ensures Orphans(Next(s, ev)) == Orphans(s) + Abandons(s, ev)
  {
    var w := s.world;
    match ev
    case Connect(k) => HeldRebound(s, k, None);
    case Register(_) =>
    case Login(k, uid, passed, connected, ip) =>
      OnlineIff(w.online, uid);
      if k in s.holds && passed && connected {
        if IsOnline(w.online, uid) {
          HeldRebound(s, k, None);
        } else {
          HeldRebound(s, k, Some(uid));
          JoinedPresence(w, uid, ip);
        }
      }
    case Ask(k, request) =>
      if k in s.holds && s.holds[k].Some? {
        ServeQuiet(w, s.holds[k].value, request);
        UidsSame(w.online, Serve(w, s.holds[k].value, request).0.online);
      }
    case Close(k) =>
      if k in s.holds {
        HeldDropped(s, k);
        if s.holds[k].Some? {
          LeftPresence(w, s.holds[k].value);
        }
      }
    case SocketBreaks(uid) =>
      BreakQuiet(w.online, uid);
      UidsSame(w.online, Break(w.online, uid));
  }

  lemma {:induction false} AfterOrphans(s: System, events: seq<Event>)
    requires Invariant(s)
    ensures Orphans(After(s, events)) == Orphans(s) + Abandoned(s, events)
    decreases |events|
  {
    if events == [] {
    } else {
      NextInvariant(s, events[0]);
      NextOrphans(s, events[0]);
      AfterOrphans(Next(s, events[0]), events[1..]);
    }
  }

  /**
    The users online whom no connection can take down again are exactly those some connection was holding
    when it logged in a second time; without a second login everybody online belongs to a connection.
   */
  lemma OrphansExactly(events: seq<Event>)
    ensures Orphans(After(Start(), events)) == Abandoned(Start(), events)
  {
    AfterOrphans(Start(), events);
  }
}
