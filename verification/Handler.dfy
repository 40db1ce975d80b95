/** `in_handler` and `protocol.c`: a connection's requests, carried out on the shared list and the database. */
module Handler {
  import opened Bytes
  import opened Push
  import opened Server
  import opened Online
  import opened Fanout
  import opened Database

  class ChatServer {
    const list: OnlineList
    const db: Tables
    ghost var accepted: multiset<FileRequest>
    ghost var released: multiset<FileRequest>

    ghost predicate Valid()
      reads list, list.nodes
    {
      list.Valid()
    }

    ghost function World(): World
      reads this, list, list.nodes, db
    {
      Server.World(list.View(), db.friends, db.groups, db.accounts, accepted, released)
    }

    constructor ()
      ensures Valid() && fresh(list) && fresh(db) && list.nodes == []
      ensures World() == Start().world
    {
      list := new OnlineList();
      db := new Tables();
      accepted, released := multiset{}, multiset{};
    }

    lemma EntryHere(c: Client)
      requires Valid() && c in list.nodes
      ensures IsOnline(list.View(), c.uid) && list.View()[Index(list.View(), c.uid)] == c.Entry()
      ensures SlotOf(list.View(), c.uid) == c.freq && Writable(list.View(), c.uid) == c.writable
    {
      var i :| 0 <= i < |list.nodes| && list.nodes[i] == c;
      list.IndexIs(c.uid, i);
    }

    // ----- LOGIN and the end of a connection -----

    /**
      The LOGIN branch of `in_handler`: the client the connection holds afterwards, which replaces whatever it
      held before.
     */
    method Login(held: Client?, uid: u32, passed: bool, connected: bool, ip: u32) returns (client: Client?, result: int)
      requires Valid()
      modifies list, list.nodes
      ensures Valid()
      ensures !passed || !connected ==>
        client == held && result == -1 && World() == old(World()) && list.nodes == old(list.nodes)
      ensures passed && connected && IsOnline(old(list.View()), uid) ==>
        client == null && result == -1 && World() == old(World()) && list.nodes == old(list.nodes)
      ensures passed && connected && !IsOnline(old(list.View()), uid) ==>
        && client != null && fresh(client) && client.uid == uid && result == 0
        && list.nodes == old(list.nodes) + [client]
        && World() == Joined(old(World()), uid, ip)
    {
      hide OnlineList.Valid, OnlineList.View, Client.Printed, Client.Entry, Deliver, Index;
      if !passed || !connected {
        return held, -1;
      }
      client := list.Add(uid, ip);
      if client == null {
        return null, -1;
      }
      list.NotifyAllLogin(client, 0);
      return client, 0;
    }

    /** What every exit of `in_handler` does for a connection that holds a client. */
    method Leave(client: Client)
      requires Valid() && client in list.nodes
      modifies this, list, list.nodes
      ensures Valid() && client !in list.nodes
      ensures forall x :: x in old(list.nodes) <==> x in list.nodes || x == client
      ensures World() == Left(old(World()), client.uid)
    {
      hide OnlineList.Valid, OnlineList.View, Client.Printed, Deliver, Remove;
      EntryHere(client);
      released := released + Held(client.freq);
      list.NotifyAllLogin(client, 1);
      var result := list.Disconnect(client);
    }

    // ----- requests -----

    /** `login_RemoveFileReq`, with the request it frees. */
    method Release(target: Client)
      requires Valid() && target in list.nodes
      modifies this`released, target`freq
      ensures Valid()
      ensures World() == Cleared(old(World()), target.uid)
    {
      EntryHere(target);
      released := released + Held(target.freq);
      list.RemoveFileReq(target);
    }

    /** `protocol_Message` once the body has been read into memory. */
    method Message(me: Client, to: u32, buffer: Option<seq<byte>>) returns (result: int)
      requires Valid() && me in list.nodes && (buffer.Some? ==> |buffer.value| < WORD)
      modifies list.nodes
      ensures Valid() && (World(), result) == Serve(old(World()), me.uid, Request.Message(to, buffer))
      ensures forall c :: c in list.nodes ==>
        c.outbox == old(c.outbox) +
          (if c.uid == to && buffer.Some? && c.writable then Packets(Mesg(me.uid, buffer.value)) else [])
    {
      hide OnlineList.Valid, OnlineList.View, Client.Printed, Client.Entry, Deliver, Index, Writable;
      var target := list.Find(to);
      if target == null || buffer.None? {
        return -1;
      }
      list.OnlyOne(target);
      EntryHere(target);
      result := list.NotifyOne(target, MESG, me.uid, |buffer.value|, Some(buffer.value), Mesg(me.uid, buffer.value));
    }

    /** `protocol_SendFile` */
    method SendFile(me: Client, to: u32, size: u32, name: seq<byte>) returns (result: int)
      requires Valid() && me in list.nodes
      modifies this`accepted, list.nodes
      ensures Valid() && (World(), result) == Serve(old(World()), me.uid, Request.SendFile(to, size, name))
    {
      hide OnlineList.Valid, OnlineList.View, Client.Printed, Client.Entry, Deliver, SetSlot, Index, SlotOf, Writable;
      var target := list.Find(to);
      if target == null {
        return -1;
      }
      if size > MAX_FILE {
        return -1;
      }
      var freq := FileRequest(me.uid, size, name);
      EntryHere(target);
      result := list.AddFileReq(target, freq);
      if result < 0 {
        return -1;
      }
      accepted := accepted + multiset{freq};
      EntryHere(target);
      result := list.NotifyOne(target, FILE, me.uid, 44, Some(Le(size, 4) + Name40(name)),
        File(me.uid, size, Name40(name)));
    }

    /** `protocol_FopDone`: with the cancel code, the named user's offer is released and that user told. */
    method Cancel(result: u32, uid: u32)
      requires Valid()
      modifies this`released, list.nodes
      ensures Valid()
      ensures World() ==
        if result == CANCEL && IsOnline(old(list.View()), uid)
        then Push1(Cleared(old(World()), uid), uid, Canc) else old(World())
    {
      hide OnlineList.Valid, OnlineList.View, Client.Printed, Client.Entry, Deliver, SetSlot, Index, SlotOf;
      if result == CANCEL {
        var target := list.Find(uid);
        if target != null {
          Release(target);
          var w := list.NotifyOne(target, CANC, BROADCAST, 0, None, Canc);
        }
      }
    }

    /** The FOPDONE branch: after that the caller's own slot is released. */
    method FopDone(me: Client, result: u32, uid: u32) returns (code: int)
      requires Valid() && me in list.nodes
      modifies this`released, list.nodes
      ensures Valid() && (World(), code) == Serve(old(World()), me.uid, Request.FopDone(result, uid))
    {
      hide OnlineList.Valid, OnlineList.View, Client.Printed, Client.Entry, Deliver, SetSlot, Index, SlotOf;
      Cancel(result, uid);
      Release(me);
      return result;
    }

    /** `protocol_ChangeName` and, on success, `login_NotifyAllChangeName`. */
    method ChangeName(me: Client, name: seq<byte>, stored: bool) returns (result: int)
      requires Valid() && me in list.nodes
      modifies list.nodes
      ensures Valid() && (World(), result) == Serve(old(World()), me.uid, Request.ChangeName(name, stored))
    {
      if |name| > 25 || !Alphanumeric(name) || !stored {
        return -1;
      }
      list.NotifyAll(me, NAME, me.uid, |name|, name, Name(me.uid, name));
      return 0;
    }

    /** `protocol_AddFriend` */
    method AddFriend(me: Client, to: u32) returns (result: int)
      requires Valid() && me in list.nodes
      modifies list.nodes
      ensures Valid() && (World(), result) == Serve(old(World()), me.uid, Request.AddFriend(to))
    {
      hide OnlineList.Valid, OnlineList.View, Client.Printed, Client.Entry, Deliver, Index, Writable;
      var target := list.Find(to);
      if target == null {
        return -1;
      }
      EntryHere(target);
      result := list.NotifyOne(target, DAWG, me.uid, 0, None, Dawg(me.uid));
    }

    /** `protocol_BeFriend` */
    method BeFriend(me: Client, to: u32) returns (result: int)
      requires Valid() && me in list.nodes
      modifies list.nodes, db
      ensures Valid() && (World(), result) == Serve(old(World()), me.uid, Request.BeFriend(to))
    {
      hide OnlineList.Valid, OnlineList.View, Client.Printed, Client.Entry, Deliver, Index, Writable;
      var target := list.Find(to);
      if target == null {
        return -1;
      }
      result := db.AddFriends(me.uid, to);
      if result < 0 {
        return -1;
      }
      result := list.NotifyOne(target, HELO, me.uid, 0, None, Helo(me.uid));
      return 0;
    }

    /** `protocol_DeleteFriend` */
    method DeleteFriend(me: Client, to: u32) returns (result: int)
      requires Valid() && me in list.nodes
      modifies list.nodes, db
      ensures Valid() && (World(), result) == Serve(old(World()), me.uid, Request.DeleteFriend(to))
    {
      db.DeleteFriend(me.uid, to);
      list.Notify(me.uid, to, DIED, [], Died(me.uid));
      return 0;
    }

    /** The loop of `protocol_CreateGroup` and `protocol_GroupMessage`. */
    method NotifyUsers(me: Client, users: seq<u32>, magic: u32, payload: seq<byte>, ghost n: Notice)
      requires Valid() && WellFormed(n) && 0 < |payload| < WORD
      requires Packets(n) == [UserMsg(magic, me.uid, |payload|), payload]
      modifies list.nodes
      ensures Valid() && list.View() == NotifyEach(old(list.View()), users, me.uid, n)
    {
      var i := 0;
      while i < |users|
        invariant 0 <= i <= |users| && Valid() && list.nodes == old(list.nodes)
        invariant NotifyEach(old(list.View()), users, me.uid, n) == NotifyEach(list.View(), users[i..], me.uid, n)
      {
        assert users[i..][0] == users[i] && users[i..][1..] == users[i + 1..];
        if me.uid != users[i] {
          list.Notify(me.uid, users[i], magic, payload, n);
        }
        i := i + 1;
      }
    }

    /** `protocol_CreateGroup` */
    method CreateGroup(me: Client, gid: u32, count: u32, users: Option<seq<u32>>) returns (result: int)
      requires Valid() && me in list.nodes
      modifies list.nodes, db
      ensures Valid() && (World(), result) == Serve(old(World()), me.uid, Request.CreateGroup(gid, count, users))
    {
      if count > 10 || users.None? {
        return -1;
      }
      db.CreateGroup(gid, users.value);
      NotifyUsers(me, users.value, GRUP, Le(gid, 4), Grup(me.uid, gid));
      return 0;
    }

    /** What a delivered notification means for a socket whose packets are those of its inbox. */
    static lemma SocketTold(before: Entry, box: seq<seq<byte>>, audience: set<u32>, n: Notice, after: Entry,
                         box': seq<seq<byte>>)
      requires AllWellFormed(before.inbox) && box == PacketsOf(before.inbox) && WellFormed(n)
      requires AllWellFormed(after.inbox) && box' == PacketsOf(after.inbox)
      requires after == if before.uid in audience then Told(before, n) else before
      ensures box' == box + (if before.writable && before.uid in audience then Packets(n) else [])
    {
      PacketsOfNext(before.inbox, n);
    }

    static lemma DeliverAt(online: seq<Entry>, audience: set<u32>, n: Notice, i: nat)
      requires i < |online|
      ensures Deliver(online, audience, n)[i] == if online[i].uid in audience then Told(online[i], n) else online[i]
    {}

    /**
      That loop over rows without repeats: each socket that works and is one of theirs but the sender's gets the
      two packets, and no other gets any.
     */
    method NotifyMembers(me: Client, users: seq<u32>, magic: u32, payload: seq<byte>, ghost n: Notice)
      requires Valid() && WellFormed(n) && 0 < |payload| < WORD && NoRepeats(users)
      requires Packets(n) == [UserMsg(magic, me.uid, |payload|), payload]
      modifies list.nodes
      ensures Valid() && list.View() == Deliver(old(list.View()), Listed(users) - {me.uid}, n)
      ensures forall i :: 0 <= i < |list.nodes| ==>
        list.nodes[i].outbox == old(list.nodes[i].outbox) +
          (if old(list.nodes[i].writable) && list.nodes[i].uid in Listed(users) - {me.uid} then Packets(n) else [])
    {
      hide PacketsOf, Packets, Deliver, AllWellFormed, Listed, NoRepeats, UserMsg, Told;
      ghost var before := list.View();
      NotifyUsers(me, users, magic, payload, n);
      NotifyEachOnce(before, users, me.uid, n);
      forall i | 0 <= i < |list.nodes|
        ensures list.nodes[i].outbox == old(list.nodes[i].outbox) +
          (if old(list.nodes[i].writable) && list.nodes[i].uid in Listed(users) - {me.uid} then Packets(n) else [])
      {
        DeliverAt(before, Listed(users) - {me.uid}, n, i);
        assert list.View()[i] == list.nodes[i].Entry() && before[i] == old(list.nodes[i].Entry());
        SocketTold(before[i], old(list.nodes[i].outbox), Listed(users) - {me.uid}, n, list.View()[i],
          list.nodes[i].outbox);
      }
    }

    /**
      `protocol_GroupMessage`: the members in the database's order, of whom those online and other than the
      sender hear it.
     */
    method GroupMessage(me: Client, gid: u32, msglen: u32, buffer: Option<seq<byte>>) returns (result: int)
      requires Valid() && me in list.nodes && (buffer.Some? ==> |buffer.value| == msglen)
      modifies list.nodes
      ensures Valid() && (World(), result) == Serve(old(World()), me.uid, Request.GroupMessage(gid, msglen, buffer))
      ensures result == 0 ==> msglen <= 0x10000 && buffer.Some? && forall i :: 0 <= i < |list.nodes| ==>
        list.nodes[i].outbox == old(list.nodes[i].outbox) +
          (if old(list.nodes[i].writable) && list.nodes[i].uid in Members(db.groups, gid) - {me.uid}
           then Packets(Gmsg(me.uid, gid, buffer.value)) else [])
    {
      hide OnlineList.Valid, OnlineList.View, Client.Printed, Client.Entry, Deliver;
      if msglen > 0x10000 {
        return -1;
      }
      var users := db.GetGroup(gid);
      if buffer.None? {
        return -1;
      }
      var n := Gmsg(me.uid, gid, buffer.value);
      NotifyMembers(me, users, GMSG, Le(gid, 4) + buffer.value, n);
      return 0;
    }

    /** The switch of `in_handler`: a connection that holds no client is refused, any other is served. */
    method Dispatch(held: Client?, r: Request) returns (result: int)
      requires Valid() && (held != null ==> held in list.nodes)
      requires r.Message? && r.buffer.Some? ==> |r.buffer.value| < WORD
      requires r.GroupMessage? && r.buffer.Some? ==> |r.buffer.value| == r.msglen
      modifies this, list.nodes, db
      ensures Valid()
      ensures held == null ==> result == -1 && World() == old(World())
      ensures held != null ==> (World(), result) == Serve(old(World()), held.uid, r)
    {
      hide *;
      if held == null {
        return -1;
      }
      match r
      case Message(to, buffer) => result := Message(held, to, buffer);
      case SendFile(to, size, name) => result := SendFile(held, to, size, name);
      case FopDone(code, uid) => result := FopDone(held, code, uid);
      case ChangeName(name, stored) => result := ChangeName(held, name, stored);
      case AddFriend(to) => result := AddFriend(held, to);
      case BeFriend(to) => result := BeFriend(held, to);
      case DeleteFriend(to) => result := DeleteFriend(held, to);
      case CreateGroup(gid, count, users) => result := CreateGroup(held, gid, count, users);
      case GroupMessage(gid, msglen, buffer) => result := GroupMessage(held, gid, msglen, buffer);
    }
  }
}
