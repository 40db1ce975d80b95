/** `login.c`: the linked list of online clients. */
module Online {
  import opened Bytes
  import opened Push
  import opened Server

  /** All packets of a sequence of notifications, in order. */
  ghost function PacketsOf(notices: seq<Notice>): seq<seq<byte>>
    requires AllWellFormed(notices)
  {
    if notices == [] then [] else PacketsOf(notices[..|notices| - 1]) + Packets(notices[|notices| - 1])
  }

  lemma PacketsOfNext(notices: seq<Notice>, n: Notice)
    requires AllWellFormed(notices) && WellFormed(n)
    ensures AllWellFormed(notices + [n]) && PacketsOf(notices + [n]) == PacketsOf(notices) + Packets(n)
  {}

  /** `CLIENT`. `outbox` stands for `msgsock`: the packets handed to `srv_WritePacket` for it so far. */
  class Client {
    const uid: u32
    const ip: u32
    var next: Client?
    var freq: Option<FileRequest>
    var writable: bool
    var outbox: seq<seq<byte>>
    ghost var inbox: seq<Notice>
    ghost const atLogin: set<u32>

    ghost function Entry(): Entry
      reads this`freq, this`writable, this`inbox
    {
      Server.Entry(uid, ip, freq, writable, inbox, atLogin)
    }

    /** The packets written are those of the notifications made, one after another. */
    ghost predicate Printed()
      reads this`outbox, this`inbox
    {
      AllWellFormed(inbox) && outbox == PacketsOf(inbox)
    }

    constructor (uid: u32, ip: u32, ghost before: set<u32>)
      ensures Entry() == Server.Entry(uid, ip, None, true, [], before) && this.uid == uid && this.ip == ip
      ensures next == null && Printed()
    {
      this.uid, this.ip, this.next, this.freq := uid, ip, null, None;
      this.writable, this.outbox, this.inbox, this.atLogin := true, [], [], before;
    }

    method Write(packet: seq<byte>) returns (w: int)
      modifies this`outbox
      ensures w == if writable then 0 else -1
      ensures outbox == old(outbox) + (if writable then [packet] else [])
    {
      if !writable {
        return -1;
      }
      outbox := outbox + [packet];
      return 0;
    }

    /** The header packet, and then the payload packet if there is one and the header got out. */
    method Notify(magic: u32, from: u32, msglen: u32, payload: Option<seq<byte>>, ghost n: Notice) returns (w: int)
      requires Printed() && WellFormed(n)
      requires Packets(n) == [UserMsg(magic, from, msglen)] + (if payload.Some? then [payload.value] else [])
      modifies this`outbox, this`inbox
      ensures Printed() && Entry() == Told(old(Entry()), n)
      ensures outbox == old(outbox) + (if writable then Packets(n) else [])
      ensures w == if writable then 0 else -1
    {
      PacketsOfNext(inbox, n);
      hide PacketsOf, Packets, UserMsg, WellFormed;
      ghost var before := outbox;
      w := Write(UserMsg(magic, from, msglen));
      if w >= 0 {
        if payload.Some? {
          w := Write(payload.value);
          assert before + [UserMsg(magic, from, msglen)] + [payload.value]
            == before + ([UserMsg(magic, from, msglen)] + [payload.value]);
        }
        inbox := inbox + [n];
      }
    }
  }

  class OnlineList {
    var head: Client?
    ghost var nodes: seq<Client>

    /** The nodes reached from the head are `nodes`, each once, ending in NULL; no uid occurs twice. */
    ghost predicate Valid()
      reads this, nodes
    {
      && head == NodeAt(0)
      && (forall i {:trigger nodes[i].next} :: 0 <= i < |nodes| ==> nodes[i].next == NodeAt(i + 1))
      && (forall i, j :: 0 <= i < j < |nodes| ==> nodes[i] != nodes[j] && nodes[i].uid != nodes[j].uid)
      && (forall i :: 0 <= i < |nodes| ==> nodes[i].Printed())
    }

    ghost function NodeAt(i: nat): Client?
      reads this
    {
      if i < |nodes| then nodes[i] else null
    }

    ghost function View(): (v: seq<Entry>)
      reads this, nodes
      ensures |v| == |nodes|
    {
      seq(|nodes|, i requires 0 <= i < |nodes| reads this, nodes => nodes[i].Entry())
    }

    constructor ()
      ensures Valid() && nodes == []
    {
      head, nodes := null, [];
    }

    lemma IndexIs(uid: u32, i: nat)
      requires i <= |nodes| && (i < |nodes| ==> nodes[i].uid == uid)
      requires forall j :: 0 <= j < i ==> nodes[j].uid != uid
      ensures Index(View(), uid) == i
    {
      var v := View();
      assert forall j :: 0 <= j < i ==> v[j].uid != uid;
      assert i < |v| ==> v[i].uid == uid;
    }

    /** `login_FindOnlineClientByUID` */
    method Find(uid: u32) returns (p: Client?)
      requires Valid()
      ensures p == NodeAt(Index(View(), uid))
      ensures p == null <==> !IsOnline(View(), uid)
      ensures p != null ==> p in nodes && p.uid == uid
      ensures p == null ==> forall j :: 0 <= j < |nodes| ==> nodes[j].uid != uid
    {
      hide View, Index, Client.Printed;
      p := head;
      ghost var i := 0;
      while p != null
        invariant i <= |nodes| && p == NodeAt(i)
        invariant forall j :: 0 <= j < i ==> nodes[j].uid != uid
        decreases |nodes| - i
      {
        if p.uid == uid {
          IndexIs(uid, i);
          return;
        }
        p, i := p.next, i + 1;
      }
      IndexIs(uid, i);
    }

    /** The loop that looks for the tail. */
    method Last() returns (p: Client)
      requires Valid() && nodes != []
      ensures p == nodes[|nodes| - 1]
    {
      p := head;
      ghost var i := 0;
      while p.next != null
        invariant i < |nodes| && p == nodes[i]
        decreases |nodes| - i
      {
        p, i := p.next, i + 1;
      }
    }

    method Append(added: Client)
      requires Valid() && added.next == null && added.Printed()
      requires forall i :: 0 <= i < |nodes| ==> nodes[i] != added && nodes[i].uid != added.uid
      modifies this, nodes
      ensures Valid() && nodes == old(nodes) + [added]
      ensures View() == old(View()) + [old(added.Entry())]
    {
      hide Client.Printed, Client.Entry;
      if head == null {
        head := added;
      } else {
        var p := Last();
        p.next := added;
      }
      nodes := nodes + [added];
    }

    /** `login_AddClient`: refuses a uid that is online, else appends at the tail. */
    method Add(uid: u32, ip: u32) returns (c: Client?)
      requires Valid()
      modifies this, nodes
      ensures Valid()
      ensures IsOnline(old(View()), uid) ==> c == null && nodes == old(nodes) && View() == old(View())
      ensures !IsOnline(old(View()), uid) ==>
        && c != null && fresh(c) && c.uid == uid && c.ip == ip && nodes == old(nodes) + [c]
        && View() == old(View()) + [Server.Entry(uid, ip, None, true, [], Uids(old(View())))]
    {
      hide PacketsOf, AllWellFormed, Uids, Client.Printed;
      var found := Find(uid);
      if found != null {
        return null;
      }
      var added := new Client(uid, ip, Uids(View()));
      Append(added);
      c := added;
    }

    /** The loop that looks for the node in front of `c`. */
    method Before(c: Client) returns (p: Client?, ghost i: nat)
      requires Valid() && nodes != [] && nodes[0] != c
      ensures p == null ==> c !in nodes
      ensures p != null ==> i + 1 < |nodes| && p == nodes[i] && c == nodes[i + 1]
    {
      p, i := head, 0;
      while p.next != null
        invariant i < |nodes| && p == nodes[i]
        invariant forall j :: 0 <= j <= i ==> nodes[j] != c
        decreases |nodes| - i
      {
        if p.next == c {
          return;
        }
        p, i := p.next, i + 1;
      }
      p := null;
    }

    lemma OnlyOne(c: Client)
      requires Valid() && c in nodes
      ensures forall d :: d in nodes && d.uid == c.uid ==> d == c
    {}

    lemma DistinctView()
      requires Valid()
      ensures forall i, j :: 0 <= i < j < |View()| ==> View()[i].uid != View()[j].uid
    {}

    ghost method PositionOf(c: Client) returns (i: nat)
      requires Valid() && c in nodes
      ensures i < |nodes| && nodes[i] == c && Index(View(), c.uid) == i
    {
      hide View, Index, Client.Printed;
      i :| 0 <= i < |nodes| && nodes[i] == c;
      IndexIs(c.uid, i);
    }

    method Unlink(p: Client, c: Client, ghost i: nat)
      requires Valid() && i + 1 < |nodes| && p == nodes[i] && c == nodes[i + 1]
      modifies this`nodes, p`next
      ensures Valid() && nodes == old(nodes[..i + 1] + nodes[i + 2..])
      ensures forall j :: 0 <= j < |nodes| ==> nodes[j].Entry() == old(nodes[if j <= i then j else j + 1].Entry())
    {
      hide Client.Printed, Client.Entry, View;
      ghost var was := nodes;
      p.next := c.next;
      nodes := nodes[..i + 1] + nodes[i + 2..];
      assert forall j :: 0 <= j < |nodes| ==> nodes[j] == was[if j <= i then j else j + 1];
    }

    static lemma TakenOut(s: seq<Client>, k: nat)
      requires k < |s| && forall i, j :: 0 <= i < j < |s| ==> s[i] != s[j]
      ensures var r := s[..k] + s[k + 1..];
        s[k] !in r && forall x :: x in s <==> x in r || x == s[k]
    {}

    /** `Remove` takes out the entry at the position of the first one with the uid. */
    static lemma RemoveAt(v: seq<Entry>, uid: u32, k: nat)
      requires k < |v| && Index(v, uid) == k
      ensures Remove(v, uid) == v[..k] + v[k + 1..]
    {}

    method DropHead(c: Client)
      requires Valid() && nodes != [] && c == nodes[0]
      modifies this
      ensures Valid() && nodes == old(nodes[1..]) && View() == Remove(old(View()), c.uid)
    {
      hide Client.Printed, Client.Entry, Index, Remove;
      ghost var k := PositionOf(c);
      RemoveAt(View(), c.uid, 0);
      head := c.next;
      nodes := nodes[1..];
    }

    method DropBehind(p: Client, c: Client, ghost i: nat)
      requires Valid() && i + 1 < |nodes| && p == nodes[i] && c == nodes[i + 1]
      modifies this`nodes, p`next
      ensures Valid() && nodes == old(nodes[..i + 1] + nodes[i + 2..]) && View() == Remove(old(View()), c.uid)
    {
      hide Client.Printed, Client.Entry, Index, Remove;
      ghost var k := PositionOf(c);
      assert k == i + 1;
      RemoveAt(View(), c.uid, k);
      Unlink(p, c, i);
      assert View() == old(View())[..k] + old(View())[k + 1..];
    }

    /**
      `login_DisconnectClient`: unlinks the node at the head, in the middle or at the tail. It looks behind the
      first node, so there must be one.
     */
    method Disconnect(c: Client) returns (result: int)
      requires Valid() && nodes != []
      modifies this, nodes
      ensures Valid()
      ensures c !in old(nodes) ==> result == -1 && nodes == old(nodes) && View() == old(View())
      ensures c in old(nodes) ==> result == 0 && c !in nodes && View() == Remove(old(View()), c.uid)
      ensures c in old(nodes) ==> forall x :: x in old(nodes) <==> x in nodes || x == c
    {
      hide View, Remove, Client.Printed;
      if head == c {
        TakenOut(nodes, 0);
        DropHead(c);
        assert nodes == old(nodes)[..0] + old(nodes)[1..];
        return 0;
      }
      ghost var i;
      var p;
      p, i := Before(c);
      if p == null {
        return -1;
      }
      TakenOut(nodes, i + 1);
      DropBehind(p, c, i);
      return 0;
    }

    /** The peer of a push socket goes away: from now on writes to it fail. */
    method BreakSocket(uid: u32)
      requires Valid()
      modifies nodes
      ensures Valid()
      ensures View() == Break(old(View()), uid)
    {
      hide Client.Printed, Index;
      var target := Find(uid);
      if target != null {
        target.writable := false;
      }
    }

    /** `login_AddFileReq` */
    method AddFileReq(target: Client, freq: FileRequest) returns (result: int)
      requires Valid() && target in nodes
      modifies target`freq
      ensures Valid()
      ensures result == if old(target.freq).Some? then -1 else 0
      ensures View() == if old(target.freq).Some? then old(View()) else SetSlot(old(View()), target.uid, Some(freq))
    {
      hide Client.Printed;
      if target.freq.Some? {
        return -1;
      }
      target.freq := Some(freq);
      return 0;
    }

    /** `login_RemoveFileReq` */
    method RemoveFileReq(target: Client)
      requires Valid() && target in nodes
      modifies target`freq
      ensures Valid()
      ensures View() == SetSlot(old(View()), target.uid, None)
    {
      hide Client.Printed;
      target.freq := None;
    }

    /** One notification to the node at position `i`. */
    method NotifyNode(p: Client, ghost i: nat, magic: u32, from: u32, msglen: u32, payload: Option<seq<byte>>,
                      ghost n: Notice) returns (w: int)
      requires Valid() && i < |nodes| && p == nodes[i] && WellFormed(n)
      requires Packets(n) == [UserMsg(magic, from, msglen)] + (if payload.Some? then [payload.value] else [])
      modifies p`outbox, p`inbox
      ensures Valid()
      ensures View() == old(View())[i := Told(old(View())[i], n)]
      ensures p.outbox == old(p.outbox) + (if p.writable then Packets(n) else [])
      ensures w == if p.writable then 0 else -1
    {
      hide PacketsOf, AllWellFormed, Packets, UserMsg, WellFormed;
      w := p.Notify(magic, from, msglen, payload, n);
    }

    /** The loop of `login_NotifyAll` and `login_NotifyAllLogin`: everybody but `c`. */
    method NotifyAll(c: Client, magic: u32, from: u32, msglen: u32, payload: seq<byte>, ghost n: Notice)
      requires Valid() && c in nodes && WellFormed(n)
      requires Packets(n) == [UserMsg(magic, from, msglen), payload]
      modifies nodes
      ensures Valid()
      ensures View() == Deliver(old(View()), Uids(old(View())) - {c.uid}, n)
    {
      hide Client.Printed, Client.Entry, Packets, UserMsg, WellFormed, Told, Deliver;
      ghost var before := View();
      ghost var k := PositionOf(c);
      DistinctView();
      hide View, Index;
      var p := head;
      ghost var i := 0;
      while p != null
        invariant i <= |nodes| && p == NodeAt(i) && Valid()
        invariant forall j :: 0 <= j < i ==> View()[j] == if j == k then before[j] else Told(before[j], n)
        invariant forall j :: i <= j < |nodes| ==> View()[j] == before[j]
        decreases |nodes| - i
      {
        if c != p {
          var w := NotifyNode(p, i, magic, from, msglen, Some(payload), n);
        }
        p, i := p.next, i + 1;
      }
      AllButOne(before, k, c.uid, n, View());
    }

    lemma AllButOne(before: seq<Entry>, k: nat, uid: u32, n: Notice, after: seq<Entry>)
      requires |after| == |before| && k < |before| && before[k].uid == uid
      requires forall i, j :: 0 <= i < j < |before| ==> before[i].uid != before[j].uid
      requires forall j :: 0 <= j < |before| ==> after[j] == if j == k then before[j] else Told(before[j], n)
      ensures after == Deliver(before, Uids(before) - {uid}, n)
    {}

    /** `login_NotifyAllLogin` */
    method NotifyAllLogin(c: Client, disconnect: u32)
      requires Valid() && c in nodes
      modifies nodes
      ensures Valid()
      ensures View() == Deliver(old(View()), Uids(old(View())) - {c.uid}, Onli(c.uid, disconnect, c.ip))
    {
      NotifyAll(c, ONLI, BROADCAST, 12, Le(disconnect, 4) + Le(c.uid, 4) + Le(c.ip, 4), Onli(c.uid, disconnect, c.ip));
    }

    /** One notification to one online client: the pattern of every handler that has found its target. */
    method NotifyOne(target: Client, magic: u32, from: u32, msglen: u32, payload: Option<seq<byte>>, ghost n: Notice)
      returns (w: int)
      requires Valid() && target in nodes && WellFormed(n)
      requires Packets(n) == [UserMsg(magic, from, msglen)] + (if payload.Some? then [payload.value] else [])
      modifies target`outbox, target`inbox
      ensures Valid()
      ensures View() == Deliver(old(View()), {target.uid}, n)
      ensures target.outbox == old(target.outbox) + (if target.writable then Packets(n) else [])
      ensures w == if Writable(old(View()), target.uid) then 0 else -1
    {
      hide PacketsOf, AllWellFormed, Client.Printed, Packets, UserMsg;
      ghost var t := PositionOf(target);
      w := NotifyNode(target, t, magic, from, msglen, payload, n);
      assert forall j :: 0 <= j < |nodes| && old(View())[j].uid == target.uid ==> j == t by {
        assert forall j :: 0 <= j < |nodes| ==> old(View())[j].uid == nodes[j].uid;
      }
    }

    /** `login_Notify`: nothing happens when the user is not online; a payload of size zero is not sent. */
    method Notify(from: u32, uid: u32, magic: u32, payload: seq<byte>, ghost n: Notice)
      requires Valid() && WellFormed(n) && |payload| < WORD
      requires Packets(n) == [UserMsg(magic, from, |payload|)] + (if payload != [] then [payload] else [])
      modifies nodes
      ensures Valid()
      ensures View() == Deliver(old(View()), {uid}, n)
    {
      var target := Find(uid);
      if target == null {
        assert forall j :: 0 <= j < |nodes| ==> View()[j].uid != uid;
        assert View() == Deliver(View(), {uid}, n);
      } else {
        var w := NotifyOne(target, magic, from, |payload|, if payload != [] then Some(payload) else None, n);
      }
    }
  }
}
