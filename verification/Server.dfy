/**
  The server's state and every request that changes it: who is online, what has been pushed to whom, the
  pending file offers, and the two stored relations. Each request is one step.
 */
module Server {
  import opened Bytes
  import opened Push

  // ----- state -----

  /** `FILE_REQUEST` */
  datatype FileRequest = FileRequest(from: u32, size: u32, name: seq<byte>)

  /**
    One `CLIENT`: `writable` is whether writes to its push socket still succeed, `inbox` what was written there,
    `atLogin` who was online before it.
   */
  datatype Entry = Entry(uid: u32, ip: u32, slot: Option<FileRequest>, writable: bool, inbox: seq<Notice>,
    atLogin: set<u32>)

  /**
    The online list, the friends, groups and user tables, and the file requests accepted into and released from
    slots so far.
   */
  datatype World = World(
    online: seq<Entry>,
    friends: set<(u32, u32)>,
    groups: set<(u32, u32)>,
    accounts: set<u32>,
    accepted: multiset<FileRequest>,
    released: multiset<FileRequest>
  )

  const MAX_FILE: nat := 0x1e00000
  const REFUSED: int := -1
  const CANCEL: u32 := 0xdeadbeef

  // ----- the online list -----

  function Uids(online: seq<Entry>): set<u32> {
    set i | 0 <= i < |online| :: online[i].uid
  }

  /** Where the search for `uid` stops: at its first entry, or at the end. */
  function Index(online: seq<Entry>, uid: u32): (i: nat)
    ensures i <= |online|
    ensures forall j :: 0 <= j < i ==> online[j].uid != uid
    ensures i < |online| ==> online[i].uid == uid
  {
    if online == [] || online[0].uid == uid then 0 else 1 + Index(online[1..], uid)
  }

  predicate IsOnline(online: seq<Entry>, uid: u32) { Index(online, uid) < |online| }

  function Told(e: Entry, n: Notice): Entry { if e.writable then e.(inbox := e.inbox + [n]) else e }

  /** Pushes one notification to every online member of an audience. */
  function Deliver(online: seq<Entry>, audience: set<u32>, n: Notice): (r: seq<Entry>)
    ensures |r| == |online|
  {
    seq(|online|, i requires 0 <= i < |online| => if online[i].uid in audience then Told(online[i], n) else online[i])
  }

  function SetSlot(online: seq<Entry>, uid: u32, slot: Option<FileRequest>): (r: seq<Entry>)
    ensures |r| == |online|
  {
    seq(|online|, i requires 0 <= i < |online| => if online[i].uid == uid then online[i].(slot := slot) else online[i])
  }

  function Break(online: seq<Entry>, uid: u32): (r: seq<Entry>)
    ensures |r| == |online|
  {
    seq(|online|, i requires 0 <= i < |online| =>
      if online[i].uid == uid then online[i].(writable := false) else online[i])
  }

  function Remove(online: seq<Entry>, uid: u32): seq<Entry> {
    var i := Index(online, uid);
    if i < |online| then online[..i] + online[i + 1..] else online
  }

  function SlotOf(online: seq<Entry>, uid: u32): Option<FileRequest> {
    var i := Index(online, uid);
    if i < |online| then online[i].slot else None
  }

  predicate Writable(online: seq<Entry>, uid: u32) {
    var i := Index(online, uid);
    i < |online| && online[i].writable
  }

  function Held(slot: Option<FileRequest>): multiset<FileRequest> {
    if slot.Some? then multiset{slot.value} else multiset{}
  }

  // ----- requests -----

  function Push1(w: World, to: u32, n: Notice): World { w.(online := Deliver(w.online, {to}, n)) }

  function PushOthers(w: World, except: u32, n: Notice): World {
    w.(online := Deliver(w.online, Uids(w.online) - {except}, n))
  }

  /** `login_AddClient` and the broadcast after it. */
  function Joined(w: World, uid: u32, ip: u32): World {
    var e := Entry(uid, ip, None, true, [], Uids(w.online));
    PushOthers(w.(online := w.online + [e]), uid, Onli(uid, 0, ip))
  }

  /** The broadcast and `login_DisconnectClient`, which frees a pending file offer. */
  function Left(w: World, uid: u32): World {
    var i := Index(w.online, uid);
    if i < |w.online| then
      var told := PushOthers(w, uid, Onli(uid, 1, w.online[i].ip));
      told.(online := Remove(told.online, uid), released := w.released + Held(w.online[i].slot))
    else w
  }

  /** `login_RemoveFileReq` */
  function Cleared(w: World, uid: u32): World {
    w.(online := SetSlot(w.online, uid, None), released := w.released + Held(SlotOf(w.online, uid)))
  }

  function Offered(w: World, to: u32, f: FileRequest): World {
    w.(online := SetSlot(w.online, to, Some(f)), accepted := w.accepted + multiset{f})
  }

  /** `strncpy` into 40 characters. */
  function Name40(name: seq<byte>): (s: seq<byte>)
    ensures |s| == 40
  {
    if |name| >= 40 then name[..40] else name + Zeros(40 - |name|)
  }

  predicate LetterOrDigit(c: byte) {
    || '0' as int <= c <= '9' as int
    || 'A' as int <= c <= 'Z' as int
    || 'a' as int <= c <= 'z' as int
  }

  lemma AlphanumericIff(s: seq<byte>)
    ensures Alphanumeric(s) <==> forall i :: 0 <= i < |s| ==> LetterOrDigit(s[i])
  {}

  /** The first 40 bytes of a name, and zeros behind a shorter one. */
  lemma Name40Bytes(name: seq<byte>, i: nat)
    requires i < 40
    ensures Name40(name)[i] == if i < |name| then name[i] else 0
  {}

  predicate Alphanumeric(s: seq<byte>) {
    forall i :: 0 <= i < |s| ==> 48 <= s[i] <= 57 || 65 <= s[i] <= 90 || 97 <= s[i] <= 122
  }

  /** The notification after each member of `users` but the sender, in order and with repeats. */
  function NotifyEach(online: seq<Entry>, users: seq<u32>, from: u32, n: Notice): seq<Entry>
    decreases |users|
  {
    if users == [] then online
    else NotifyEach(if users[0] == from then online else Deliver(online, {users[0]}, n), users[1..], from, n)
  }

  function Members(groups: set<(u32, u32)>, gid: u32): set<u32> {
    set p | p in groups && p.0 == gid :: p.1
  }

  /** The rows `db_QueryFriends` selects. */
  function FriendsOf(friends: set<(u32, u32)>, uid: u32): set<u32> {
    set p | p in friends && p.0 == uid :: p.1
  }

  /**
    The rows `db_CreateGroup` manages to insert: duplicates fail on the primary key, unknown users on the
    foreign key, and both are ignored.
   */
  function Rows(accounts: set<u32>, gid: u32, users: seq<u32>): set<(u32, u32)> {
    set u | u in users && u in accounts :: (gid, u)
  }

  /** `db_AddFriends`: two inserts, of which a duplicate fails and ends the call. */
  function AddFriends(friends: set<(u32, u32)>, a: u32, b: u32): (r: (set<(u32, u32)>, int)) {
    if (a, b) in friends then (friends, -1)
    else
      var one := friends + {(a, b)};
      if (b, a) in one then (one, -1) else (one + {(b, a)}, 0)
  }

  /**
    What a logged-in client can ask for. Outcomes the model does not decide come with the request: whether the
    database accepted a name, and the buffer or list a second packet left in memory, if it was read.
   */
  datatype Request =
    | Message(to: u32, buffer: Option<seq<byte>>)
    | SendFile(to: u32, size: u32, name: seq<byte>)
    | FopDone(result: u32, uid: u32)
    | ChangeName(name: seq<byte>, stored: bool)
    | AddFriend(to: u32)
    | BeFriend(to: u32)
    | DeleteFriend(to: u32)
    | CreateGroup(gid: u32, count: u32, users: Option<seq<u32>>)
    | GroupMessage(gid: u32, msglen: u32, buffer: Option<seq<byte>>)

  /** The world after a request of the online user `me`, and the result code of the reply. */
  function Serve(w: World, me: u32, r: Request): (World, int) {
    match r
    case Message(to, buffer) =>
      if !IsOnline(w.online, to) || buffer.None? then (w, REFUSED)
      else (Push1(w, to, Mesg(me, buffer.value)), if Writable(w.online, to) then 0 else -1)
    case SendFile(to, size, name) =>
      if !IsOnline(w.online, to) || size > MAX_FILE || SlotOf(w.online, to).Some? then (w, REFUSED)
      else (Push1(Offered(w, to, FileRequest(me, size, name)), to, File(me, size, Name40(name))),
        if Writable(w.online, to) then 0 else -1)
    case FopDone(result, uid) =>
      (Cleared(if result == CANCEL && IsOnline(w.online, uid) then Push1(Cleared(w, uid), uid, Canc) else w, me),
        result)
    case ChangeName(name, stored) =>
      if |name| > 25 || !Alphanumeric(name) || !stored then (w, REFUSED)
      else (PushOthers(w, me, Name(me, name)), 0)
    case AddFriend(to) =>
      if !IsOnline(w.online, to) then (w, REFUSED)
      else (Push1(w, to, Dawg(me)), if Writable(w.online, to) then 0 else -1)
    case BeFriend(to) =>
      if !IsOnline(w.online, to) then (w, REFUSED)
      else
        var (friends, result) := AddFriends(w.friends, me, to);
        if result < 0 then (w.(friends := friends), -1) else (Push1(w.(friends := friends), to, Helo(me)), 0)
    case DeleteFriend(to) =>
      (Push1(w.(friends := w.friends - {(me, to), (to, me)}), to, Died(me)), 0)
    case CreateGroup(gid, count, users) =>
      if count > 10 || users.None? then (w, REFUSED)
      else
        var rows := Rows(w.accounts, gid, users.value);
        (w.(groups := w.groups + rows, online := NotifyEach(w.online, users.value, me, Grup(me, gid))), 0)
    case GroupMessage(gid, msglen, buffer) =>
      if msglen > 0x10000 || buffer.None? then (w, REFUSED)
      else (w.(online := Deliver(w.online, Members(w.groups, gid) - {me}, Gmsg(me, gid, buffer.value))), 0)
  }

  // ----- connections -----

  /** Each open connection holds the client its last LOGIN left in `client_info`, or none. */
  datatype System = System(world: World, holds: map<nat, Option<u32>>)

  datatype Event =
    | Connect(conn: nat)
    | Register(uid: u32)
    | Login(conn: nat, uid: u32, passed: bool, connected: bool, ip: u32)
    | Ask(conn: nat, request: Request)
    | Close(conn: nat)
    | SocketBreaks(uid: u32)

  function Start(): System {
    System(World([], {}, {}, {}, multiset{}, multiset{}), map[])
  }

  function Next(s: System, ev: Event): System {
    match ev
    case Connect(k) => if k in s.holds then s else s.(holds := s.holds[k := None])
    case Register(uid) => s.(world := s.world.(accounts := s.world.accounts + {uid}))
    case Login(k, uid, passed, connected, ip) =>
      if k !in s.holds || !passed || !connected then s
      else if IsOnline(s.world.online, uid) then s.(holds := s.holds[k := None])
      else System(Joined(s.world, uid, ip), s.holds[k := Some(uid)])
    case Ask(k, request) =>
      if k !in s.holds || s.holds[k].None? then s
      else s.(world := Serve(s.world, s.holds[k].value, request).0)
    case Close(k) =>
      if k !in s.holds then s
      else System(if s.holds[k].Some? then Left(s.world, s.holds[k].value) else s.world, s.holds - {k})
    case SocketBreaks(uid) => s.(world := s.world.(online := Break(s.world.online, uid)))
  }

  function After(s: System, events: seq<Event>): System
    decreases |events|
  {
    if events == [] then s else After(Next(s, events[0]), events[1..])
  }
}
