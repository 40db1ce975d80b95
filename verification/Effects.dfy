/** What requests and runs make of the tables, the replies and the connections. */
module Effects {
  import opened Bytes
  import opened Push
  import opened Server
  import opened Runs
  import opened Fanout
  import opened Provenance

  // ----- one request -----

  /** `r` is a request of `me` about its friendship with somebody, and that pair is (a, b) one way or the other. */
  predicate About(me: u32, to: u32, a: u32, b: u32) { (a == me && b == to) || (a == to && b == me) }

  predicate Unfriends(me: u32, r: Request, a: u32, b: u32) {
    r.DeleteFriend? && About(me, r.to, a, b)
  }

  predicate Befriends(w: World, me: u32, r: Request, a: u32, b: u32) {
    r.BeFriend? && About(me, r.to, a, b) && IsOnline(w.online, r.to)
  }

  /** Two users are friends after a request if they were and it does not end that, or if it makes them so. */
  lemma ServeFriends(w: World, me: u32, r: Request, a: u32, b: u32)
    requires Symmetric(w.friends)
    ensures (a, b) in Serve(w, me, r).0.friends <==>
      ((a, b) in w.friends && !Unfriends(me, r, a, b)) || Befriends(w, me, r, a, b)
  {
    hide Deliver, NotifyEach, SetSlot, IsOnline, AddFriends, Rows, Members, SlotOf;
    if r.BeFriend? {
      AddFriendsEffect(w.friends, me, r.to);
    }
  }

  predicate Enrols(w: World, r: Request, gid: u32, uid: u32) {
    r.CreateGroup? && r.count <= 10 && r.gid == gid && r.users.Some? && uid in r.users.value && uid in w.accounts
  }

  /** Nobody ever leaves a group, and only a group's creation adds to it. */
  lemma ServeGroups(w: World, me: u32, r: Request, gid: u32, uid: u32)
    ensures (gid, uid) in Serve(w, me, r).0.groups <==> (gid, uid) in w.groups || Enrols(w, r, gid, uid)
    ensures Serve(w, me, r).0.accounts == w.accounts
  {
    hide Deliver, NotifyEach, SetSlot, IsOnline, AddFriends, Members, SlotOf;
  }

  /** The one offer a request may bring. */
  function Brought(w: World, me: u32, r: Request): multiset<FileRequest> {
    if r.SendFile? && IsOnline(w.online, r.to) && r.size <= MAX_FILE && SlotOf(w.online, r.to).None?
    then multiset{FileRequest(me, r.size, r.name)} else multiset{}
  }

  lemma ServeAccepts(w: World, me: u32, r: Request)
    ensures Serve(w, me, r).0.accepted == w.accepted + Brought(w, me, r)
  {
    hide Deliver, NotifyEach, SetSlot, IsOnline, AddFriends, Rows, Members, SlotOf;
  }

  /** When a request succeeds. */
  predicate Succeeds(w: World, me: u32, r: Request) {
    match r
    case Message(to, buffer) => Writable(w.online, to) && buffer.Some?
    case SendFile(to, size, _) => Writable(w.online, to) && size <= MAX_FILE && SlotOf(w.online, to).None?
    case FopDone(result, _) => result == 0
    case ChangeName(name, stored) => |name| <= 25 && Alphanumeric(name) && stored
    case AddFriend(to) => Writable(w.online, to)
    case BeFriend(to) => IsOnline(w.online, to) && to != me && (me, to) !in w.friends && (to, me) !in w.friends
    case DeleteFriend(_) => true
    case CreateGroup(_, count, users) => count <= 10 && users.Some?
    case GroupMessage(_, msglen, buffer) => msglen <= 65536 && buffer.Some?
  }

  /** The reply's code: zero exactly on success, else minus one, but for FOPDONE, which repeats its own. */
  lemma ServeCode(w: World, me: u32, r: Request)
    ensures Serve(w, me, r).1 == if r.FopDone? then r.result else if Succeeds(w, me, r) then 0 else -1
  {
    hide Deliver, NotifyEach, SetSlot, Rows, Members, SlotOf, Alphanumeric, Name40;
  }

  // ----- whole runs: on since, and not off again -----

  /** Something was switched on by an event before the `n`-th, and not off by any between. */
  ghost predicate Since(events: seq<Event>, on: (System, Event) -> bool, off: (System, Event) -> bool, n: nat)
    requires n <= |events|
  {
    exists t: nat :: t < n && Lasts(events, on, off, t, n)
  }

  ghost predicate Lasts(events: seq<Event>, on: (System, Event) -> bool, off: (System, Event) -> bool, t: nat, n: nat)
    requires t < n <= |events|
  {
    && on(StateAt(events, t), events[t])
    && forall u :: t < u < n ==> !off(StateAt(events, u), events[u])
  }

  lemma SinceNext(events: seq<Event>, on: (System, Event) -> bool, off: (System, Event) -> bool, n: nat)
    requires n < |events|
    ensures Since(events, on, off, n + 1) <==>
      on(StateAt(events, n), events[n]) || (Since(events, on, off, n) && !off(StateAt(events, n), events[n]))
  {
    hide StateAt;
    if on(StateAt(events, n), events[n]) {
      assert Lasts(events, on, off, n, n + 1);
    } else {
      if t: nat :| t < n && Lasts(events, on, off, t, n) {
        if !off(StateAt(events, n), events[n]) {
          assert Lasts(events, on, off, t, n + 1);
        }
      }
      if Since(events, on, off, n + 1) {
        var t: nat :| t < n + 1 && Lasts(events, on, off, t, n + 1);
        assert t < n && Lasts(events, on, off, t, n);
      }
    }
  }

  lemma StateAtNext(events: seq<Event>, n: nat)
    requires n < |events|
    ensures StateAt(events, n + 1) == Next(StateAt(events, n), events[n])
    ensures Invariant(StateAt(events, n))
  {
    assert events[..n + 1] == events[..n] + [events[n]];
    AfterAppend(Start(), events[..n], events[n]);
    RunInvariant(events[..n]);
  }

  // ----- friends -----

  predicate BefriendsAt(s: System, ev: Event, a: u32, b: u32) {
    ev.Ask? && ev.conn in s.holds && s.holds[ev.conn].Some?
      && Befriends(s.world, s.holds[ev.conn].value, ev.request, a, b)
  }

  predicate UnfriendsAt(s: System, ev: Event, a: u32, b: u32) {
    ev.Ask? && ev.conn in s.holds && s.holds[ev.conn].Some? && Unfriends(s.holds[ev.conn].value, ev.request, a, b)
  }

  lemma NextFriends(s: System, ev: Event, a: u32, b: u32)
    requires Invariant(s)
    ensures (a, b) in Next(s, ev).world.friends <==>
      BefriendsAt(s, ev, a, b) || ((a, b) in s.world.friends && !UnfriendsAt(s, ev, a, b))
  {
    hide Serve, Deliver, Remove, Presence, Offers, Distinct, Holding, Index;
    if ev.Ask? && ev.conn in s.holds && s.holds[ev.conn].Some? {
      ServeFriends(s.world, s.holds[ev.conn].value, ev.request, a, b);
    }
  }

  /**
    After every run two users are friends if and only if one befriended the other, online then, and neither has
    since ended it.
   */
  lemma {:induction false} FriendsExactly(events: seq<Event>, a: u32, b: u32, n: nat)
    requires n <= |events|
    ensures (a, b) in StateAt(events, n).world.friends <==>
      Since(events, (s, ev) => BefriendsAt(s, ev, a, b), (s, ev) => UnfriendsAt(s, ev, a, b), n)
  {
    hide Invariant, Next;
    if n == 0 {
    } else {
      var on, off := (s, ev) => BefriendsAt(s, ev, a, b), (s, ev) => UnfriendsAt(s, ev, a, b);
      FriendsExactly(events, a, b, n - 1);
      StateAtNext(events, n - 1);
      NextFriends(StateAt(events, n - 1), events[n - 1], a, b);
      SinceNext(events, on, off, n - 1);
    }
  }

  // ----- groups and accounts -----

  predicate EnrolsAt(s: System, ev: Event, gid: u32, uid: u32) {
    ev.Ask? && ev.conn in s.holds && s.holds[ev.conn].Some? && Enrols(s.world, ev.request, gid, uid)
  }

  predicate Never(s: System, ev: Event) { false }

  lemma NextTables(s: System, ev: Event, gid: u32, uid: u32)
    ensures (gid, uid) in Next(s, ev).world.groups <==> EnrolsAt(s, ev, gid, uid) || (gid, uid) in s.world.groups
    ensures uid in Next(s, ev).world.accounts <==> ev == Register(uid) || uid in s.world.accounts
  {
    hide Serve, Deliver, Remove, Index;
    if ev.Ask? && ev.conn in s.holds && s.holds[ev.conn].Some? {
      ServeGroups(s.world, s.holds[ev.conn].value, ev.request, gid, uid);
    }
  }

  /** After every run the members of a group are those some creation of it has listed while they had an account. */
  lemma {:induction false} GroupsExactly(events: seq<Event>, gid: u32, uid: u32, n: nat)
    requires n <= |events|
    ensures (gid, uid) in StateAt(events, n).world.groups <==>
      Since(events, (s, ev) => EnrolsAt(s, ev, gid, uid), (s, ev) => Never(s, ev), n)
  {
    hide Invariant, Next;
    if n == 0 {
    } else {
      GroupsExactly(events, gid, uid, n - 1);
      StateAtNext(events, n - 1);
      NextTables(StateAt(events, n - 1), events[n - 1], gid, uid);
      SinceNext(events, (s, ev) => EnrolsAt(s, ev, gid, uid), (s, ev) => Never(s, ev), n - 1);
    }
  }

  /** And exactly the registered users have accounts. */
  lemma {:induction false} AccountsExactly(events: seq<Event>, uid: u32, n: nat)
    requires n <= |events|
    ensures uid in StateAt(events, n).world.accounts <==> exists t: nat :: t < n && events[t] == Register(uid)
  {
    hide Invariant, Next;
    if n == 0 {
    } else {
      AccountsExactly(events, uid, n - 1);
      StateAtNext(events, n - 1);
      NextTables(StateAt(events, n - 1), events[n - 1], 0, uid);
    }
  }

  // ----- connections -----

  /** A connection gets a client by a login that passes, can be connected back to, and finds the user not online. */
  predicate LogsIn(s: System, ev: Event, k: nat, uid: u32) {
    ev.Login? && ev.conn == k && ev.uid == uid && k in s.holds && ev.passed && ev.connected
      && !IsOnline(s.world.online, uid)
  }

  /** It loses it when it ends, and by any login that passes and can be connected back to. */
  predicate LetsGo(ev: Event, k: nat) {
    ev == Close(k) || (ev.Login? && ev.conn == k && ev.passed && ev.connected)
  }

  predicate Holds(s: System, k: nat, uid: u32) { k in s.holds && s.holds[k] == Some(uid) }

  lemma NextHolds(s: System, ev: Event, k: nat, uid: u32)
    ensures k in Next(s, ev).holds <==> ev == Connect(k) || (k in s.holds && ev != Close(k))
    ensures Holds(Next(s, ev), k, uid) <==> LogsIn(s, ev, k, uid) || (Holds(s, k, uid) && !LetsGo(ev, k))
  {
    hide Serve, Joined, Left, Break, IsOnline;
  }

  /**
    After every run a connection holds a user if and only if it logged in as that one, and has neither ended nor
    logged in since.
   */
  lemma {:induction false} HeldExactly(events: seq<Event>, k: nat, uid: u32, n: nat)
    requires n <= |events|
    ensures Holds(StateAt(events, n), k, uid) <==>
      Since(events, (s, ev) => LogsIn(s, ev, k, uid), (s: System, ev) => LetsGo(ev, k), n)
  {
    hide Invariant, Next;
    if n == 0 {
    } else {
      HeldExactly(events, k, uid, n - 1);
      StateAtNext(events, n - 1);
      NextHolds(StateAt(events, n - 1), events[n - 1], k, uid);
      SinceNext(events, (s, ev) => LogsIn(s, ev, k, uid), (s: System, ev) => LetsGo(ev, k), n - 1);
    }
  }
}
