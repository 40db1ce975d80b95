/** The running server: its connections over the shared list, one event at a time. */
module ServerMain {
  import opened Bytes
  import opened Server
  import opened Online
  import opened Handler
  import opened Runs

  /** What a request's second packet left in memory has the length the request announced. */
  predicate Readable(ev: Event) {
    ev.Ask? ==>
      && (ev.request.Message? && ev.request.buffer.Some? ==> |ev.request.buffer.value| < WORD)
      && (ev.request.GroupMessage? && ev.request.buffer.Some? ==> |ev.request.buffer.value| == ev.request.msglen)
  }

  class Process {
    const server: ChatServer
    var holds: map<nat, Client?>

    ghost predicate Valid()
      reads this, server, server.list, server.list.nodes
    {
      && server.Valid()
      && (forall k :: k in holds && holds[k] != null ==> holds[k] in server.list.nodes)
      && (forall j, k :: j in holds && k in holds && j != k && holds[j] != null ==> holds[j] != holds[k])
    }

    ghost function View(): System
      reads this, server, server.list, server.list.nodes, server.db
    {
      System(server.World(), Holdings(holds))
    }

    static ghost function Holdings(holds: map<nat, Client?>): map<nat, Option<u32>> {
      map k | k in holds :: if holds[k] == null then None else Some(holds[k].uid)
    }

    /** The outcomes of a login, in terms of what the connection holds afterwards. */
    static lemma LoginSteps(before: World, holds: map<nat, Client?>, k: nat, uid: u32, passed: bool, connected: bool,
                            ip: u32, c: Client?, after: World)
      requires k in holds
      requires !passed || !connected ==> c == holds[k] && after == before
      requires passed && connected && IsOnline(before.online, uid) ==> c == null && after == before
      requires passed && connected && !IsOnline(before.online, uid) ==>
        c != null && c.uid == uid && after == Joined(before, uid, ip)
      ensures System(after, Holdings(holds[k := c]))
        == Next(System(before, Holdings(holds)), Login(k, uid, passed, connected, ip))
    {}

    constructor ()
      ensures Valid() && fresh(server) && fresh(server.list) && fresh(server.db)
      ensures server.list.nodes == [] && View() == Start()
    {
      server := new ChatServer();
      holds := map[];
    }

    method HandleLogin(k: nat, uid: u32, passed: bool, connected: bool, ip: u32)
      requires Valid() && k in holds
      modifies this, server.list, server.list.nodes
      ensures Valid() && View() == Next(old(View()), Login(k, uid, passed, connected, ip))
      ensures forall x :: x in server.list.nodes && x !in old(server.list.nodes) ==> fresh(x)
    {
      hide ChatServer.Valid, OnlineList.View, OnlineList.Valid, Index, IsOnline, Joined, Holdings, Next;
      ghost var before := server.World();
      var client, result := server.Login(holds[k], uid, passed, connected, ip);
      LoginSteps(before, holds, k, uid, passed, connected, ip, client, server.World());
      holds := holds[k := client];
    }

    method HandleAsk(k: nat, request: Request)
      requires Valid() && k in holds && Readable(Ask(k, request))
      modifies server, server.list.nodes, server.db
      ensures Valid() && View() == Next(old(View()), Ask(k, request))
    {
      hide ChatServer.Valid, ChatServer.World, OnlineList.View, OnlineList.Valid, Serve;
      var result := server.Dispatch(holds[k], request);
    }

    method HandleClose(k: nat)
      requires Valid() && k in holds
      modifies this, server, server.list, server.list.nodes
      ensures Valid() && View() == Next(old(View()), Close(k))
      ensures forall x :: x in server.list.nodes ==> x in old(server.list.nodes)
    {
      hide ChatServer.Valid, ChatServer.World, OnlineList.View, OnlineList.Valid, Left;
      if holds[k] != null {
        server.Leave(holds[k]);
      }
      holds := holds - {k};
    }

    method HandleBreak(uid: u32)
      requires Valid()
      modifies server.list.nodes
      ensures Valid() && View() == Next(old(View()), SocketBreaks(uid))
    {
      hide OnlineList.View, OnlineList.Valid, Break;
      server.list.BreakSocket(uid);
    }

    /** One event, carried out on the heap, is one step of the system. */
    method Handle(ev: Event)
      requires Valid() && Readable(ev)
      modifies this, server, server.list, server.list.nodes, server.db
      ensures Valid() && View() == Next(old(View()), ev)
      ensures forall x :: x in server.list.nodes && x !in old(server.list.nodes) ==> fresh(x)
    {
      hide OnlineList.View, OnlineList.Valid, Index, Serve, Joined, Left, Break;
      match ev
      case Connect(k) =>
        if k !in holds {
          holds := holds[k := null];
        }
      case Register(uid) => server.db.accounts := server.db.accounts + {uid};
      case Login(k, uid, passed, connected, ip) =>
        if k in holds {
          HandleLogin(k, uid, passed, connected, ip);
        }
      case Ask(k, request) =>
        if k in holds {
          HandleAsk(k, request);
        }
      case Close(k) =>
        if k in holds {
          HandleClose(k);
        }
      case SocketBreaks(uid) => HandleBreak(uid);
    }
  }

  /** Any run of the process from its start is a run of the system, and so keeps the system's invariant. */
  method Run(events: seq<Event>) returns (p: Process)
    requires forall i :: 0 <= i < |events| ==> Readable(events[i])
    ensures p.Valid() && p.View() == After(Start(), events) && Invariant(p.View())
  {
    p := new Process();
    var i := 0;
    while i < |events|
      invariant 0 <= i <= |events|
      invariant fresh(p) && fresh(p.server) && fresh(p.server.list) && fresh(p.server.db)
        && fresh(set x | x in p.server.list.nodes)
      invariant p.Valid() && After(p.View(), events[i..]) == After(Start(), events)
    {
      assert events[i..][0] == events[i] && events[i..][1..] == events[i + 1..];
      p.Handle(events[i]);
      i := i + 1;
    }
    RunInvariant(events);
  }
}
