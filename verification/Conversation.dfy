/**
  A whole session as client and server live it: requests, replies and notifications take turns, on two
  sockets but over one vector at each end, and the handler looks up names before the next act begins.
 */
module Conversation {
  import opened Bytes
  import opened Session
  import opened Lookup
  import opened Push

  /**
    One packet up, one packet down, or one notification and what its turn finds; `maxsize` is what the reader
    asks for.
   */
  datatype Act =
    | Request(data: seq<byte>, maxsize: nat)
    | Answer(data: seq<byte>, maxsize: nat)
    | Notification(n: Notice, scene: Scene)

  /** What came of an act: the bytes a read returned, what the handler showed, or the end of the conversation. */
  datatype Outcome = Took(bytes: seq<byte>) | Showed(n: Option<Notice>) | StuckAt(last: Notice) | Lost

  function Taken<V>(r: Got<V>): Outcome { if r.Got? then Took(r.bytes) else Lost }

  /** Sender and receiver each use, and advance, their own vector. */
  function Perform<V>(c: Codec<V>, ends: Ends<V>, act: Act): (Outcome, Ends<V>)
    requires act.Notification? ==> WellFormed(act.n)
  {
    match act
    case Request(data, maxsize) =>
      var r := c.read(ends.server, c.wire(ends.client, data), maxsize);
      (Taken(r), Ends(c.after(ends.client, data), if r.Got? then r.iv else ends.server))
    case Answer(data, maxsize) =>
      var r := c.read(ends.client, c.wire(ends.server, data), maxsize);
      (Taken(r), Ends(if r.Got? then r.iv else ends.client, c.after(ends.server, data)))
    case Notification(n, scene) =>
      var printed := Ends(ends.client, AfterNotice(c, ends.server, n));
      match Handle(c, printed, OnLane(c, ends.server, OnPush(Packets(n)), Lane.Push), scene) {
        case Turn(shown, _, next) => (Showed(shown), next)
        case Stuck(last) => (StuckAt(last), printed)
        case Stop => (Lost, printed)
      }
  }

  /** Whether an act's packets are within a limit. */
  predicate Sayable(act: Act, limit: nat) {
    match act
    case Request(data, _) => |data| <= limit
    case Answer(data, _) => |data| <= limit
    case Notification(n, _) => Deliverable(n, limit)
  }

  ghost predicate AllSayable(acts: seq<Act>, limit: nat) {
    forall i :: 0 <= i < |acts| ==> Sayable(acts[i], limit)
  }

  /** The conversation goes on until something is lost. */
  ghost function Converse<V>(c: Codec<V>, ends: Ends<V>, acts: seq<Act>): seq<Outcome>
    requires AllSayable(acts, PRINTABLE)
    decreases |acts|
  {
    if acts == [] then [] else
      var (outcome, next) := Perform(c, ends, acts[0]);
      if outcome.Lost? || outcome.StuckAt? then [outcome] else [outcome] + Converse(c, next, acts[1..])
  }

  function Intended(act: Act): Outcome {
    match act
    case Request(data, maxsize) => Took(data[..Min(|data|, maxsize)])
    case Answer(data, maxsize) => Took(data[..Min(|data|, maxsize)])
    case Notification(n, _) => Showed(if n.Canc? then None else Some(n))
  }

  function AllIntended(acts: seq<Act>): seq<Outcome> {
    if acts == [] then [] else [Intended(acts[0])] + AllIntended(acts[1..])
  }

  /**
    From equal vectors an act has its intended outcome, and leaves the vectors equal, lookups included, if it is
    within the limit; otherwise it is lost.
   */
  lemma PerformExactly<V(!new)>(c: Codec<V>, v: V, act: Act)
    requires Exact(c) && PACKET_SIZE <= c.limit && Sayable(act, PRINTABLE)
    ensures var (outcome, next) := Perform(c, Ends(v, v), act);
      if Sayable(act, c.limit) then outcome == Intended(act) && next.client == next.server else outcome.Lost?
  {
    match act
    case Request(data, _) => assert c.wire(v, data) + [] == c.wire(v, data);
    case Answer(data, _) => assert c.wire(v, data) + [] == c.wire(v, data);
    case Notification(n, scene) =>
      hide Exact, OnLane, Hear, Packets, AfterNotice, AfterLookUps, LookUpTimes;
      assert OnPush(Packets(n)) + [] == OnPush(Packets(n));
      if Deliverable(n, c.limit) {
        AgreesWithItself(c, v);
        AgreesWithItself(c, AfterNotice(c, v, n));
        HandlePrinted(c, v, Ends(v, AfterNotice(c, v, n)), n, [], scene);
      } else {
        HearOversized(c, v, n, []);
      }
  }

  /** How many acts go by before the first that is beyond the limit. */
  function Fitting(acts: seq<Act>, limit: nat): (k: nat)
    ensures k <= |acts|
    ensures k == |acts| <==> AllSayable(acts, limit)
  {
    if acts == [] || !Sayable(acts[0], limit) then 0
    else
      assert AllSayable(acts, limit) <==> AllSayable(acts[1..], limit) by {
        assert forall i :: 0 < i < |acts| ==> acts[i] == acts[1..][i - 1];
      }
      1 + Fitting(acts[1..], limit)
  }

  /**
    Every conversation, of any length and in any mixture, goes as intended up to the first act that is beyond the
    limit, and ends there.
   */
  lemma {:induction false} ConverseExactly<V(!new)>(c: Codec<V>, v: V, acts: seq<Act>)
    requires Exact(c) && PACKET_SIZE <= c.limit && AllSayable(acts, PRINTABLE)
    ensures var k := Fitting(acts, c.limit);
      Converse(c, Ends(v, v), acts) == AllIntended(acts[..k]) + (if k < |acts| then [Lost] else [])
    decreases |acts|
  {
    hide Perform, Exact;
    if acts == [] {
    } else {
      PerformExactly(c, v, acts[0]);
      var next := Perform(c, Ends(v, v), acts[0]).1;
      var k := Fitting(acts, c.limit);
      if Sayable(acts[0], c.limit) {
        assert next == Ends(next.client, next.client);
        ConverseExactly(c, next.client, acts[1..]);
        assert acts[..k][0] == acts[0] && acts[..k][1..] == acts[1..][..k - 1];
        Concat([Intended(acts[0])], AllIntended(acts[1..][..k - 1]), if k < |acts| then [Lost] else []);
      } else {
        assert acts[..0] == [];
      }
    }
  }

  // ----- what the client makes of it -----

  function ShownIn(outcomes: seq<Outcome>): seq<Notice> {
    if outcomes == [] then []
    else (if outcomes[0].Showed? then Shown(outcomes[0].n) else []) + ShownIn(outcomes[1..])
  }

  /** The notifications among the acts. */
  function Pushed(acts: seq<Act>): seq<Notice> {
    if acts == [] then [] else (if acts[0].Notification? then [acts[0].n] else []) + Pushed(acts[1..])
  }

  lemma {:induction false} ShownIntended(acts: seq<Act>)
    ensures ShownIn(AllIntended(acts)) == Visible(Pushed(acts))
  {
    if acts == [] {
    } else {
      ShownIntended(acts[1..]);
      var rest := Pushed(acts[1..]);
      assert AllIntended(acts)[1..] == AllIntended(acts[1..]);
      if acts[0].Notification? {
        assert Pushed(acts) == [acts[0].n] + rest && Pushed(acts)[1..] == rest;
      } else {
        assert Pushed(acts) == rest;
      }
    }
  }

  /** In a conversation within the limit the handler shows exactly what was pushed, but for the cancellations. */
  lemma ConversationShows<V(!new)>(c: Codec<V>, v: V, acts: seq<Act>)
    requires Exact(c) && PACKET_SIZE <= c.limit && c.limit <= PRINTABLE && AllSayable(acts, c.limit)
    ensures AllSayable(acts, PRINTABLE)
    ensures ShownIn(Converse(c, Ends(v, v), acts)) == Visible(Pushed(acts))
  {
    hide Converse, AllIntended, ShownIn, Pushed, Visible, Exact;
    ConverseExactly(c, v, acts);
    ShownIntended(acts);
    assert acts[..|acts|] == acts && AllIntended(acts) + [] == AllIntended(acts);
  }
}
