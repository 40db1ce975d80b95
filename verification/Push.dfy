/** Notifications on the push socket: how the server writes them and how `client_msg_handler` reads them. */
module Push {
  import opened Bytes
  import opened Transfer
  import opened Cbc
  import opened Packet
  import opened Session
  import opened Lookup

  // ----- the notifications -----

  datatype Notice =
    | Mesg(from: u32, body: seq<byte>)
    | File(from: u32, size: u32, name: seq<byte>)
    | Onli(uid: u32, disconnect: u32, ip: u32)
    | Name(from: u32, name: seq<byte>)
    | Dawg(from: u32)
    | Helo(from: u32)
    | Died(from: u32)
    | Grup(from: u32, gid: u32)
    | Gmsg(from: u32, gid: u32, body: seq<byte>)
    | Canc

  const BROADCAST: u32 := 0xFFFF_FFFF

  // The four characters of each magic as one big-endian constant.
  const MESG: u32 := 0x4D455347
  const FILE: u32 := 0x46494C45
  const ONLI: u32 := 0x4F4E4C49
  const NAME: u32 := 0x4E414D45
  const DAWG: u32 := 0x44415747
  const HELO: u32 := 0x48454C4F
  const DIED: u32 := 0x44494544
  const GRUP: u32 := 0x47525550
  const GMSG: u32 := 0x474D5347
  const CANC: u32 := 0x43414E43

  /** `USER_MSG` */
  function UserMsg(magic: u32, uid: u32, msglen: u32): (h: seq<byte>)
    ensures |h| == 12
  {
    Le(magic, 4) + Le(uid, 4) + Le(msglen, 4)
  }

  /** The fields are in range: a file name fills its 40 characters, and lengths are 32-bit. */
  predicate WellFormed(n: Notice) {
    && (n.File? ==> |n.name| == 40)
    && (n.Mesg? ==> |n.body| < WORD)
    && (n.Name? ==> |n.name| < WORD)
    && (n.Gmsg? ==> |n.body| + 4 < WORD)
  }

  /** The packets the server writes for one notification. */
  function Packets(n: Notice): (ps: seq<seq<byte>>)
    requires WellFormed(n)
    ensures 1 <= |ps| <= 2
  {
    match n
    case Mesg(from, body) => [UserMsg(MESG, from, |body|), body]
    case File(from, size, name) => [UserMsg(FILE, from, 44), Le(size, 4) + name]
    case Onli(uid, disconnect, ip) => [UserMsg(ONLI, BROADCAST, 12), Le(disconnect, 4) + Le(uid, 4) + Le(ip, 4)]
    case Name(from, name) => [UserMsg(NAME, from, |name|), name]
    case Dawg(from) => [UserMsg(DAWG, from, 0)]
    case Helo(from) => [UserMsg(HELO, from, 0)]
    case Died(from) => [UserMsg(DIED, from, 0)]
    case Grup(from, gid) => [UserMsg(GRUP, from, 4), Le(gid, 4)]
    case Gmsg(from, gid, body) => [UserMsg(GMSG, from, |body| + 4), Le(gid, 4) + body]
    case Canc => [UserMsg(CANC, BROADCAST, 0)]
  }

  // ----- the client's reading of one notification -----

  predicate HasPayload(magic: u32) {
    magic == MESG || magic == FILE || magic == ONLI || magic == NAME || magic == GRUP || magic == GMSG
  }

  /** The fields the handler takes from a payload; none if it would read past the bytes that arrived. */
  function Payload(magic: u32, uid: u32, msglen: u32, p: seq<byte>): Option<Notice>
    requires HasPayload(magic)
  {
    if magic == MESG then (if |p| == msglen then Some(Mesg(uid, p)) else None)
    else if magic == NAME then (if |p| == msglen then Some(Name(uid, p)) else None)
    else if magic == FILE then (if |p| >= 44 then Some(File(uid, Word(p, 0), p[4..44])) else None)
    else if magic == ONLI then (if |p| >= 12 then Some(Onli(Word(p, 4), Word(p, 0), Word(p, 8))) else None)
    else if magic == GRUP then (if |p| >= 4 then Some(Grup(uid, Word(p, 0))) else None)
    else (if |p| == msglen && msglen >= 4 then Some(Gmsg(uid, Word(p, 0), p[4..])) else None)
  }

  function Bare(magic: u32, uid: u32): Option<Notice> {
    if magic == DAWG then Some(Dawg(uid))
    else if magic == HELO then Some(Helo(uid))
    else if magic == DIED then Some(Died(uid))
    else None
  }

  /**
    What the handler reads in one turn of its loop: a notification, if the magic is one it knows, and where it
    reads on.
   */
  datatype Reading<+V> = Reading(n: Option<Notice>, rest: seq<byte>, iv: V) | Unread

  function Hear<V>(c: Codec<V>, iv: V, wire: seq<byte>): Reading<V> {
    match c.read(iv, wire, MAX_PACKET)
    case Failed => Unread
    case Got(h, rest, next) =>
      if |h| < 12 then Unread
      else if HasPayload(Word(h, 0)) then
        match c.read(next, rest, Word(h, 8)) {
          case Failed => Unread
          case Got(p, rest, next) =>
            var n := Payload(Word(h, 0), Word(h, 4), Word(h, 8), p);
            if n.Some? then Reading(n, rest, next) else Unread
        }
      else Reading(Bare(Word(h, 0), Word(h, 4)), rest, next)
  }

  // ----- and what it asks the server before it reads on -----

  /**
    What a turn finds: whether a chat window for the sender or group is open and whether the history file opens
    on the client's side, and the user table on the server's when the window and when the history ask for a name.
   */
  datatype Scene = Scene(window: bool, history: bool, atWindow: Names, atHistory: Names)

  /** The tables of the lookups the handler makes before it goes on, which are as many. */
  function Lookups(n: Notice, scene: Scene): seq<Names> {
    var noted := if scene.history then [scene.atHistory] else [];
    match n
    case Mesg(_, _) => [scene.atWindow] + noted
    case File(_, _, _) => [scene.atWindow]
    case Onli(_, _, _) => [scene.atWindow]
    case Gmsg(_, _, _) => (if scene.window then [scene.atWindow] else []) + noted
    case _ => []
  }

  /** Whose name. */
  function LookedUp(n: Notice): u32 {
    match n
    case Onli(uid, _, _) => uid
    case Canc => 0
    case _ => n.from
  }

  /**
    One name after a message, a file offer and a login, none or one after a group message; and one more for the
    history of a text.
   */
  lemma LookupsPerNotice(n: Notice, scene: Scene)
    ensures
      var texts := if (n.Mesg? || n.Gmsg?) && scene.history then 1 else 0;
      var windows := if n.Mesg? || n.File? || n.Onli? || (n.Gmsg? && scene.window) then 1 else 0;
      && |Lookups(n, scene)| == windows + texts
      && (windows == 1 ==> Lookups(n, scene)[0] == scene.atWindow)
      && (texts == 1 ==> Lookups(n, scene)[windows] == scene.atHistory)
    ensures n.Onli? ==> LookedUp(n) == n.uid
    ensures !n.Onli? && !n.Canc? ==> LookedUp(n) == n.from
  {}

  /**
    A whole turn: what was shown, and where the handler and the server stand after the lookups; or it showed a
    last notification and its lookup got no answer; or it could not read.
   */
  datatype Turn<+V> = Turn(shown: Option<Notice>, rest: seq<byte>, ends: Ends<V>) | Stuck(last: Notice) | Stop

  function Handle<V>(c: Codec<V>, ends: Ends<V>, wire: seq<byte>, scene: Scene): Turn<V> {
    match Hear(c, ends.client, wire)
    case Unread => Stop
    case Reading(n, rest, iv) =>
      if n.None? then Turn(None, rest, Ends(iv, ends.server)) else
        match LookUpTimes(c, Ends(iv, ends.server), LookedUp(n.value), Lookups(n.value, scene)) {
          case None => Stuck(n.value)
          case Some(next) => Turn(n, rest, next)
        }
  }

  function Shown(n: Option<Notice>): seq<Notice> { if n.Some? then [n.value] else [] }

  /**
    Everything the handler shows until it stops, from its `i`-th turn on. A turn that took nothing would also
    end it.
   */
  function HearAll<V>(c: Codec<V>, ends: Ends<V>, wire: seq<byte>, scenes: nat -> Scene, i: nat): seq<Notice>
    decreases |wire|
  {
    match Handle(c, ends, wire, scenes(i))
    case Stop => []
    case Stuck(n) => [n]
    case Turn(n, rest, next) =>
      if |rest| >= |wire| then [] else Shown(n) + HearAll(c, next, rest, scenes, i + 1)
  }

  lemma HearAllUnfold<V>(c: Codec<V>, ends: Ends<V>, wire: seq<byte>, scenes: nat -> Scene, i: nat)
    ensures var t := Handle(c, ends, wire, scenes(i));
      (t.Turn? ==> |t.rest| < |wire|) ==>
      HearAll(c, ends, wire, scenes, i) ==
        match t
        case Stop => []
        case Stuck(n) => [n]
        case Turn(n, rest, next) => Shown(n) + HearAll(c, next, rest, scenes, i + 1)
  {
    hide Handle;
  }

  // ----- printed notifications are heard -----

  ghost predicate AllWellFormed(notices: seq<Notice>) {
    forall i :: 0 <= i < |notices| ==> WellFormed(notices[i])
  }

  ghost function Items(notices: seq<Notice>): seq<Item>
    requires AllWellFormed(notices)
  {
    if notices == [] then [] else OnPush(Packets(notices[0])) + Items(notices[1..])
  }

  function OnPush(ps: seq<seq<byte>>): (q: seq<Item>)
    ensures |q| == |ps|
  {
    seq(|ps|, i requires 0 <= i < |ps| => Item(Lane.Push, ps[i]))
  }

  /** The client has no branch for a cancelled file: it reads the header and shows nothing. */
  function Visible(notices: seq<Notice>): seq<Notice> {
    if notices == [] then [] else (if notices[0].Canc? then [] else [notices[0]]) + Visible(notices[1..])
  }

  predicate Deliverable(n: Notice, limit: nat) {
    && WellFormed(n)
    && (n.Mesg? ==> |n.body| <= limit)
    && (n.Name? ==> |n.name| <= limit)
    && (n.Gmsg? ==> |n.body| + 4 <= limit)
  }

  lemma UserMsgFields(magic: u32, uid: u32, msglen: u32)
    ensures var h := UserMsg(magic, uid, msglen);
      Word(h, 0) == magic && Word(h, 4) == uid && Word(h, 8) == msglen
  {
    ThreeWords(magic, uid, msglen);
  }

  lemma ThreeWords(a: u32, b: u32, c: u32)
    ensures var s := Le(a, 4) + Le(b, 4) + Le(c, 4);
      Word(s, 0) == a && Word(s, 4) == b && Word(s, 8) == c
  {
    Slices(Le(a, 4), Le(b, 4), Le(c, 4));
    WordRoundTrip(a);
    WordRoundTrip(b);
    WordRoundTrip(c);
  }

  lemma Slices(a: seq<byte>, b: seq<byte>, c: seq<byte>)
    requires |a| == |b| == |c| == 4
    ensures var s := a + b + c;
      s[0..4] == a && s[4..8] == b && s[8..12] == c
  {}

  function Magic(n: Notice): u32 {
    match n
    case Mesg(_, _) => MESG
    case File(_, _, _) => FILE
    case Onli(_, _, _) => ONLI
    case Name(_, _) => NAME
    case Dawg(_) => DAWG
    case Helo(_) => HELO
    case Died(_) => DIED
    case Grup(_, _) => GRUP
    case Gmsg(_, _, _) => GMSG
    case Canc => CANC
  }

  /** What the handler makes of a header packet and, where the magic calls for one, the packet behind it. */
  ghost predicate Decodes(n: Notice)
    requires WellFormed(n)
  {
    var ps := Packets(n);
    var h := ps[0];
    && |h| == 12 && Word(h, 0) == Magic(n)
    && (|ps| == 2 <==> HasPayload(Magic(n)))
    && (|ps| == 2 ==> !n.Canc? && |ps[1]| == Word(h, 8) && Payload(Magic(n), Word(h, 4), Word(h, 8), ps[1]) == Some(n))
    && (|ps| == 1 ==> Bare(Magic(n), Word(h, 4)) == if n.Canc? then None else Some(n))
  }

  lemma TextDecodes(n: Notice)
    requires WellFormed(n) && (n.Mesg? || n.Name?)
    ensures Decodes(n)
  {
    UserMsgFields(Magic(n), n.from, if n.Mesg? then |n.body| else |n.name|);
  }

  lemma FileDecodes(n: Notice)
    requires WellFormed(n) && n.File?
    ensures Decodes(n)
  {
    UserMsgFields(FILE, n.from, 44);
    LeadingWord(n.size, n.name);
    assert (Le(n.size, 4) + n.name)[4..44] == n.name;
  }

  lemma OnliDecodes(n: Notice)
    requires WellFormed(n) && n.Onli?
    ensures Decodes(n)
  {
    UserMsgFields(ONLI, BROADCAST, 12);
    ThreeWords(n.disconnect, n.uid, n.ip);
  }

  lemma GroupDecodes(n: Notice)
    requires WellFormed(n) && (n.Grup? || n.Gmsg?)
    ensures Decodes(n)
  {
    var body := if n.Grup? then [] else n.body;
    UserMsgFields(Magic(n), n.from, |body| + 4);
    LeadingWord(n.gid, body);
    assert Le(n.gid, 4) + [] == Le(n.gid, 4);
  }

  lemma BareDecodes(n: Notice)
    requires WellFormed(n) && (n.Dawg? || n.Helo? || n.Died? || n.Canc?)
    ensures Decodes(n)
  {
    UserMsgFields(Magic(n), if n.Canc? then BROADCAST else n.from, 0);
  }

  /**
    Exactly the six magics with a payload are followed by one, of the announced length, and it decodes to the
    notification.
   */
  lemma PacketsDecode(n: Notice)
    requires WellFormed(n)
    ensures Decodes(n)
  {
    match n
    case Mesg(_, _) => TextDecodes(n);
    case Name(_, _) => TextDecodes(n);
    case File(_, _, _) => FileDecodes(n);
    case Onli(_, _, _) => OnliDecodes(n);
    case Grup(_, _) => GroupDecodes(n);
    case Gmsg(_, _, _) => GroupDecodes(n);
    case _ => BareDecodes(n);
  }

  function FourLetters(s: string): int
    requires |s| == 4
  {
    0x100_0000 * s[0] as int + 0x1_0000 * s[1] as int + 0x100 * s[2] as int + s[3] as int
  }

  lemma Magics()
    ensures MESG == FourLetters("MESG") && FILE == FourLetters("FILE") && ONLI == FourLetters("ONLI")
    ensures NAME == FourLetters("NAME") && DAWG == FourLetters("DAWG") && HELO == FourLetters("HELO")
    ensures DIED == FourLetters("DIED") && GRUP == FourLetters("GRUP") && GMSG == FourLetters("GMSG")
    ensures CANC == FourLetters("CANC") && PACK == FourLetters("PACK")
  {}

  /** A lone header means something with three magics, and each means its own. */
  lemma BareIff(magic: u32, uid: u32)
    ensures Bare(magic, uid) ==
      if magic == FourLetters("DAWG") then Some(Dawg(uid))
      else if magic == FourLetters("HELO") then Some(Helo(uid))
      else if magic == FourLetters("DIED") then Some(Died(uid))
      else None
    ensures HasPayload(magic) <==>
      magic in {FourLetters("MESG"), FourLetters("FILE"), FourLetters("ONLI"), FourLetters("NAME"), FourLetters("GRUP"),
                FourLetters("GMSG")}
  {
    Magics();
  }

  /**
    A payload is made sense of exactly when it is as long as its kind needs, or as its header says; and then as
    its kind.
   */
  lemma PayloadIff(magic: u32, uid: u32, msglen: u32, p: seq<byte>)
    requires HasPayload(magic)
    ensures
      var r := Payload(magic, uid, msglen, p);
      && (r.Some? <==>
        if magic == FILE then |p| >= 44 else if magic == ONLI then |p| >= 12 else if magic == GRUP then |p| >= 4
        else |p| == msglen && (magic == GMSG ==> msglen >= 4))
      && (r.Some? ==> Magic(r.value) == magic && (magic == ONLI || r.value.from == uid))
      && (r.Some? && magic == MESG ==> r.value.body == p)
      && (r.Some? && magic == NAME ==> r.value.name == p)
      && (r.Some? && magic == FILE ==> r.value.size == Word(p, 0) && r.value.name == p[4..44])
      && (r.Some? && magic == ONLI ==>
        r.value.disconnect == Word(p, 0) && r.value.uid == Word(p, 4) && r.value.ip == Word(p, 8))
      && (r.Some? && magic == GRUP ==> r.value.gid == Word(p, 0))
      && (r.Some? && magic == GMSG ==> r.value.gid == Word(p, 0) && r.value.body == p[4..])
  {
    hide Word;
  }

  /** What the two packets of a notification hold, word by word. */
  ghost predicate LaidOut(n: Notice)
    requires WellFormed(n)
  {
    var ps := Packets(n);
    var h, p := ps[0], if |ps| == 2 then ps[1] else [];
    && |h| == 12 && Word(h, 0) == Magic(n) && Word(h, 8) == |p|
    && Word(h, 4) == (if n.Onli? || n.Canc? then BROADCAST else n.from)
    && match n
       case Mesg(_, body) => p == body
       case File(_, size, name) => |p| == 44 && Word(p, 0) == size && p[4..] == name
       case Onli(uid, disconnect, ip) => |p| == 12 && Word(p, 0) == disconnect && Word(p, 4) == uid && Word(p, 8) == ip
       case Name(_, name) => p == name
       case Grup(_, gid) => |p| == 4 && Word(p, 0) == gid
       case Gmsg(_, gid, body) => |p| == |body| + 4 && Word(p, 0) == gid && p[4..] == body
       case _ => |ps| == 1
  }

  lemma PacketsLaidOut(n: Notice)
    requires WellFormed(n)
    ensures LaidOut(n)
  {
    hide UserMsg;
    var p := if |Packets(n)| == 2 then Packets(n)[1] else [];
    UserMsgFields(Magic(n), if n.Onli? || n.Canc? then BROADCAST else n.from, |p|);
    match n
    case File(_, size, name) => LeadingWord(size, name);
    case Onli(uid, disconnect, ip) => ThreeWords(disconnect, uid, ip);
    case Grup(_, gid) =>
      LeadingWord(gid, []);
      assert Le(gid, 4) + [] == Le(gid, 4);
    case Gmsg(_, gid, body) => LeadingWord(gid, body);
    case _ =>
  }

  lemma ReadFront<V(!new)>(c: Codec<V>, v: V, w: V, data: seq<byte>, rest: seq<Item>, maxsize: nat)
    requires Exact(c) && |data| <= c.limit
    ensures
      var queue := [Item(Lane.Push, data)] + rest;
      var next := c.after(v, data);
      var left := OnLane(c, next, rest, Lane.Push);
      && (c.read(w, OnLane(c, v, queue, Lane.Push), maxsize) == Got(data[..Min(|data|, maxsize)], left, next) <==>
        c.agrees(v, w))
      && Chain(c, v, queue) == Chain(c, next, rest)
      && |left| < |OnLane(c, v, queue, Lane.Push)|
  {
    assert ([Item(Lane.Push, data)] + rest)[1..] == rest;
    assert Arrives(c, v, w, data, OnLane(c, c.after(v, data), rest, Lane.Push), maxsize) <==> c.agrees(v, w);
  }

  lemma PayloadFits(n: Notice, limit: nat)
    requires Deliverable(n, limit) && 44 <= limit
    ensures var ps := Packets(n);
      |ps| == 2 ==> |ps[1]| <= limit
  {}

  /** The reading a lone header packet causes. */
  lemma HearHeader<V(!new)>(c: Codec<V>, v: V, w: V, h: seq<byte>, rest: seq<Item>)
    requires Exact(c) && 12 <= c.limit && c.agrees(v, w) && |h| == 12 && !HasPayload(Word(h, 0))
    ensures
      var queue := [Item(Lane.Push, h)] + rest;
      var next := c.after(v, h);
      var left := OnLane(c, next, rest, Lane.Push);
      && Hear(c, w, OnLane(c, v, queue, Lane.Push)) == Reading(Bare(Word(h, 0), Word(h, 4)), left, next)
      && |left| < |OnLane(c, v, queue, Lane.Push)|
  {
    hide Bare, Exact;
    assert h[..12] == h;
    ReadFront(c, v, w, h, rest, MAX_PACKET);
  }

  /** The reading a header packet causes together with the payload packet it announces. */
  lemma HearBoth<V(!new)>(c: Codec<V>, v: V, w: V, h: seq<byte>, p: seq<byte>, rest: seq<Item>)
    requires Exact(c) && 12 <= c.limit && c.agrees(v, w)
    requires |h| == 12 && HasPayload(Word(h, 0)) && |p| == Word(h, 8) && |p| <= c.limit
    ensures
      var queue := [Item(Lane.Push, h)] + ([Item(Lane.Push, p)] + rest);
      var next := c.after(c.after(v, h), p);
      var n := Payload(Word(h, 0), Word(h, 4), Word(h, 8), p);
      var left := OnLane(c, next, rest, Lane.Push);
      && Hear(c, w, OnLane(c, v, queue, Lane.Push)) == (if n.Some? then Reading(n, left, next) else Unread)
      && |left| < |OnLane(c, v, queue, Lane.Push)|
  {
    hide Payload, Bare, Exact;
    assert h[..12] == h && p[..|p|] == p;
    ReadFront(c, v, w, h, [Item(Lane.Push, p)] + rest, MAX_PACKET);
    AgreesWithItself(c, c.after(v, h));
    ReadFront(c, c.after(v, h), c.after(v, h), p, rest, |p|);
  }

  /** The vector after the packets of one notification. */
  function AfterNotice<V>(c: Codec<V>, v: V, n: Notice): V
    requires WellFormed(n)
  {
    Chain(c, v, OnPush(Packets(n)))
  }

  /**
    One printed notification, read under a vector that agrees with the one it was printed under, is read as
    that notification, and the handler then stands exactly behind it, on the printer's chain.
   */
  lemma HearPrinted<V(!new)>(c: Codec<V>, v: V, w: V, n: Notice, rest: seq<Item>)
    requires Exact(c) && 44 <= c.limit && Deliverable(n, c.limit) && c.agrees(v, w)
    ensures
      var queue := OnPush(Packets(n)) + rest;
      var next := AfterNotice(c, v, n);
      var left := OnLane(c, next, rest, Lane.Push);
      && Hear(c, w, OnLane(c, v, queue, Lane.Push)) == Reading(if n.Canc? then None else Some(n), left, next)
      && |left| < |OnLane(c, v, queue, Lane.Push)|
  {
    hide Hear, Payload, Bare, Packets, HasPayload, Word, Exact;
    PacketsDecode(n);
    PayloadFits(n, c.limit);
    var ps := Packets(n);
    var first := [Item(Lane.Push, ps[0])];
    if |ps| == 1 {
      assert OnPush(ps) == first && first[1..] == [];
      assert AfterNotice(c, v, n) == Chain(c, c.after(v, ps[0]), []);
      HearHeader(c, v, w, ps[0], rest);
    } else {
      var second := [Item(Lane.Push, ps[1])];
      assert OnPush(ps) == first + second;
      Concat(first, second, rest);
      assert (first + second)[1..] == second && second[1..] == [];
      assert Chain(c, c.after(v, ps[0]), second) == Chain(c, c.after(c.after(v, ps[0]), ps[1]), []);
      HearBoth(c, v, w, ps[0], ps[1], rest);
    }
  }

  ghost predicate AllDeliverable(notices: seq<Notice>, limit: nat) {
    forall i :: 0 <= i < |notices| ==> Deliverable(notices[i], limit)
  }

  /** Beyond this length the padded size no longer fits in 32 bits. */
  const PRINTABLE: nat := WORD - 17

  /** A payload beyond the limit ends the handler. */
  lemma HearOversized<V(!new)>(c: Codec<V>, v: V, n: Notice, rest: seq<Item>)
    requires Exact(c) && 44 <= c.limit && Deliverable(n, PRINTABLE) && !Deliverable(n, c.limit)
    ensures Hear(c, v, OnLane(c, v, OnPush(Packets(n)) + rest, Lane.Push)).Unread?
  {
    hide Payload, Bare;
    PacketsDecode(n);
    PayloadFits(n, PRINTABLE);
    var ps := Packets(n);
    var h, p := ps[0], ps[1];
    assert h[..12] == h;
    var second := [Item(Lane.Push, p)] + rest;
    assert OnPush(ps) + rest == [Item(Lane.Push, h)] + second;
    AgreesWithItself(c, v);
    ReadFront(c, v, v, h, second, MAX_PACKET);
    assert second[1..] == rest;
  }

  // ----- a queue of printed notifications -----

  /** Where client and server stand when a notification that left the client's vector at `v` has been looked up. */
  function Settled<V>(c: Codec<V>, v: V, server: V, n: Notice, scene: Scene): Ends<V> {
    if n.Canc? || |Lookups(n, scene)| == 0 then Ends(v, server)
    else
      var x := AfterLookUps(c, v, LookedUp(n), Lookups(n, scene));
      Ends(x, x)
  }

  predicate Asks(n: Notice, scene: Scene) { |Lookups(n, scene)| > 0 }

  /**
    A whole turn on the first of a queue of notifications printed from `v` on: the handler gets through it if and
    only if, where it looks something up, the server's vector, which is already at the end of the queue, agrees
    with its own.
   */
  lemma HandlePrinted<V(!new)>(c: Codec<V>, v: V, ends: Ends<V>, n: Notice, rest: seq<Item>,
                               scene: Scene)
    requires Exact(c) && PACKET_SIZE <= c.limit && Deliverable(n, c.limit) && c.agrees(v, ends.client)
    ensures
      var wire := OnLane(c, v, OnPush(Packets(n)) + rest, Lane.Push);
      var next := AfterNotice(c, v, n);
      var left := OnLane(c, next, rest, Lane.Push);
      && |left| < |wire|
      && Handle(c, ends, wire, scene) ==
         if !Asks(n, scene) || c.agrees(next, ends.server)
         then Turn(if n.Canc? then None else Some(n), left, Settled(c, next, ends.server, n, scene))
         else Stuck(n)
  {
    hide Hear, AfterNotice, Packets, OnPush, Exact, OnLane, AfterLookUps;
    HearPrinted(c, v, ends.client, n, rest);
    var next := AfterNotice(c, v, n);
    if Asks(n, scene) {
      LookUpTimesIff(c, Ends(next, ends.server), LookedUp(n), Lookups(n, scene));
    }
  }

  /**
    The vectors stay in touch over a queue printed from `v` on: each header can be read, and each lookup answered.
    The first lookup that is answered puts both ends on a new chain, off the one the rest of the queue is on.
   */
  ghost predicate InTouch<V(!new)>(c: Codec<V>, v: V, ends: Ends<V>, notices: seq<Notice>,
                                   scenes: nat -> Scene, i: nat)
    requires AllWellFormed(notices)
    decreases |notices|
  {
    notices == [] ||
    var n, next := notices[0], AfterNotice(c, v, notices[0]);
    && c.agrees(v, ends.client)
    && (Asks(n, scenes(i)) ==> c.agrees(next, ends.server))
    && InTouch(c, next, Settled(c, next, ends.server, n, scenes(i)), notices[1..], scenes, i + 1)
  }

  /** Each header is read as it was printed, leaving what follows it, and each turn goes through. */
  ghost predicate Smooth<V(!new)>(c: Codec<V>, v: V, ends: Ends<V>, notices: seq<Notice>,
                                  scenes: nat -> Scene, i: nat)
    requires AllWellFormed(notices)
    decreases |notices|
  {
    notices == [] ||
    var wire := OnLane(c, v, Items(notices), Lane.Push);
    var h := Packets(notices[0])[0];
    var behind := OnPush(Packets(notices[0])[1..]) + Items(notices[1..]);
    var t := Handle(c, ends, wire, scenes(i));
    && c.read(ends.client, wire, MAX_PACKET) == Got(h, OnLane(c, c.after(v, h), behind, Lane.Push), c.after(v, h))
    && t.Turn?
    && Smooth(c, AfterNotice(c, v, notices[0]), t.ends, notices[1..], scenes, i + 1)
  }

  /** The header in front of a queue arrives if and only if the vectors agree. */
  lemma HeaderArrivesIff<V(!new)>(c: Codec<V>, v: V, w: V, n: Notice, rest: seq<Item>)
    requires Exact(c) && 12 <= c.limit && WellFormed(n)
    ensures
      var h := Packets(n)[0];
      var behind := OnPush(Packets(n)[1..]) + rest;
      c.read(w, OnLane(c, v, OnPush(Packets(n)) + rest, Lane.Push), MAX_PACKET)
        == Got(h, OnLane(c, c.after(v, h), behind, Lane.Push), c.after(v, h))
      <==> c.agrees(v, w)
  {
    hide Exact, OnLane, Packets, Payload, Bare, Magic, HasPayload;
    PacketsDecode(n);
    var ps := Packets(n);
    var behind := OnPush(ps[1..]) + rest;
    assert OnPush(ps) + rest == [Item(Lane.Push, ps[0])] + behind;
    assert ps[0][..12] == ps[0];
    ReadFront(c, v, w, ps[0], behind, MAX_PACKET);
  }

  /** Every packet of a queue and of the lookups between arrives as written if and only if the vectors stay in touch. */
  lemma {:induction false} SmoothIff<V(!new)>(c: Codec<V>, v: V, ends: Ends<V>, notices: seq<Notice>,
                                              scenes: nat -> Scene, i: nat)
    requires Exact(c) && PACKET_SIZE <= c.limit && AllDeliverable(notices, c.limit) && AllWellFormed(notices)
    ensures Smooth(c, v, ends, notices, scenes, i) <==> InTouch(c, v, ends, notices, scenes, i)
    decreases |notices|
  {
    hide Handle, AfterNotice, Packets, OnPush, Exact, OnLane, Settled, Asks;
    if notices == [] {
    } else {
      var n, rest := notices[0], Items(notices[1..]);
      HeaderArrivesIff(c, v, ends.client, n, rest);
      if c.agrees(v, ends.client) {
        HandlePrinted(c, v, ends, n, rest, scenes(i));
        var next := AfterNotice(c, v, n);
        SmoothIff(c, next, Settled(c, next, ends.server, n, scenes(i)), notices[1..], scenes, i + 1);
      }
    }
  }

  /** While the vectors stay in touch the whole queue is shown, down to the last byte. */
  lemma {:induction false} HearAllPrinted<V(!new)>(c: Codec<V>, v: V, ends: Ends<V>, notices: seq<Notice>,
                                                   scenes: nat -> Scene, i: nat)
    requires Exact(c) && PACKET_SIZE <= c.limit && AllDeliverable(notices, c.limit) && AllWellFormed(notices)
    requires InTouch(c, v, ends, notices, scenes, i)
    ensures HearAll(c, ends, OnLane(c, v, Items(notices), Lane.Push), scenes, i) == Visible(notices)
    decreases |notices|
  {
    hide Handle, AfterNotice, Packets, OnPush, Exact, Settled, Asks;
    if notices == [] {
      NothingHeard(c, ends, scenes(i));
    } else {
      var n, next := notices[0], AfterNotice(c, v, notices[0]);
      HandlePrinted(c, v, ends, n, Items(notices[1..]), scenes(i));
      HearAllPrinted(c, next, Settled(c, next, ends.server, n, scenes(i)), notices[1..], scenes, i + 1);
    }
  }

  lemma NothingHeard<V(!new)>(c: Codec<V>, ends: Ends<V>, scene: Scene)
    requires Exact(c)
    ensures Handle(c, ends, [], scene).Stop?
  {}

  /** The handler reads the first `at` notifications without asking anything, and asks something about the next one. */
  ghost predicate FirstAsks(notices: seq<Notice>, scenes: nat -> Scene, i: nat, at: nat) {
    && at < |notices| && Asks(notices[at], scenes(i + at))
    && forall j :: 0 <= j < at ==> !Asks(notices[j], scenes(i + j))
  }

  ghost function AfterNotices<V>(c: Codec<V>, v: V, notices: seq<Notice>): V
    requires AllWellFormed(notices)
  {
    if notices == [] then v else AfterNotices(c, AfterNotice(c, v, notices[0]), notices[1..])
  }

  /**
    Otherwise the first lookup gets no answer, and the handler shows the queue up to that notification and
    nothing behind it.
   */
  lemma {:induction false} HearUntilAsked<V(!new)>(c: Codec<V>, v: V, server: V, notices: seq<Notice>,
                                                   scenes: nat -> Scene, i: nat, at: nat)
    requires Exact(c) && PACKET_SIZE <= c.limit && AllDeliverable(notices, c.limit) && AllWellFormed(notices)
    requires FirstAsks(notices, scenes, i, at) && !c.agrees(AfterNotices(c, v, notices[..at + 1]), server)
    ensures HearAll(c, Ends(v, server), OnLane(c, v, Items(notices), Lane.Push), scenes, i)
      == Visible(notices[..at + 1])
    decreases at
  {
    hide Handle, AfterNotice, Packets, OnPush, Exact, OnLane, Asks, HearAll, Settled;
    var n, next := notices[0], AfterNotice(c, v, notices[0]);
    assert notices[..at + 1][0] == n && notices[..at + 1][1..] == notices[1..][..at];
    AgreesWithItself(c, v);
    HandlePrinted(c, v, Ends(v, server), n, Items(notices[1..]), scenes(i));
    HearAllUnfold(c, Ends(v, server), OnLane(c, v, Items(notices), Lane.Push), scenes, i);
    if at == 0 {
      assert AfterNotices(c, v, notices[..1]) == next;
      AskedIsVisible(notices, scenes(i));
    } else {
      assert !Asks(n, scenes(i));
      SettledUnasked(c, next, server, n, scenes(i));
      HearUntilAsked(c, next, server, notices[1..], scenes, i + 1, at - 1);
    }
  }

  lemma AskedIsVisible(notices: seq<Notice>, scene: Scene)
    requires notices != [] && Asks(notices[0], scene)
    ensures Visible(notices[..1]) == [notices[0]]
  {
    assert notices[..1][1..] == [];
  }

  lemma SettledUnasked<V>(c: Codec<V>, v: V, server: V, n: Notice, scene: Scene)
    requires !Asks(n, scene)
    ensures Settled(c, v, server, n, scene) == Ends(v, server)
  {}

  /**
    A queue of which at most the last notification asks anything is heard whole: with the queue read, the
    vectors are equal.
   */
  lemma {:induction false} LastAsks<V(!new)>(c: Codec<V>, v: V, notices: seq<Notice>,
                                             scenes: nat -> Scene, i: nat)
    requires Exact(c) && AllWellFormed(notices)
    requires forall j :: 0 <= j < |notices| - 1 ==> !Asks(notices[j], scenes(i + j))
    ensures InTouch(c, v, Ends(v, AfterNotices(c, v, notices)), notices, scenes, i)
    decreases |notices|
  {
    hide AfterNotice, Exact, Asks;
    if notices == [] {
    } else {
      var n, next, server := notices[0], AfterNotice(c, v, notices[0]), AfterNotices(c, v, notices);
      AgreesWithItself(c, v);
      AgreesWithItself(c, next);
      if |notices| == 1 {
        assert notices[1..] == [] && AfterNotices(c, next, []) == next;
      } else {
        assert !Asks(n, scenes(i + 0));
        SettledUnasked(c, next, server, n, scenes(i));
        LastAsks(c, next, notices[1..], scenes, i + 1);
      }
    }
  }

  // ----- a queue that is lost -----

  lemma AfterTwo<V>(c: Codec<V>, v: V, a: Notice, b: Notice)
    requires WellFormed(a) && WellFormed(b)
    ensures AfterNotices(c, v, [a, b]) == AfterNotice(c, AfterNotice(c, v, a), b)
    ensures [a, b][..1] == [a] && AfterNotices(c, v, [a]) == AfterNotice(c, v, a)
  {
    hide AfterNotice;
    var next := AfterNotice(c, v, a);
    assert [a, b][1..] == [b] && [b][1..] == [] && [a][1..] == [];
    assert AfterNotices(c, next, [b]) == AfterNotices(c, AfterNotice(c, next, b), []);
    assert AfterNotices(c, next, []) == next;
  }

  lemma DeliverableBoth(a: Notice, b: Notice, limit: nat)
    requires Deliverable(a, limit) && Deliverable(b, limit)
    ensures AllDeliverable([a, b], limit) && AllWellFormed([a, b]) && WellFormed(a) && WellFormed(b)
  {}

  /** What is shown of notifications all printed before any of them is read. */
  ghost function ShownTogether<V>(c: Codec<V>, v: V, notices: seq<Notice>, scenes: nat -> Scene): seq<Notice> {
    if !AllWellFormed(notices) then []
    else HearAll(c, Ends(v, AfterNotices(c, v, notices)), OnLane(c, v, Items(notices), Lane.Push), scenes, 0)
  }

  /** Of two notifications printed together only the first is shown. */
  ghost predicate OnlyFirst<V>(c: Codec<V>, v: V, first: Notice, second: Notice, scenes: nat -> Scene) {
    ShownTogether(c, v, [first, second], scenes) == [first]
  }

  /**
    Of two notifications in flight, the first looked up, the second is shown only if the vectors before and
    after it agree.
   */
  lemma SecondLost<V(!new)>(c: Codec<V>, v: V, first: Notice, second: Notice, scenes: nat -> Scene)
    requires Exact(c) && PACKET_SIZE <= c.limit && Deliverable(first, c.limit) && Deliverable(second, c.limit)
    requires var next := AfterNotice(c, v, first);
      Asks(first, scenes(0)) && !c.agrees(next, AfterNotice(c, next, second))
    ensures OnlyFirst(c, v, first, second, scenes)
  {
    hide Exact, HearAll, OnLane, AfterNotice, AfterNotices, Packets, Deliverable, Asks;
    var notices := [first, second];
    DeliverableBoth(first, second, c.limit);
    AfterTwo(c, v, first, second);
    HearUntilAsked(c, v, AfterNotices(c, v, notices), notices, scenes, 0, 0);
    AskedIsVisible(notices, scenes(0));
    assert ShownTogether(c, v, notices, scenes) == Visible(notices[..1]);
  }

  lemma LoginThenText<V(!new)>(c: Codec<V>, v: V, uid: u32, ip: u32, from: u32, body: seq<byte>, scenes: nat -> Scene)
    requires Exact(c) && PACKET_SIZE <= c.limit && |body| == 15
    requires var next := AfterNotice(c, v, Onli(uid, 0, ip));
      !c.agrees(next, AfterNotice(c, next, Mesg(from, body)))
    ensures OnlyFirst(c, v, Onli(uid, 0, ip), Mesg(from, body), scenes)
  {
    hide Exact, OnlyFirst, AfterNotice;
    SecondLost(c, v, Onli(uid, 0, ip), Mesg(from, body), scenes);
  }

  lemma AfterMesg<V>(c: Codec<V>, v: V, from: u32, body: seq<byte>)
    requires |body| == 15
    ensures AfterNotice(c, v, Mesg(from, body)) == c.after(c.after(v, UserMsg(MESG, from, 15)), body)
  {
    var h := UserMsg(MESG, from, 15);
    assert Packets(Mesg(from, body)) == [h, body];
    assert OnPush([h, body])[1..] == OnPush([body]) && OnPush([body])[1..] == [];
    assert Chain(c, c.after(v, h), OnPush([body])) == Chain(c, c.after(c.after(v, h), body), []);
    assert Chain(c, c.after(c.after(v, h), body), []) == c.after(c.after(v, h), body);
  }

  /**
    Whatever the key, and whatever two vectors, some text of fifteen bytes leads from the second to one that
    disagrees with the first.
   */
  lemma SomeTextMoves(k: Key, v: seq<byte>, w: seq<byte>)
    ensures exists body :: |body| == 15 && !PacketCodec(k).agrees(v, PacketCodec(k).after(w, body))
  {
    hide HeaderSurvives, AfterWire;
    SomeTextDisagrees(k, Vector(v), Vector(w));
    var body :| |body| == 15 && !HeaderSurvives(Vector(v), AfterWire(k, Vector(w), body));
    assert !PacketCodec(k).agrees(v, PacketCodec(k).after(w, body));
  }

  /**
    Two notifications in flight, the first a login and the second a message: whatever the key and the vector,
    and whoever they are about, there is a text of which the handler shows nothing. It shows the login, and asks
    for a name the server cannot hear it ask for.
   */
  lemma TwoInFlightLost(k: Key, v: seq<byte>, uid: u32, ip: u32, from: u32, scenes: nat -> Scene)
    ensures exists body :: |body| == 15 && OnlyFirst(PacketCodec(k), v, Onli(uid, 0, ip), Mesg(from, body), scenes)
  {
    var c, first := PacketCodec(k), Onli(uid, 0, ip);
    PacketCodecExact(k);
    hide Exact, OnlyFirst, AfterNotice;
    var next := AfterNotice(c, v, first);
    SomeTextMoves(k, next, c.after(next, UserMsg(MESG, from, 15)));
    var body :| |body| == 15 && !c.agrees(next, c.after(c.after(next, UserMsg(MESG, from, 15)), body));
    AfterMesg(c, next, from, body);
    LoginThenText(c, v, uid, ip, from, body, scenes);
    assert OnlyFirst(c, v, first, Mesg(from, body), scenes);
  }

  // ----- the handler itself -----

  /** `g_FileSz`: the size in the last file offer. */
  function LastFileSize(shown: seq<Notice>, initial: u32): u32 {
    if shown == [] then initial
    else if shown[|shown| - 1].File? then shown[|shown| - 1].size
    else LastFileSize(shown[..|shown| - 1], initial)
  }

  lemma LastFileSizeNext(shown: seq<Notice>, n: Option<Notice>, initial: u32)
    ensures LastFileSize(shown + Shown(n), initial)
      == (if n.Some? && n.value.File? then n.value.size else LastFileSize(shown, initial))
  {
    if n.Some? {
      assert (shown + Shown(n))[..|shown|] == shown;
    } else {
      assert shown + [] == shown;
    }
  }

  /** The reading half of a turn: the header packet and, where its magic calls for one, the payload packet. */
  method HearOne(push: Pipe, k: Key, iv: array<byte>) returns (going: bool, n: Option<Notice>)
    requires iv.Length == 16
    modifies push`data, iv
    ensures going ==> Hear(PacketCodec(k), old(iv[..]), old(push.data)) == Reading(n, push.data, iv[..])
    ensures going ==> |push.data| < |old(push.data)|
    ensures !going && push.reliable ==> Hear(PacketCodec(k), old(iv[..]), old(push.data)).Unread?
  {
    hide PacketCodec;
    var h := Take(push, MAX_PACKET, k, iv);
    if h.None? || |h.value| < 12 {
      return false, None;
    }
    var magic, uid, msglen := Word(h.value, 0), Word(h.value, 4), Word(h.value, 8);
    if HasPayload(magic) {
      var p := Take(push, msglen, k, iv);
      if p.None? {
        return false, None;
      }
      n := Payload(magic, uid, msglen, p.value);
      return n.Some?, n;
    }
    return true, Bare(magic, uid);
  }

  /** The lookups of a turn, one after another, until one gets no answer. */
  method LookUpAll(up: Pipe, down: Pipe, peer: Peer, k: Key, iv: array<byte>, uid: u32, tables: seq<Names>)
    returns (answered: bool)
    requires iv.Length == 16 && peer.iv.Length == 16 && iv != peer.iv && peer.k == k
    requires up != down && up.reliable && down.reliable && up.data == down.data == []
    modifies up`data, down`data, iv, peer.iv
    ensures
      var r := LookUpTimes(PacketCodec(k), old(Ends(iv[..], peer.iv[..])), uid, tables);
      && answered == r.Some?
      && (answered ==> r.value == Ends(iv[..], peer.iv[..]) && up.data == down.data == [])
  {
    hide PacketCodec, LookUp;
    var i := 0;
    while i < |tables|
      invariant 0 <= i <= |tables| && up.data == down.data == []
      invariant LookUpTimes(PacketCodec(k), Ends(iv[..], peer.iv[..]), uid, tables[i..])
        == LookUpTimes(PacketCodec(k), old(Ends(iv[..], peer.iv[..])), uid, tables)
    {
      assert tables[i..][0] == tables[i] && tables[i..][1..] == tables[i + 1..];
      var r := QueryUserName(up, down, peer, k, iv, uid, tables[i]);
      if r.Unanswered? {
        return false;
      }
      i := i + 1;
    }
    return true;
  }

  /** One turn of the loop, lookups and all; `shown` is what it showed, also if it then gets stuck. */
  method HandleOne(push: Pipe, up: Pipe, down: Pipe, peer: Peer, k: Key, iv: array<byte>, scene: Scene)
    returns (going: bool, n: Option<Notice>)
    requires iv.Length == 16 && peer.iv.Length == 16 && iv != peer.iv && peer.k == k
    requires push != up && push != down && up != down && up.reliable && down.reliable && up.data == down.data == []
    modifies push`data, up`data, down`data, iv, peer.iv
    ensures
      var t := Handle(PacketCodec(k), old(Ends(iv[..], peer.iv[..])), old(push.data), scene);
      && (going ==> t == Turn(n, push.data, Ends(iv[..], peer.iv[..])) && up.data == down.data == [])
      && (going ==> |push.data| < |old(push.data)|)
      && (!going && n.Some? ==> t == Stuck(n.value))
      && (!going && n.None? && push.reliable ==> t.Stop?)
  {
    hide PacketCodec, Hear, LookUpTimes, Lookups;
    going, n := HearOne(push, k, iv);
    if !going {
      return false, None;
    }
    if n.Some? {
      going := LookUpAll(up, down, peer, k, iv, LookedUp(n.value), Lookups(n.value, scene));
    }
  }

  /** `client_msg_handler`: it runs until a read fails or a lookup gets no answer. */
  method ClientMsgHandler(push: Pipe, up: Pipe, down: Pipe, peer: Peer, k: Key, iv: array<byte>, scenes: nat -> Scene,
                          initial: u32)
    returns (shown: seq<Notice>, fileSize: u32)
    requires iv.Length == 16 && peer.iv.Length == 16 && iv != peer.iv && peer.k == k
    requires push != up && push != down && up != down && up.reliable && down.reliable && up.data == down.data == []
    modifies push`data, up`data, down`data, iv, peer.iv
    ensures
      var all := HearAll(PacketCodec(k), old(Ends(iv[..], peer.iv[..])), old(push.data), scenes, 0);
      && shown <= all
      && (push.reliable ==> shown == all)
    ensures fileSize == LastFileSize(shown, initial)
  {
    hide PacketCodec, Handle, HearAll;
    shown, fileSize := [], initial;
    ghost var all := HearAll(PacketCodec(k), Ends(iv[..], peer.iv[..]), push.data, scenes, 0);
    ghost var left := all;
    var going, turn := true, 0;
    while going
      invariant shown + left == all
      invariant going ==> up.data == down.data == []
      invariant going ==>
        left == HearAll(PacketCodec(k), Ends(iv[..], peer.iv[..]), push.data, scenes, turn)
      invariant !going && push.reliable ==> left == []
      invariant fileSize == LastFileSize(shown, initial)
      decreases going, |push.data|
    {
      HearAllUnfold(PacketCodec(k), Ends(iv[..], peer.iv[..]), push.data, scenes, turn);
      var n;
      going, n := HandleOne(push, up, down, peer, k, iv, scenes(turn));
      turn := turn + 1;
      if going {
        left := HearAll(PacketCodec(k), Ends(iv[..], peer.iv[..]), push.data, scenes, turn);
      } else if n.Some? || push.reliable {
        left := [];
      }
      LastFileSizeNext(shown, n, initial);
      Concat(shown, Shown(n), left);
      if n.Some? {
        if n.value.File? {
          fileSize := n.value.size;
        }
        shown := shown + [n.value];
      } else {
        assert Shown(n) + left == left;
      }
    }
    assert shown <= shown + left;
  }
}
