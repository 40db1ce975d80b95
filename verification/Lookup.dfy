/** `QueryUserName`: a GETNAME request and its answer, on the command socket but over the session's one vector. */
module Lookup {
  import opened Bytes
  import opened Transfer
  import opened Cbc
  import opened Packet
  import opened Session

  // ----- the packets -----

  const PACK: u32 := 0x5041434B
  const PTYPE_GETNAME: u32 := 8
  const PTYPE_GNRESULT: u32 := 0x88

  /** `sizeof(PACKET)`: three words and the largest of the request bodies. */
  const PACKET_SIZE: nat := 76

  function Word(s: seq<byte>, i: nat): u32
    requires i + 4 <= |s|
  {
    FromLeWord(s[i..i + 4]);
    FromLe(s[i..i + 4])
  }

  /** A `PACKET`: magic, timestamp, type, and 64 bytes of body. */
  function PacketOf(ptype: u32, body: seq<byte>): (p: seq<byte>)
    requires |body| == 64
    ensures |p| == PACKET_SIZE
  {
    Le(PACK, 4) + Le(0, 4) + Le(ptype, 4) + body
  }

  lemma PacketFields(ptype: u32, body: seq<byte>)
    requires |body| == 64
    ensures var p := PacketOf(ptype, body);
      Word(p, 0) == PACK && Word(p, 4) == 0 && Word(p, 8) == ptype && p[12..] == body
  {
    var p := PacketOf(ptype, body);
    WordRoundTrip(0);
    assert p[4..8] == Le(0, 4);
    assert p[0..4] == Le(PACK, 4) && p[8..12] == Le(ptype, 4);
    WordRoundTrip(PACK);
    WordRoundTrip(ptype);
  }

  /** The first two words of the body are the next two of the packet. */
  lemma BodyWords(ptype: u32, body: seq<byte>)
    requires |body| == 64
    ensures var p := PacketOf(ptype, body);
      Word(p, 12) == Word(body, 0) && Word(p, 16) == Word(body, 4)
  {
    PacketFields(ptype, body);
    var p := PacketOf(ptype, body);
    assert p[12..16] == p[12..][0..4] && p[16..20] == p[12..][4..8];
  }

  lemma LeadingWord(a: u32, tail: seq<byte>)
    ensures var s := Le(a, 4) + tail;
      Word(s, 0) == a && s[4..] == tail
  {
    var s := Le(a, 4) + tail;
    assert s[0..4] == Le(a, 4) && s[4..] == tail;
    WordRoundTrip(a);
  }

  /** `protocol_BuildGetNamePacket` */
  function GetName(uid: u32): (p: seq<byte>)
    ensures |p| == PACKET_SIZE
  {
    PacketOf(PTYPE_GETNAME, Le(uid, 4) + Zeros(60))
  }

  /** `strncpy` of at most 31 bytes into 32 zeros. */
  function NameField(name: seq<byte>): (s: seq<byte>)
    ensures |s| == 32
  {
    name[..Min(|name|, 31)] + Zeros(32 - Min(|name|, 31))
  }

  /** `protocol_BuildGNResult` */
  function NameResult(name: Option<seq<byte>>): (p: seq<byte>)
    ensures |p| == PACKET_SIZE
  {
    var result: u32 := if name.Some? then 0 else WORD - 1;
    var field := if name.Some? then NameField(name.value) else Zeros(32);
    PacketOf(PTYPE_GNRESULT, Le(result, 4) + (field + Zeros(28)))
  }

  /** The names in the user table at some moment. */
  type Names = u32 -> Option<seq<byte>>

  /**
    The GETNAME branch of `in_handler`, which any connection reaches: the answer to a packet, if it is such a
    request.
   */
  function AnswerTo(names: Names, p: seq<byte>): (a: Option<seq<byte>>)
    ensures a.Some? ==> |p| >= PACKET_SIZE && |a.value| == PACKET_SIZE
  {
    if |p| < PACKET_SIZE || Word(p, 0) != PACK || Word(p, 8) != PTYPE_GETNAME then None
    else Some(NameResult(names(Word(p, 12))))
  }

  /** `protocol_ParseGNResultPacket` and the copy after it: the user's name, if the result is zero. */
  function NameIn(p: seq<byte>): Option<seq<byte>>
    requires |p| >= PACKET_SIZE
  {
    if Word(p, 0) != PACK || Word(p, 8) != PTYPE_GNRESULT || Word(p, 12) != 0 then None else Some(p[16..48])
  }

  /** Only a packet of full size with the right magic and type is answered, and then for the uid it carries. */
  lemma AnsweredIff(names: Names, p: seq<byte>)
    ensures var a := AnswerTo(names, p);
      && (a.Some? <==> |p| >= PACKET_SIZE && Word(p, 0) == PACK && Word(p, 8) == PTYPE_GETNAME)
      && (a.Some? ==> IsNameOf(NameIn(a.value), names(Word(p, 12))))
  {
    hide NameIn, NameResult, IsNameOf, Word;
    if |p| >= PACKET_SIZE {
      NameInResult(names(Word(p, 12)));
    }
  }

  lemma GetNameAnswered(names: Names, uid: u32)
    ensures AnswerTo(names, GetName(uid)) == Some(NameResult(names(uid)))
  {
    hide GetName, Word;
    GetNameFields(uid);
  }

  /** `got` is the name `stored`, its first 31 bytes at most, filled up with zeros to 32; or neither is there. */
  predicate IsNameOf(got: Option<seq<byte>>, stored: Option<seq<byte>>) {
    if stored.None? then got.None?
    else
      && got.Some? && |got.value| == 32
      && (forall i :: 0 <= i < 31 && i < |stored.value| ==> got.value[i] == stored.value[i])
      && (forall i :: 0 <= i < 32 && (i >= |stored.value| || i == 31) ==> got.value[i] == 0)
  }

  /** The client takes from the answer the name that is stored. */
  lemma NameInResult(name: Option<seq<byte>>)
    ensures IsNameOf(NameIn(NameResult(name)), name)
  {
    ResultFields(name);
    NameFieldBytes(if name.Some? then name.value else []);
  }

  lemma NameFieldBytes(name: seq<byte>)
    ensures IsNameOf(Some(NameField(name)), Some(name))
  {}

  /** The bytes up to the first zero, or all of them. */
  function CString(s: seq<byte>): seq<byte> {
    if s == [] || s[0] == 0 then [] else [s[0]] + CString(s[1..])
  }

  /** So as a C string a name of at most 31 bytes comes back as it was stored. */
  lemma NameRecovered(got: seq<byte>, name: seq<byte>)
    requires IsNameOf(Some(got), Some(name)) && |name| <= 31 && forall i :: 0 <= i < |name| ==> name[i] != 0
    ensures CString(got) == name
  {
    assert got[..|name|] == name;
    CStringPrefix(got, |name|);
  }

  lemma {:induction false} CStringPrefix(s: seq<byte>, n: nat)
    requires n < |s| && s[n] == 0 && forall i :: 0 <= i < n ==> s[i] != 0
    ensures CString(s) == s[..n]
  {
    if n == 0 {
    } else {
      CStringPrefix(s[1..], n - 1);
    }
  }

  /** The words of an answer: magic, type, result, and then the name as a field of 32 bytes. */
  lemma ResultFields(name: Option<seq<byte>>)
    ensures var p := NameResult(name);
      && Word(p, 0) == PACK && Word(p, 8) == PTYPE_GNRESULT && Word(p, 12) == (if name.Some? then 0 else WORD - 1)
      && NameIn(p) == (if name.Some? then Some(NameField(name.value)) else None)
      && Word(p, 4) == 0 && forall i :: 48 <= i < PACKET_SIZE ==> p[i] == 0
  {
    hide PacketOf, Word, NameField;
    var result: u32 := if name.Some? then 0 else WORD - 1;
    var field := if name.Some? then NameField(name.value) else Zeros(32);
    var body := Le(result, 4) + (field + Zeros(28));
    LeadingWord(result, field + Zeros(28));
    PacketFields(PTYPE_GNRESULT, body);
    BodyWords(PTYPE_GNRESULT, body);
    var p := PacketOf(PTYPE_GNRESULT, body);
    assert p[16..48] == p[12..][4..][..32] == field;
    assert forall i :: 48 <= i < PACKET_SIZE ==> p[i] == body[i - 12] && body[i - 12] == Zeros(28)[i - 48];
  }

  /** The words of a request: magic, type, and the uid; all else is zero. */
  lemma GetNameFields(uid: u32)
    ensures var p := GetName(uid);
      && Word(p, 0) == PACK && Word(p, 4) == 0 && Word(p, 8) == PTYPE_GETNAME && Word(p, 12) == uid
      && forall i :: 16 <= i < PACKET_SIZE ==> p[i] == 0
  {
    var p := GetName(uid);
    assert forall i :: 16 <= i < PACKET_SIZE ==> p[i] == (Le(uid, 4) + Zeros(60))[i - 12];
    hide PacketOf, Word;
    LeadingWord(uid, Zeros(60));
    PacketFields(PTYPE_GETNAME, Le(uid, 4) + Zeros(60));
    BodyWords(PTYPE_GETNAME, Le(uid, 4) + Zeros(60));
  }

  // ----- one lookup, over two vectors -----

  datatype Ends<+V> = Ends(client: V, server: V)

  /**
    Without an answer the caller goes no further: a server that cannot read the request hangs up, and the client
    uses the packet it did not get.
   */
  datatype Looked<+V> = Answered(name: Option<seq<byte>>, ends: Ends<V>) | Unanswered

  function LookUp<V>(c: Codec<V>, ends: Ends<V>, uid: u32, names: Names): Looked<V> {
    var mine := c.after(ends.client, GetName(uid));
    match c.read(ends.server, c.wire(ends.client, GetName(uid)), MAX_PACKET)
    case Failed => Unanswered
    case Got(p, _, theirs) =>
      match AnswerTo(names, p)
      case None => Unanswered
      case Some(a) => ReadAnswer(c, mine, theirs, a)
  }

  function ReadAnswer<V>(c: Codec<V>, mine: V, theirs: V, a: seq<byte>): Looked<V> {
    match c.read(mine, c.wire(theirs, a), MAX_PACKET)
    case Failed => Unanswered
    case Got(r, _, next) =>
      if |r| < PACKET_SIZE then Unanswered else Answered(NameIn(r), Ends(next, c.after(theirs, a)))
  }

  /** The vector both ends hold after a lookup the client started from `v`. */
  function AfterLookUp<V>(c: Codec<V>, v: V, uid: u32, names: Names): V {
    c.after(c.after(v, GetName(uid)), NameResult(names(uid)))
  }

  /** A lookup is answered if and only if the two vectors agree; then with the stored name, and it makes them equal. */
  lemma LookUpIff<V(!new)>(c: Codec<V>, ends: Ends<V>, uid: u32, names: Names)
    requires Exact(c) && PACKET_SIZE <= c.limit
    ensures LookUp(c, ends, uid, names).Answered? <==> c.agrees(ends.client, ends.server)
    ensures c.agrees(ends.client, ends.server) ==>
      var v, r := AfterLookUp(c, ends.client, uid, names), LookUp(c, ends, uid, names);
      r.ends == Ends(v, v) && IsNameOf(r.name, names(uid))
  {
    NameInResult(names(uid));
    hide GetName, NameResult, AnswerTo, NameIn;
    var q, a := GetName(uid), NameResult(names(uid));
    assert q[..|q|] == q && a[..|a|] == a;
    if c.agrees(ends.client, ends.server) {
      GetNameAnswered(names, uid);
      var w := c.wire(ends.client, q);
      assert Arrives(c, ends.client, ends.server, q, [], MAX_PACKET) && w + [] == w;
      var next := c.after(ends.client, q);
      var y := c.wire(next, a);
      AgreesWithItself(c, next);
      assert Arrives(c, next, next, a, [], MAX_PACKET) && y + [] == y;
    } else {
      assert Short(c.read(ends.server, c.wire(ends.client, q), MAX_PACKET), q);
    }
  }

  /** Lookups of the same user, one after another, each answered from the table as it then is. */
  function LookUpTimes<V>(c: Codec<V>, ends: Ends<V>, uid: u32, tables: seq<Names>): Option<Ends<V>>
    decreases |tables|
  {
    if |tables| == 0 then Some(ends)
    else match LookUp(c, ends, uid, tables[0])
      case Unanswered => None
      case Answered(_, next) => LookUpTimes(c, next, uid, tables[1..])
  }

  function AfterLookUps<V>(c: Codec<V>, v: V, uid: u32, tables: seq<Names>): V
    decreases |tables|
  {
    if |tables| == 0 then v else AfterLookUps(c, AfterLookUp(c, v, uid, tables[0]), uid, tables[1..])
  }

  /** Only the first of several lookups can fail: the first one that is answered brings the ends together. */
  lemma {:induction false} LookUpTimesIff<V(!new)>(c: Codec<V>, ends: Ends<V>, uid: u32, tables: seq<Names>)
    requires Exact(c) && PACKET_SIZE <= c.limit && |tables| > 0
    ensures LookUpTimes(c, ends, uid, tables).Some? <==> c.agrees(ends.client, ends.server)
    ensures c.agrees(ends.client, ends.server) ==>
      var v := AfterLookUps(c, ends.client, uid, tables);
      LookUpTimes(c, ends, uid, tables) == Some(Ends(v, v))
    decreases |tables|
  {
    hide LookUp, AfterLookUp, Exact;
    LookUpIff(c, ends, uid, tables[0]);
    var v := AfterLookUp(c, ends.client, uid, tables[0]);
    AgreesWithItself(c, v);
    if |tables| == 1 {
    } else {
      LookUpTimesIff(c, Ends(v, v), uid, tables[1..]);
    }
  }

  // ----- the two programs -----

  /** `srv_ReadPacket`, told as the codec tells it. */
  method Take(pipe: Pipe, maxsize: nat, k: Key, iv: array<byte>) returns (r: Option<seq<byte>>)
    requires iv.Length == 16
    modifies pipe`data, iv
    ensures r.Some? ==>
      && PacketCodec(k).read(old(iv[..]), old(pipe.data), maxsize) == Got(r.value, pipe.data, iv[..])
      && |pipe.data| < |old(pipe.data)|
    ensures r.None? && pipe.reliable ==> PacketCodec(k).read(old(iv[..]), old(pipe.data), maxsize).Failed?
  {
    hide ReadWire;
    ReadShorter(k, iv[..], pipe.data, maxsize);
    var got := ReadPacket(pipe, maxsize, k, iv);
    return if got.Buffer? then Some(got.bytes) else None;
  }

  /** `srv_WritePacket`, likewise. */
  method Put(pipe: Pipe, packet: seq<byte>, k: Key, iv: array<byte>)
    requires iv.Length == 16 && pipe.reliable && |packet| <= MAX_PLAIN
    modifies pipe`data, iv
    ensures pipe.data == old(pipe.data) + PacketCodec(k).wire(old(iv[..]), packet)
    ensures iv[..] == PacketCodec(k).after(old(iv[..]), packet)
  {
    hide Wire, AfterWire;
    var w := WritePacket(pipe, packet, k, iv);
  }

  lemma ReadShorter(k: Key, iv: seq<byte>, wire: seq<byte>, maxsize: nat)
    requires IsBlock(iv)
    ensures var r := ReadWire(k, iv, wire, maxsize);
      r.Packet? ==> |r.rest| < |wire| && IsBlock(r.iv)
  {}

  /** The server's end of a connection: its key and its vector. */
  class Peer {
    const k: Key
    const iv: array<byte>

    constructor (k: Key, iv: array<byte>)
      ensures this.k == k && this.iv == iv
    {
      this.k, this.iv := k, iv;
    }

    /** One turn of `in_handler` on a GETNAME request; it stays silent on a packet it cannot read or does not know. */
    method Respond(up: Pipe, down: Pipe, names: Names) returns (answered: bool)
      requires iv.Length == 16 && up != down && up.reliable && down.reliable
      modifies up`data, down`data, iv
      ensures
        var r := PacketCodec(k).read(old(iv[..]), old(up.data), MAX_PACKET);
        var a := if r.Got? then AnswerTo(names, r.bytes) else None;
        && answered == a.Some?
        && (answered ==>
          && up.data == r.rest && down.data == old(down.data) + PacketCodec(k).wire(r.iv, a.value)
          && iv[..] == PacketCodec(k).after(r.iv, a.value))
        && (!answered ==> down.data == old(down.data))
    {
      hide AnswerTo, PacketCodec;
      var p := Take(up, MAX_PACKET, k, iv);
      if p.None? {
        return false;
      }
      var a := AnswerTo(names, p.value);
      if a.None? {
        return false;
      }
      Put(down, a.value, k, iv);
      return true;
    }
  }

  /** An answer carries the stored name. */
  lemma AnsweredNamed<V(!new)>(c: Codec<V>, ends: Ends<V>, uid: u32, names: Names)
    requires Exact(c) && PACKET_SIZE <= c.limit
    ensures var r := LookUp(c, ends, uid, names);
      r.Answered? ==> IsNameOf(r.name, names(uid))
  {
    LookUpIff(c, ends, uid, names);
  }

  /** Between two requests nothing is left on the command socket. */
  lemma AnsweredClean<V(!new)>(c: Codec<V>, ends: Ends<V>, uid: u32, names: Names)
    requires Exact(c) && PACKET_SIZE <= c.limit
    ensures
      var r := c.read(ends.server, c.wire(ends.client, GetName(uid)), MAX_PACKET);
      if r.Got? && AnswerTo(names, r.bytes).Some? then
        && r.rest == [] && r.iv == c.after(ends.client, GetName(uid))
        && var a := AnswerTo(names, r.bytes).value;
           var next := c.after(r.iv, a);
           && c.read(r.iv, c.wire(r.iv, a), MAX_PACKET) == Got(a, [], next)
           && LookUp(c, ends, uid, names) == Answered(NameIn(a), Ends(next, next))
      else LookUp(c, ends, uid, names) == Unanswered
  {
    hide GetName, AnswerTo;
    var q := GetName(uid);
    var w := c.wire(ends.client, q);
    assert q[..|q|] == q && w + [] == w;
    if c.agrees(ends.client, ends.server) {
      assert Arrives(c, ends.client, ends.server, q, [], MAX_PACKET);
      var r := c.read(ends.server, w, MAX_PACKET);
      if AnswerTo(names, q).Some? {
        var a := AnswerTo(names, q).value;
        AgreesWithItself(c, r.iv);
        assert Arrives(c, r.iv, r.iv, a, [], MAX_PACKET) && c.wire(r.iv, a) + [] == c.wire(r.iv, a) && a[..|a|] == a;
      }
    } else {
      assert Short(c.read(ends.server, w, MAX_PACKET), q);
    }
  }

  /** `QueryUserName`, with the server answering while the client waits. */
  method QueryUserName(up: Pipe, down: Pipe, peer: Peer, k: Key, iv: array<byte>, uid: u32,
                       names: Names)
    returns (r: Looked<seq<byte>>)
    requires iv.Length == 16 && peer.iv.Length == 16 && iv != peer.iv && peer.k == k
    requires up != down && up.reliable && down.reliable && up.data == down.data == []
    modifies up`data, down`data, iv, peer.iv
    ensures r == LookUp(PacketCodec(k), old(Ends(iv[..], peer.iv[..])), uid, names)
    ensures r.Answered? ==> r.ends == Ends(iv[..], peer.iv[..]) && up.data == down.data == []
    ensures r.Answered? ==> IsNameOf(r.name, names(uid))
  {
    PacketCodecExact(k);
    ghost var c := PacketCodec(k);
    ghost var ends := Ends(iv[..], peer.iv[..]);
    AnsweredClean(c, ends, uid, names);
    AnsweredNamed(c, ends, uid, names);
    hide AnswerTo, GetName, PacketCodec, Exact, NameIn, LookUp, IsNameOf, AfterLookUp;
    Put(up, GetName(uid), k, iv);
    assert up.data == c.wire(ends.client, GetName(uid));
    var answered := peer.Respond(up, down, names);
    if !answered {
      return Unanswered;
    }
    ghost var got := c.read(ends.server, c.wire(ends.client, GetName(uid)), MAX_PACKET);
    assert down.data == c.wire(got.iv, AnswerTo(names, got.bytes).value);
    var p := Take(down, MAX_PACKET, k, iv);
    return Answered(NameIn(p.value), Ends(iv[..], peer.iv[..]));
  }
}
