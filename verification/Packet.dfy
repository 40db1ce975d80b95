/** `srv_ReadPacket` and `srv_WritePacket`: one CBC block carrying the padded size, then the padded body. */
module Packet {
  import opened Bytes
  import opened Transfer
  import opened Cbc

  const MAX_PACKET: nat := 0x10000

  /** The most a packet can carry and still pass the receiver's size test. */
  const MAX_PLAIN: nat := 65519

  // ----- the wire format -----

  function Header(k: Key, iv: seq<byte>, len: nat): (y: seq<byte>)
    requires IsBlock(iv)
    ensures IsBlock(y)
  {
    CbcEncrypt(k, iv, Pad(Le(PaddedSize(len), 4)))
  }

  /** The bytes of one packet. */
  function Wire(k: Key, iv: seq<byte>, data: seq<byte>): (y: seq<byte>)
    requires IsBlock(iv)
    ensures |y| == 16 + PaddedSize(|data|)
  {
    Header(k, iv, |data|) + CbcEncrypt(k, Header(k, iv, |data|), Pad(data))
  }

  /** A packet is one chain over its size, little-endian in four bytes and padded, and its padded content. */
  lemma WireIsOneChain(k: Key, iv: seq<byte>, data: seq<byte>)
    requires IsBlock(iv)
    ensures Chained(k, iv, Pad(Le(PaddedSize(|data|), 4)) + Pad(data), Wire(k, iv, data))
  {
    hide CbcEncrypt, Pad, Chained, NextIv, Le, PaddedSize;
    var p, q := Pad(Le(PaddedSize(|data|), 4)), Pad(data);
    EncryptAppend(k, iv, p, q);
    SingleBlock(iv, Header(k, iv, |data|));
    assert Wire(k, iv, data) == CbcEncrypt(k, iv, p + q);
    EncryptChains(k, iv, p + q);
  }

  function AfterWire(k: Key, iv: seq<byte>, data: seq<byte>): (next: seq<byte>)
    requires IsBlock(iv)
    ensures IsBlock(next)
  {
    NextIv(iv, Wire(k, iv, data))
  }

  /**
    A packet handed to the caller, what is left on the stream and the vector for the next one; or NULL; or a
    read outside the buffer.
   */
  datatype Received = Packet(bytes: seq<byte>, rest: seq<byte>, iv: seq<byte>) | NoPacket | Fault

  function ReadWire(k: Key, iv: seq<byte>, wire: seq<byte>, maxsize: nat): Received
    requires IsBlock(iv)
  {
    if |wire| < 16 then NoPacket
    else ReadSized(k, wire[..16], Open(k, iv, wire[..16], 4), wire[16..], maxsize)
  }

  function ReadSized(k: Key, header: seq<byte>, field: Opened, wire: seq<byte>, maxsize: nat): Received
    requires IsBlock(header)
  {
    match field
    case Undefined => Fault
    case BadInput => NoPacket
    case Output(size) =>
      if |size| != 4 || FromLe(size) >= MAX_PACKET || FromLe(size) > |wire| then NoPacket
      else ReadBody(k, header, wire, FromLe(size), maxsize)
  }

  function ReadBody(k: Key, iv: seq<byte>, wire: seq<byte>, size: nat, maxsize: nat): Received
    requires IsBlock(iv) && size <= |wire|
  {
    match Open(k, iv, wire[..size], Min(maxsize, size))
    case Undefined => Fault
    case BadInput => NoPacket
    case Output(bytes) => Packet(bytes, wire[size..], NextIv(iv, wire[..size]))
  }

  // ----- what is written is what is read -----

  lemma SizeField(len: nat)
    requires PaddedSize(len) < WORD
    ensures FromLe(Le(PaddedSize(len), 4)) == PaddedSize(len)
  {
    WordRoundTrip(PaddedSize(len));
  }

  lemma SizeLimit(len: nat)
    ensures PaddedSize(len) < MAX_PACKET <==> len <= MAX_PLAIN
  {}

  /**
    Under the sender's vector the receiver gets the leading `maxsize` bytes, leaves exactly what follows
    the packet, and ends with the sender's next vector, if and only if the packet is at most 65519 bytes.
   */
  lemma ReadWritten(k: Key, iv: seq<byte>, data: seq<byte>, rest: seq<byte>, maxsize: nat)
    requires IsBlock(iv) && PaddedSize(|data|) < WORD
    ensures ReadWire(k, iv, Wire(k, iv, data) + rest, maxsize) ==
      if |data| <= MAX_PLAIN then Packet(data[..Min(|data|, maxsize)], rest, AfterWire(k, iv, data)) else NoPacket
  {
    HeaderFirst(k, iv, iv, data, rest, maxsize);
    OpenSealed(k, iv, Le(PaddedSize(|data|), 4), 4);
    SizeField(|data|);
    SizeLimit(|data|);
    assert Le(PaddedSize(|data|), 4)[..4] == Le(PaddedSize(|data|), 4);
    if |data| <= MAX_PLAIN {
      ReadSealedBody(k, Header(k, iv, |data|), data, rest, maxsize);
    }
  }

  lemma WireParts(k: Key, iv: seq<byte>, data: seq<byte>)
    requires IsBlock(iv)
    ensures
      var h := Header(k, iv, |data|);
      var body := CbcEncrypt(k, h, Pad(data));
      Wire(k, iv, data) == h + body && AfterWire(k, iv, data) == NextIv(h, body)
  {}

  /** A written packet is its header block followed by its body, whatever vector it is read under. */
  lemma HeaderFirst(k: Key, iv: seq<byte>, other: seq<byte>, data: seq<byte>, rest: seq<byte>, maxsize: nat)
    requires IsBlock(iv) && IsBlock(other)
    ensures
      var h := Header(k, iv, |data|);
      var body := CbcEncrypt(k, h, Pad(data));
      && ReadWire(k, other, Wire(k, iv, data) + rest, maxsize)
        == ReadSized(k, h, Open(k, other, h, 4), body + rest, maxsize)
      && AfterWire(k, iv, data) == NextIv(h, body)
  {
    var h := Header(k, iv, |data|);
    var body := CbcEncrypt(k, h, Pad(data));
    WireParts(k, iv, data);
    Concat(h, body, rest);
    Halves(h, body + rest);
  }

  lemma ReadSealedBody(k: Key, iv: seq<byte>, data: seq<byte>, rest: seq<byte>, maxsize: nat)
    requires IsBlock(iv)
    ensures
      var body := CbcEncrypt(k, iv, Pad(data));
      ReadBody(k, iv, body + rest, |body|, maxsize) == Packet(data[..Min(|data|, maxsize)], rest, NextIv(iv, body))
  {
    var body := CbcEncrypt(k, iv, Pad(data));
    assert (body + rest)[..|body|] == body && (body + rest)[|body|..] == rest;
    OpenSealed(k, iv, data, Min(maxsize, |body|));
  }

  // ----- when the two vectors differ -----

  /**
    The vectors agree on the size field, and their last bytes differ by little enough to leave a valid header
    padding.
   */
  predicate HeaderSurvives(iv: seq<byte>, wrong: seq<byte>)
    requires IsBlock(iv) && IsBlock(wrong)
  {
    && (forall i :: 0 <= i < 4 ==> Xor(iv[i], wrong[i]) == 0)
    && Xor(12, Xor(iv[15], wrong[15])) <= 12
  }

  /** The header block as seen under another vector. */
  lemma HeaderUnder(k: Key, iv: seq<byte>, wrong: seq<byte>, len: nat)
    requires IsBlock(iv) && IsBlock(wrong)
    ensures CbcDecrypt(k, wrong, Header(k, iv, len)) == XorBlocks(Pad(Le(PaddedSize(len), 4)), XorBlocks(iv, wrong))
  {
    var p := Pad(Le(PaddedSize(len), 4));
    DecryptEncrypt(k, iv, p);
    WrongIv(k, iv, wrong, Header(k, iv, len));
    assert p[..16] == p && p[16..] == [];
  }

  /**
    A packet encrypted under one vector and read under another arrives intact exactly when the two
    vectors do not differ in the header's size and padding bytes; the body does not depend on them.
   */
  lemma ReadUnderWrongIvIff(k: Key, iv: seq<byte>, wrong: seq<byte>, data: seq<byte>, rest: seq<byte>, maxsize: nat)
    requires IsBlock(iv) && IsBlock(wrong) && |data| <= MAX_PLAIN
    ensures ReadWire(k, wrong, Wire(k, iv, data) + rest, maxsize)
      == Packet(data[..Min(|data|, maxsize)], rest, AfterWire(k, iv, data))
      <==> HeaderSurvives(iv, wrong)
  {
    hide ReadWire, Open, ReadBody, HeaderSurvives, Wire, AfterWire;
    var h := Header(k, iv, |data|);
    var body := CbcEncrypt(k, h, Pad(data));
    HeaderFirst(k, iv, wrong, data, rest, maxsize);
    SizeLimit(|data|);
    WrongHeader(k, iv, wrong, |data|);
    var field := Open(k, wrong, h, 4);
    if HeaderSurvives(iv, wrong) {
      SizeField(|data|);
      ReadSealedBody(k, h, data, rest, maxsize);
    } else if field.Output? && |field.bytes| == 4 && FromLe(field.bytes) <= |body + rest| {
      OtherSize(k, h, body + rest, FromLe(field.bytes), maxsize, |rest|);
    }
  }

  /** A lone packet whose header does not survive never yields as many bytes as fill its last block. */
  lemma WrongIvShort(k: Key, iv: seq<byte>, wrong: seq<byte>, data: seq<byte>, maxsize: nat)
    requires IsBlock(iv) && IsBlock(wrong) && |data| <= MAX_PLAIN && !HeaderSurvives(iv, wrong)
    ensures var r := ReadWire(k, wrong, Wire(k, iv, data), maxsize);
      r.Packet? ==> |r.bytes| <= |data| / 16 * 16
  {
    hide ReadWire, Open, HeaderSurvives, Wire, AfterWire, ReadBody;
    var h := Header(k, iv, |data|);
    var body := CbcEncrypt(k, h, Pad(data));
    HeaderFirst(k, iv, wrong, data, [], maxsize);
    assert Wire(k, iv, data) + [] == Wire(k, iv, data) && body + [] == body;
    WrongHeader(k, iv, wrong, |data|);
    var field := Open(k, wrong, h, 4);
    if field.Output? && |field.bytes| == 4 && FromLe(field.bytes) < |body| {
      ShortBody(k, h, body, FromLe(field.bytes), maxsize);
    }
  }

  lemma ShortBody(k: Key, iv: seq<byte>, wire: seq<byte>, size: nat, maxsize: nat)
    requires IsBlock(iv) && size < |wire| && |wire| % 16 == 0
    ensures var r := ReadBody(k, iv, wire, size, maxsize);
      r.Packet? ==> |r.bytes| <= |wire| - 16
  {
    if size % 16 == 0 {
      assert size <= |wire| - 16;
    }
  }

  /** The size field comes out right exactly when the header survives; otherwise it names another size or nothing. */
  lemma WrongHeader(k: Key, iv: seq<byte>, wrong: seq<byte>, len: nat)
    requires IsBlock(iv) && IsBlock(wrong) && PaddedSize(len) < WORD
    ensures
      var field := Open(k, wrong, Header(k, iv, len), 4);
      if HeaderSurvives(iv, wrong) then field == Output(Le(PaddedSize(len), 4))
      else field.Output? && |field.bytes| == 4 ==> FromLe(field.bytes) != PaddedSize(len)
  {
    var h := Header(k, iv, len);
    var p, q := Pad(Le(PaddedSize(len), 4)), CbcDecrypt(k, wrong, h);
    HeaderUnder(k, iv, wrong, len);
    assert p[15] == 12 && p[..4] == Le(PaddedSize(len), 4);
    SizeFieldSurvivesIff(p, iv, wrong);
    assert q[15] == Xor(12, Xor(iv[15], wrong[15]));
    LeFromLe(q[..4]);
    SizeField(len);
    if q[15] <= 12 {
      assert Open(k, wrong, h, 4) == Output(q[..4]);
    }
  }

  lemma SizeFieldSurvivesIff(p: seq<byte>, iv: seq<byte>, wrong: seq<byte>)
    requires IsBlock(p) && IsBlock(iv) && IsBlock(wrong)
    ensures XorBlocks(p, XorBlocks(iv, wrong))[..4] == p[..4] <==> forall i :: 0 <= i < 4 ==> Xor(iv[i], wrong[i]) == 0
  {
    var d := XorBlocks(iv, wrong);
    var q := XorBlocks(p, d);
    forall i | 0 <= i < 4
      ensures q[i] == p[i] <==> Xor(iv[i], wrong[i]) == 0
    {
      assert d[i] == Xor(iv[i], wrong[i]);
      XorKeepsIff(p[i], d[i]);
    }
    if q[..4] == p[..4] {
      forall i | 0 <= i < 4
        ensures q[i] == p[i]
      {
        assert q[i] == q[..4][i] && p[i] == p[..4][i];
      }
    }
  }

  /** A size other than the true one cannot leave the true remainder. */
  lemma OtherSize(k: Key, iv: seq<byte>, wire: seq<byte>, size: nat, maxsize: nat, remaining: nat)
    requires IsBlock(iv) && size <= |wire| && size != |wire| - remaining
    ensures var r := ReadBody(k, iv, wire, size, maxsize);
      r.Packet? ==> |r.rest| != remaining
  {}

  // ----- some text always moves the vector too far -----

  ghost predicate TwoAlike(f: nat -> nat, n: nat) {
    exists i: nat, j: nat :: i < j <= n && f(i) == f(j)
  }

  /** Among more numbers than there are values two have the same one. */
  lemma {:induction false} Pigeonhole(f: nat -> nat, n: nat)
    requires forall i: nat :: i <= n ==> f(i) < n
    ensures TwoAlike(f, n)
  {
    var last := f(n);
    if n == 0 {
    } else if i: nat :| i < n && f(i) == last {
    } else {
      var g: nat -> nat := (i: nat) => if f(i) == n - 1 then last else f(i);
      Pigeonhole(g, n - 1);
      var i: nat, j: nat :| i < j <= n - 1 && g(i) == g(j);
      assert f(i) == f(j);
    }
  }

  /** The `i`-th text of fifteen bytes. */
  function Text(i: nat): (s: seq<byte>)
    ensures |s| == 15
  {
    Le(i, 13) + Zeros(2)
  }

  /** The vector after a text of fifteen bytes is one enciphered block, and determines the text. */
  lemma AfterText(k: Key, iv: seq<byte>, body: seq<byte>)
    requires IsBlock(iv) && |body| == 15
    ensures XorBlocks(k.dec(AfterWire(k, iv, body)), Header(k, iv, 15))[..15] == body
  {
    var h := Header(k, iv, 15);
    var p := Pad(body);
    assert p[..16] == p && p[16..] == [];
    var y := k.enc(XorBlocks(p, h));
    assert CbcEncrypt(k, y, []) == [] && y + [] == y;
    WireParts(k, iv, body);
    SingleBlock(h, y);
    XorBlocksTwice(p, h);
  }

  /** A number for the last twelve bytes after the `i`-th text. */
  function Ending(k: Key, iv: seq<byte>, i: nat): nat
    requires IsBlock(iv)
  {
    FromLe(AfterWire(k, iv, Text(i))[4..])
  }

  lemma EndingDiffers(k: Key, v: seq<byte>, iv: seq<byte>, i: nat, j: nat)
    requires IsBlock(v) && IsBlock(iv) && i < j < Pow256(13)
    requires HeaderSurvives(v, AfterWire(k, iv, Text(i))) && HeaderSurvives(v, AfterWire(k, iv, Text(j)))
    ensures Ending(k, iv, i) != Ending(k, iv, j)
  {
    hide AfterWire, Xor, Header;
    var a, b := AfterWire(k, iv, Text(i)), AfterWire(k, iv, Text(j));
    forall t | 0 <= t < 4
      ensures a[t] == b[t]
    {
      XorDistinct(v[t], a[t]);
      XorDistinct(v[t], b[t]);
    }
    LeFromLe(a[4..]);
    LeFromLe(b[4..]);
    if a[4..] == b[4..] {
      assert a == a[..4] + a[4..] && b == b[..4] + b[4..] && a[..4] == b[..4];
      AfterText(k, iv, Text(i));
      AfterText(k, iv, Text(j));
      assert Text(i)[..13] == Le(i, 13) && Text(j)[..13] == Le(j, 13);
      FromLeLe(i, 13);
      FromLeLe(j, 13);
    }
  }

  /**
    Whatever the key and the vectors, some text of fifteen bytes leaves its writer with a vector under which a
    packet written under `v` is not read: there are more such texts than blocks that agree with `v`.
   */
  lemma SomeTextDisagrees(k: Key, v: seq<byte>, iv: seq<byte>)
    requires IsBlock(v) && IsBlock(iv)
    ensures exists body :: |body| == 15 && !HeaderSurvives(v, AfterWire(k, iv, body))
  {
    hide HeaderSurvives, AfterWire;
    var n := Pow256(12);
    if forall i: nat :: i <= n ==> HeaderSurvives(v, AfterWire(k, iv, Text(i))) {
      var f := (i: nat) => Ending(k, iv, i);
      forall i: nat | i <= n
        ensures f(i) < n
      {
        LeFromLe(AfterWire(k, iv, Text(i))[4..]);
      }
      Pigeonhole(f, n);
      var i: nat, j: nat :| i < j <= n && f(i) == f(j);
      EndingDiffers(k, v, iv, i, j);
      assert false;
    }
  }

  // ----- the two routines -----

  /** `srv_WritePacket` */
  method WritePacket(pipe: Pipe, packet: seq<byte>, k: Key, iv: array<byte>) returns (result: int)
    requires iv.Length == 16 && PaddedSize(|packet|) < WORD
    modifies pipe`data, iv
    ensures result == 0 || result == -1
    ensures result == 0 ==>
      pipe.data == old(pipe.data) + Wire(k, old(iv[..]), packet) && iv[..] == AfterWire(k, old(iv[..]), packet)
    ensures pipe.reliable ==> result == 0
  {
    var sendSize := PaddedSize(|packet|);
    var header := new byte[16];
    result := EncryptCbc(k, Le(sendSize, 4), header, 16, iv);
    assert Pad(Le(sendSize, 4))[..16] == Pad(Le(sendSize, 4));
    assert header[..] == Header(k, old(iv[..]), |packet|);
    assert iv[..] == header[..];
    result := WriteAll(pipe, header[..]);
    if result < 0 {
      return -1;
    }
    var body := new byte[sendSize + 1];
    result := EncryptCbc(k, packet, body, sendSize, iv);
    assert body[..sendSize] == CbcEncrypt(k, header[..], Pad(packet))
      by { assert Pad(packet)[..sendSize] == Pad(packet); }
    WireParts(k, old(iv[..]), packet);
    Concat(old(pipe.data), header[..], body[..sendSize]);
    result := WriteAll(pipe, body[..sendSize]);
  }

  /** What `srv_ReadPacket` returns: a buffer, of which `bytes` is the part filled in; NULL; or no return at all. */
  datatype Fetched = Buffer(bytes: seq<byte>) | Null | Wild

  lemma SingleBlock(iv: seq<byte>, y: seq<byte>)
    requires IsBlock(iv) && IsBlock(y)
    ensures NextIv(iv, y) == y
  {}

  /** The first block of a packet: the size of the rest, if it decodes to one that is allowed. */
  method ReadSize(pipe: Pipe, k: Key, iv: array<byte>) returns (size: Option<nat>)
    requires iv.Length == 16
    modifies pipe`data, iv
    ensures size.Some? ==>
      && 16 <= |old(pipe.data)| && pipe.data == old(pipe.data)[16..] && iv[..] == old(pipe.data)[..16]
      && size.value < MAX_PACKET
      && var field := Open(k, old(iv[..]), old(pipe.data)[..16], 4);
         field.Output? && |field.bytes| == 4 && FromLe(field.bytes) == size.value
    ensures size.None? && pipe.reliable && 16 <= |old(pipe.data)| ==>
      var field := Open(k, old(iv[..]), old(pipe.data)[..16], 4);
      field.BadInput? || (field.Output? && (|field.bytes| != 4 || FromLe(field.bytes) >= MAX_PACKET))
  {
    hide Open, FromLe, NextIv;
    var header := new byte[16];
    var result := ReadAll(pipe, header, 16);
    if result < 0 {
      return None;
    }
    assert header[..] == old(pipe.data)[..16];
    var field := new byte[4];
    result := DecryptCbc(k, header[..], field, 4, iv);
    if result != 4 {
      return None;
    }
    assert field[..4] == field[..];
    assert NextIv(old(iv[..]), header[..]) == header[..] by { SingleBlock(old(iv[..]), header[..]); }
    var readSize := FromLe(field[..]);
    return if readSize < MAX_PACKET then Some(readSize) else None;
  }

  /** The rest of a packet whose size is known. */
  method ReadRest(pipe: Pipe, readSize: nat, maxsize: nat, k: Key, iv: array<byte>) returns (r: Fetched)
    requires iv.Length == 16
    modifies pipe`data, iv
    ensures readSize > |old(pipe.data)| ==> r.Null?
    ensures readSize <= |old(pipe.data)| ==>
      var body := ReadBody(k, old(iv[..]), old(pipe.data), readSize, maxsize);
      && (r.Buffer? ==> body == Packet(r.bytes, pipe.data, iv[..]))
      && (r.Wild? ==> body.Fault?)
      && (r.Null? && pipe.reliable ==> body.NoPacket?)
  {
    var bufSize := Min(maxsize, readSize);
    var body := new byte[readSize + 1];
    var buffer := new byte[bufSize];
    var result := ReadAll(pipe, body, readSize);
    if result < 0 {
      return Null;
    }
    assert body[..readSize] == old(pipe.data)[..readSize];
    if readSize == 0 {
      return Wild;
    }
    result := DecryptCbc(k, body[..readSize], buffer, bufSize, iv);
    return if result < 0 then Null else Buffer(buffer[..result]);
  }

  /** `srv_ReadPacket` */
  method ReadPacket(pipe: Pipe, maxsize: nat, k: Key, iv: array<byte>) returns (r: Fetched)
    requires iv.Length == 16
    modifies pipe`data, iv
    ensures r.Buffer? ==> ReadWire(k, old(iv[..]), old(pipe.data), maxsize) == Packet(r.bytes, pipe.data, iv[..])
    ensures r.Wild? ==> ReadWire(k, old(iv[..]), old(pipe.data), maxsize).Fault?
    ensures r.Null? && pipe.reliable ==> ReadWire(k, old(iv[..]), old(pipe.data), maxsize).NoPacket?
  {
    hide ReadBody;
    var size := ReadSize(pipe, k, iv);
    if size.None? {
      return Null;
    }
    r := ReadRest(pipe, size.value, maxsize, k, iv);
  }
}
