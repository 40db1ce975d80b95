/** `readAll` and `writeAll` over a descriptor that takes and gives as few bytes at a time as it likes. */
module Transfer {
  import opened Bytes

  /**
    A byte stream. A call moves any positive number of bytes it can; it may fail at any time unless the stream
    is reliable.
   */
  class Pipe {
    var data: seq<byte>
    const reliable: bool

    constructor (reliable: bool)
      ensures data == [] && this.reliable == reliable
    {
      data := [];
      this.reliable := reliable;
    }

    method Read(buffer: array<byte>, at: nat, len: nat) returns (r: int)
      requires 0 < len && at + len <= buffer.Length
      modifies this`data, buffer
      ensures r <= len
      ensures reliable && old(data) != [] ==> r > 0
      ensures r > 0 ==>
        && r <= |old(data)|
        && data == old(data)[r..]
        && buffer[..] == old(buffer[..])[..at] + old(data)[..r] + old(buffer[..])[at + r..]
      ensures r <= 0 ==> data == old(data) && buffer[..] == old(buffer[..])
    {
      var fails, amount: nat := *, *;
      if data == [] || (fails && !reliable) {
        return if fails then -1 else 0;
      }
      var most := Min(len, |data|);
      r := if 0 < amount <= most then amount else most;
      forall k | 0 <= k < r {
        buffer[at + k] := data[k];
      }
      data := data[r..];
    }

    method Write(source: seq<byte>) returns (w: int)
      requires source != []
      modifies this`data
      ensures w <= |source|
      ensures reliable ==> w > 0
      ensures data == old(data) + (if w > 0 then source[..w] else [])
    {
      var fails, amount: nat := *, *;
      if fails && !reliable {
        return -1;
      }
      w := if 0 < amount <= |source| then amount else |source|;
      data := data + source[..w];
    }
  }

  lemma Fill(data: seq<byte>, buffer: seq<byte>, p: nat, r: nat, before: seq<byte>, after: seq<byte>)
    requires p + r <= |data| && p + r <= |buffer| && before == data[..p] + buffer[p..]
    requires after == before[..p] + data[p..][..r] + before[p + r..]
    ensures after == data[..p + r] + buffer[p + r..] && data[p..][r..] == data[p + r..]
  {}

  /** Exactly the next `len` bytes, in order, and nothing beyond them; failure leaves some shorter prefix consumed. */
  method ReadAll(pipe: Pipe, buffer: array<byte>, len: nat) returns (result: int)
    requires len <= buffer.Length
    modifies pipe`data, buffer
    ensures result == 0 || result == -1
    ensures result == 0 ==>
      && len <= |old(pipe.data)|
      && pipe.data == old(pipe.data)[len..]
      && buffer[..] == old(pipe.data)[..len] + old(buffer[..])[len..]
    ensures result == -1 ==> exists k :: 0 <= k < len && k <= |old(pipe.data)| && pipe.data == old(pipe.data)[k..]
    ensures pipe.reliable ==> (result == 0 <==> len <= |old(pipe.data)|)
  {
    var p: nat, remaining: nat := 0, len;
    while remaining > 0
      invariant p + remaining == len && p <= |old(pipe.data)|
      invariant pipe.data == old(pipe.data)[p..]
      invariant buffer[..] == old(pipe.data)[..p] + old(buffer[..])[p..]
    {
      ghost var before := buffer[..];
      var r := pipe.Read(buffer, p, remaining);
      if r <= 0 {
        return -1;
      }
      Fill(old(pipe.data), old(buffer[..]), p, r, before, buffer[..]);
      p := p + r;
      remaining := remaining - r;
    }
    return 0;
  }

  method WriteAll(pipe: Pipe, source: seq<byte>) returns (result: int)
    modifies pipe`data
    ensures result == 0 || result == -1
    ensures result == 0 ==> pipe.data == old(pipe.data) + source
    ensures result == -1 ==> exists k :: 0 <= k < |source| && pipe.data == old(pipe.data) + source[..k]
    ensures pipe.reliable ==> result == 0
  {
    var p: nat, remaining: nat := 0, |source|;
    while remaining > 0
      invariant p + remaining == |source|
      invariant pipe.data == old(pipe.data) + source[..p]
    {
      var w := pipe.Write(source[p..]);
      if w <= 0 {
        return -1;
      }
      assert source[..p] + source[p..][..w] == source[..p + w];
      p := p + w;
      remaining := remaining - w;
    }
    assert source[..p] == source;
    return 0;
  }

  // ----- peer-to-peer file transfer -----

  /** `srv_TCPStartFileTransfer`: the whole file is read into memory, and the transfer counts as started. */
  method StartFileTransfer(file: Pipe, size: nat) returns (result: int, buffer: seq<byte>)
    modifies file`data
    ensures result == 0 || result == -1
    ensures result == 0 ==> size <= |old(file.data)| && buffer == old(file.data)[..size]
    ensures file.reliable ==> (result == 0 <==> size <= |old(file.data)|)
  {
    var bytes := new byte[size];
    result := ReadAll(file, bytes, size);
    buffer := bytes[..];
  }

  /** `srv_FileTransferThread`: what becomes of the write nobody asks; a prefix of the buffer gets out. */
  method FileTransferThread(socket: Pipe, buffer: seq<byte>)
    modifies socket`data
    ensures exists k :: 0 <= k <= |buffer| && socket.data == old(socket.data) + buffer[..k]
    ensures socket.reliable ==> socket.data == old(socket.data) + buffer
  {
    var result := WriteAll(socket, buffer);
    if result == 0 {
      assert buffer[..|buffer|] == buffer;
    }
  }

  /** The file is opened without truncation, so what is longer than the new bytes stays behind them. */
  function Overwritten(previous: seq<byte>, written: seq<byte>): seq<byte> {
    written + previous[Min(|written|, |previous|)..]
  }

  /** The saved file is the bytes received exactly when no longer file was there before. */
  lemma OverwrittenExactIff(previous: seq<byte>, written: seq<byte>)
    ensures Overwritten(previous, written) == written <==> |previous| <= |written|
  {}

  /** The bytes written, and behind them whatever the old file had from there on. */
  predicate Saved(saved: seq<byte>, written: seq<byte>, previous: seq<byte>) {
    && |saved| == (if |written| >= |previous| then |written| else |previous|)
    && saved[..|written|] == written
    && forall i :: |written| <= i < |previous| ==> saved[i] == previous[i]
  }

  lemma OverwrittenSaved(previous: seq<byte>, written: seq<byte>)
    ensures Saved(Overwritten(previous, written), written, previous)
  {}

  method FetchFile(socket: Pipe, size: nat, previous: seq<byte>) returns (result: int, saved: seq<byte>)
    modifies socket`data
    ensures result == 0 ==>
      && size <= |old(socket.data)| && saved == Overwritten(previous, old(socket.data)[..size])
      && Saved(saved, old(socket.data)[..size], previous)
    ensures socket.reliable ==> (result == 0 <==> size <= |old(socket.data)|)
  {
    saved := previous;
    var buffer := new byte[size];
    result := ReadAll(socket, buffer, size);
    if result == 0 {
      assert buffer[..] == old(socket.data)[..size];
      var file := new Pipe(socket.reliable);
      result := WriteAll(file, buffer[..]);
      if result == 0 {
        saved := Overwritten(previous, file.data);
        OverwrittenSaved(previous, file.data);
      }
    }
  }

  /**
    Sender and receiver together, over a connection that carries nothing else. The sender goes by the size in
    its offer and the receiver by the one it remembers; nothing on the wire tells them the other's. What is
    saved is the file's leading bytes, as many as the receiver expected.
   */
  method TransferFile(file: Pipe, socket: Pipe, size: nat, expected: nat, previous: seq<byte>)
    returns (started: int, result: int, saved: seq<byte>)
    requires file != socket && socket.data == []
    modifies file`data, socket`data
    ensures started == 0 && result == 0 ==>
      expected <= size <= |old(file.data)| && Saved(saved, old(file.data)[..expected], previous)
    ensures file.reliable && socket.reliable ==>
      (started == 0 <==> size <= |old(file.data)|) && (started == 0 ==> (result == 0 <==> expected <= size))
  {
    var buffer;
    started, buffer := StartFileTransfer(file, size);
    if started != 0 {
      return started, -1, previous;
    }
    FileTransferThread(socket, buffer);
    ghost var sent := socket.data;
    assert forall k :: 0 <= k <= |buffer| ==> [] + buffer[..k] == buffer[..k];
    assert [] + buffer == buffer;
    assert sent <= buffer;
    result, saved := FetchFile(socket, expected, previous);
    if result == 0 {
      assert sent[..expected] == old(file.data)[..expected];
    }
  }
}
