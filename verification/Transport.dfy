/** The byte-stream link and the loops that turn partial system calls into exact transfers. */
module Transport {
  import opened Bytes
  import opened Framing

  /** What one `send` or `recv` system call reports. */
  datatype Progress = Moved(count: nat) | WouldBlock | Dead

  /** One end of a connection. `incoming` is everything the peer sends before it closes and that
      has not been read yet; `outgoing` is everything written so far. How many bytes one system
      call moves is left open; on a `reliable` link no call fails while there is work to do. */
  class Link {
    var incoming: bytes
    var outgoing: bytes
    const reliable: bool

    constructor (incoming: bytes, reliable: bool)
      ensures this.incoming == incoming && outgoing == [] && this.reliable == reliable
    {
      this.incoming, outgoing, this.reliable := incoming, [], reliable;
    }

    method SysSend(buf: bytes) returns (p: Progress)
      requires buf != []
      modifies `outgoing
      ensures p.Moved? ==> 0 < p.count <= |buf| && outgoing == old(outgoing) + buf[..p.count]
      ensures !p.Moved? ==> !reliable && outgoing == old(outgoing)
    {
      var works: bool := *;
      if reliable || works {
        var n: nat :| 0 < n <= |buf|;
        outgoing := outgoing + buf[..n];
        p := Moved(n);
      } else if * {
        p := WouldBlock;
      } else {
        p := Dead;
      }
    }

    method SysRecv(max: nat) returns (p: Progress, data: bytes)
      requires max > 0
      modifies `incoming
      ensures p.Moved? ==> 0 < p.count <= max && p.count <= |old(incoming)|
      ensures p.Moved? ==> data == old(incoming)[..p.count] && incoming == old(incoming)[p.count..]
      ensures !p.Moved? ==> incoming == old(incoming) && (reliable ==> p == Dead && incoming == [])
    {
      data := [];
      var works: bool := *;
      if incoming == [] {
        p := Dead;
      } else if reliable || works {
        var n: nat :| 0 < n <= max && n <= |incoming|;
        data, incoming := incoming[..n], incoming[n..];
        p := Moved(n);
      } else if * {
        p := WouldBlock;
      } else {
        p := Dead;
      }
    }

    /** Send exactly `len` bytes, however the system splits the writes. */
    method Send(buf: array<byte>, len: nat) returns (err: Code)
      requires len <= buf.Length
      modifies `outgoing
      ensures err == OK ==> outgoing == old(outgoing) + buf[..len]
      ensures err != OK ==> !reliable && err in {IO, TIMEOUT}
                            && old(outgoing) <= outgoing <= old(outgoing) + buf[..len]
    {
      var sent := 0;
      while sent < len
        invariant sent <= len
        invariant outgoing == old(outgoing) + buf[..sent]
      {
        var p := SysSend(buf[sent..len]);
        match p {
          case WouldBlock => return TIMEOUT;
          case Dead => return IO;
          case Moved(n) =>
            assert buf[..sent] + buf[sent..len][..n] == buf[..sent + n];
            sent := sent + n;
        }
      }
      return OK;
    }

    /** Fill the first `len` bytes of `buf`, however the system splits the reads. */
    method Recv(buf: array<byte>, len: nat) returns (err: Code)
      requires len <= buf.Length
      modifies `incoming, buf
      ensures err == OK ==> |old(incoming)| >= len && buf[..len] == old(incoming)[..len]
                            && incoming == old(incoming)[len..]
      ensures buf[len..] == old(buf[len..])
      ensures err != OK ==> err in {IO, TIMEOUT}
      ensures reliable ==> err == if |old(incoming)| >= len then OK else IO
    {
      var got := 0;
      while got < len
        invariant got <= len && got <= |old(incoming)|
        invariant buf[..got] == old(incoming)[..got]
        invariant incoming == old(incoming)[got..]
        invariant buf[len..] == old(buf[len..])
      {
        var p, data := SysRecv(len - got);
        match p {
          case WouldBlock => return TIMEOUT;
          case Dead => return IO;
          case Moved(n) =>
            forall i | 0 <= i < n {
              buf[got + i] := data[i];
            }
            got := got + n;
        }
      }
      return OK;
    }

    /** Python's `sendall`; `false` stands for an OSError. */
    method SendAll(buf: bytes) returns (ok: bool)
      modifies `outgoing
      ensures ok ==> outgoing == old(outgoing) + buf
      ensures !ok ==> !reliable && old(outgoing) <= outgoing <= old(outgoing) + buf
    {
      var sent := 0;
      while sent < |buf|
        invariant sent <= |buf|
        invariant outgoing == old(outgoing) + buf[..sent]
      {
        var p := SysSend(buf[sent..]);
        if !p.Moved? {
          return false;
        }
        assert buf[..sent] + buf[sent..][..p.count] == buf[..sent + p.count];
        sent := sent + p.count;
      }
      return true;
    }

    /** The phone's exact read: collects the pieces in a list and joins them at the end. */
    method RecvExactly(n: nat) returns (r: Option<bytes>)
      modifies `incoming
      ensures r.Some? ==> |old(incoming)| >= n && r.value == old(incoming)[..n]
                          && incoming == old(incoming)[n..]
      ensures reliable ==> (r.Some? <==> |old(incoming)| >= n)
      ensures |incoming| <= |old(incoming)|
    {
      var chunks: seq<bytes> := [];
      var remaining := n;
      while remaining > 0
        invariant 0 <= remaining <= n && n - remaining <= |old(incoming)|
        invariant Join(chunks) == old(incoming)[..n - remaining]
        invariant incoming == old(incoming)[n - remaining..]
      {
        var p, chunk := SysRecv(remaining);
        if !p.Moved? {
          return None;
        }
        JoinAppend(chunks, chunk);
        chunks := chunks + [chunk];
        remaining := remaining - p.count;
      }
      return Some(Join(chunks));
    }

    /** Writing in two parts. */
    static lemma BothParts(sent: bytes, head: bytes, body: bytes)
      ensures sent + (head + body) == (sent + head) + body && (body == [] ==> sent + (head + body) == sent + head)
    {
    }

    /** Firmware: write one frame, header and payload in two sends. */
    method FrameSend(kind: byte, payload: array<byte>, len: nat) returns (err: Code)
      requires len <= payload.Length
      modifies `outgoing
      ensures !Sendable(Frame(kind, payload[..len])) ==> err == INVALID && outgoing == old(outgoing)
      ensures Sendable(Frame(kind, payload[..len])) && reliable ==> err == OK
      ensures err == OK ==> outgoing == old(outgoing) + Encode(Frame(kind, payload[..len]))
      ensures old(outgoing) <= outgoing <= old(outgoing) + Encode(Frame(kind, payload[..len]))
    {
      if kind != KIND_JSON && kind != KIND_BINARY {
        return INVALID;
      }
      if len > MAX_FRAME_BYTES {
        return INVALID;
      }
      var hdr := new byte[5];
      hdr[0] := kind;
      hdr[1] := len / 0x100_0000 % 256;
      hdr[2] := len / 0x1_0000 % 256;
      hdr[3] := len / 0x100 % 256;
      hdr[4] := len % 256;
      U32Bytes(len);
      ghost var head, body := [kind] + U32(len), payload[..len];
      assert hdr[..5] == head;
      BothParts(outgoing, head, body);
      err := Send(hdr, 5);
      if err != OK {
        return err;
      }
      if len == 0 {
        return OK;
      }
      err := Send(payload, len);
    }

    /** Firmware: read one frame into the caller's buffer. */
    method FrameRecv(buf: array<byte>, cap: nat) returns (err: Code, kind: byte, len: nat)
      requires cap <= buf.Length
      modifies `incoming, buf
      ensures err == OK ==> len <= cap
                            && CReceive(old(incoming), cap) == Parsed(Frame(kind, buf[..len]), incoming)
      ensures reliable && err != OK ==> CReceive(old(incoming), cap) == Failed(err)
    {
      kind, len := 0, 0;
      var hdr := new byte[5];
      err := Recv(hdr, 5);
      if err != OK {
        return;
      }
      ghost var s := old(incoming);
      assert hdr[..5] == s[..5];
      assert s[1..5] == hdr[1..5] == s[..5][1..];
      if hdr[0] != KIND_JSON && hdr[0] != KIND_BINARY {
        err := IO;
        return;
      }
      var n := hdr[1] as int * 0x100_0000 + hdr[2] as int * 0x1_0000 + hdr[3] as int * 0x100 + hdr[4];
      FromU32Bytes(s[1..5]);
      assert n == FromU32(s[1..5]);
      if n > MAX_FRAME_BYTES {
        err := IO;
        return;
      }
      if n > cap {
        err := NO_MEM;
        return;
      }
      if n > 0 {
        err := Recv(buf, n);
        if err != OK {
          return;
        }
        assert s[5..][..n] == s[5..5 + n] && s[5..][n..] == s[5 + n..];
      }
      kind, len := hdr[0], n;
      assert buf[..len] == s[5..5 + n];
    }

    /** Phone: write one frame; `false` stands for a ProtocolError or an OSError. */
    method PySendFrame(kind: byte, payload: bytes) returns (ok: bool)
      modifies `outgoing
      ensures !Sendable(Frame(kind, payload)) ==> !ok && outgoing == old(outgoing)
      ensures Sendable(Frame(kind, payload)) && reliable ==> ok
      ensures ok ==> outgoing == old(outgoing) + Encode(Frame(kind, payload))
      ensures old(outgoing) <= outgoing <= old(outgoing) + Encode(Frame(kind, payload))
    {
      if kind != KIND_JSON && kind != KIND_BINARY {
        return false;
      }
      if |payload| > MAX_FRAME_BYTES {
        return false;
      }
      ok := SendAll([kind] + U32(|payload|) + payload);
    }

    /** Phone: read one frame. */
    method PyRecvFrame() returns (r: Option<Frame>)
      modifies `incoming
      ensures r.Some? ==> PyReceive(old(incoming)) == Some((r.value, incoming))
      ensures reliable && r.None? ==> PyReceive(old(incoming)) == None
      ensures |incoming| <= |old(incoming)| && (r.Some? ==> |incoming| < |old(incoming)|)
    {
      ghost var s := incoming;
      var header := RecvExactly(HEADER_BYTES);
      if header.None? {
        return None;
      }
      assert header.value[1..5] == s[1..5];
      var length := FromU32(header.value[1..5]);
      if length > MAX_FRAME_BYTES {
        return None;
      }
      var payload: bytes := [];
      if length > 0 {
        var body := RecvExactly(length);
        if body.None? {
          return None;
        }
        payload := body.value;
        assert s[5..][..length] == s[5..5 + length] && s[5..][length..] == s[5 + length..];
      }
      return Some(Frame(header.value[0], payload));
    }
  }
}
