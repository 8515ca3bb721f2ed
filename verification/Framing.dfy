/** Framed output on the command socket: `blockingWrite` and `sendResponseRaw` of `ril.cpp`. */
module Framing {
  import opened Bytes

  const MAX_COMMAND_BYTES := 8 * 1024

  /** What one `write` does: take some bytes, ask to be called again (EINTR, EAGAIN), or fail. */
  datatype Outcome = Wrote(n: nat) | Again | Error

  /** How a call ended: it returned 0, it returned -1, or the socket has not let it finish yet. */
  datatype Status = Done | Failed | Blocked

  function Frame(data: seq<byte>): seq<byte> { BigEndian(|data|, 4) + data }

  function Frames(payloads: seq<seq<byte>>): seq<byte> {
    if payloads == [] then [] else Frame(payloads[0]) + Frames(payloads[1..])
  }

  /** The receiver: payloads as long as whole frames are there, and the bytes left over. */
  function Decode(stream: seq<byte>): (r: (seq<seq<byte>>, seq<byte>))
    decreases |stream|
  {
    if |stream| < 4 || |stream| - 4 < FromBigEndian(stream[..4]) then ([], stream)
    else
      var n := FromBigEndian(stream[..4]);
      var rest := Decode(stream[4 + n..]);
      ([stream[4..4 + n]] + rest.0, rest.1)
  }

  ghost predicate Sendable(payloads: seq<seq<byte>>) {
    forall i :: 0 <= i < |payloads| ==> |payloads[i]| <= MAX_COMMAND_BYTES
  }

  /** The receiver gets exactly the payloads, in order, and a partly written frame behind them
      stays undecoded. */
  lemma {:induction false} DecodeFrames(payloads: seq<seq<byte>>, next: seq<byte>, cut: nat)
    requires Sendable(payloads) && |next| <= MAX_COMMAND_BYTES && cut < |Frame(next)|
    ensures Decode(Frames(payloads) + Frame(next)[..cut]) == (payloads, Frame(next)[..cut])
  {
    hide Decode, Frame;
    var tail := Frame(next)[..cut];
    if payloads == [] {
      assert Frames(payloads) + tail == tail;
      DecodePartial(next, cut);
    } else {
      assert Frames(payloads) + tail == Frame(payloads[0]) + (Frames(payloads[1..]) + tail);
      DecodeStep(payloads[0], Frames(payloads[1..]) + tail);
      DecodeFrames(payloads[1..], next, cut);
      assert payloads == [payloads[0]] + payloads[1..];
    }
  }

  lemma DecodeStep(p: seq<byte>, rest: seq<byte>)
    requires |p| <= MAX_COMMAND_BYTES
    ensures Decode(Frame(p) + rest) == ([p] + Decode(rest).0, Decode(rest).1)
  {
    var stream := Frame(p) + rest;
    BigEndianRoundTrip4(|p|);
    assert stream[..4] == BigEndian(|p|, 4) && stream[4..4 + |p|] == p;
    assert stream[4 + |p|..] == rest;
    hide FromBigEndian, BigEndian;
  }

  lemma DecodePartial(next: seq<byte>, cut: nat)
    requires |next| <= MAX_COMMAND_BYTES && cut < |Frame(next)|
    ensures Decode(Frame(next)[..cut]) == ([], Frame(next)[..cut])
  {
    BigEndianRoundTrip4(|next|);
    if cut >= 4 { assert Frame(next)[..cut][..4] == BigEndian(|next|, 4); }
    hide FromBigEndian, BigEndian;
  }

  lemma BigEndianRoundTrip4(n: nat)
    requires n <= MAX_COMMAND_BYTES
    ensures FromBigEndian(BigEndian(n, 4)) == n
  {
    assert Pow256(4) == 256 * Pow256(3) == 256 * (256 * Pow256(2)) == 256 * (256 * (256 * (256 * Pow256(0))));
    BigEndianRoundTrip(n, 4);
  }

  /** On the wire a payload stands behind its length in four bytes, the highest first. */
  lemma FrameBytes(data: seq<byte>)
    requires |data| <= MAX_COMMAND_BYTES
    ensures Frame(data) == [0, 0, |data| / 256, |data| % 256] + data
  {
    FourBytes(0, 0, |data| / 256, |data| % 256);
    assert |data| / 256 * 0x100 + |data| % 256 == |data|;
    hide BigEndian, FromBigEndian;
  }

  lemma {:induction false} FramesAppend(payloads: seq<seq<byte>>, p: seq<byte>)
    ensures Frames(payloads + [p]) == Frames(payloads) + Frame(p)
  {
    if payloads == [] {
      assert [p][1..] == [] && payloads + [p] == [p];
    } else {
      assert (payloads + [p])[1..] == payloads[1..] + [p];
      FramesAppend(payloads[1..], p);
    }
  }

  /** The command socket; `fd` is negative when no client is connected, and the descriptor stops being
      `open` when a write fails. `script` is what the coming writes will do. */
  class CommandSocket {
    var fd: int
    var open: bool
    var script: seq<Outcome>
    /** Every byte written on this connection. */
    ghost var Wire: seq<byte>
    /** The payloads of the calls that returned 0 on it. */
    ghost var Accepted: seq<seq<byte>>

    constructor (fd: int, script: seq<Outcome>)
      ensures this.fd == fd && this.script == script && Wire == [] && Accepted == [] && open && Consistent()
    {
      this.fd, this.script, this.open, Wire, Accepted := fd, script, true, [], [];
    }

    /** The receiver can decode exactly the accepted payloads; while the descriptor is open nothing but
        their frames has been written. */
    ghost predicate Consistent()
      reads this
    {
      Sendable(Accepted) && Decode(Wire).0 == Accepted && (open ==> Wire == Frames(Accepted))
    }

    /** `write`: it takes some of the buffer, or returns one of the two kinds of error; on a closed
        descriptor the second. */
    method Write(buffer: seq<byte>) returns (written: int, again: bool)
      requires open ==> script != []
      modifies this`script, this`Wire
      ensures script == if open then old(script)[1..] else old(script)
      ensures written <= |buffer|
      ensures Wire == if written >= 0 then old(Wire) + buffer[..written] else old(Wire)
      ensures again <==> open && old(script)[0] == Again
      ensures written < 0 <==> !open || !old(script)[0].Wrote?
    {
      if !open { return -1, false; }
      again := script[0] == Again;
      written := if script[0].Wrote? then (if script[0].n <= |buffer| then script[0].n else |buffer|) else -1;
      if written >= 0 { Wire := Wire + buffer[..written]; }
      script := script[1..];
    }

    /** `blockingWrite`: short writes are continued and interrupted ones repeated until the whole
        buffer is out; a real error closes the descriptor. Whatever happens, what has been written is
        the front of the buffer. */
    method BlockingWrite(buffer: seq<byte>) returns (status: Status, ghost sent: nat)
      modifies this`script, this`Wire, this`open
      ensures sent <= |buffer| && Wire == old(Wire) + buffer[..sent]
      ensures status == Done <==> sent == |buffer|
      ensures status == Blocked ==> script == []
      ensures status == Failed ==> Error in old(script) || !old(open)
      ensures open == (old(open) && status != Failed)
      ensures !old(open) && buffer != [] ==> status == Failed && sent == 0
      ensures |script| <= |old(script)| && script == old(script)[|old(script)| - |script|..]
    {
      var writeOffset := 0;
      while writeOffset < |buffer|
        invariant 0 <= writeOffset <= |buffer| && open == old(open) && (!open ==> writeOffset == 0)
        invariant Wire == old(Wire) + buffer[..writeOffset]
        invariant |script| <= |old(script)| && script == old(script)[|old(script)| - |script|..]
        decreases |script|
      {
        if open && script == [] { return Blocked, writeOffset; }
        assert open ==> script[0] in old(script);
        var written, again := Write(buffer[writeOffset..]);
        if !again {
          if written >= 0 {
            Front(buffer, writeOffset, written);
            writeOffset := writeOffset + written;
          } else {
            open := false;
            return Failed, writeOffset;
          }
        }
      }
      return Done, |buffer|;
    }

    /** Header, then data; `cut` bytes of the frame get out. */
    method WriteFrame(data: seq<byte>) returns (status: Status, ghost cut: nat)
      modifies this`script, this`Wire, this`open
      ensures cut <= |Frame(data)| && Wire == old(Wire) + Frame(data)[..cut]
      ensures status == Done <==> cut == |Frame(data)|
      ensures status == Blocked ==> script == []
      ensures status == Failed ==> Error in old(script) || !old(open)
      ensures open == (old(open) && status != Failed)
      ensures !old(open) ==> status == Failed && cut == 0
    {
      hide BigEndian;
      var header := BigEndian(|data|, 4);
      status, cut := BlockingWrite(header);
      assert header[..cut] == Frame(data)[..cut];
      if status == Done {
        ghost var more;
        status, more := BlockingWrite(data);
        assert header + data[..more] == Frame(data)[..4 + more];
        cut := 4 + more;
      }
    }

    /** `sendResponseRaw`: nothing is written without a client or for a packet that is too long;
        otherwise the frame goes out, whole unless the socket fails or blocks on the way. Whatever
        happens the receiver can decode exactly the payloads of the calls that returned 0. */
    method SendResponseRaw(data: seq<byte>) returns (status: Status)
      requires Consistent()
      modifies this`script, this`Wire, this`Accepted, this`open
      ensures fd < 0 || |data| > MAX_COMMAND_BYTES ==> status == Failed && Wire == old(Wire) && open == old(open)
      ensures fd >= 0 && |data| <= MAX_COMMAND_BYTES && old(open) && Error !in old(script) ==> status != Failed
      ensures fd >= 0 && |data| <= MAX_COMMAND_BYTES ==> open == (old(open) && status != Failed)
      ensures status == Blocked ==> script == []
      ensures status != Blocked ==> Consistent()
      ensures Accepted == if status == Done then old(Accepted) + [data] else old(Accepted)
      ensures old(Wire) <= Wire <= old(Wire) + Frame(data)
      ensures Decode(Wire).0 == Accepted
    {
      hide Decode, Frame, Frames;
      if fd < 0 || |data| > MAX_COMMAND_BYTES {
        status := Failed;
      } else {
        ghost var cut;
        status, cut := WriteFrame(data);
        if status == Done {
          FramesAppend(Accepted, data);
          Accepted := Accepted + [data];
          assert Frame(data)[..cut] == Frame(data);
          EveryPayload(Accepted);
        } else if old(open) {
          DecodeFrames(Accepted, data, cut);
        } else {
          assert Frame(data)[..0] == [] && old(Wire) + [] == old(Wire);
        }
      }
    }

    /** Any number of packets, as long as the socket does not block for good: the receiver decodes the ones
        whose call returned 0, in order, also when the connection breaks in the middle of one. */
    method SendAll(packets: seq<seq<byte>>) returns (results: seq<bool>)
      requires Consistent()
      modifies this`script, this`Wire, this`Accepted, this`open
      ensures |results| <= |packets| && (|results| < |packets| ==> script == [])
      ensures Accepted == old(Accepted) + Chosen(packets[..|results|], results)
      ensures Decode(Wire).0 == Accepted
    {
      hide Decode;
      results := [];
      while |results| < |packets|
        invariant |results| <= |packets| && Consistent()
        invariant Accepted == old(Accepted) + Chosen(packets[..|results|], results)
      {
        var i := |results|;
        var status := SendResponseRaw(packets[i]);
        if status == Blocked { return; }
        assert packets[..i + 1][..i] == packets[..i];
        results := results + [status == Done];
        assert results[..i] == results[..|results| - 1];
      }
    }
  }

  lemma Front(b: seq<byte>, i: nat, n: nat)
    requires i + n <= |b|
    ensures b[..i] + b[i..][..n] == b[..i + n]
  {
  }

  /** The packets whose result is good. */
  function Chosen(packets: seq<seq<byte>>, results: seq<bool>): seq<seq<byte>>
    requires |packets| == |results|
  {
    if packets == [] then []
    else
      var l := |packets| - 1;
      Chosen(packets[..l], results[..l]) + if results[l] then [packets[l]] else []
  }

  lemma EveryPayload(payloads: seq<seq<byte>>)
    requires Sendable(payloads)
    ensures Decode(Frames(payloads)) == (payloads, [])
  {
    DecodeFrames(payloads, [], 0);
    assert Frames(payloads) + Frame([])[..0] == Frames(payloads);
  }
}
