/** The receiver of SLIP packets (RFC 1055) on a socket (`src/OSC.cpp`). */
module Slip {

  type Byte = x: int | 0 <= x < 256

  const END: Byte := 192
  const ESC: Byte := 219
  const ESC_END: Byte := 220
  const ESC_ESC: Byte := 221

  /** What is kept for a socket between two reads. */
  datatype Socket = Socket(inPacket: bool, escape: bool, data: seq<Byte>)

  datatype Event = Quiet | Packet(data: seq<Byte>) | Bad

  const IDLE: Socket := Socket(false, false, [])

  /** One byte. */
  function Feed(s: Socket, b: Byte): (Socket, Event) {
    if !s.inPacket then (if b == END then s.(inPacket := true) else s, Quiet)
    else if b == END then (IDLE, Packet(s.data))
    else if b == ESC then (s.(escape := true), Quiet)
    else if !s.escape then (s.(data := s.data + [b]), Quiet)
    else if b == ESC_ESC then (s.(escape := false, data := s.data + [ESC]), Quiet)
    else if b == ESC_END then (s.(escape := false, data := s.data + [END]), Quiet)
    else (IDLE, Bad)
  }

  /** One read: what comes after the end of a packet in the same read is dropped. */
  function ReadChunk(s: Socket, chunk: seq<Byte>): (r: (Socket, Event))
    ensures r.1 != Quiet ==> r.0 == IDLE
    decreases |chunk|
  {
    if chunk == [] then (s, Quiet)
    else
      var (s1, e) := Feed(s, chunk[0]);
      if e == Quiet then ReadChunk(s1, chunk[1..]) else (s1, e)
  }

  /** Many reads, and what they deliver. */
  function ReadAll(s: Socket, chunks: seq<seq<Byte>>): (Socket, seq<Event>)
    decreases |chunks|
  {
    if chunks == [] then (s, [])
    else
      var (s1, e) := ReadChunk(s, chunks[0]);
      var (s2, more) := ReadAll(s1, chunks[1..]);
      (s2, (if e == Quiet then [] else [e]) + more)
  }

  /** The sender's side of the protocol. */
  function Stuff(payload: seq<Byte>): seq<Byte> {
    if payload == [] then []
    else
      (if payload[0] == END then [ESC, ESC_END] else if payload[0] == ESC then [ESC, ESC_ESC] else [payload[0]])
      + Stuff(payload[1..])
  }

  function Framed(payload: seq<Byte>): seq<Byte> {
    [END] + Stuff(payload) + [END]
  }

  function Concat(chunks: seq<seq<Byte>>): seq<Byte> {
    if chunks == [] then [] else chunks[0] + Concat(chunks[1..])
  }

  // ---------------------------------------------------------------------------
  // The receiver
  // ---------------------------------------------------------------------------

  class Receiver {
    var dataPacket: bool
    var activeEscape: bool
    var data: seq<Byte>
    ghost var delivered: seq<Event>

    function State(): Socket
      reads this
    {
      Socket(dataPacket, activeEscape, data)
    }

    constructor ()
      ensures State() == IDLE && delivered == []
    {
      dataPacket, activeEscape, data, delivered := false, false, [], [];
    }

    /** `parse_osc_slip_data`: 2 when the packet is complete, -1 when it is bad, and otherwise 1 or 0
        as the last byte was an escape or not. */
    method ParseOscSlipData(buf: seq<Byte>) returns (code: int)
      requires dataPacket
      modifies this`data
      ensures var (s, e) := ReadChunk(old(State()), buf);
              match e
              case Packet(p) => code == 2 && data == p
              case Bad => code == -1
              case Quiet => (code == 0 || code == 1) && s == Socket(true, code == 1, data)
    {
      var escape := activeEscape;
      var i := 0;
      while i < |buf|
        invariant i <= |buf|
        invariant ReadChunk(Socket(true, escape, data), buf[i..]) == ReadChunk(old(State()), buf)
      {
        assert buf[i..][1..] == buf[i + 1..];
        if buf[i] == END {
          return 2;
        }
        if buf[i] == ESC {
          escape := true;
        } else if escape {
          escape := false;
          if buf[i] == ESC_ESC {
            data := data + [ESC];
          } else if buf[i] == ESC_END {
            data := data + [END];
          } else {
            return -1;
          }
        } else {
          data := data + [buf[i]];
        }
        i := i + 1;
      }
      return if escape then 1 else 0;
    }

    /** What the server thread does with the bytes of one read. */
    method OnRead(buf: seq<Byte>)
      modifies this
      ensures var (s, e) := ReadChunk(old(State()), buf);
              State() == s && delivered == old(delivered) + if e == Quiet then [] else [e]
    {
      var i := 0;
      if !dataPacket {
        while i < |buf| && !dataPacket
          modifies this`dataPacket
          invariant i <= |buf|
          invariant ReadChunk(State(), buf[i..]) == ReadChunk(old(State()), buf)
          decreases |buf| - i
        {
          assert buf[i..][1..] == buf[i + 1..];
          if buf[i] == END {
            dataPacket := true;
          }
          i := i + 1;
        }
        if !dataPacket {
          assert delivered + [] == delivered;
          return;
        }
      }
      assert !old(dataPacket) || buf[i..] == buf;
      var code := ParseOscSlipData(buf[i..]);
      if code == 2 {
        delivered := delivered + [Packet(data)];
        data, activeEscape, dataPacket := [], false, false;
      } else if code == -1 {
        delivered := delivered + [Bad];
        data, activeEscape, dataPacket := [], false, false;
      } else {
        activeEscape := code == 1;
        assert delivered + [] == delivered;
      }
    }
  }

  // ---------------------------------------------------------------------------
  // Framing
  // ---------------------------------------------------------------------------

  /** A read of two parts is two reads, unless the first completes a packet. */
  lemma {:induction false} ReadParts(s: Socket, a: seq<Byte>, b: seq<Byte>)
    ensures var (s1, e) := ReadChunk(s, a);
            ReadChunk(s, a + b) == if e == Quiet then ReadChunk(s1, b) else (s1, e)
    decreases |a|
  {
    if a == [] {
      assert a + b == b;
    } else {
      assert (a + b)[1..] == a[1..] + b;
      ReadParts(Feed(s, a[0]).0, a[1..], b);
    }
  }

  lemma OneUnstuffs(b: Byte, code: seq<Byte>, before: seq<Byte>)
    requires code == if b == END then [ESC, ESC_END] else if b == ESC then [ESC, ESC_ESC] else [b]
    ensures ReadChunk(Socket(true, false, before), code) == (Socket(true, false, before + [b]), Quiet)
  {
    var s := Feed(Socket(true, false, before), code[0]).0;
    if |code| == 2 {
      assert code[1..] == [code[1]];
      assert [code[1]][1..] == [];
      assert ReadChunk(s, [code[1]]) == ReadChunk(Feed(s, code[1]).0, []);
    } else {
      assert code[1..] == [];
      assert ReadChunk(s, []) == (s, Quiet);
    }
  }

  /** A stuffed payload is collected. */
  lemma {:induction false} Unstuffs(payload: seq<Byte>, before: seq<Byte>)
    ensures ReadChunk(Socket(true, false, before), Stuff(payload)) == (Socket(true, false, before + payload), Quiet)
    decreases |payload|
  {
    if payload == [] {
      assert before + payload == before;
    } else {
      var b := payload[0];
      var code: seq<Byte> := if b == END then [ESC, ESC_END] else if b == ESC then [ESC, ESC_ESC] else [b];
      var s := Socket(true, false, before);
      OneUnstuffs(b, code, before);
      ReadParts(s, code, Stuff(payload[1..]));
      Unstuffs(payload[1..], before + [b]);
      assert before + [b] + payload[1..] == before + payload;
    }
  }

  lemma FrameDelivers(payload: seq<Byte>)
    ensures ReadChunk(IDLE, [END] + Stuff(payload)) == (Socket(true, false, payload), Quiet)
    ensures ReadChunk(IDLE, Framed(payload)) == (IDLE, Packet(payload))
  {
    var s := Socket(true, false, []);
    assert ReadChunk(IDLE, [END]) == (s, Quiet);
    ReadParts(IDLE, [END], Stuff(payload));
    Unstuffs(payload, []);
    assert [] + payload == payload;
    ReadParts(IDLE, [END] + Stuff(payload), [END]);
    assert ReadChunk(Socket(true, false, payload), [END]) == (IDLE, Packet(payload));
  }

  /** Nothing is delivered before the last byte. */
  predicate QuietUntilLast(s: Socket, bytes: seq<Byte>) {
    bytes != [] && ReadChunk(s, bytes[..|bytes| - 1]).1 == Quiet
  }

  /** The protocol's own bytes: 192 at both ends of a frame, and 219 before 220 for 192 and before 221 for 219. */
  lemma FrameWrittenOut(b: Byte, payload: seq<Byte>)
    ensures Framed(payload) == [192] + Stuff(payload) + [192] && Stuff([]) == []
    ensures Stuff([b] + payload) == (if b == 192 then [219, 220] else if b == 219 then [219, 221] else [b]) + Stuff(payload)
    ensures ReadChunk(IDLE, [192, 219, 220, 7, 219, 221, 192]) == (IDLE, Packet([192, 7, 219]))
  {
    assert ([b] + payload)[1..] == payload;
    var p: seq<Byte> := [192, 7, 219];
    assert p[1..] == [7, 219] && p[1..][1..] == [219] && p[1..][1..][1..] == [];
    assert Stuff([219]) == [219, 221];
    assert Stuff([7, 219]) == [7] + [219, 221];
    assert Framed(p) == [192, 219, 220, 7, 219, 221, 192];
    FrameDelivers(p);
  }

  /** After an escape any other byte makes the packet bad, except that a further escape changes nothing and the
      end of the packet is still its end. */
  lemma EscapedOtherwise(data: seq<Byte>, b: Byte, more: seq<Byte>)
    ensures b !in {192, 219, 220, 221} ==> ReadChunk(Socket(true, false, data), [219, b] + more) == (IDLE, Bad)
    ensures ReadChunk(Socket(true, false, data), [219, 219] + more) == ReadChunk(Socket(true, false, data), [219] + more)
    ensures ReadChunk(Socket(true, false, data), [219, 192] + more) == (IDLE, Packet(data))
  {
    var s := Socket(true, false, data);
    assert ([219, b] + more)[1..] == [b] + more && ([219, 219] + more)[1..] == [219] + more;
    assert ([219, 192] + more)[1..] == [192] + more && ([219] + more)[1..] == more;
  }

  /** What comes before the first 192 is not looked at. */
  lemma {:induction false} RubbishIgnored(rubbish: seq<Byte>, more: seq<Byte>)
    requires 192 !in rubbish
    ensures ReadChunk(IDLE, rubbish + more) == ReadChunk(IDLE, more)
    decreases |rubbish|
  {
    if rubbish == [] {
      assert rubbish + more == more;
    } else {
      assert (rubbish + more)[1..] == rubbish[1..] + more;
      RubbishIgnored(rubbish[1..], more);
    }
  }

  lemma {:induction false} Splits(s: Socket, chunks: seq<seq<Byte>>, payload: seq<Byte>)
    requires QuietUntilLast(s, Concat(chunks)) && ReadChunk(s, Concat(chunks)) == (IDLE, Packet(payload))
    ensures ReadAll(s, chunks) == (IDLE, [Packet(payload)])
    decreases |chunks|
  {
    var c, rest := chunks[0], Concat(chunks[1..]);
    var all := Concat(chunks);
    ReadParts(s, c, rest);
    if rest == [] {
      assert all == c;
      EmptyReads(IDLE, chunks[1..]);
      assert [Packet(payload)] + [] == [Packet(payload)];
    } else {
      var front := rest[..|rest| - 1];
      assert all[..|all| - 1] == c + front;
      ReadParts(s, c, front);
      Splits(ReadChunk(s, c).0, chunks[1..], payload);
      assert [] + [Packet(payload)] == [Packet(payload)];
    }
  }

  lemma {:induction false} EmptyReads(s: Socket, chunks: seq<seq<Byte>>)
    requires Concat(chunks) == []
    ensures ReadAll(s, chunks) == (s, [])
    decreases |chunks|
  {
    if chunks != [] {
      assert chunks[0] == [] && Concat(chunks[1..]) == [];
      EmptyReads(s, chunks[1..]);
    }
  }

  /** However a frame is cut into reads, the payload is delivered once and the socket is idle again. */
  lemma AnySplitDelivers(payload: seq<Byte>, chunks: seq<seq<Byte>>)
    requires Concat(chunks) == Framed(payload)
    ensures ReadAll(IDLE, chunks) == (IDLE, [Packet(payload)])
  {
    FrameDelivers(payload);
    var all := Framed(payload);
    assert all[..|all| - 1] == [END] + Stuff(payload);
    Splits(IDLE, chunks, payload);
  }

  lemma {:induction false} ReadAllParts(s: Socket, a: seq<seq<Byte>>, b: seq<seq<Byte>>)
    ensures var (s1, e1) := ReadAll(s, a);
            var (s2, e2) := ReadAll(s1, b);
            ReadAll(s, a + b) == (s2, e1 + e2)
    decreases |a|
  {
    if a == [] {
      assert a + b == b;
      assert [] + ReadAll(s, b).1 == ReadAll(s, b).1;
    } else {
      assert (a + b)[1..] == a[1..] + b;
      var (s1, e) := ReadChunk(s, a[0]);
      ReadAllParts(s1, a[1..], b);
      var now: seq<Event> := if e == Quiet then [] else [e];
      var (s2, e1) := ReadAll(s1, a[1..]);
      var (s3, e2) := ReadAll(s2, b);
      assert now + (e1 + e2) == (now + e1) + e2;
    }
  }

  /** Whatever comes behind a frame in the same read is lost. */
  lemma RestOfReadIsLost(p: seq<Byte>, more: seq<Byte>)
    ensures ReadChunk(IDLE, Framed(p) + more) == (IDLE, Packet(p))
  {
    FrameDelivers(p);
    ReadParts(IDLE, Framed(p), more);
  }

  // ---------------------------------------------------------------------------
  // Frame after frame
  // ---------------------------------------------------------------------------

  function Frames(payloads: seq<seq<Byte>>): seq<Byte> {
    if payloads == [] then [] else Framed(payloads[0]) + Frames(payloads[1..])
  }

  function Packets(payloads: seq<seq<Byte>>): seq<Event> {
    if payloads == [] then [] else [Packet(payloads[0])] + Packets(payloads[1..])
  }

  /** Some of the reads make up the first frame, those after them the next, and so on. */
  ghost predicate Aligned(chunks: seq<seq<Byte>>, payloads: seq<seq<Byte>>)
    decreases |payloads|
  {
    payloads == []
    || exists k | 0 <= k <= |chunks| :: FrameIn(chunks, k, payloads[0]) && Aligned(chunks[k..], payloads[1..])
  }

  predicate FrameIn(chunks: seq<seq<Byte>>, k: nat, payload: seq<Byte>)
    requires k <= |chunks|
  {
    Concat(chunks[..k]) == Framed(payload)
  }

  /** END bytes. */
  function Ends(bytes: seq<Byte>): nat {
    if bytes == [] then 0 else (if bytes[0] == END then 1 else 0) + Ends(bytes[1..])
  }

  function PacketCount(events: seq<Event>): nat {
    if events == [] then 0 else (if events[0].Packet? then 1 else 0) + PacketCount(events[1..])
  }

  /** A packet that has begun has taken one END byte already. */
  function Begun(s: Socket): nat {
    if s.inPacket then 1 else 0
  }

  lemma {:induction false} EndsOfParts(a: seq<Byte>, b: seq<Byte>)
    ensures Ends(a + b) == Ends(a) + Ends(b)
    decreases |a|
  {
    if a == [] {
      assert a + b == b;
    } else {
      assert (a + b)[1..] == a[1..] + b;
      EndsOfParts(a[1..], b);
    }
  }

  lemma {:induction false} StuffedHasNoEnd(payload: seq<Byte>)
    ensures Ends(Stuff(payload)) == 0
    decreases |payload|
  {
    if payload != [] {
      var b := payload[0];
      var code: seq<Byte> := if b == END then [ESC, ESC_END] else if b == ESC then [ESC, ESC_ESC] else [b];
      EndsOfParts(code, Stuff(payload[1..]));
      StuffedHasNoEnd(payload[1..]);
      assert |code| == 2 ==> code[1..] == [code[1]] && [code[1]][1..] == [];
    }
  }

  lemma {:induction false} EndsOfFrames(payloads: seq<seq<Byte>>)
    ensures Ends(Frames(payloads)) == 2 * |payloads|
    decreases |payloads|
  {
    if payloads != [] {
      StuffedHasNoEnd(payloads[0]);
      EndsOfParts([END] + Stuff(payloads[0]), [END]);
      EndsOfParts([END], Stuff(payloads[0]));
      assert Ends([END]) == 1;
      EndsOfParts(Framed(payloads[0]), Frames(payloads[1..]));
      EndsOfFrames(payloads[1..]);
    }
  }

  /** Every packet costs two END bytes. */
  lemma {:induction false} ChunkCount(s: Socket, chunk: seq<Byte>)
    ensures var (s1, e) := ReadChunk(s, chunk);
            (if e.Packet? then 2 else 0) + Begun(s1) <= Ends(chunk) + Begun(s)
    decreases |chunk|
  {
    if chunk != [] {
      var (s1, e) := Feed(s, chunk[0]);
      if e == Quiet {
        ChunkCount(s1, chunk[1..]);
      }
    }
  }

  lemma {:induction false} AllCount(s: Socket, chunks: seq<seq<Byte>>)
    ensures 2 * PacketCount(ReadAll(s, chunks).1) <= Ends(Concat(chunks)) + Begun(s)
    decreases |chunks|
  {
    if chunks != [] {
      var (s1, e) := ReadChunk(s, chunks[0]);
      var more := ReadAll(s1, chunks[1..]).1;
      ChunkCount(s, chunks[0]);
      AllCount(s1, chunks[1..]);
      EndsOfParts(chunks[0], Concat(chunks[1..]));
      assert ([e] + more)[1..] == more && [] + more == more;
    }
  }

  lemma {:induction false} CountPackets(payloads: seq<seq<Byte>>)
    ensures PacketCount(Packets(payloads)) == |payloads|
    decreases |payloads|
  {
    if payloads != [] {
      assert Packets(payloads)[1..] == Packets(payloads[1..]);
      CountPackets(payloads[1..]);
    }
  }

  /** The read in which a frame ends, and what that read holds beyond it. */
  lemma {:induction false} FrameEnd(chunks: seq<seq<Byte>>, frame: seq<Byte>, rest: seq<Byte>)
    returns (j: nat, beyond: seq<Byte>)
    requires Concat(chunks) == frame + rest && frame != []
    ensures 1 <= j <= |chunks| && Concat(chunks[..j]) == frame + beyond
    ensures |Concat(chunks[..j - 1])| < |frame| && beyond + Concat(chunks[j..]) == rest
    decreases |chunks|
  {
    var c, others := chunks[0], Concat(chunks[1..]);
    if |c| >= |frame| {
      j, beyond := 1, c[|frame|..];
      assert c == (c + others)[..|c|] && frame == (frame + rest)[..|frame|];
      var one := [c];
      assert chunks[..1] == one && chunks[..0] == [] && one[1..] == [];
      assert Concat(one) == c + Concat(one[1..]) == c;
      assert c == frame + beyond;
      assert beyond + others == (c + others)[|frame|..];
    } else {
      assert c == (c + others)[..|c|] == frame[..|c|];
      var tail := frame[|c|..];
      assert others == (c + others)[|c|..] == tail + rest;
      var k;
      k, beyond := FrameEnd(chunks[1..], tail, rest);
      j := k + 1;
      assert chunks[..j][1..] == chunks[1..][..k] && chunks[..j - 1][1..] == chunks[1..][..k - 1];
      assert chunks[..j][0] == c && (k > 0 ==> chunks[..j - 1][0] == c);
      assert frame + beyond == c + (tail + beyond);
      assert chunks[j..] == chunks[1..][k..];
    }
  }

  /** A frame is delivered when the read comes in which it ends, whatever else that read holds. */
  lemma {:induction false} DeliveredAtEnd(s: Socket, chunks: seq<seq<Byte>>, frame: seq<Byte>, beyond: seq<Byte>,
                                         payload: seq<Byte>)
    requires chunks != [] && Concat(chunks) == frame + beyond && |Concat(chunks[..|chunks| - 1])| < |frame|
    requires QuietUntilLast(s, frame) && ReadChunk(s, frame) == (IDLE, Packet(payload))
    ensures ReadAll(s, chunks) == (IDLE, [Packet(payload)])
    decreases |chunks|
  {
    var c, others := chunks[0], Concat(chunks[1..]);
    if |chunks| == 1 {
      assert chunks[1..] == [] && c == frame + beyond;
      ReadParts(s, frame, beyond);
      assert [Packet(payload)] + [] == [Packet(payload)];
    } else {
      var front := chunks[..|chunks| - 1];
      assert front[0] == c && front[1..] == chunks[1..][..|chunks| - 2];
      assert c == (c + others)[..|c|] == frame[..|c|];
      var tail := frame[|c|..];
      assert frame == c + tail && others == (c + others)[|c|..] == tail + beyond;
      assert frame[..|frame| - 1] == c + tail[..|tail| - 1];
      ReadParts(s, c, tail);
      ReadParts(s, c, tail[..|tail| - 1]);
      DeliveredAtEnd(ReadChunk(s, c).0, chunks[1..], tail, beyond, payload);
      assert [] + [Packet(payload)] == [Packet(payload)];
    }
  }

  /** All of a sequence of frames arrive, and nothing else, exactly if no read goes on beyond the end
      of a frame. */
  lemma {:induction false} AllArriveIff(chunks: seq<seq<Byte>>, payloads: seq<seq<Byte>>)
    requires Concat(chunks) == Frames(payloads)
    ensures ReadAll(IDLE, chunks).1 == Packets(payloads) <==> Aligned(chunks, payloads)
    decreases |payloads|
  {
    if payloads == [] {
      EmptyReads(IDLE, chunks);
    } else {
      if Aligned(chunks, payloads) {
        AlignedArrive(chunks, payloads);
      }
      if ReadAll(IDLE, chunks).1 == Packets(payloads) {
        ArrivedAligned(chunks, payloads);
      }
    }
  }

  lemma {:induction false} AlignedArrive(chunks: seq<seq<Byte>>, payloads: seq<seq<Byte>>)
    requires Concat(chunks) == Frames(payloads) && payloads != [] && Aligned(chunks, payloads)
    ensures ReadAll(IDLE, chunks).1 == Packets(payloads)
    decreases |payloads|, 0
  {
    var k: nat :| k <= |chunks| && FrameIn(chunks, k, payloads[0]) && Aligned(chunks[k..], payloads[1..]);
    assert chunks == chunks[..k] + chunks[k..];
    WhatIsLeft(chunks, k, Framed(payloads[0]), Frames(payloads[1..]));
    AnySplitDelivers(payloads[0], chunks[..k]);
    ReadAllParts(IDLE, chunks[..k], chunks[k..]);
    AllArriveIff(chunks[k..], payloads[1..]);
  }

  lemma {:induction false} ArrivedAligned(chunks: seq<seq<Byte>>, payloads: seq<seq<Byte>>)
    requires Concat(chunks) == Frames(payloads) && payloads != []
    requires ReadAll(IDLE, chunks).1 == Packets(payloads)
    ensures Aligned(chunks, payloads)
    decreases |payloads|, 0
  {
    var frame, rest := Framed(payloads[0]), Frames(payloads[1..]);
    var j, beyond := FrameEnd(chunks, frame, rest);
    var first, later := chunks[..j], chunks[j..];
    FrameDelivers(payloads[0]);
    assert frame[..|frame| - 1] == [END] + Stuff(payloads[0]);
    assert first[..|first| - 1] == chunks[..j - 1];
    DeliveredAtEnd(IDLE, first, frame, beyond, payloads[0]);
    assert chunks == first + later;
    ReadAllParts(IDLE, first, later);
    assert ReadAll(IDLE, later).1 == Packets(payloads)[1..] == Packets(payloads[1..]);
    if beyond == [] {
      assert frame + beyond == frame && beyond + Concat(later) == Concat(later);
      AllArriveIff(later, payloads[1..]);
      assert FrameIn(chunks, j, payloads[0]);
    } else {
      Outnumbered(payloads[1..], beyond, later);
      assert false;
    }
  }

  /** With a part of the first frame lost there are too few END bytes for all packets. */
  lemma Outnumbered(payloads: seq<seq<Byte>>, lost: seq<Byte>, chunks: seq<seq<Byte>>)
    requires lost != [] && lost + Concat(chunks) == Frames(payloads)
    ensures ReadAll(IDLE, chunks).1 != Packets(payloads)
  {
    assert lost[0] == (lost + Concat(chunks))[0] == END;
    EndsOfFrames(payloads);
    EndsOfParts(lost, Concat(chunks));
    AllCount(IDLE, chunks);
    CountPackets(payloads);
  }

  lemma ConcatSplit(chunks: seq<seq<Byte>>, k: nat)
    requires k <= |chunks|
    ensures Concat(chunks) == Concat(chunks[..k]) + Concat(chunks[k..])
  {
    var a, b := chunks[..k], chunks[k..];
    assert chunks == a + b;
    ConcatParts(a, b);
  }

  lemma {:induction false} ConcatParts(a: seq<seq<Byte>>, b: seq<seq<Byte>>)
    ensures Concat(a + b) == Concat(a) + Concat(b)
    decreases |a|
  {
    if a == [] {
      assert a + b == b;
    } else {
      assert (a + b)[1..] == a[1..] + b;
      ConcatParts(a[1..], b);
    }
  }

  lemma PairOfFrames(p: seq<Byte>, q: seq<Byte>)
    ensures Frames([p, q]) == Framed(p) + Framed(q) && Packets([p, q]) == [Packet(p), Packet(q)]
  {
    assert [p, q][1..] == [q] && [q][1..] == [];
    assert Frames([q]) == Framed(q) + [] == Framed(q);
    assert Packets([q]) == [Packet(q)] + Packets([]) == [Packet(q)];
  }

  /** What is left of the reads once some of them have made up `a`. */
  lemma WhatIsLeft(chunks: seq<seq<Byte>>, k: nat, a: seq<Byte>, b: seq<Byte>)
    requires Concat(chunks) == a + b && k <= |chunks| && Concat(chunks[..k]) == a
    ensures Concat(chunks[k..]) == b
  {
    ConcatSplit(chunks, k);
    Cancel(a, Concat(chunks[k..]), b);
  }

  lemma Cancel(a: seq<Byte>, x: seq<Byte>, b: seq<Byte>)
    requires a + x == a + b
    ensures x == b
  {
    assert (a + x)[|a|..] == x && (a + b)[|a|..] == b;
  }

  lemma OneAligned(chunks: seq<seq<Byte>>, payload: seq<Byte>)
    requires Concat(chunks) == Framed(payload)
    ensures Aligned(chunks, [payload])
  {
    assert chunks[..|chunks|] == chunks;
    assert FrameIn(chunks, |chunks|, payload) && Aligned(chunks[|chunks|..], []);
    assert [payload][1..] == [];
  }

  /** Of two frames both arrive exactly if a read ends where the first frame ends. */
  lemma TwoFrames(p: seq<Byte>, q: seq<Byte>, chunks: seq<seq<Byte>>)
    requires Concat(chunks) == Framed(p) + Framed(q)
    ensures ReadAll(IDLE, chunks).1 == [Packet(p), Packet(q)]
       <==> exists k | 0 <= k <= |chunks| :: FrameIn(chunks, k, p)
  {
    PairOfFrames(p, q);
    AllArriveIff(chunks, [p, q]);
    if k: nat :| k <= |chunks| && FrameIn(chunks, k, p) {
      WhatIsLeft(chunks, k, Framed(p), Framed(q));
      OneAligned(chunks[k..], q);
      assert [p, q][1..] == [q];
    }
  }
}
