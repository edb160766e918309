/**
 Packet framing: three length bytes, a sequence byte, the payload; payloads of
 16 MB and more travel as a chain of packets ("Sending More Than 16Mb" in the
 MySQL Client/Server Protocol).
*/
module Framing {
  import opened Codec

  const MAX_PACKET_SIZE: nat := 0xFFFFFF

  datatype IoError = READ_FAILED | WRITE_FAILED | PACKET_TOO_LARGE | CONNECTION_CLOSED

  datatype Packet = Packet(length: u32, sequence: byte, payload: seq<byte>)

  datatype ReadResult = Read(packet: Packet, rest: seq<byte>) | Failed(error: IoError)

  function Header(len: u24, sequence: byte): (r: seq<byte>)
    ensures |r| == 4
  {
    U24(len) + [sequence]
  }

  function Next(sequence: byte, n: nat): byte { (sequence + n) % 256 }

  /** The chain of packets the protocol prescribes: full ones, then one that is not full. */
  function Frames(payload: seq<byte>, sequence: byte): seq<byte>
    decreases |payload|
  {
    if |payload| < MAX_PACKET_SIZE then Header(|payload|, sequence) + payload
    else
      Header(MAX_PACKET_SIZE, sequence) + payload[..MAX_PACKET_SIZE]
      + Frames(payload[MAX_PACKET_SIZE..], Next(sequence, 1))
  }

  /** How many packets that is. */
  function FrameCount(size: nat): nat { size / MAX_PACKET_SIZE + 1 }

  // ---- Reading ----

  /** Reads the packets that continue a chain whose last packet had `length` bytes. */
  function ReadChain(stream: seq<byte>, length: nat, sequence: byte, payload: seq<byte>): ReadResult
    decreases |stream|
  {
    if length != MAX_PACKET_SIZE then Read(Packet(|payload| % 0x1_0000_0000, sequence, payload), stream)
    else if |stream| < 4 then Failed(READ_FAILED)
    else
      var chunk := ReadU24(stream, 0);
      if 4 + chunk > |stream| then Failed(READ_FAILED)
      else ReadChain(stream[4 + chunk..], chunk, stream[3], payload + stream[4..4 + chunk])
  }

  function ReadPacket(stream: seq<byte>): ReadResult {
    if |stream| < 4 then Failed(READ_FAILED)
    else
      var length := ReadU24(stream, 0);
      if length > MAX_PACKET_SIZE then Failed(PACKET_TOO_LARGE)
      else if 4 + length > |stream| then Failed(READ_FAILED)
      else ReadChain(stream[4 + length..], length, stream[3], stream[4..4 + length])
  }

  method ReadPacketLoop(stream: seq<byte>) returns (r: ReadResult)
    ensures r == ReadPacket(stream)
  {
    if |stream| < 4 {
      return Failed(READ_FAILED);
    }
    var length: nat, sequence := ReadU24(stream, 0), stream[3];
    if length > MAX_PACKET_SIZE {
      return Failed(PACKET_TOO_LARGE);
    }
    if 4 + length > |stream| {
      return Failed(READ_FAILED);
    }
    var payload, rest := stream[4..4 + length], stream[4 + length..];
    while length == MAX_PACKET_SIZE
      invariant ReadChain(rest, length, sequence, payload) == ReadPacket(stream)
      decreases |rest|
    {
      if |rest| < 4 {
        return Failed(READ_FAILED);
      }
      var chunk := ReadU24(rest, 0);
      sequence := rest[3];
      if 4 + chunk > |rest| {
        return Failed(READ_FAILED);
      }
      payload, rest := payload + rest[4..4 + chunk], rest[4 + chunk..];
      length := chunk;
    }
    r := Read(Packet(|payload| % 0x1_0000_0000, sequence, payload), rest);
  }

  /** The first packet is read as if it continued an empty chain. */
  lemma ReadPacketIsChain(stream: seq<byte>)
    ensures ReadPacket(stream) == ReadChain(stream, MAX_PACKET_SIZE, 0, [])
  {
    if |stream| >= 4 {
      var chunk := ReadU24(stream, 0);
      if 4 + chunk <= |stream| {
        assert [] + stream[4..4 + chunk] == stream[4..4 + chunk];
      }
    }
  }

  /** One packet at the head of the stream is consumed exactly. */
  lemma ReadOneFrame(chunk: seq<byte>, sequence: byte, rest: seq<byte>, before: byte, payload: seq<byte>)
    requires |chunk| <= MAX_PACKET_SIZE
    ensures ReadChain(Header(|chunk|, sequence) + chunk + rest, MAX_PACKET_SIZE, before, payload)
         == ReadChain(rest, |chunk|, sequence, payload + chunk)
  {
    var s := Header(|chunk|, sequence) + chunk + rest;
    assert At(s, 0, U24(|chunk|));
    U24RoundTrip(s, 0, |chunk|);
    assert s[3] == sequence && s[4..4 + |chunk|] == chunk && s[4 + |chunk|..] == rest;
  }

  lemma ReadLastFrame(p: seq<byte>, sequence: byte, rest: seq<byte>, before: byte, payload: seq<byte>)
    requires |p| < MAX_PACKET_SIZE
    ensures ReadChain(Frames(p, sequence) + rest, MAX_PACKET_SIZE, before, payload)
         == Read(Packet(|payload + p| % 0x1_0000_0000, sequence, payload + p), rest)
  {
    ReadOneFrame(p, sequence, rest, before, payload);
  }

  lemma {:induction false} ReadChainOfFrames(p: seq<byte>, sequence: byte, rest: seq<byte>, before: byte, payload: seq<byte>)
    ensures ReadChain(Frames(p, sequence) + rest, MAX_PACKET_SIZE, before, payload)
         == Read(Packet(|payload + p| % 0x1_0000_0000, Next(sequence, |p| / MAX_PACKET_SIZE), payload + p), rest)
    decreases |p|
  {
    hide ReadChain, Header;
    if |p| < MAX_PACKET_SIZE {
      assert |p| / MAX_PACKET_SIZE == 0;
      ReadLastFrame(p, sequence, rest, before, payload);
    } else {
      var chunk, tail := p[..MAX_PACKET_SIZE], p[MAX_PACKET_SIZE..];
      var more := Frames(tail, Next(sequence, 1)) + rest;
      assert Frames(p, sequence) + rest == Header(MAX_PACKET_SIZE, sequence) + chunk + more;
      ReadOneFrame(chunk, sequence, more, before, payload);
      ReadChainOfFrames(tail, Next(sequence, 1), rest, sequence, payload + chunk);
      assert payload + chunk + tail == payload + p;
      assert |p| / MAX_PACKET_SIZE == |tail| / MAX_PACKET_SIZE + 1;
      NextNext(sequence, 1, |tail| / MAX_PACKET_SIZE);
    }
  }

  /** The reader inverts the prescribed framing for payloads of every size and consumes nothing else. */
  lemma ReadInvertsFrames(p: seq<byte>, sequence: byte, rest: seq<byte>)
    ensures ReadPacket(Frames(p, sequence) + rest)
         == Read(Packet(|p| % 0x1_0000_0000, Next(sequence, |p| / MAX_PACKET_SIZE), p), rest)
  {
    ReadPacketIsChain(Frames(p, sequence) + rest);
    ReadChainOfFrames(p, sequence, rest, 0, []);
    assert [] + p == p;
  }

  lemma ReadSingleFrame(p: seq<byte>, sequence: byte, rest: seq<byte>)
    requires |p| < MAX_PACKET_SIZE
    ensures ReadPacket(Frames(p, sequence) + rest) == Read(Packet(|p|, sequence, p), rest)
  {
    hide Frames, ReadPacket;
    ReadInvertsFrames(p, sequence, rest);
    assert |p| / MAX_PACKET_SIZE == 0;
  }

  /** A stream that ends anywhere inside a chain is not read: nothing but a failure comes out. */
  lemma {:induction false} TruncatedChainFails(p: seq<byte>, sequence: byte, n: nat, before: byte, payload: seq<byte>)
    requires n < |Frames(p, sequence)|
    ensures ReadChain(Frames(p, sequence)[..n], MAX_PACKET_SIZE, before, payload) == Failed(READ_FAILED)
    decreases |p|
  {
    hide U24;
    var size := if |p| < MAX_PACKET_SIZE then |p| else MAX_PACKET_SIZE;
    var head, chunk := Header(size, sequence), p[..size];
    var whole := Frames(p, sequence);
    var tail := if |p| < MAX_PACKET_SIZE then [] else Frames(p[size..], Next(sequence, 1));
    assert whole == head + chunk + tail;
    var s := whole[..n];
    if n >= 4 {
      assert s[..4] == head;
      assert At(s, 0, U24(size)) by { assert s[0..3] == head[..3]; }
      U24RoundTrip(s, 0, size);
      if n >= 4 + size {
        assert s[3] == sequence;
        assert s[4 + size..] == tail[..n - 4 - size];
        TruncatedChainFails(p[size..], Next(sequence, 1), n - 4 - size, sequence, payload + s[4..4 + size]);
      }
    }
  }

  /** So a packet cut off by the end of the stream is a failed read. */
  lemma TruncatedPacketFails(p: seq<byte>, sequence: byte, n: nat)
    requires n < |Frames(p, sequence)|
    ensures ReadPacket(Frames(p, sequence)[..n]) == Failed(READ_FAILED)
  {
    hide Frames, ReadChain, ReadPacket;
    ReadPacketIsChain(Frames(p, sequence)[..n]);
    TruncatedChainFails(p, sequence, n, 0, []);
  }

  // ---- Writing ----

  /** write_packet's variables: the bytes sent, the next sequence number, the offset reached. */
  datatype WriteState = WriteState(sent: seq<byte>, sequence: byte, offset: nat)

  function WriteIteration(p: seq<byte>, st: WriteState): (r: WriteState)
    requires st.offset <= |p|
    ensures st.offset <= r.offset <= |p|
  {
    var chunk := if |p| - st.offset < MAX_PACKET_SIZE then |p| - st.offset else MAX_PACKET_SIZE;
    WriteState(st.sent + Header(chunk, st.sequence) + p[st.offset..st.offset + chunk],
               Next(st.sequence, 1), st.offset + chunk)
  }

  /** The guard of the do-while loop. */
  predicate Again(size: nat, offset: nat) {
    offset < size || (size > 0 && size % MAX_PACKET_SIZE == 0)
  }

  /** Up to `limit` iterations of the loop, and whether it ended within them. */
  function WriteLoop(p: seq<byte>, st: WriteState, limit: nat): (WriteState, bool)
    requires st.offset <= |p|
    decreases limit
  {
    if limit == 0 then (st, false)
    else
      var st' := WriteIteration(p, st);
      if Again(|p|, st'.offset) then WriteLoop(p, st', limit - 1) else (st', true)
  }

  /** write_packet stopped after `limit` packets if it has not ended by itself. */
  method WritePacket(p: seq<byte>, sequence: byte, limit: nat) returns (st: WriteState, done: bool)
    ensures (st, done) == WriteLoop(p, WriteState([], sequence, 0), limit)
  {
    st, done := WriteState([], sequence, 0), false;
    var n := 0;
    while n < limit && !done
      invariant 0 <= n <= limit && st.offset <= |p|
      invariant done ==> (st, true) == WriteLoop(p, WriteState([], sequence, 0), limit)
      invariant !done ==> WriteLoop(p, st, limit - n) == WriteLoop(p, WriteState([], sequence, 0), limit)
    {
      st := WriteIteration(p, st);
      done := !Again(|p|, st.offset);
      n := n + 1;
    }
  }

  /** The sizes at which the guard never becomes false. */
  predicate EndlessSize(size: nat) { size > 0 && size % MAX_PACKET_SIZE == 0 }

  lemma NextNext(sequence: byte, m: nat, n: nat)
    ensures Next(Next(sequence, m), n) == Next(sequence, m + n)
  {
  }

  lemma {:induction false} WriteLoopSendsFrames(p: seq<byte>, st: WriteState)
    requires st.offset <= |p| && st.offset % MAX_PACKET_SIZE == 0 && !EndlessSize(|p|)
    ensures var n := FrameCount(|p| - st.offset);
            WriteLoop(p, st, n) ==
            (WriteState(st.sent + Frames(p[st.offset..], st.sequence), Next(st.sequence, n), |p|), true)
    decreases |p| - st.offset
  {
    hide Header;
    var q := p[st.offset..];
    if |q| < MAX_PACKET_SIZE {
      assert p[st.offset..|p|] == q;
      assert FrameCount(|q|) == 1;
      assert st.sent + Header(|q|, st.sequence) + q == st.sent + Frames(q, st.sequence);
    } else {
      var st' := WriteIteration(p, st);
      var tail := q[MAX_PACKET_SIZE..];
      assert p[st'.offset..] == tail && p[st.offset..st'.offset] == q[..MAX_PACKET_SIZE];
      assert FrameCount(|q|) == FrameCount(|tail|) + 1;
      WriteLoopSendsFrames(p, st');
      NextNext(st.sequence, 1, FrameCount(|tail|));
      assert st'.sent + Frames(tail, st'.sequence) == st.sent + Frames(q, st.sequence);
    }
  }

  /** For every other size the loop ends after one pass per packet, having sent the prescribed chain. */
  lemma WritePacketSendsFrames(p: seq<byte>, sequence: byte)
    requires !EndlessSize(|p|)
    ensures var n := FrameCount(|p|);
            WriteLoop(p, WriteState([], sequence, 0), n)
            == (WriteState(Frames(p, sequence), Next(sequence, n), |p|), true)
  {
    WriteLoopSendsFrames(p, WriteState([], sequence, 0));
    assert p[0..] == p && [] + Frames(p, sequence) == Frames(p, sequence);
  }

  /** The loop as it stands, at the sizes where it ends: what is left to send shrinks with every further pass. */
  method WriteWhole(p: seq<byte>, sequence: byte) returns (st: WriteState)
    requires !EndlessSize(|p|)
    ensures st == WriteState(Frames(p, sequence), Next(sequence, FrameCount(|p|)), |p|)
  {
    hide Frames, Header;
    WritePacketSendsFrames(p, sequence);
    ghost var start, n := WriteState([], sequence, 0), FrameCount(|p|);
    ghost var left := n - 1;
    st := WriteIteration(p, WriteState([], sequence, 0));
    while Again(|p|, st.offset)
      invariant st.offset <= |p| && left >= 0
      invariant Again(|p|, st.offset) ==> WriteLoop(p, st, left) == WriteLoop(p, start, n)
      invariant !Again(|p|, st.offset) ==> (st, true) == WriteLoop(p, start, n)
      decreases |p| - st.offset
    {
      st := WriteIteration(p, st);
      left := left - 1;
    }
  }

  lemma {:induction false} EndlessNeverDone(p: seq<byte>, st: WriteState, limit: nat)
    requires st.offset <= |p| && EndlessSize(|p|)
    ensures !WriteLoop(p, st, limit).1
    decreases limit
  {
    if limit > 0 {
      EndlessNeverDone(p, WriteIteration(p, st), limit - 1);
    }
  }

  /** The loop ends exactly for the sizes that are not a positive multiple of 0xFFFFFF. */
  lemma WriteEndsExactlyWhen(p: seq<byte>, sequence: byte)
    ensures (exists n :: WriteLoop(p, WriteState([], sequence, 0), n).1) <==> !EndlessSize(|p|)
  {
    if EndlessSize(|p|) {
      forall n: nat ensures !WriteLoop(p, WriteState([], sequence, 0), n).1 {
        EndlessNeverDone(p, WriteState([], sequence, 0), n);
      }
    } else {
      WritePacketSendsFrames(p, sequence);
      assert WriteLoop(p, WriteState([], sequence, 0), FrameCount(|p|)).1;
    }
  }

  function EmptyPackets(sequence: byte, n: nat): seq<byte>
    decreases n
  {
    if n == 0 then [] else Header(0, sequence) + EmptyPackets(Next(sequence, 1), n - 1)
  }

  /** At an endless size, once the payload is out every further pass sends one more empty packet. */
  lemma {:induction false} EndlessSendsEmptyPackets(p: seq<byte>, st: WriteState, n: nat)
    requires EndlessSize(|p|) && st.offset == |p|
    ensures WriteLoop(p, st, n).0 == WriteState(st.sent + EmptyPackets(st.sequence, n), Next(st.sequence, n), |p|)
    decreases n
  {
    if n > 0 {
      var st' := WriteIteration(p, st);
      assert st'.sent == st.sent + Header(0, st.sequence) by {
        assert p[|p|..|p|] == [];
      }
      EndlessSendsEmptyPackets(p, st', n - 1);
      NextNext(st.sequence, 1, n - 1);
    }
  }

  /** A chain of more than one packet, and how its count and sequence go on. */
  lemma FramesBehindFirst(q: seq<byte>, sequence: byte)
    requires |q| >= MAX_PACKET_SIZE
    ensures Frames(q, sequence) ==
            Header(MAX_PACKET_SIZE, sequence) + q[..MAX_PACKET_SIZE] + Frames(q[MAX_PACKET_SIZE..], Next(sequence, 1))
    ensures FrameCount(|q|) == FrameCount(|q| - MAX_PACKET_SIZE) + 1
  {
  }

  lemma OneMorePass(p: seq<byte>, st: WriteState, n: nat)
    requires st.offset <= |p| && EndlessSize(|p|)
    ensures WriteLoop(p, st, n + 1) == WriteLoop(p, WriteIteration(p, st), n)
  {
  }

  lemma LastOfEndless(p: seq<byte>, st: WriteState)
    requires st.offset == |p| && EndlessSize(|p|)
    ensures WriteLoop(p, st, 1) == (WriteState(st.sent + Frames([], st.sequence), Next(st.sequence, 1), |p|), false)
  {
    hide Header;
    var st' := WriteIteration(p, st);
    OneMorePass(p, st, 0);
    assert p[|p|..|p|] == [];
    assert st.sent + Header(0, st.sequence) + [] == st.sent + (Header(0, st.sequence) + []);
  }

  /** At an endless size the first passes send the prescribed chain, its empty last packet included, and do not end. */
  lemma {:induction false} EndlessSendsFrames(p: seq<byte>, st: WriteState)
    requires st.offset <= |p| && st.offset % MAX_PACKET_SIZE == 0 && EndlessSize(|p|)
    ensures var n := FrameCount(|p| - st.offset);
            WriteLoop(p, st, n) ==
            (WriteState(st.sent + Frames(p[st.offset..], st.sequence), Next(st.sequence, n), |p|), false)
    decreases |p| - st.offset
  {
    hide Header, Frames, WriteLoop;
    var q := p[st.offset..];
    if |q| == 0 {
      assert q == [] && FrameCount(0) == 1;
      LastOfEndless(p, st);
    } else {
      assert |q| % MAX_PACKET_SIZE == 0;
      var st', tail := WriteIteration(p, st), q[MAX_PACKET_SIZE..];
      FramesBehindFirst(q, st.sequence);
      hide FrameCount;
      assert p[st'.offset..] == tail && p[st.offset..st'.offset] == q[..MAX_PACKET_SIZE];
      EndlessSendsFrames(p, st');
      OneMorePass(p, st, FrameCount(|tail|));
      NextNext(st.sequence, 1, FrameCount(|tail|));
      assert st'.sent + Frames(tail, st'.sequence) == st.sent + Frames(q, st.sequence);
    }
  }

  lemma {:induction false} WriteLoopContinues(p: seq<byte>, st: WriteState, m: nat, n: nat)
    requires st.offset <= |p| && !WriteLoop(p, st, m).1
    ensures WriteLoop(p, st, m).0.offset <= |p| && WriteLoop(p, st, m + n) == WriteLoop(p, WriteLoop(p, st, m).0, n)
    decreases m
  {
    if m > 0 {
      WriteLoopContinues(p, WriteIteration(p, st), m - 1, n);
    }
  }

  /**
   What an endless write has sent: after one pass per prescribed packet the whole
   chain, and after n passes more n further empty packets.  It is never done.
  */
  lemma EndlessWriteSends(p: seq<byte>, sequence: byte, n: nat)
    requires EndlessSize(|p|)
    ensures var k := FrameCount(|p|);
            WriteLoop(p, WriteState([], sequence, 0), k + n) ==
            (WriteState(Frames(p, sequence) + EmptyPackets(Next(sequence, k), n), Next(sequence, k + n), |p|), false)
  {
    hide WriteLoop, Frames, EmptyPackets;
    var k, st := FrameCount(|p|), WriteState([], sequence, 0);
    EndlessSendsFrames(p, st);
    assert p[0..] == p && [] + Frames(p, sequence) == Frames(p, sequence);
    WriteLoopContinues(p, st, k, n);
    var reached := WriteState(Frames(p, sequence), Next(sequence, k), |p|);
    EndlessSendsEmptyPackets(p, reached, n);
    EndlessNeverDone(p, reached, n);
    NextNext(sequence, k, n);
  }

  // ---- Lists of payloads ----

  /** What write_packet sends for each payload in turn, the sequence number carried along. */
  function SendAll(ps: seq<seq<byte>>, sequence: byte): seq<byte>
    requires forall p :: p in ps ==> !EndlessSize(|p|)
    decreases |ps|
  {
    if ps == [] then []
    else
      var st := WriteLoop(ps[0], WriteState([], sequence, 0), FrameCount(|ps[0]|)).0;
      st.sent + SendAll(ps[1..], st.sequence)
  }

  datatype ReadAllResult = AllRead(payloads: seq<seq<byte>>, rest: seq<byte>) | ReadAllFailed

  function ReadAll(stream: seq<byte>, n: nat): ReadAllResult
    decreases n
  {
    if n == 0 then AllRead([], stream)
    else
      match ReadPacket(stream)
      case Failed(_) => ReadAllFailed
      case Read(pkt, rest) =>
        match ReadAll(rest, n - 1)
        case ReadAllFailed => ReadAllFailed
        case AllRead(ps, rest') => AllRead([pkt.payload] + ps, rest')
  }

  lemma SendAllHead(ps: seq<seq<byte>>, sequence: byte, rest: seq<byte>)
    requires ps != [] && forall p :: p in ps ==> !EndlessSize(|p|)
    ensures SendAll(ps, sequence) + rest ==
            Frames(ps[0], sequence) + (SendAll(ps[1..], Next(sequence, FrameCount(|ps[0]|))) + rest)
  {
    hide Frames, WriteLoop;
    WritePacketSendsFrames(ps[0], sequence);
    assert ps[0] in ps;
  }

  /** Writing any payloads of terminating size, then reading, returns them in order and stops there. */
  lemma {:induction false} FramingRoundTrip(ps: seq<seq<byte>>, sequence: byte, rest: seq<byte>)
    requires forall p :: p in ps ==> !EndlessSize(|p|)
    ensures ReadAll(SendAll(ps, sequence) + rest, |ps|) == AllRead(ps, rest)
    decreases |ps|
  {
    hide Frames, ReadPacket, WriteLoop;
    if ps == [] {
      assert SendAll(ps, sequence) + rest == rest;
    } else {
      hide SendAll;
      var next := Next(sequence, FrameCount(|ps[0]|));
      SendAllHead(ps, sequence, rest);
      ReadInvertsFrames(ps[0], sequence, SendAll(ps[1..], next) + rest);
      FramingRoundTrip(ps[1..], next, rest);
      assert ps == [ps[0]] + ps[1..];
    }
  }

  // ---- The single-packet helpers ----

  function Encode(payload: seq<byte>, sequence: byte): seq<byte> {
    Header(|payload| % 0x100_0000, sequence) + payload
  }

  datatype DecodeResult = Decoded(packet: Packet) | DecodeFailed(error: IoError)

  function Decode(data: seq<byte>): DecodeResult {
    if |data| < 4 then DecodeFailed(READ_FAILED)
    else
      var length := ReadU24(data, 0);
      if 4 + length > |data| then DecodeFailed(READ_FAILED)
      else Decoded(Packet(length, data[3], data[4..4 + length]))
  }

  /** decode inverts encode exactly for the payloads whose size fits the three length bytes. */
  lemma EncodeDecodeExactly(payload: seq<byte>, sequence: byte)
    ensures Decode(Encode(payload, sequence)) == Decoded(Packet(|payload| % 0x1_0000_0000, sequence, payload))
            <==> |payload| <= MAX_PACKET_SIZE
  {
    var f := Encode(payload, sequence);
    var len := |payload| % 0x100_0000;
    assert At(f, 0, U24(len));
    U24RoundTrip(f, 0, len);
    assert f[3] == sequence;
    assert f[4..4 + len] == payload[..len];
    assert len == |payload| <==> |payload| <= MAX_PACKET_SIZE;
  }
}
