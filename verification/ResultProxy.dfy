/** Forwarding one backend response to the client, packet by packet. */
module ResultProxy {
  import opened Codec
  import opened Framing
  import opened Packets

  /** A packet as it is sent: send() starts at the sequence number of the packet received. */
  datatype Sent = Sent(sequence: byte, payload: seq<byte>)

  /** How forwarding ends: the response is through, the backend's stream ended, or the send of a packet never returns. */
  datatype Status = Done | StreamEnded | Stuck(hanging: Packet)

  datatype Proxied = Proxied(sent: seq<Sent>, rest: seq<Packet>, status: Status)

  function Send(p: Packet): Sent { Sent(p.sequence, p.payload) }

  function SendEach(ps: seq<Packet>): (r: seq<Sent>)
    ensures |r| == |ps|
    ensures forall i :: 0 <= i < |ps| ==> r[i] == Send(ps[i])
  {
    seq(|ps|, i requires 0 <= i < |ps| => Send(ps[i]))
  }

  /** The writer's loop on one packet, stopped after as many passes as the protocol prescribes packets. */
  function Writing(p: Packet): (WriteState, bool) {
    WriteLoop(p.payload, WriteState([], p.sequence, 0), FrameCount(|p.payload|))
  }

  /** send() returns. */
  predicate Sendable(p: Packet) { Writing(p).1 }

  /** A send that is not finished by then never finishes, however long it runs; the payload's size decides. */
  lemma SendableExactlyWhen(p: Packet)
    ensures Sendable(p) <==> exists n :: WriteLoop(p.payload, WriteState([], p.sequence, 0), n).1
    ensures Sendable(p) <==> !EndlessSize(|p.payload|)
  {
    hide WriteLoop;
    WriteEndsExactlyWhen(p.payload, p.sequence);
    if EndlessSize(|p.payload|) {
      EndlessNeverDone(p.payload, WriteState([], p.sequence, 0), FrameCount(|p.payload|));
    } else {
      WritePacketSendsFrames(p.payload, p.sequence);
    }
  }

  predicate AllSendable(ps: seq<Packet>) { forall p :: p in ps ==> Sendable(p) }

  function FirstOf(payload: seq<byte>): byte { if payload == [] then 0 else payload[0] }

  /** OK, ERR or LOCAL INFILE: the response is this packet alone. */
  predicate Alone(p: Packet) {
    var b := FirstOf(p.payload);
    b == OK_PACKET || b == ERR_PACKET || b == 0xFB
  }

  /** Forwards packets up to and including the first EOF; the stream may end before one comes, or a send may hang. */
  function ForwardUntilEof(ps: seq<Packet>): Proxied {
    if ps == [] then Proxied([], [], StreamEnded)
    else if !Sendable(ps[0]) then Proxied([], ps[1..], Stuck(ps[0]))
    else if IsEof(ps[0].payload) then Proxied([Send(ps[0])], ps[1..], Done)
    else
      var r := ForwardUntilEof(ps[1..]);
      r.(sent := [Send(ps[0])] + r.sent)
  }

  function ProxyResult(ps: seq<Packet>): Proxied {
    if ps == [] then Proxied([], [], StreamEnded)
    else if !Sendable(ps[0]) then Proxied([], ps[1..], Stuck(ps[0]))
    else if Alone(ps[0]) then Proxied([Send(ps[0])], ps[1..], Done)
    else
      var defs := ForwardUntilEof(ps[1..]);
      if defs.status != Done then defs.(sent := [Send(ps[0])] + defs.sent)
      else
        var rows := ForwardUntilEof(defs.rest);
        rows.(sent := [Send(ps[0])] + defs.sent + rows.sent)
  }

  /** The bytes the writer puts on the wire for packets it finishes. */
  function WireBytes(sent: seq<Sent>): seq<byte> {
    if sent == [] then []
    else
      WriteLoop(sent[0].payload, WriteState([], sent[0].sequence, 0), FrameCount(|sent[0].payload|)).0.sent
      + WireBytes(sent[1..])
  }

  lemma {:induction false} WireBytesAppend(a: seq<Sent>, s: Sent)
    ensures WireBytes(a + [s]) ==
            WireBytes(a) + WriteLoop(s.payload, WriteState([], s.sequence, 0), FrameCount(|s.payload|)).0.sent
  {
    hide WriteLoop;
    if a == [] {
      assert a + [s] == [s];
      assert WireBytes([]) == [] && [s][1..] == [];
    } else {
      assert (a + [s])[1..] == a[1..] + [s];
      WireBytesAppend(a[1..], s);
    }
  }

  /** What a send has written after `extra` passes beyond the prescribed packets. */
  function Written(p: Packet, extra: nat): (WriteState, bool) {
    WriteLoop(p.payload, WriteState([], p.sequence, 0), FrameCount(|p.payload|) + extra)
  }

  /** Further passes change nothing about a send that returns, and never make the others return. */
  lemma PassesDoNotMatter(p: Packet, extra: nat)
    ensures Written(p, extra).1 <==> Sendable(p)
    ensures Sendable(p) ==> Written(p, extra) == Writing(p)
  {
    hide WriteLoop;
    SendableExactlyWhen(p);
    var st := WriteState([], p.sequence, 0);
    if EndlessSize(|p.payload|) {
      EndlessNeverDone(p.payload, st, FrameCount(|p.payload|) + extra);
    } else {
      StaysDone(p.payload, st, FrameCount(|p.payload|), extra);
    }
  }

  lemma {:induction false} StaysDone(p: seq<byte>, st: WriteState, m: nat, n: nat)
    requires st.offset <= |p| && WriteLoop(p, st, m).1
    ensures WriteLoop(p, st, m + n) == WriteLoop(p, st, m)
    decreases m
  {
    var next := WriteIteration(p, st);
    if Again(|p|, next.offset) {
      StaysDone(p, next, m - 1, n);
    }
  }

  /** What has gone to the client: the packets sent and, where a send hangs, what it wrote in `extra` passes too many. */
  function OnWire(r: Proxied, extra: nat): seq<byte> {
    WireBytes(r.sent) + match r.status case Stuck(p) => Written(p, extra).0.sent case _ => []
  }

  /** One loop of proxy_result; a hanging send is watched for `extra` passes. */
  method ForwardLoop(ps: seq<Packet>, before: seq<Sent>, wireBefore: seq<byte>, extra: nat)
    returns (sent: seq<Sent>, wire: seq<byte>, rest: seq<Packet>, status: Status)
    requires wireBefore == WireBytes(before)
    ensures var r := ForwardUntilEof(ps); sent == before + r.sent && rest == r.rest && status == r.status
    ensures wire == OnWire(Proxied(sent, rest, status), extra)
  {
    hide WriteLoop, WireBytes, Sendable;
    sent, wire, rest, status := before, wireBefore, ps, StreamEnded;
    while rest != []
      invariant status == StreamEnded && wire == WireBytes(sent)
      invariant var r, all := ForwardUntilEof(rest), ForwardUntilEof(ps);
                sent + r.sent == before + all.sent && r.rest == all.rest && r.status == all.status
      decreases |rest|
    {
      var p := rest[0];
      var st, finished := WritePacket(p.payload, p.sequence, FrameCount(|p.payload|) + extra);
      PassesDoNotMatter(p, extra);
      rest := rest[1..];
      if !finished {
        status, wire := Stuck(p), wire + st.sent;
        return;
      }
      WireBytesAppend(sent, Send(p));
      sent, wire := sent + [Send(p)], wire + st.sent;
      if IsEof(p.payload) {
        status := Done;
        return;
      }
    }
  }

  method ProxyResultLoop(ps: seq<Packet>, extra: nat) returns (r: Proxied, wire: seq<byte>)
    ensures r == ProxyResult(ps) && wire == OnWire(r, extra)
  {
    hide WriteLoop, ForwardUntilEof, WireBytes, Sendable;
    NoBytes([]);
    if ps == [] {
      return Proxied([], [], StreamEnded), [];
    }
    var p := ps[0];
    var st, finished := WritePacket(p.payload, p.sequence, FrameCount(|p.payload|) + extra);
    PassesDoNotMatter(p, extra);
    if !finished {
      return Proxied([], ps[1..], Stuck(p)), [] + st.sent;
    }
    WireBytesAppend([], Send(p));
    assert [] + [Send(p)] == [Send(p)];
    var sent := [Send(p)];
    wire := [] + st.sent;
    if Alone(p) {
      return Proxied(sent, ps[1..], Done), wire;
    }
    var rest, status;
    sent, wire, rest, status := ForwardLoop(ps[1..], sent, wire, extra);
    if status == Done {
      sent, wire, rest, status := ForwardLoop(rest, sent, wire, extra);
    }
    r := Proxied(sent, rest, status);
  }

  // ---- What one response is ----

  ghost predicate NoEof(ps: seq<Packet>) { forall p :: p in ps ==> !IsEof(p.payload) }

  /** Column definitions or rows, closed by their EOF. */
  ghost predicate Section(ps: seq<Packet>) {
    ps != [] && IsEof(ps[|ps| - 1].payload) && NoEof(ps[..|ps| - 1])
  }

  /** Header, column definitions and their EOF, rows and their EOF. */
  ghost predicate ResultSet(head: Packet, defs: seq<Packet>, rows: seq<Packet>) {
    !Alone(head) && Section(defs) && Section(rows)
  }

  /** What the forwarder takes for a response: one packet, or a header and two sections up to their EOFs. */
  ghost predicate IsSpan(ps: seq<Packet>) {
    || (|ps| == 1 && Alone(ps[0]))
    || (exists head, defs, rows :: ResultSet(head, defs, rows) && ps == [head] + defs + rows)
  }

  /** No packet after the first is an error. */
  ghost predicate NoLateError(ps: seq<Packet>) {
    forall i :: 1 <= i < |ps| ==> FirstOf(ps[i].payload) != ERR_PACKET
  }

  /** One response: an ERR packet ends a response, so none stands inside its sections. */
  ghost predicate IsResponse(ps: seq<Packet>) { IsSpan(ps) && NoLateError(ps) }

  /** The first packet whose send never returns. */
  ghost predicate FirstUnsendable(ps: seq<Packet>, k: nat) {
    k < |ps| && !Sendable(ps[k]) && AllSendable(ps[..k])
  }

  lemma {:induction false} ForwardSection(ps: seq<Packet>, rest: seq<Packet>)
    requires Section(ps) && AllSendable(ps)
    ensures ForwardUntilEof(ps + rest) == Proxied(SendEach(ps), rest, Done)
  {
    hide Sendable;
    if |ps| == 1 {
      assert (ps + rest)[1..] == rest;
      assert SendEach(ps) == [Send(ps[0])];
    } else {
      assert ps[0] in ps[..|ps| - 1];
      assert (ps + rest)[1..] == ps[1..] + rest;
      assert ps[..|ps| - 1] == [ps[0]] + ps[1..][..|ps| - 2];
      ForwardSection(ps[1..], rest);
      assert SendEach(ps) == [Send(ps[0])] + SendEach(ps[1..]);
    }
  }

  /** Nothing behind a hanging send is forwarded, and nothing before it is lost. */
  lemma {:induction false} ForwardHangs(ps: seq<Packet>, k: nat, rest: seq<Packet>)
    requires FirstUnsendable(ps, k) && NoEof(ps[..k])
    ensures ForwardUntilEof(ps + rest) == Proxied(SendEach(ps[..k]), ps[k + 1..] + rest, Stuck(ps[k]))
    decreases k
  {
    hide Sendable;
    assert (ps + rest)[1..] == ps[1..] + rest;
    if k == 0 {
      assert SendEach(ps[..0]) == [];
    } else {
      assert ps[0] in ps[..k];
      assert ps[..k] == [ps[0]] + ps[1..][..k - 1];
      ForwardHangs(ps[1..], k - 1, rest);
      assert SendEach(ps[..k]) == [Send(ps[0])] + SendEach(ps[1..][..k - 1]);
      assert ps[1..][k..] == ps[k + 1..];
    }
  }

  lemma {:induction false} ForwardFindsSection(ps: seq<Packet>) returns (n: nat)
    requires ForwardUntilEof(ps).status == Done
    ensures n <= |ps| && Section(ps[..n]) && AllSendable(ps[..n]) && ForwardUntilEof(ps).rest == ps[n..]
  {
    hide Sendable;
    if IsEof(ps[0].payload) {
      n := 1;
    } else {
      var m := ForwardFindsSection(ps[1..]);
      n := m + 1;
      assert ps[..n] == [ps[0]] + ps[1..][..m];
      assert ps[..n][..n - 1] == [ps[0]] + ps[1..][..m][..m - 1];
      assert ps[n..] == ps[1..][m..];
    }
  }

  lemma ForwardsSendableSpan(response: seq<Packet>, rest: seq<Packet>)
    requires IsSpan(response) && AllSendable(response)
    ensures ProxyResult(response + rest) == Proxied(SendEach(response), rest, Done)
  {
    hide ForwardUntilEof, Section, IsEof, Sendable;
    if |response| == 1 && Alone(response[0]) {
      assert (response + rest)[1..] == rest;
      assert SendEach(response) == [Send(response[0])];
    } else {
      var head, defs, rows :| ResultSet(head, defs, rows) && response == [head] + defs + rows;
      assert (response + rest)[1..] == defs + (rows + rest);
      assert AllSendable(defs) && AllSendable(rows);
      ForwardSection(defs, rows + rest);
      ForwardSection(rows, rest);
      assert SendEach(response) == [Send(head)] + SendEach(defs) + SendEach(rows);
    }
  }

  lemma SectionPrefix(ps: seq<Packet>, k: nat)
    requires Section(ps) && k < |ps|
    ensures NoEof(ps[..k])
  {
    assert forall p :: p in ps[..k] ==> p in ps[..|ps| - 1];
  }

  lemma HangsInDefinitions(head: Packet, defs: seq<Packet>, k: nat, rest: seq<Packet>)
    requires !Alone(head) && Sendable(head) && Section(defs) && FirstUnsendable(defs, k)
    ensures ProxyResult([head] + (defs + rest)) == Proxied(SendEach([head] + defs[..k]), defs[k + 1..] + rest, Stuck(defs[k]))
  {
    hide ForwardUntilEof, Section, IsEof, Sendable;
    assert ([head] + (defs + rest))[1..] == defs + rest;
    SectionPrefix(defs, k);
    ForwardHangs(defs, k, rest);
    assert SendEach([head] + defs[..k]) == [Send(head)] + SendEach(defs[..k]);
  }

  lemma HangsInRows(head: Packet, defs: seq<Packet>, rows: seq<Packet>, k: nat, rest: seq<Packet>)
    requires !Alone(head) && Sendable(head) && Section(defs) && AllSendable(defs) && Section(rows) && FirstUnsendable(rows, k)
    ensures ProxyResult([head] + (defs + (rows + rest)))
         == Proxied(SendEach([head] + defs + rows[..k]), rows[k + 1..] + rest, Stuck(rows[k]))
  {
    hide ForwardUntilEof, Section, IsEof, Sendable;
    assert ([head] + (defs + (rows + rest)))[1..] == defs + (rows + rest);
    ForwardSection(defs, rows + rest);
    SectionPrefix(rows, k);
    ForwardHangs(rows, k, rest);
    assert SendEach([head] + defs + rows[..k]) == [Send(head)] + SendEach(defs) + SendEach(rows[..k]);
  }

  lemma UnsendableInHead(head: Packet, tail: seq<Packet>, k: nat)
    requires FirstUnsendable([head] + tail, k)
    ensures k == 0 ==> !Sendable(head)
    ensures k > 0 ==> Sendable(head) && FirstUnsendable(tail, k - 1)
  {
    hide Sendable;
    if k > 0 {
      assert ([head] + tail)[..k] == [head] + tail[..k - 1];
      assert head in ([head] + tail)[..k];
    }
  }

  lemma UnsendableInParts(a: seq<Packet>, b: seq<Packet>, k: nat)
    requires FirstUnsendable(a + b, k)
    ensures k < |a| ==> FirstUnsendable(a, k)
    ensures k >= |a| ==> AllSendable(a) && FirstUnsendable(b, k - |a|)
  {
    hide Sendable;
    if k < |a| {
      assert (a + b)[..k] == a[..k];
    } else {
      assert (a + b)[..k] == a + b[..k - |a|];
    }
  }

  lemma CutResponse(head: Packet, defs: seq<Packet>, rows: seq<Packet>, k: nat, rest: seq<Packet>)
    requires 1 <= k < 1 + |defs| + |rows|
    ensures var response := [head] + defs + rows;
            && response + rest == [head] + (defs + (rows + rest))
            && (k - 1 < |defs| ==> response[..k] == [head] + defs[..k - 1] && response[k] == defs[k - 1]
                                   && response[k + 1..] + rest == defs[k..] + (rows + rest))
            && (k - 1 >= |defs| ==> var j := k - 1 - |defs|;
                                    response[..k] == [head] + defs + rows[..j] && response[k] == rows[j]
                                    && response[k + 1..] == rows[j + 1..])
  {
  }

  /** At the first packet whose send never returns forwarding hangs: the packets before it are through, none after it is read. */
  lemma HangsAtFirstUnsendable(response: seq<Packet>, k: nat, rest: seq<Packet>)
    requires IsSpan(response) && FirstUnsendable(response, k)
    ensures ProxyResult(response + rest) == Proxied(SendEach(response[..k]), response[k + 1..] + rest, Stuck(response[k]))
  {
    hide ForwardUntilEof, Section, IsEof, Sendable;
    if |response| == 1 && Alone(response[0]) {
      assert (response + rest)[1..] == rest == response[1..] + rest;
      assert SendEach(response[..0]) == [];
    } else {
      var head, defs, rows :| ResultSet(head, defs, rows) && response == [head] + defs + rows;
      assert response == [head] + (defs + rows);
      UnsendableInHead(head, defs + rows, k);
      if k == 0 {
        assert (response + rest)[1..] == response[1..] + rest;
        assert SendEach(response[..0]) == [];
      } else {
        UnsendableInParts(defs, rows, k - 1);
        CutResponse(head, defs, rows, k, rest);
        if k - 1 < |defs| {
          HangsInDefinitions(head, defs, k - 1, rows + rest);
        } else {
          HangsInRows(head, defs, rows, k - 1 - |defs|, rest);
        }
      }
    }
  }

  /**
   What the client then has: the packets before, the hanging one whole, as the
   protocol prescribes it, and one more empty packet for every further pass.
  */
  lemma HangingClientReceives(response: seq<Packet>, k: nat, rest: seq<Packet>, n: nat)
    requires IsSpan(response) && FirstUnsendable(response, k)
    ensures var p := response[k];
            OnWire(ProxyResult(response + rest), n) ==
            WireBytes(SendEach(response[..k]))
            + (Frames(p.payload, p.sequence) + EmptyPackets(Next(p.sequence, FrameCount(|p.payload|)), n))
  {
    hide WireBytes, ProxyResult, IsSpan, WriteLoop, Frames, EmptyPackets;
    var p := response[k];
    HangsAtFirstUnsendable(response, k, rest);
    SendableExactlyWhen(p);
    EndlessWriteSends(p.payload, p.sequence, n);
  }

  lemma {:induction false} FindUnsendable(ps: seq<Packet>) returns (k: nat)
    requires !AllSendable(ps)
    ensures FirstUnsendable(ps, k)
  {
    hide Sendable;
    if !Sendable(ps[0]) {
      k := 0;
    } else {
      assert ps == [ps[0]] + ps[1..];
      var j := FindUnsendable(ps[1..]);
      k := j + 1;
      assert ps[..k] == [ps[0]] + ps[1..][..j];
    }
  }

  /**
   A response, whatever follows it, is forwarded exactly, its packets in order
   with the sequence numbers received and the remainder unread, if and only if no
   payload's size is a positive multiple of 0xFFFFFF.
  */
  lemma ForwardsOneResponse(response: seq<Packet>, rest: seq<Packet>)
    requires IsResponse(response)
    ensures ProxyResult(response + rest) == Proxied(SendEach(response), rest, Done) <==>
            forall p :: p in response ==> !EndlessSize(|p.payload|)
  {
    ForwardsOneSpan(response, rest);
  }

  lemma ForwardsOneSpan(response: seq<Packet>, rest: seq<Packet>)
    requires IsSpan(response)
    ensures ProxyResult(response + rest) == Proxied(SendEach(response), rest, Done) <==>
            forall p :: p in response ==> !EndlessSize(|p.payload|)
  {
    hide Sendable, ProxyResult, IsSpan;
    forall p | p in response ensures Sendable(p) <==> !EndlessSize(|p.payload|) {
      SendableExactlyWhen(p);
    }
    if AllSendable(response) {
      ForwardsSendableSpan(response, rest);
    } else {
      var k := FindUnsendable(response);
      HangsAtFirstUnsendable(response, k, rest);
      assert response[k] in response;
    }
  }

  /** Conversely, whatever is forwarded to its end is one span. */
  lemma SuccessMeansOneSpan(ps: seq<Packet>) returns (n: nat)
    requires ProxyResult(ps).status == Done
    ensures n <= |ps| && IsSpan(ps[..n]) && AllSendable(ps[..n])
    ensures ProxyResult(ps) == Proxied(SendEach(ps[..n]), ps[n..], Done)
  {
    hide ForwardUntilEof, Section, IsEof, SendEach, Sendable;
    if Alone(ps[0]) {
      n := 1;
    } else {
      var d := ForwardFindsSection(ps[1..]);
      var after := ps[1..][d..];
      var r := ForwardFindsSection(after);
      n := 1 + d + r;
      assert ps[..n] == [ps[0]] + ps[1..][..d] + after[..r];
      assert ResultSet(ps[0], ps[1..][..d], after[..r]);
    }
    assert ps == ps[..n] + ps[n..];
    ForwardsSendableSpan(ps[..n], ps[n..]);
  }

  /** It is one response exactly when no error stands behind its first packet. */
  lemma SuccessMeansOneResponseExactlyWhen(ps: seq<Packet>) returns (n: nat)
    requires ProxyResult(ps).status == Done
    ensures n <= |ps| && ProxyResult(ps) == Proxied(SendEach(ps[..n]), ps[n..], Done)
    ensures IsResponse(ps[..n]) <==> forall i :: 1 <= i < n ==> FirstOf(ps[i].payload) != ERR_PACKET
  {
    hide ProxyResult, IsSpan, SendEach, Sendable;
    n := SuccessMeansOneSpan(ps);
  }

  /**
   An ERR packet among the rows does not end the forwarding: if it ends at all,
   packets behind the error were consumed.
  */
  lemma ErrorAmongRowsOverruns(head: Packet, defs: seq<Packet>, rows: seq<Packet>, err: Packet, rest: seq<Packet>)
    requires !Alone(head) && Section(defs) && NoEof(rows)
    requires FirstOf(err.payload) == ERR_PACKET
    ensures var r := ProxyResult([head] + defs + rows + [err] + rest);
            r.status == Done ==> |r.rest| < |rest|
  {
    var ps := [head] + defs + rows + [err] + rest;
    hide Sendable, Section;
    if ProxyResult(ps).status == Done {
      assert ps[1..] == defs + (rows + [err] + rest);
      if AllSendable(defs) {
        ForwardSection(defs, rows + [err] + rest);
        SkipsRows(rows + [err], rest);
        ForwardShortens(rest);
      } else {
        var k := FindUnsendable(defs);
        SectionPrefix(defs, k);
        ForwardHangs(defs, k, rows + [err] + rest);
      }
    }
  }

  /**
   Of the result sets the protocol allows, ended by EOF or by ERR, exactly those
   ended by EOF and without a payload of endless size are forwarded alone.
  */
  lemma ResultSetForwardedExactlyWhen(head: Packet, defs: seq<Packet>, rows: seq<Packet>, last: Packet, rest: seq<Packet>)
    requires !Alone(head) && Section(defs) && NoEof(rows)
    requires IsEof(last.payload) || FirstOf(last.payload) == ERR_PACKET
    ensures var response := [head] + defs + rows + [last];
            ProxyResult(response + rest) == Proxied(SendEach(response), rest, Done) <==>
            IsEof(last.payload) && forall p :: p in response ==> !EndlessSize(|p.payload|)
  {
    hide ForwardUntilEof, ProxyResult, Sendable;
    var response := [head] + defs + rows + [last];
    if IsEof(last.payload) {
      assert (rows + [last])[..|rows|] == rows;
      assert ResultSet(head, defs, rows + [last]);
      assert response == [head] + defs + (rows + [last]);
      ForwardsOneSpan(response, rest);
    } else {
      ErrorAmongRowsOverruns(head, defs, rows, last, rest);
    }
  }

  lemma {:induction false} SkipsRows(rows: seq<Packet>, rest: seq<Packet>)
    requires NoEof(rows) && ForwardUntilEof(rows + rest).status == Done
    ensures ForwardUntilEof(rows + rest).rest == ForwardUntilEof(rest).rest
    ensures ForwardUntilEof(rest).status == Done
  {
    hide Sendable;
    if rows == [] {
      assert rows + rest == rest;
    } else {
      assert (rows + rest)[1..] == rows[1..] + rest;
      SkipsRows(rows[1..], rest);
    }
  }

  lemma {:induction false} ForwardShortens(ps: seq<Packet>)
    ensures ForwardUntilEof(ps).status == Done ==> |ForwardUntilEof(ps).rest| < |ps|
  {
    hide Sendable;
    if ps != [] {
      ForwardShortens(ps[1..]);
    }
  }

  // ---- Bytes on the wire ----

  /** Packets that fit one frame each, as read_packet reports them. */
  ghost predicate SingleFrames(ps: seq<Packet>) {
    forall p :: p in ps ==> |p.payload| < MAX_PACKET_SIZE && p.length == |p.payload|
  }

  /** The packets at the head of a byte stream. */
  function ReadPackets(stream: seq<byte>, n: nat): (seq<Packet>, seq<byte>)
    decreases n
  {
    if n == 0 then ([], stream)
    else
      match ReadPacket(stream)
      case Failed(_) => ([], stream)
      case Read(p, rest) => var (ps, rest') := ReadPackets(rest, n - 1); ([p] + ps, rest')
  }

  lemma SingleFrameBytes(p: Packet)
    requires |p.payload| < MAX_PACKET_SIZE
    ensures Sendable(p) && WireBytes([Send(p)]) == Frames(p.payload, p.sequence)
  {
    hide WriteLoop, Frames;
    WritePacketSendsFrames(p.payload, p.sequence);
    assert WireBytes([]) == [] && [Send(p)][1..] == [];
    assert Frames(p.payload, p.sequence) + [] == Frames(p.payload, p.sequence);
  }

  lemma WireBytesHead(s: Sent, rest: seq<Sent>)
    ensures WireBytes([s] + rest) == WireBytes([s]) + WireBytes(rest)
  {
    hide WriteLoop;
    assert ([s] + rest)[1..] == rest && [s][1..] == [];
    assert WireBytes([]) == [];
  }

  lemma WireOfTail(ps: seq<Packet>, tail: seq<byte>)
    requires ps != []
    ensures WireBytes(SendEach(ps)) + tail == WireBytes([Send(ps[0])]) + (WireBytes(SendEach(ps[1..])) + tail)
  {
    hide WireBytes;
    assert SendEach(ps) == [Send(ps[0])] + SendEach(ps[1..]);
    WireBytesHead(Send(ps[0]), SendEach(ps[1..]));
  }

  lemma NoBytes(sent: seq<Sent>)
    requires sent == []
    ensures WireBytes(sent) == []
  {
  }

  lemma {:induction false} ReadPacketsOfWire(ps: seq<Packet>, tail: seq<byte>)
    requires SingleFrames(ps)
    ensures AllSendable(ps) && ReadPackets(WireBytes(SendEach(ps)) + tail, |ps|) == (ps, tail)
    decreases |ps|
  {
    hide Frames, ReadPacket, WireBytes, Sendable;
    var sent := SendEach(ps);
    if ps == [] {
      NoBytes(sent);
      assert WireBytes(sent) + tail == tail;
    } else {
      var p := ps[0];
      assert p in ps && ps == [p] + ps[1..];
      SingleFrameBytes(p);
      ReadPacketsOfWire(ps[1..], tail);
      WireOfTail(ps, tail);
      ReadSingleFrame(p.payload, p.sequence, WireBytes(SendEach(ps[1..])) + tail);
    }
  }

  /**
   Byte transparency: if the backend's bytes are a response of single-frame
   packets, the client receives the same bytes.
  */
  lemma ForwardedBytesUnchanged(response: seq<Packet>, rest: seq<Packet>, tail: seq<byte>)
    requires IsResponse(response) && SingleFrames(response)
    ensures var received := WireBytes(SendEach(response));
            && ReadPackets(received + tail, |response|) == (response, tail)
            && WireBytes(ProxyResult(response + rest).sent) == received
  {
    hide WireBytes, ProxyResult, Sendable, ReadPackets;
    ReadPacketsOfWire(response, tail);
    ForwardsSendableSpan(response, rest);
  }

  /** The writer, at work on `p` from `sequence`, ends and has sent exactly `bytes`. */
  ghost predicate Writes(p: seq<byte>, sequence: byte, bytes: seq<byte>) {
    exists n :: WriteLoop(p, WriteState([], sequence, 0), n).1 && WriteLoop(p, WriteState([], sequence, 0), n).0.sent == bytes
  }

  lemma {:induction false} OutcomeIsUnique(p: seq<byte>, st: WriteState, m: nat, n: nat)
    requires st.offset <= |p| && WriteLoop(p, st, m).1 && WriteLoop(p, st, n).1
    ensures WriteLoop(p, st, m) == WriteLoop(p, st, n)
    decreases m
  {
    var next := WriteIteration(p, st);
    if Again(|p|, next.offset) {
      OutcomeIsUnique(p, next, m - 1, n - 1);
    }
  }

  lemma WritesExactly(p: seq<byte>, sequence: byte, bytes: seq<byte>)
    ensures Writes(p, sequence, bytes) <==> !EndlessSize(|p|) && bytes == Frames(p, sequence)
  {
    hide WriteLoop, Frames;
    var st := WriteState([], sequence, 0);
    if Writes(p, sequence, bytes) {
      var n: nat :| WriteLoop(p, st, n).1 && WriteLoop(p, st, n).0.sent == bytes;
      if EndlessSize(|p|) {
        EndlessNeverDone(p, st, n);
        assert false;
      }
      WritePacketSendsFrames(p, sequence);
      OutcomeIsUnique(p, st, FrameCount(|p|), n);
    } else if !EndlessSize(|p|) {
      WritePacketSendsFrames(p, sequence);
      assert WriteLoop(p, st, FrameCount(|p|)).1;
    }
  }

  /**
   A packet of several frames is sent again from its last frame's sequence number.
   The writer gives back the bytes received exactly when it ends at all and the
   number of full frames is a multiple of 256.
  */
  lemma ResentUnchangedExactlyWhen(p: seq<byte>, sequence: byte, rest: seq<byte>)
    ensures var r := ReadPacket(Frames(p, sequence) + rest);
            && r.Read?
            && (Writes(r.packet.payload, r.packet.sequence, Frames(p, sequence))
                <==> !EndlessSize(|p|) && |p| / MAX_PACKET_SIZE % 256 == 0)
  {
    hide Frames, ReadPacket, Next, Writes, EndlessSize;
    ReadInvertsFrames(p, sequence, rest);
    var k := |p| / MAX_PACKET_SIZE;
    WritesExactly(p, Next(sequence, k), Frames(p, sequence));
    NextIsSame(sequence, k);
    SequenceByte(p, sequence);
    SequenceByte(p, Next(sequence, k));
  }

  lemma NextIsSame(sequence: byte, k: nat)
    ensures Next(sequence, k) == sequence <==> k % 256 == 0
  {
  }

  lemma SequenceByte(p: seq<byte>, sequence: byte)
    ensures |Frames(p, sequence)| >= 4 && Frames(p, sequence)[3] == sequence
  {
  }

  // ---- Result sets built here ----

  datatype Column = Column(name: seq<byte>, colType: byte, length: u32, flags: u16, charset: byte)

  function Definition(c: Column): seq<byte>
    requires Sized(c.name)
  {
    MakeColumnDef(c.name, c.colType, c.length, c.flags, c.charset)
  }

  ghost predicate Columns(ps: seq<Packet>, cols: seq<Column>) {
    && |ps| == |cols|
    && (forall i :: 0 <= i < |ps| ==> Sized(cols[i].name) && ps[i].payload == Definition(cols[i]))
  }

  ghost predicate Rows(ps: seq<Packet>, rows: seq<seq<seq<byte>>>) {
    && |ps| == |rows|
    && (forall i :: 0 <= i < |ps| ==> (forall v :: v in rows[i] ==> Sized(v)) && ps[i].payload == TextRow(rows[i]))
  }

  ghost predicate NoError(ps: seq<Packet>) { forall p :: p in ps ==> FirstOf(p.payload) != ERR_PACKET }

  lemma ColumnsHaveNoEof(ps: seq<Packet>, cols: seq<Column>)
    requires Columns(ps, cols)
    ensures NoEof(ps) && NoError(ps)
  {
    forall i | 0 <= i < |ps| ensures !IsEof(ps[i].payload) && FirstOf(ps[i].payload) != ERR_PACKET {
      assert ps[i].payload[0] == LenencStr(DEF)[0] == 3;
    }
  }

  lemma RowsHaveNoEof(ps: seq<Packet>, rows: seq<seq<seq<byte>>>)
    requires Rows(ps, rows)
    ensures NoEof(ps) && NoError(ps)
  {
    forall i | 0 <= i < |ps| ensures !IsEof(ps[i].payload) && FirstOf(ps[i].payload) != ERR_PACKET {
      TextRowIsNeverTerminator(rows[i]);
    }
  }

  lemma NoErrorBehind(head: Packet, defs: seq<Packet>, eof1: Packet, rows: seq<Packet>, eof2: Packet)
    requires NoError(defs) && NoError([eof1]) && NoError(rows) && NoError([eof2])
    ensures NoLateError([head] + (defs + [eof1]) + (rows + [eof2]))
  {
    hide FirstOf;
    var tail := defs + [eof1] + rows + [eof2];
    assert NoError(tail);
    var all := [head] + (defs + [eof1]) + (rows + [eof2]);
    assert all == [head] + tail;
    forall i | 1 <= i < |all| ensures FirstOf(all[i].payload) != ERR_PACKET {
      assert all[i] == tail[i - 1] && tail[i - 1] in tail;
    }
  }

  /**
   A result set built by this server's packet builders, with any columns and any
   rows, is one response: no definition and no row ends its section early.
  */
  lemma BuiltResultSetIsResponse(head: Packet, defs: seq<Packet>, cols: seq<Column>, eof1: Packet,
                                 ps: seq<Packet>, rows: seq<seq<seq<byte>>>, eof2: Packet, w: u16, s: u16)
    requires 1 <= |cols| < 0x1_0000_0000_0000_0000 && head.payload == MakeColumnCount(|cols|)
    requires Columns(defs, cols) && eof1.payload == MakeEof(w, s)
    requires Rows(ps, rows) && eof2.payload == MakeEof(w, s)
    ensures IsResponse([head] + (defs + [eof1]) + (ps + [eof2]))
  {
    FirstByte(|cols|);
    ColumnsHaveNoEof(defs, cols);
    RowsHaveNoEof(ps, rows);
    assert (defs + [eof1])[..|defs|] == defs;
    assert (ps + [eof2])[..|ps|] == ps;
    assert FirstOf(eof1.payload) == FirstOf(eof2.payload) == EOF_PACKET;
    hide Columns, Rows, MakeColumnCount, IsEof, FirstOf;
    assert ResultSet(head, defs + [eof1], ps + [eof2]);
    NoErrorBehind(head, defs, eof1, ps, eof2);
  }

  // ---- By the bytes ----

  /** The size at which no send ever returns. */
  predicate EndlessBytes(p: Packet) { |p.payload| > 0 && |p.payload| % 16777215 == 0 }

  /** Fewer than nine bytes, the first of them 0xFE. */
  predicate EofBytes(p: Packet) { 1 <= |p.payload| <= 8 && p.payload[0] == 0xFE }

  /** Empty, or beginning with 0x00, 0xFF or 0xFB. */
  predicate SingleBytes(p: Packet) {
    p.payload == [] || p.payload[0] == 0x00 || p.payload[0] == 0xFF || p.payload[0] == 0xFB
  }

  lemma BytesMeanTests(p: Packet)
    ensures Sendable(p) <==> !EndlessBytes(p)
    ensures IsEof(p.payload) <==> EofBytes(p)
    ensures Alone(p) <==> SingleBytes(p)
  {
    hide Sendable;
    SendableExactlyWhen(p);
  }

  /** An OK, ERR or local-infile packet is the whole response, whatever follows; after any other at least two packets are read. */
  lemma ResponseByFirstByte(p: Packet, rest: seq<Packet>)
    requires !EndlessBytes(p)
    ensures SingleBytes(p) ==> ProxyResult([p] + rest) == Proxied([Sent(p.sequence, p.payload)], rest, Done)
    ensures !SingleBytes(p) && ProxyResult([p] + rest).status == Done ==> |ProxyResult([p] + rest).rest| + 2 <= |rest|
  {
    hide Sendable, ForwardUntilEof, IsEof, Alone, SingleBytes, EndlessBytes;
    BytesMeanTests(p);
    assert ([p] + rest)[1..] == rest;
    ForwardShortens(rest);
    ForwardShortens(ForwardUntilEof(rest).rest);
  }

  /** Forwarding stops behind the first EOF. */
  lemma {:induction false} ForwardByBytes(ps: seq<Packet>, k: nat)
    requires k < |ps| && EofBytes(ps[k]) && forall i :: 0 <= i < k ==> !EofBytes(ps[i])
    requires forall i :: 0 <= i <= k ==> !EndlessBytes(ps[i])
    ensures ForwardUntilEof(ps) == Proxied(SendEach(ps[..k + 1]), ps[k + 1..], Done)
    decreases k
  {
    hide Sendable, IsEof, EofBytes, EndlessBytes;
    BytesMeanTests(ps[0]);
    if k == 0 {
      assert SendEach(ps[..1]) == [Send(ps[0])];
    } else {
      var tail := ps[1..];
      ForwardByBytes(tail, k - 1);
      assert tail[..k] == ps[1..k + 1] && tail[k..] == ps[k + 1..];
      assert SendEach(ps[..k + 1]) == [Send(ps[0])] + SendEach(tail[..k]);
    }
  }

  /** A result set is everything up to the second EOF, each packet with its sequence number and payload. */
  lemma ResultSetByBytes(ps: seq<Packet>, i: nat, j: nat)
    requires 1 <= i < j < |ps| && !SingleBytes(ps[0]) && EofBytes(ps[i]) && EofBytes(ps[j])
    requires forall k :: 1 <= k < j && k != i ==> !EofBytes(ps[k])
    requires forall k :: 0 <= k <= j ==> !EndlessBytes(ps[k])
    ensures ProxyResult(ps) == Proxied(seq(j + 1, k requires 0 <= k <= j => Sent(ps[k].sequence, ps[k].payload)), ps[j + 1..], Done)
  {
    hide Sendable, ForwardUntilEof, IsEof, EofBytes, EndlessBytes, SingleBytes;
    BytesMeanTests(ps[0]);
    var defs := ps[1..];
    ForwardByBytes(defs, i - 1);
    var rows := defs[i..];
    assert rows == ps[i + 1..];
    ForwardByBytes(rows, j - i - 1);
    assert rows[j - i..] == ps[j + 1..];
    var all := seq(j + 1, k requires 0 <= k <= j => Sent(ps[k].sequence, ps[k].payload));
    assert all == [Send(ps[0])] + SendEach(defs[..i]) + SendEach(rows[..j - i]);
  }
}
