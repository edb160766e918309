/** The handshake packets as they are written and parsed: buffers appended to, positions advanced, bytes copied in loops. */
module HandshakePackets {
  import opened Codec
  import opened Handshake

  method WriteZeros(buf: seq<byte>, n: nat) returns (out: seq<byte>)
    ensures out == buf + Zeros(n)
  {
    out := buf;
    for i := 0 to n
      invariant out == buf + Zeros(i)
    {
      out := out + [0];
    }
  }

  method WriteFixedPart(buf: seq<byte>, h: HandshakeV10) returns (out: seq<byte>)
    ensures out == buf + FixedPart(h)
  {
    hide U16, U32, Zeros;
    var part := U32(h.connectionId);
    part := part + h.authData[..8];
    part := part + [0];
    part := part + U16(h.capabilityFlags % 65536);
    part := part + [h.characterSet];
    part := part + U16(h.statusFlags);
    part := part + U16(h.capabilityFlags / 65536);
    part := part + [21];
    part := WriteZeros(part, 10);
    out := buf + part;
  }

  method WriteV10(h: HandshakeV10) returns (buf: seq<byte>)
    ensures buf == EncodeV10(h)
  {
    hide FixedPart;
    buf := [0x0A];
    buf := buf + NullStr(h.serverVersion);
    buf := WriteFixedPart(buf, h);
    buf := buf + h.authData[8..];
    buf := buf + [0];
    buf := buf + NullStr(h.authPluginName);
  }

  /** Copies up to `n` bytes over `salt` from index `at`, as far as the packet goes. */
  method CopySalt(d: seq<byte>, start: nat, salt: Salt, at: nat, n: nat) returns (out: Salt, pos: nat)
    requires start <= |d| && at + n <= 20
    ensures pos == if start + n <= |d| then start + n else |d|
    ensures out == salt[..at] + d[start..pos] + salt[at + (pos - start)..]
  {
    out, pos := salt, start;
    var i := 0;
    while i < n && pos < |d|
      invariant 0 <= i <= n && pos == start + i <= |d|
      invariant out == salt[..at] + d[start..pos] + salt[at + i..]
    {
      out := out[at + i := d[pos]];
      i, pos := i + 1, pos + 1;
    }
  }

  method ParseMiddle(d: seq<byte>, start: nat) returns (m: Middle)
    ensures m == DecodeMiddle(d, start)
  {
    m := Middle(0x2D, 2, 0, 0, start);
    if start < |d| {
      var pos := start;
      m := m.(characterSet := d[pos]);
      pos := pos + 1;
      if pos + 2 <= |d| {
        m := m.(statusFlags := ReadU16(d, pos));
        pos := pos + 2;
      }
      if pos + 2 <= |d| {
        m := m.(capHigh := ReadU16(d, pos));
        pos := pos + 2;
      }
      if pos < |d| {
        m := m.(authLen := d[pos]);
        pos := pos + 1;
      }
      m := m.(pos := pos + 10);
    }
  }

  lemma WholeSalt(first: seq<byte>, tail: seq<byte>)
    requires |first| == 8 && |tail| <= 12
    ensures (first + Zeros(12))[..8] + tail + (first + Zeros(12))[8 + |tail|..] == first + (tail + Zeros(12 - |tail|))
  {
  }

  method ParseV10(d: seq<byte>) returns (r: Result<HandshakeV10>)
    ensures r == DecodeV10(d)
  {
    hide DecodeMiddle, ReadU16, ReadU32, ReadNullStr, Has, Zeros;
    if d == [] || d[0] != 0x0A {
      return Err("not a HandshakeV10 packet");
    }
    var version, pos := ReadNullStrLoop(d, 1);
    if pos + 4 > |d| {
      return Err("truncated handshake");
    }
    var id := ReadU32(d, pos);
    pos := pos + 4;
    if pos + 8 > |d| {
      return Err("truncated auth data 1");
    }
    var first := d[pos..pos + 8];
    var salt, copied := CopySalt(d, pos, Zeros(20), 0, 8);
    assert salt == first + Zeros(12) by { SaltStart(first); }
    pos := copied + 1;
    if pos + 2 > |d| {
      return Err("truncated caps low");
    }
    var m := ParseMiddle(d, pos + 2);
    var flags: u32 := (ReadU16(d, pos) as int) + 65536 * (m.capHigh as int);
    pos := m.pos;
    if Has(flags, SECURE_CONNECTION) && pos < |d| {
      var part2 := if m.authLen > 21 then m.authLen - 8 else 13;
      var end;
      salt, end := CopySalt(d, pos, salt, 8, 12);
      WholeSalt(first, d[pos..end]);
      assert d[pos..end] + Zeros(12 - (end - pos)) == SaltTail(d, pos);
      pos := end + part2 - 12;
    }
    var plugin := NATIVE_PASSWORD;
    if Has(flags, PLUGIN_AUTH) && pos < |d| {
      plugin, pos := ReadNullStrLoop(d, pos);
    }
    r := Ok(HandshakeV10(version, id, salt, flags, m.characterSet, m.statusFlags, plugin));
  }

  lemma SaltStart(first: seq<byte>)
    requires |first| == 8
    ensures Zeros(20)[..0] + first + Zeros(20)[8..] == first + Zeros(12)
  {
  }

  // ---- HandshakeResponse41 ----

  method WriteResponse(r: HandshakeResponse41) returns (buf: seq<byte>)
    ensures buf == EncodeResponse(r)
  {
    hide U32, Zeros;
    buf := U32(r.capabilityFlags);
    buf := buf + U32(r.maxPacketSize);
    buf := buf + [r.characterSet];
    buf := WriteZeros(buf, 23);
    buf := buf + NullStr(r.username);
    buf := buf + [|r.authResponse| % 256];
    buf := buf + r.authResponse;
    ghost var before := buf;
    if Has(r.capabilityFlags, CONNECT_WITH_DB) {
      buf := buf + NullStr(r.database);
    }
    if Has(r.capabilityFlags, PLUGIN_AUTH) {
      buf := buf + NullStr(if r.authPlugin == [] then NATIVE_PASSWORD else r.authPlugin);
    }
    assert buf == before + OptionalFields(r);
  }

  method ParseResponse(d: seq<byte>) returns (r: Result<HandshakeResponse41>)
    ensures r == DecodeResponse(d)
  {
    hide ReadU32, ReadNullStr, ReadLenencInt, Has;
    if |d| < 32 {
      return Err("handshake response too short");
    }
    var flags, maxPacket, charset := ReadU32(d, 0), ReadU32(d, 4), d[8];
    if 32 >= |d| {
      return Err("truncated response");
    }
    var user, pos := ReadNullStrLoop(d, 32);
    var auth: seq<byte> := [];
    if Has(flags, PLUGIN_AUTH_LENENC) {
      var len, at := ReadLenencIntLoop(d, pos);
      if at + len > |d| {
        return Err("auth response overflows packet");
      }
      auth, pos := d[at..at + len], at + len;
    } else if Has(flags, SECURE_CONNECTION) {
      if pos >= |d| {
        return Err("missing auth len byte");
      }
      var len := d[pos];
      pos := pos + 1;
      if pos + len > |d| {
        return Err("auth response overflows packet");
      }
      auth, pos := d[pos..pos + len], pos + len;
    }
    var db, plugin := [], [];
    if Has(flags, CONNECT_WITH_DB) && pos < |d| {
      db, pos := ReadNullStrLoop(d, pos);
    }
    if Has(flags, PLUGIN_AUTH) && pos < |d| {
      plugin, pos := ReadNullStrLoop(d, pos);
    }
    r := Ok(HandshakeResponse41(flags, maxPacket, charset, user, auth, db, plugin));
  }
}
