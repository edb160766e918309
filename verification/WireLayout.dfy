/** The wire formats byte by byte, as the MySQL Client/Server Protocol lays them out. */
module WireLayout {
  import opened Residues
  import opened Codec
  import opened Framing
  import opened Packets
  import opened Handshake

  // ---- Integers ----

  /** Byte number i is the i-th digit to base 256, least significant first. */
  lemma {:induction false} LittleEndianByte(v: nat, n: nat, i: nat)
    requires i < n
    ensures LittleEndian(v, n)[i] == v / Pow256(i) % 256
  {
    if i > 0 {
      LittleEndianByte(v / 256, n - 1, i - 1);
      DividedTwice(v, Pow256(i - 1));
    }
  }

  lemma DividedTwice(v: nat, m: nat)
    requires m > 0
    ensures v / 256 / m == v / (256 * m)
  {
    var q, r := v / 256, v % 256;
    var a, b := q / m, q % m;
    assert q == a * m + b && v == 256 * q + r;
    assert v == a * (256 * m) + (256 * b + r) by { assert 256 * (a * m) == a * (256 * m); }
    assert 0 <= 256 * b + r < 256 * m;
    ResidueIsUnique(v, a, 256 * b + r, 256 * m);
  }

  /** The fixed-width writers are little-endian. */
  lemma FixedWidthIsLittleEndian()
    ensures forall v: u16 :: U16(v) == LittleEndian(v, 2)
    ensures forall v: u24 :: U24(v) == LittleEndian(v, 3)
    ensures forall v: u32 :: U32(v) == LittleEndian(v, 4)
  {
    forall v: u16 ensures U16(v) == LittleEndian(v, 2) { TwoBytes(v); }
    forall v: u24 ensures U24(v) == LittleEndian(v, 3) { ThreeBytes(v); }
    forall v: u32 ensures U32(v) == LittleEndian(v, 4) { FourBytes(v); }
  }

  lemma TwoBytes(v: u16)
    ensures U16(v) == LittleEndian(v, 2)
  {
    assert LittleEndian(v / 256, 1) == [v / 256 % 256] + LittleEndian(v / 256 / 256, 0);
  }

  lemma ThreeBytes(v: u24)
    ensures U24(v) == LittleEndian(v, 3)
  {
    assert v / 256 / 256 == v / 65536;
    assert LittleEndian(v / 65536, 1) == [v / 65536 % 256] + LittleEndian(v / 65536 / 256, 0);
    assert LittleEndian(v / 256, 2) == [v / 256 % 256] + LittleEndian(v / 65536, 1);
  }

  lemma FourBytes(v: u32)
    ensures U32(v) == LittleEndian(v, 4)
  {
    assert v / 256 / 256 == v / 65536 && v / 65536 / 256 == v / 16777216;
    assert LittleEndian(v / 16777216, 1) == [v / 16777216 % 256] + LittleEndian(v / 16777216 / 256, 0);
    assert LittleEndian(v / 65536, 2) == [v / 65536 % 256] + LittleEndian(v / 16777216, 1);
    assert LittleEndian(v / 256, 3) == [v / 256 % 256] + LittleEndian(v / 65536, 2);
  }

  // ---- Length-encoded integers ----

  /** One byte up to 250; then a mark and two, three or eight bytes. */
  lemma LenencLayout(v: u64)
    ensures v <= 250 ==> LenencInt(v) == [v]
    ensures 251 <= v <= 0xFFFF ==> LenencInt(v) == [252] + LittleEndian(v, 2)
    ensures 0x1_0000 <= v <= 0xFF_FFFF ==> LenencInt(v) == [253] + LittleEndian(v, 3)
    ensures 0x100_0000 <= v ==> LenencInt(v) == [254] + LittleEndian(v, 8)
  {
    hide LittleEndian, U16, U24;
    if 251 <= v <= 0xFFFF {
      TwoBytes(v);
    } else if 0x1_0000 <= v <= 0xFF_FFFF {
      ThreeBytes(v);
    }
  }

  /** How many bytes follow a mark. */
  function MarkWidth(mark: byte): nat { if mark <= 250 then 0 else if mark == 252 then 2 else if mark == 253 then 3 else 8 }

  /** Reading goes by the first byte; an integer cut off by the end of the packet reads as 0 behind its mark. */
  lemma LenencByFirstByte(d: seq<byte>, pos: nat)
    requires pos <= |d|
    ensures pos == |d| ==> ReadLenencInt(d, pos) == (0, pos)
    ensures pos < |d| ==>
            var w := MarkWidth(d[pos]);
            ReadLenencInt(d, pos) ==
            if w == 0 then (d[pos], pos + 1)
            else if pos + 1 + w > |d| then (0, pos + 1)
            else (FromLittleEndian(d[pos + 1..pos + 1 + w]), pos + 1 + w)
  {
    if pos < |d| && pos + 3 <= |d| && d[pos] == 252 {
      ReadTwo(d, pos + 1);
    } else if pos < |d| && pos + 4 <= |d| && d[pos] == 253 {
      ReadThree(d, pos + 1);
    }
  }

  lemma OneByte(b: byte)
    ensures FromLittleEndian([b]) == b
  {
    assert [b][1..] == [];
    assert FromLittleEndian([]) == 0;
  }

  lemma ReadTwo(d: seq<byte>, pos: nat)
    requires pos + 2 <= |d|
    ensures ReadU16(d, pos) == FromLittleEndian(d[pos..pos + 2])
  {
    var e := d[pos..pos + 2];
    assert e == [d[pos], d[pos + 1]] && e[1..] == [d[pos + 1]] && e[1..][1..] == [];
    OneByte(d[pos + 1]);
  }

  lemma ReadThree(d: seq<byte>, pos: nat)
    requires pos + 3 <= |d|
    ensures ReadU24(d, pos) == FromLittleEndian(d[pos..pos + 3])
  {
    var e := d[pos..pos + 3];
    assert e == [d[pos], d[pos + 1], d[pos + 2]] && e[1..] == [d[pos + 1], d[pos + 2]];
    assert e[1..][1..] == [d[pos + 2]];
    OneByte(d[pos + 2]);
    assert FromLittleEndian(e[1..]) == (d[pos + 1] as int) + 256 * (d[pos + 2] as int);
  }

  // ---- Frames ----

  /** Three length bytes, the sequence number, the payload; a full packet is followed by another. */
  lemma FrameLayout(p: seq<byte>, sequence: byte)
    ensures |p| < 16777215 ==> Frames(p, sequence) == LittleEndian(|p|, 3) + [sequence] + p
    ensures |p| >= 16777215 ==>
            Frames(p, sequence) == [255, 255, 255, sequence] + p[..16777215] + Frames(p[16777215..], (sequence + 1) % 256)
  {
    hide U24, LittleEndian;
    if |p| < 16777215 {
      ThreeBytes(|p|);
    } else {
      FullHeader(sequence);
    }
  }

  lemma FullHeader(sequence: byte)
    ensures Header(16777215, sequence) == [255, 255, 255, sequence]
  {
  }

  // ---- Result-set packets ----

  lemma EofLayout(warnings: u16, status: u16)
    ensures MakeEof(warnings, status) == [0xFE, warnings % 256, warnings / 256, status % 256, status / 256]
  {
  }

  /** NULL for an empty value, otherwise length and bytes. */
  lemma RowLayout(v: seq<byte>, values: seq<seq<byte>>)
    requires Sized(v) && forall x :: x in values ==> Sized(x)
    ensures TextRow([v] + values) == (if v == [] then [0xFB] else LenencInt(|v|) + v) + TextRow(values)
  {
    assert ([v] + values)[1..] == values;
  }

  lemma ColumnDefLayout(name: seq<byte>, colType: byte, length: u32, flags: u16, charset: byte)
    requires Sized(name)
    ensures MakeColumnDef(name, colType, length, flags, charset) ==
            [3, 100, 101, 102, 0, 0, 0] + (LenencInt(|name|) + name)
            + ([0, 12, charset, 0] + LittleEndian(length, 4) + [colType] + LittleEndian(flags, 2) + [0, 0, 0])
  {
    FourBytes(length);
    TwoBytes(flags);
    FixedStrings(name);
    hide U32, U16, LittleEndian, LenencStr, LenencInt;
    var middle := LenencInt(|name|) + name;
    var front := LenencStr(DEF) + LenencStr([]) + LenencStr([]) + LenencStr([]);
    assert front == [3, 100, 101, 102, 0, 0, 0];
  }

  lemma FixedStrings(name: seq<byte>)
    requires Sized(name)
    ensures LenencStr([]) == [0] && LenencStr(DEF) == [3, 100, 101, 102] && LenencStr(name) == LenencInt(|name|) + name
    ensures U16(0) == [0, 0]
  {
  }

  // ---- Handshakes ----

  /** Protocol::HandshakeV10, field by field. */
  lemma V10Layout(h: HandshakeV10)
    ensures EncodeV10(h) ==
            [10] + h.serverVersion + [0]
            + (LittleEndian(h.connectionId, 4) + h.authData[..8] + [0]
               + LittleEndian(h.capabilityFlags % 65536, 2) + [h.characterSet] + LittleEndian(h.statusFlags, 2)
               + LittleEndian(h.capabilityFlags / 65536, 2) + [21] + [0, 0, 0, 0, 0, 0, 0, 0, 0, 0])
            + h.authData[8..] + [0] + h.authPluginName + [0]
  {
    FourBytes(h.connectionId);
    TwoBytes(h.capabilityFlags % 65536);
    TwoBytes(h.statusFlags);
    TwoBytes(h.capabilityFlags / 65536);
    assert Zeros(10) == [0, 0, 0, 0, 0, 0, 0, 0, 0, 0];
    hide U16, U32, LittleEndian, Zeros;
    FixedIs(h);
    hide FixedPart;
  }

  lemma FixedIs(h: HandshakeV10)
    ensures FixedPart(h) ==
            U32(h.connectionId) + h.authData[..8] + [0] + U16(h.capabilityFlags % 65536) + [h.characterSet]
            + U16(h.statusFlags) + U16(h.capabilityFlags / 65536) + [21] + [0, 0, 0, 0, 0, 0, 0, 0, 0, 0]
  {
    hide U16, U32;
    assert Zeros(10) == [0, 0, 0, 0, 0, 0, 0, 0, 0, 0];
  }

  /** Bit number i of the flags. */
  predicate Bit(flags: u32, i: nat) { flags / Power2(i) % 2 == 1 }

  function Power2(i: nat): (r: nat)
    ensures r > 0
  {
    if i == 0 then 1 else 2 * Power2(i - 1)
  }

  /** CLIENT_CONNECT_WITH_DB is bit 3, SECURE_CONNECTION 15, PLUGIN_AUTH 19, PLUGIN_AUTH_LENENC_CLIENT_DATA 21. */
  lemma FlagBits(flags: u32)
    ensures Has(flags, CONNECT_WITH_DB) <==> Bit(flags, 3)
    ensures Has(flags, SECURE_CONNECTION) <==> Bit(flags, 15)
    ensures Has(flags, PLUGIN_AUTH) <==> Bit(flags, 19)
    ensures Has(flags, PLUGIN_AUTH_LENENC) <==> Bit(flags, 21)
  {
    assert Power2(3) == 8;
    assert Power2(11) == 256 * Power2(3);
    assert Power2(15) == 16 * Power2(11);
    assert Power2(19) == 16 * Power2(15);
    assert Power2(21) == 4 * Power2(19);
  }

  /** Protocol::HandshakeResponse41, field by field. */
  lemma ResponseLayout(r: HandshakeResponse41)
    ensures EncodeResponse(r) ==
            (LittleEndian(r.capabilityFlags, 4) + LittleEndian(r.maxPacketSize, 4) + [r.characterSet]
             + [0, 0, 0, 0, 0, 0, 0, 0, 0, 0, 0, 0, 0, 0, 0, 0, 0, 0, 0, 0, 0, 0, 0])
            + (r.username + [0]) + ([|r.authResponse| % 256] + r.authResponse)
            + ((if Bit(r.capabilityFlags, 3) then r.database + [0] else [])
               + (if Bit(r.capabilityFlags, 19) then (if r.authPlugin == [] then NATIVE_PASSWORD else r.authPlugin) + [0] else []))
  {
    FlagBits(r.capabilityFlags);
    FourBytes(r.capabilityFlags);
    FourBytes(r.maxPacketSize);
    hide U32, LittleEndian, Has, Bit;
    assert Zeros(23) == [0, 0, 0, 0, 0, 0, 0, 0, 0, 0, 0, 0, 0, 0, 0, 0, 0, 0, 0, 0, 0, 0, 0];
  }

  /** The name of the default plugin. */
  lemma DefaultPlugin()
    ensures |NATIVE_PASSWORD| == 21
    ensures forall i :: 0 <= i < 21 ==> NATIVE_PASSWORD[i] == "mysql_native_password"[i] as int
  {
  }

  // ---- Handshakes cut short ----

  /** Which packets are no handshake, and what is said of them. */
  lemma V10Errors(d: seq<byte>, version: seq<byte>, rest: seq<byte>)
    requires NulFree(version) && d == [10] + version + [0] + rest
    ensures |rest| < 4 ==> DecodeV10(d) == Err("truncated handshake")
    ensures 4 <= |rest| < 12 ==> DecodeV10(d) == Err("truncated auth data 1")
    ensures 12 <= |rest| < 15 ==> DecodeV10(d) == Err("truncated caps low")
    ensures |rest| >= 15 ==> DecodeV10(d).Ok? && DecodeV10(d).value.serverVersion == version
  {
    hide UpToNul, DecodeMiddle, ReadU16, ReadU32, Has, SaltTail;
    assert At(d, 1, NullStr(version));
    NullStrRoundTrip(d, 1, version);
  }

  lemma NotV10(d: seq<byte>)
    requires d == [] || d[0] != 10
    ensures DecodeV10(d) == Err("not a HandshakeV10 packet")
  {
  }

  /** A handshake that ends behind the lower flags: the rest has its default values. */
  lemma V10Defaults(version: seq<byte>, rest: seq<byte>)
    requires NulFree(version) && |rest| == 15
    ensures var d := [10] + version + [0] + rest;
            && DecodeV10(d).Ok?
            && var h := DecodeV10(d).value;
               && h.characterSet == 45 && h.statusFlags == 2 && h.capabilityFlags == FromLittleEndian(rest[13..15])
               && h.authData == rest[4..12] + Zeros(12) && h.authPluginName == NATIVE_PASSWORD
  {
    hide UpToNul, ReadU16, ReadU32, Has;
    var d := [10] + version + [0] + rest;
    assert At(d, 1, NullStr(version));
    NullStrRoundTrip(d, 1, version);
    var p := |version| + 2;
    assert d[p + 4..p + 12] == rest[4..12] && d[p + 13..p + 15] == rest[13..15];
    ReadTwo(d, p + 13);
  }

  function Word(low: byte, high: byte): u16 { (low as int) + 256 * (high as int) }

  /** The middle fields, as many of them as the packet has. */
  lemma MiddleByLength(d: seq<byte>, pos: nat)
    requires pos <= |d|
    ensures var r := d[pos..];
            DecodeMiddle(d, pos) ==
            if |r| == 0 then Middle(45, 2, 0, 0, pos)
            else if |r| == 1 then Middle(r[0], 2, 0, 0, pos + 11)
            else if |r| == 2 then Middle(r[0], 2, 0, r[1], pos + 12)
            else if |r| == 3 then Middle(r[0], Word(r[1], r[2]), 0, 0, pos + 13)
            else if |r| == 4 then Middle(r[0], Word(r[1], r[2]), 0, r[3], pos + 14)
            else if |r| == 5 then Middle(r[0], Word(r[1], r[2]), Word(r[3], r[4]), 0, pos + 15)
            else Middle(r[0], Word(r[1], r[2]), Word(r[3], r[4]), r[5], pos + 16)
  {
  }

  /** What a server sends in the fixed part. */
  datatype Fixed = Fixed(id: u32, salt: seq<byte>, low: u16, charset: byte, status: u16, high: u16, authLen: byte, reserved: seq<byte>)

  function FixedBytes(f: Fixed): seq<byte> {
    LittleEndian(f.id, 4) + f.salt + [0] + LittleEndian(f.low, 2)
    + ([f.charset] + LittleEndian(f.status, 2) + LittleEndian(f.high, 2) + [f.authLen]) + f.reserved
  }

  lemma MiddleOf(d: seq<byte>, pos: nat, f: Fixed)
    requires At(d, pos, [f.charset] + LittleEndian(f.status, 2) + LittleEndian(f.high, 2) + [f.authLen])
    ensures DecodeMiddle(d, pos) == Middle(f.charset, f.status, f.high, f.authLen, pos + 16)
  {
    hide DecodeMiddle, U16;
    TwoBytes(f.status);
    TwoBytes(f.high);
    TwoBytesAre(f.status);
    TwoBytesAre(f.high);
    hide LittleEndian;
    var m := [f.charset] + LittleEndian(f.status, 2) + LittleEndian(f.high, 2) + [f.authLen];
    var r := d[pos..];
    assert r[..6] == m;
    assert forall i :: 0 <= i < 6 ==> r[i] == m[i];
    MiddleByLength(d, pos);
  }

  lemma TwoBytesAre(v: u16)
    ensures U16(v) == [v % 256, v / 256] && Word(v % 256, v / 256) == v
  {
  }

  /** How many bytes stand between the twelve of the second half of the challenge and the plugin name. */
  function Filler(authLen: byte): nat { if authLen > 21 then authLen - 20 else 1 }

  /**
   The handshake of any server that sets SECURE_CONNECTION and PLUGIN_AUTH, whatever
   challenge length it announces and whatever it writes into reserved bytes and filler.
  */
  lemma V10OfAnyServer(version: seq<byte>, f: Fixed, salt2: seq<byte>, filler: seq<byte>, plugin: seq<byte>, tail: seq<byte>)
    requires NulFree(version) && NulFree(plugin) && |f.salt| == 8 && |f.reserved| == 10 && |salt2| == 12
    requires |filler| == Filler(f.authLen)
    requires Bit((f.low as int) + 65536 * (f.high as int), 15) && Bit((f.low as int) + 65536 * (f.high as int), 19)
    ensures DecodeV10([10] + version + [0] + FixedBytes(f) + (salt2 + filler + (plugin + [0] + tail))) ==
            Ok(HandshakeV10(version, f.id, f.salt + salt2, (f.low as int) + 65536 * (f.high as int), f.charset, f.status, plugin))
  {
    hide DecodeV10, FixedBytes, DecodeMiddle, ReadU16, ReadU32, ReadNullStr, SaltTail, Has, Bit;
    var end := salt2 + filler + (plugin + [0] + tail);
    var d, p := [10] + version + [0] + FixedBytes(f) + end, |version| + 2;
    AnyServerHead(version, f, end);
    AnyServerTail(d, p + 31, salt2, filler, plugin, tail);
    FlagBits((f.low as int) + 65536 * (f.high as int));
    AnyServerDecoded(d, p, version, f, salt2, plugin);
  }

  lemma AnyServerDecoded(d: seq<byte>, p: nat, version: seq<byte>, f: Fixed, salt2: seq<byte>, plugin: seq<byte>)
    requires |f.salt| == 8 && |salt2| == 12 && p + 43 + Filler(f.authLen) < |d| && d[0] == 10
    requires ReadNullStr(d, 1) == (version, p) && ReadU32(d, p) == f.id && d[p + 4..p + 12] == f.salt && ReadU16(d, p + 13) == f.low
    requires DecodeMiddle(d, p + 15) == Middle(f.charset, f.status, f.high, f.authLen, p + 31)
    requires SaltTail(d, p + 31) == salt2 && ReadNullStr(d, p + 43 + Filler(f.authLen)).0 == plugin
    requires Has((f.low as int) + 65536 * (f.high as int), SECURE_CONNECTION)
    requires Has((f.low as int) + 65536 * (f.high as int), PLUGIN_AUTH)
    ensures DecodeV10(d) ==
            Ok(HandshakeV10(version, f.id, f.salt + salt2, (f.low as int) + 65536 * (f.high as int), f.charset, f.status, plugin))
  {
    hide DecodeMiddle, ReadU16, ReadU32, ReadNullStr, SaltTail, Has;
  }

  lemma FixedLength(f: Fixed)
    requires |f.salt| == 8 && |f.reserved| == 10
    ensures |FixedBytes(f)| == 31
  {
  }

  lemma AnyServerHead(version: seq<byte>, f: Fixed, end: seq<byte>)
    requires NulFree(version) && |f.salt| == 8 && |f.reserved| == 10
    ensures var d, p := [10] + version + [0] + FixedBytes(f) + end, |version| + 2;
            && |d| >= p + 31 && d[0] == 10 && ReadNullStr(d, 1) == (version, p)
            && ReadU32(d, p) == f.id && d[p + 4..p + 12] == f.salt && ReadU16(d, p + 13) == f.low
            && DecodeMiddle(d, p + 15) == Middle(f.charset, f.status, f.high, f.authLen, p + 31)
            && d[p + 31..] == end
  {
    var d, p := [10] + version + [0] + FixedBytes(f) + end, |version| + 2;
    hide UpToNul, DecodeMiddle, LittleEndian, ReadU16, ReadU32, U16, U32;
    FixedLength(f);
    assert At(d, 1, NullStr(version));
    NullStrRoundTrip(d, 1, version);
    assert At(d, p, FixedBytes(f)) by { hide FixedBytes; assert d[p..p + 31] == FixedBytes(f); }
    var m := [f.charset] + LittleEndian(f.status, 2) + LittleEndian(f.high, 2) + [f.authLen];
    var a, b := LittleEndian(f.id, 4), LittleEndian(f.low, 2);
    assert FixedBytes(f) == a + (f.salt + ([0] + (b + (m + f.reserved))));
    AtSplit(d, p, a, f.salt + ([0] + (b + (m + f.reserved))));
    AtSplit(d, p + 4, f.salt, [0] + (b + (m + f.reserved)));
    AtSplit(d, p + 12, [0], b + (m + f.reserved));
    AtSplit(d, p + 13, b, m + f.reserved);
    AtSplit(d, p + 15, m, f.reserved);
    FourBytes(f.id);
    U32RoundTrip(d, p, f.id);
    TwoBytes(f.low);
    U16RoundTrip(d, p + 13, f.low);
    MiddleOf(d, p + 15, f);
  }

  lemma AnyServerTail(d: seq<byte>, at: nat, salt2: seq<byte>, filler: seq<byte>, plugin: seq<byte>, tail: seq<byte>)
    requires at <= |d| && |salt2| == 12 && |filler| >= 1 && NulFree(plugin) && d[at..] == salt2 + filler + (plugin + [0] + tail)
    ensures at + 12 + |filler| < |d| && SaltTail(d, at) == salt2
    ensures ReadNullStr(d, at + 12 + |filler|).0 == plugin
  {
    hide UpToNul;
    var e, n := d[at..], at + 12 + |filler|;
    assert d[at..at + 12] == e[..12] == salt2;
    assert d[n..] == e[12 + |filler|..] == plugin + [0] + tail;
    assert At(d, n, NullStr(plugin)) by { assert d[n..n + |plugin| + 1] == d[n..][..|plugin| + 1] == plugin + [0]; }
    NullStrRoundTrip(d, n, plugin);
  }

  /** Which packets are no response, and what is said of them. */
  lemma ResponseErrors(d: seq<byte>)
    ensures |d| < 32 ==> DecodeResponse(d) == Err("handshake response too short")
    ensures |d| == 32 ==> DecodeResponse(d) == Err("truncated response")
  {
    hide ReadU32, DecodeAuth, DecodeOptional;
  }

  /** The auth response is found by the length style the flags name. */
  lemma AuthByFlags(d: seq<byte>, pos: nat, flags: u32)
    requires pos <= |d|
    ensures Bit(flags, 21) ==>
            var (len, at) := ReadLenencInt(d, pos);
            var end: nat := at + len;
            DecodeAuth(d, pos, flags) == if end > |d| then Err("auth response overflows packet") else Ok((d[at..end], end))
    ensures !Bit(flags, 21) && Bit(flags, 15) && pos == |d| ==> DecodeAuth(d, pos, flags) == Err("missing auth len byte")
    ensures !Bit(flags, 21) && Bit(flags, 15) && pos < |d| ==>
            var end: nat := pos + 1 + d[pos];
            DecodeAuth(d, pos, flags) == if end > |d| then Err("auth response overflows packet") else Ok((d[pos + 1..end], end))
    ensures !Bit(flags, 21) && !Bit(flags, 15) ==> DecodeAuth(d, pos, flags) == Ok(([], pos))
  {
    hide ReadLenencInt, Bit, Has;
    FlagBits(flags);
  }

  /** The response of a client, whatever it writes into the reserved bytes, the auth response in the style its flags name. */
  function ClientHead(flags: u32, maxPacket: u32, charset: byte, reserved: seq<byte>): seq<byte> {
    LittleEndian(flags, 4) + LittleEndian(maxPacket, 4) + [charset] + reserved
  }

  function ClientAuth(flags: u32, auth: seq<byte>): seq<byte>
    requires Sized(auth) && (!Bit(flags, 21) ==> |auth| <= 255)
  {
    if Bit(flags, 21) then LenencInt(|auth|) + auth else [|auth|] + auth
  }

  function ClientFields(flags: u32, db: seq<byte>, plugin: seq<byte>): seq<byte> {
    (if Bit(flags, 3) then db + [0] else []) + (if Bit(flags, 19) then plugin + [0] else [])
  }

  lemma ClientHeadRead(d: seq<byte>, flags: u32, maxPacket: u32, charset: byte, reserved: seq<byte>)
    requires |reserved| == 23 && At(d, 0, ClientHead(flags, maxPacket, charset, reserved))
    ensures |d| >= 32 && ReadU32(d, 0) == flags && ReadU32(d, 4) == maxPacket && d[8] == charset
  {
    hide LittleEndian, U32, ReadU32;
    var a, b := LittleEndian(flags, 4), LittleEndian(maxPacket, 4);
    assert ClientHead(flags, maxPacket, charset, reserved) == a + (b + ([charset] + reserved));
    AtSplit(d, 0, a, b + ([charset] + reserved));
    AtSplit(d, 4, b, [charset] + reserved);
    AtIndex(d, 8, [charset] + reserved, 0);
    FourBytes(flags);
    FourBytes(maxPacket);
    U32RoundTrip(d, 0, flags);
    U32RoundTrip(d, 4, maxPacket);
  }

  lemma ClientAuthRead(d: seq<byte>, pos: nat, flags: u32, auth: seq<byte>)
    requires Sized(auth) && (Bit(flags, 21) || (Bit(flags, 15) && |auth| <= 255)) && At(d, pos, ClientAuth(flags, auth))
    ensures DecodeAuth(d, pos, flags) == Ok((auth, pos + |ClientAuth(flags, auth)|))
  {
    hide Bit, ReadLenencInt, DecodeAuth, LenencInt;
    AuthByFlags(d, pos, flags);
    if Bit(flags, 21) {
      AtSplit(d, pos, LenencInt(|auth|), auth);
      LenencIntRoundTrip(d, pos, |auth|);
    } else {
      AtSplit(d, pos, [|auth|], auth);
      AtIndex(d, pos, [|auth|], 0);
    }
  }

  lemma ClientFieldsRead(d: seq<byte>, pos: nat, flags: u32, db: seq<byte>, plugin: seq<byte>)
    requires NulFree(db) && NulFree(plugin) && At(d, pos, ClientFields(flags, db, plugin))
    requires Bit(flags, 3) || db == []
    requires Bit(flags, 19) || plugin == []
    ensures DecodeOptional(d, pos, flags) == (db, plugin)
  {
    hide Bit, Has, ReadNullStr;
    FlagBits(flags);
    var a := if Bit(flags, 3) then db + [0] else [];
    var b := if Bit(flags, 19) then plugin + [0] else [];
    AtSplit(d, pos, a, b);
    hide At;
    if Bit(flags, 3) {
      NullStrAt(d, pos, db);
    }
    if Bit(flags, 19) {
      NullStrAt(d, pos + |a|, plugin);
    }
    AtInside(d, pos, a);
    AtInside(d, pos + |a|, b);
  }

  lemma NullStrAt(d: seq<byte>, pos: nat, s: seq<byte>)
    requires NulFree(s) && At(d, pos, s + [0])
    ensures ReadNullStr(d, pos) == (s, pos + |s| + 1)
  {
    hide ReadNullStr;
    NullStrRoundTrip(d, pos, s);
  }

  lemma AtInside(d: seq<byte>, pos: nat, w: seq<byte>)
    requires At(d, pos, w)
    ensures pos + |w| <= |d|
  {
  }

  /** It is read back whole, an auth response of any length included where the client encodes its length. */
  lemma ResponseOfAnyClient(d: seq<byte>, reserved: seq<byte>, r: HandshakeResponse41)
    requires |reserved| == 23 && NulFree(r.username) && NulFree(r.database) && NulFree(r.authPlugin) && Sized(r.authResponse)
    requires Bit(r.capabilityFlags, 21) || (Bit(r.capabilityFlags, 15) && |r.authResponse| <= 255)
    requires Bit(r.capabilityFlags, 3) || r.database == []
    requires Bit(r.capabilityFlags, 19) || r.authPlugin == []
    requires At(d, 0, ClientHead(r.capabilityFlags, r.maxPacketSize, r.characterSet, reserved)) && At(d, 32, r.username + [0])
    requires var auth := ClientAuth(r.capabilityFlags, r.authResponse);
             && At(d, 33 + |r.username|, auth)
             && At(d, 33 + |r.username| + |auth|, ClientFields(r.capabilityFlags, r.database, r.authPlugin))
    ensures DecodeResponse(d) == Ok(r)
  {
    hide ClientHead, ClientAuth, ClientFields, Bit, DecodeResponse, ReadU32, ReadNullStr, DecodeAuth, DecodeOptional, NulFree;
    var flags, p := r.capabilityFlags, 33 + |r.username|;
    var at := p + |ClientAuth(flags, r.authResponse)|;
    ClientHeadRead(d, flags, r.maxPacketSize, r.characterSet, reserved);
    NullStrRoundTrip(d, 32, r.username);
    ClientAuthRead(d, p, flags, r.authResponse);
    ClientFieldsRead(d, at, flags, r.database, r.authPlugin);
    ResponseDecoded(d, p, at, r);
  }

  lemma ResponseDecoded(d: seq<byte>, p: nat, at: nat, r: HandshakeResponse41)
    requires |d| > 32 && p <= |d| && at <= |d|
    requires ReadU32(d, 0) == r.capabilityFlags && ReadU32(d, 4) == r.maxPacketSize && d[8] == r.characterSet
    requires ReadNullStr(d, 32) == (r.username, p) && DecodeAuth(d, p, r.capabilityFlags) == Ok((r.authResponse, at))
    requires DecodeOptional(d, at, r.capabilityFlags) == (r.database, r.authPlugin)
    ensures DecodeResponse(d) == Ok(r)
  {
    hide ReadU32, ReadNullStr, DecodeAuth, DecodeOptional;
  }
}
