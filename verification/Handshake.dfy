/** HandshakeV10 and HandshakeResponse41: encoders, decoders and when they undo each other. */
module Handshake {
  import opened Codec

  /** A 20-byte authentication challenge. */
  type Salt = s: seq<byte> | |s| == 20 witness seq(20, _ => 0)

  const CONNECT_WITH_DB: nat := 0x8
  const SECURE_CONNECTION: nat := 0x8000
  const PLUGIN_AUTH: nat := 0x8_0000
  const PLUGIN_AUTH_LENENC: nat := 0x20_0000

  /** Whether the flags contain the one-bit mask. */
  predicate Has(flags: u32, mask: nat)
    requires mask > 0
  {
    flags / mask % 2 == 1
  }

  /** "mysql_native_password" */
  const NATIVE_PASSWORD: seq<byte> :=
    [0x6D, 0x79, 0x73, 0x71, 0x6C, 0x5F, 0x6E, 0x61, 0x74, 0x69, 0x76, 0x65, 0x5F,
     0x70, 0x61, 0x73, 0x73, 0x77, 0x6F, 0x72, 0x64]

  datatype Result<T> = Ok(value: T) | Err(message: string)

  function Zeros(n: nat): (r: seq<byte>)
    ensures |r| == n && forall i :: 0 <= i < n ==> r[i] == 0
  {
    seq(n, _ => 0)
  }

  // ---- HandshakeV10 ----

  datatype HandshakeV10 = HandshakeV10(
    serverVersion: seq<byte>,
    connectionId: u32,
    authData: Salt,
    capabilityFlags: u32,
    characterSet: byte,
    statusFlags: u16,
    authPluginName: seq<byte>)

  /** Everything after the server version, up to the second half of the challenge. */
  function FixedPart(h: HandshakeV10): (r: seq<byte>)
    ensures |r| == 31
  {
    U32(h.connectionId) + h.authData[..8] + [0] + U16(h.capabilityFlags % 65536) + [h.characterSet]
    + U16(h.statusFlags) + U16(h.capabilityFlags / 65536) + [21] + Zeros(10)
  }

  function EncodeV10(h: HandshakeV10): seq<byte> {
    [0x0A] + NullStr(h.serverVersion) + FixedPart(h) + (h.authData[8..] + [0]) + NullStr(h.authPluginName)
  }

  /** The optional middle fields: character set, status, upper flags, challenge length, and where they end. */
  datatype Middle = Middle(characterSet: byte, statusFlags: u16, capHigh: u16, authLen: byte, pos: nat)

  function DecodeMiddle(d: seq<byte>, pos: nat): Middle {
    if pos >= |d| then Middle(0x2D, 2, 0, 0, pos)
    else
      var p1 := pos + 1;
      var p2 := if p1 + 2 <= |d| then p1 + 2 else p1;
      var p3 := if p2 + 2 <= |d| then p2 + 2 else p2;
      var p4 := if p3 < |d| then p3 + 1 else p3;
      var status: u16 := if p1 + 2 <= |d| then ReadU16(d, p1) else 2;
      var high: u16 := if p2 + 2 <= |d| then ReadU16(d, p2) else 0;
      var authLen: byte := if p3 < |d| then d[p3] else 0;
      Middle(d[pos], status, high, authLen, p4 + 10)
  }

  /** The second half of the challenge, as far as the packet goes, zero-filled. */
  function SaltTail(d: seq<byte>, pos: nat): (r: seq<byte>)
    requires pos <= |d|
    ensures |r| == 12
  {
    if pos + 12 <= |d| then d[pos..pos + 12] else d[pos..] + Zeros(12 - (|d| - pos))
  }

  function DecodeV10(d: seq<byte>): Result<HandshakeV10> {
    if d == [] || d[0] != 0x0A then Err("not a HandshakeV10 packet")
    else
      var (version, p) := ReadNullStr(d, 1);
      if p + 4 > |d| then Err("truncated handshake")
      else if p + 12 > |d| then Err("truncated auth data 1")
      else if p + 15 > |d| then Err("truncated caps low")
      else
        var m := DecodeMiddle(d, p + 15);
        var flags: u32 := (ReadU16(d, p + 13) as int) + 65536 * (m.capHigh as int);
        var secure := Has(flags, SECURE_CONNECTION) && m.pos < |d|;
        var part2 := if m.authLen > 21 then m.authLen - 8 else 13;
        var salt2 := if secure then SaltTail(d, m.pos) else Zeros(12);
        var copied := if m.pos + 12 <= |d| then 12 else |d| - m.pos;
        var pos := if secure then m.pos + copied + part2 - 12 else m.pos;
        var plugin := if Has(flags, PLUGIN_AUTH) && pos < |d| then ReadNullStr(d, pos).0 else NATIVE_PASSWORD;
        Ok(HandshakeV10(version, ReadU32(d, p), d[p + 4..p + 12] + salt2, flags, m.characterSet, m.statusFlags, plugin))
  }

  lemma FixedPartAt(d: seq<byte>, p: nat, h: HandshakeV10)
    requires At(d, p, FixedPart(h))
    ensures p + 31 <= |d| && ReadU32(d, p) == h.connectionId
    ensures d[p + 4..p + 12] == h.authData[..8]
    ensures ReadU16(d, p + 13) == h.capabilityFlags % 65536
    ensures DecodeMiddle(d, p + 15) ==
            Middle(h.characterSet, h.statusFlags, h.capabilityFlags / 65536, 21, p + 31)
  {
    var a, b, c, e := U32(h.connectionId), h.authData[..8], U16(h.capabilityFlags % 65536), [h.characterSet];
    var f, g := U16(h.statusFlags), U16(h.capabilityFlags / 65536);
    hide U32, U16, ReadU16, ReadU32;
    assert FixedPart(h) == a + (b + ([0] + (c + (e + (f + (g + ([21] + Zeros(10))))))));
    AtSplit(d, p, a, b + ([0] + (c + (e + (f + (g + ([21] + Zeros(10))))))));
    U32RoundTrip(d, p, h.connectionId);
    AtSplit(d, p + 4, b, [0] + (c + (e + (f + (g + ([21] + Zeros(10)))))));
    AtSplit(d, p + 12, [0], c + (e + (f + (g + ([21] + Zeros(10))))));
    AtSplit(d, p + 13, c, e + (f + (g + ([21] + Zeros(10)))));
    U16RoundTrip(d, p + 13, h.capabilityFlags % 65536);
    AtSplit(d, p + 15, e, f + (g + ([21] + Zeros(10))));
    AtIndex(d, p + 15, e, 0);
    AtSplit(d, p + 16, f, g + ([21] + Zeros(10)));
    U16RoundTrip(d, p + 16, h.statusFlags);
    AtSplit(d, p + 18, g, [21] + Zeros(10));
    U16RoundTrip(d, p + 18, h.capabilityFlags / 65536);
    AtIndex(d, p + 20, [21] + Zeros(10), 0);
  }

  /** What decoding an encoded handshake yields, for every setting of the two flags. */
  function SeenV10(h: HandshakeV10): HandshakeV10 {
    var secure := Has(h.capabilityFlags, SECURE_CONNECTION);
    var plugin :=
      if !Has(h.capabilityFlags, PLUGIN_AUTH) then NATIVE_PASSWORD
      else if secure then UpToNul(h.authPluginName)
      else UpToNul(h.authData[8..] + [0] + NullStr(h.authPluginName));
    h.(authData := h.authData[..8] + (if secure then h.authData[8..] else Zeros(12)), authPluginName := plugin)
  }

  /** Where the parts of an encoded handshake stand. */
  lemma LayoutV10(h: HandshakeV10)
    requires NulFree(h.serverVersion)
    ensures var d, p := EncodeV10(h), |h.serverVersion| + 2;
            && |d| == p + 44 + |NullStr(h.authPluginName)| && d[0] == 0x0A
            && ReadNullStr(d, 1) == (h.serverVersion, p)
            && At(d, p, FixedPart(h))
            && d[p + 31..] == h.authData[8..] + [0] + NullStr(h.authPluginName)
  {
    hide FixedPart, UpToNul;
    var d := EncodeV10(h);
    var tail := h.authData[8..] + [0] + NullStr(h.authPluginName);
    var p := |h.serverVersion| + 2;
    assert d == [0x0A] + NullStr(h.serverVersion) + (FixedPart(h) + tail);
    assert At(d, 1, NullStr(h.serverVersion));
    NullStrRoundTrip(d, 1, h.serverVersion);
    assert d[p..] == FixedPart(h) + tail;
    assert d[p..p + 31] == FixedPart(h);
  }

  lemma TailV10(d: seq<byte>, at: nat, salt: seq<byte>, name: seq<byte>)
    requires |salt| == 12 && at <= |d| && d[at..] == salt + [0] + NullStr(name)
    ensures at + 13 < |d| && SaltTail(d, at) == salt && d[at + 13..] == NullStr(name)
    ensures ReadNullStr(d, at + 13).0 == UpToNul(name)
  {
    hide UpToNul;
    assert d[at..at + 12] == d[at..][..12] == salt;
    assert d[at + 13..] == d[at..][13..] == NullStr(name);
    UpToNulAppended(name);
  }

  lemma DecodeEncodeV10(h: HandshakeV10)
    requires NulFree(h.serverVersion)
    ensures DecodeV10(EncodeV10(h)) == Ok(SeenV10(h))
  {
    hide EncodeV10, FixedPart, DecodeMiddle, SaltTail, UpToNul, ReadU16, ReadU32, NullStr, At, Has;
    var d, p := EncodeV10(h), |h.serverVersion| + 2;
    LayoutV10(h);
    FixedPartAt(d, p, h);
    TailV10(d, p + 31, h.authData[8..], h.authPluginName);
  }

  lemma {:induction false} UpToNulAppended(s: seq<byte>)
    ensures UpToNul(NullStr(s)) == UpToNul(s)
  {
    if s != [] {
      assert NullStr(s)[1..] == NullStr(s[1..]);
      UpToNulAppended(s[1..]);
    }
  }

  lemma {:induction false} UpToNulIsAll(s: seq<byte>)
    ensures UpToNul(s) == s <==> NulFree(s)
  {
    if s != [] {
      assert s == [s[0]] + s[1..];
      UpToNulIsAll(s[1..]);
    }
  }

  /** The handshakes that survive a round trip. */
  predicate SurvivesV10(h: HandshakeV10) {
    && NulFree(h.serverVersion)
    && (if Has(h.capabilityFlags, SECURE_CONNECTION)
        then if Has(h.capabilityFlags, PLUGIN_AUTH) then NulFree(h.authPluginName)
             else h.authPluginName == NATIVE_PASSWORD
        else && h.authData[8..] == Zeros(12)
             && h.authPluginName == if Has(h.capabilityFlags, PLUGIN_AUTH) then [] else NATIVE_PASSWORD)
  }

  /** decode inverts encode exactly on those. */
  lemma HandshakeV10RoundTripExactly(h: HandshakeV10)
    ensures DecodeV10(EncodeV10(h)) == Ok(h) <==> SurvivesV10(h)
  {
    if NulFree(h.serverVersion) {
      DecodeEncodeV10(h);
      UpToNulIsAll(h.authPluginName);
      assert h.authData == h.authData[..8] + h.authData[8..];
      assert (h.authData[..8] + Zeros(12))[8..] == Zeros(12);
      if h.authData[8..] == Zeros(12) {
        assert (h.authData[8..] + [0] + NullStr(h.authPluginName))[0] == 0;
      }
    }
  }

  // ---- HandshakeResponse41 ----

  datatype HandshakeResponse41 = HandshakeResponse41(
    capabilityFlags: u32,
    maxPacketSize: u32,
    characterSet: byte,
    username: seq<byte>,
    authResponse: seq<byte>,
    database: seq<byte>,
    authPlugin: seq<byte>)

  function PluginSent(plugin: seq<byte>): (r: seq<byte>)
    ensures r != []
  {
    if plugin == [] then NATIVE_PASSWORD else plugin
  }

  /** The database and plugin fields, each only under its flag. */
  function OptionalFields(r: HandshakeResponse41): seq<byte> {
    (if Has(r.capabilityFlags, CONNECT_WITH_DB) then NullStr(r.database) else [])
    + (if Has(r.capabilityFlags, PLUGIN_AUTH) then NullStr(PluginSent(r.authPlugin)) else [])
  }

  function ResponseHeader(r: HandshakeResponse41): (h: seq<byte>)
    ensures |h| == 32
  {
    U32(r.capabilityFlags) + U32(r.maxPacketSize) + [r.characterSet] + Zeros(23)
  }

  function EncodeResponse(r: HandshakeResponse41): seq<byte> {
    ResponseHeader(r) + NullStr(r.username) + ([|r.authResponse| % 256] + r.authResponse) + OptionalFields(r)
  }

  /** The auth response at `pos`, by the style the flags ask for, and where it ends. */
  function DecodeAuth(d: seq<byte>, pos: nat, flags: u32): (a: Result<(seq<byte>, nat)>)
    requires pos <= |d|
    ensures a.Ok? ==> pos <= a.value.1 <= |d|
  {
    if Has(flags, PLUGIN_AUTH_LENENC) then
      var (len, at) := ReadLenencInt(d, pos);
      if at + len > |d| then Err("auth response overflows packet") else Ok((d[at..at + len], at + len))
    else if Has(flags, SECURE_CONNECTION) then
      if pos >= |d| then Err("missing auth len byte")
      else if pos + 1 + d[pos] > |d| then Err("auth response overflows packet")
      else Ok((d[pos + 1..pos + 1 + d[pos]], pos + 1 + d[pos]))
    else Ok(([], pos))
  }

  /** The database and the plugin from `pos` on. */
  function DecodeOptional(d: seq<byte>, pos: nat, flags: u32): (seq<byte>, seq<byte>)
    requires pos <= |d|
  {
    var (db, at) := if Has(flags, CONNECT_WITH_DB) && pos < |d| then ReadNullStr(d, pos) else ([], pos);
    (db, if Has(flags, PLUGIN_AUTH) && at < |d| then ReadNullStr(d, at).0 else [])
  }

  function DecodeResponse(d: seq<byte>): Result<HandshakeResponse41> {
    if |d| < 32 then Err("handshake response too short")
    else if 32 >= |d| then Err("truncated response")
    else
      var flags := ReadU32(d, 0);
      var (user, p) := ReadNullStr(d, 32);
      match DecodeAuth(d, p, flags)
      case Err(m) => Err(m)
      case Ok((auth, at)) =>
        var (db, plugin) := DecodeOptional(d, at, flags);
        Ok(HandshakeResponse41(flags, ReadU32(d, 4), d[8], user, auth, db, plugin))
  }

  /** The response with fields whose flag is off dropped and the default plugin named. */
  function Normalised(r: HandshakeResponse41): HandshakeResponse41 {
    r.(database := if Has(r.capabilityFlags, CONNECT_WITH_DB) then r.database else [],
       authPlugin := if Has(r.capabilityFlags, PLUGIN_AUTH) then PluginSent(r.authPlugin) else [])
  }

  /** The responses that survive a round trip up to that. */
  predicate SurvivesResponse(r: HandshakeResponse41) {
    var db, plugin := Has(r.capabilityFlags, CONNECT_WITH_DB), Has(r.capabilityFlags, PLUGIN_AUTH);
    && NulFree(r.username)
    && (if Has(r.capabilityFlags, PLUGIN_AUTH_LENENC) then
          |r.authResponse| <= 250 && (db ==> NulFree(r.database)) && (plugin ==> NulFree(r.authPlugin))
        else if Has(r.capabilityFlags, SECURE_CONNECTION) then
          |r.authResponse| <= 255 && (db ==> NulFree(r.database)) && (plugin ==> NulFree(r.authPlugin))
        else
          r.authResponse == [] && !plugin && (db ==> r.database == []))
  }

  /** The fixed fields and the user name of an encoded response are always found. */
  lemma DecodeHead(r: HandshakeResponse41)
    requires NulFree(r.username)
    ensures var d := EncodeResponse(r);
            var p := 33 + |r.username|;
            && |d| >= p + 1
            && ReadU32(d, 0) == r.capabilityFlags && ReadU32(d, 4) == r.maxPacketSize && d[8] == r.characterSet
            && ReadNullStr(d, 32) == (r.username, p)
            && d[p..] == [|r.authResponse| % 256] + r.authResponse + OptionalFields(r)
  {
    hide U32, ReadU32, UpToNul, OptionalFields;
    var d := EncodeResponse(r);
    var a, b := U32(r.capabilityFlags), U32(r.maxPacketSize);
    var rest := [|r.authResponse| % 256] + r.authResponse + OptionalFields(r);
    assert d == ResponseHeader(r) + NullStr(r.username) + rest;
    assert d[0..4] == a && d[4..8] == b;
    U32RoundTrip(d, 0, r.capabilityFlags);
    U32RoundTrip(d, 4, r.maxPacketSize);
    assert At(d, 32, NullStr(r.username));
    NullStrRoundTrip(d, 32, r.username);
  }

  /** The optional fields are read back whole when they stand whole. */
  lemma DecodeOptionalWhole(d: seq<byte>, pos: nat, r: HandshakeResponse41)
    requires pos <= |d| && d[pos..] == OptionalFields(r)
    requires Has(r.capabilityFlags, CONNECT_WITH_DB) ==> NulFree(r.database)
    requires Has(r.capabilityFlags, PLUGIN_AUTH) ==> NulFree(r.authPlugin)
    ensures DecodeOptional(d, pos, r.capabilityFlags) == (Normalised(r).database, Normalised(r).authPlugin)
  {
    hide UpToNul;
    var plugin := PluginSent(r.authPlugin);
    var at := pos;
    if Has(r.capabilityFlags, CONNECT_WITH_DB) {
      assert d[pos..pos + |r.database| + 1] == OptionalFields(r)[..|r.database| + 1] == NullStr(r.database);
      NullStrRoundTrip(d, pos, r.database);
      at := pos + |r.database| + 1;
    }
    if Has(r.capabilityFlags, PLUGIN_AUTH) {
      assert d[at..] == NullStr(plugin);
      assert At(d, at, NullStr(plugin));
      NullStrRoundTrip(d, at, plugin);
    }
  }

  /** They cannot be read back from two bytes fewer than they occupy. */
  lemma DecodeOptionalShort(d: seq<byte>, pos: nat, r: HandshakeResponse41)
    requires pos <= |d| && |d| - pos + 2 <= |OptionalFields(r)| && |d| > 0 && d[|d| - 1] == 0
    ensures DecodeOptional(d, pos, r.capabilityFlags) != (Normalised(r).database, Normalised(r).authPlugin)
  {
    hide UpToNul;
    NullStrSpan(d, pos);
    var db, plugin := Has(r.capabilityFlags, CONNECT_WITH_DB), Has(r.capabilityFlags, PLUGIN_AUTH);
    var at := if db && pos < |d| then ReadNullStr(d, pos).1 else pos;
    NullStrSpan(d, at);
  }

  /** In a packet ending in NUL, a string that is read consumes its length and one more byte. */
  lemma NullStrSpan(d: seq<byte>, pos: nat)
    requires pos <= |d| && |d| > 0 && d[|d| - 1] == 0
    ensures pos < |d| ==> ReadNullStr(d, pos).1 == pos + |ReadNullStr(d, pos).0| + 1
  {
    if pos < |d| {
      var s := UpToNul(d[pos..]);
      assert s != d[pos..] by {
        assert d[pos..][|d| - pos - 1] == 0;
      }
    }
  }

  lemma OptionalEndsInNul(r: HandshakeResponse41)
    ensures OptionalFields(r) != [] ==> OptionalFields(r)[|OptionalFields(r)| - 1] == 0
  {
  }

  /** An auth response whose length fits its style is found, and what follows it is intact. */
  lemma DecodeAuthWhole(d: seq<byte>, p: nat, r: HandshakeResponse41)
    requires p < |d| && d[p..] == [|r.authResponse| % 256] + r.authResponse + OptionalFields(r)
    requires Has(r.capabilityFlags, PLUGIN_AUTH_LENENC) || Has(r.capabilityFlags, SECURE_CONNECTION)
    requires |r.authResponse| <= if Has(r.capabilityFlags, PLUGIN_AUTH_LENENC) then 250 else 255
    ensures var n := |r.authResponse|;
            DecodeAuth(d, p, r.capabilityFlags) == Ok((r.authResponse, p + 1 + n))
            && d[p + 1 + n..] == OptionalFields(r)
  {
    hide OptionalFields;
    var n := |r.authResponse|;
    assert d[p] == d[p..][0] == n;
    assert d[p + 1..p + 1 + n] == d[p..][1..1 + n] == r.authResponse;
    assert d[p + 1 + n..] == d[p..][1 + n..];
  }

  /** A longer one is misread: some field of the result is wrong. */
  lemma DecodeAuthTooLong(d: seq<byte>, p: nat, r: HandshakeResponse41)
    requires p < |d| && d[p..] == [|r.authResponse| % 256] + r.authResponse + OptionalFields(r)
    requires Has(r.capabilityFlags, PLUGIN_AUTH_LENENC) || Has(r.capabilityFlags, SECURE_CONNECTION)
    requires |r.authResponse| > if Has(r.capabilityFlags, PLUGIN_AUTH_LENENC) then 250 else 255
    ensures match DecodeAuth(d, p, r.capabilityFlags)
            case Err(_) => true
            case Ok((auth, at)) =>
              auth != r.authResponse
              || DecodeOptional(d, at, r.capabilityFlags) != (Normalised(r).database, Normalised(r).authPlugin)
  {
    hide OptionalFields, DecodeOptional, Normalised, FromLittleEndian, ReadU16, ReadU24;
    var n := |r.authResponse|;
    assert d[p] == d[p..][0] == n % 256;
    assert |d| - p == 1 + n + |OptionalFields(r)|;
    match DecodeAuth(d, p, r.capabilityFlags)
    case Err(_) =>
    case Ok((auth, at)) =>
      if Has(r.capabilityFlags, PLUGIN_AUTH_LENENC) && auth == r.authResponse {
        assert at >= p + 3 + n;
        OptionalEndsInNul(r);
        assert d[|d| - 1] == d[p..][|d| - p - 1];
        DecodeOptionalShort(d, at, r);
      }
  }

  /** The auth response and the optional fields decide whether the whole is read back. */
  lemma DecodeByParts(r: HandshakeResponse41)
    requires NulFree(r.username)
    ensures var d, p := EncodeResponse(r), 33 + |r.username|;
            && p <= |d|
            && (DecodeResponse(d) == Ok(Normalised(r)) <==>
                match DecodeAuth(d, p, r.capabilityFlags)
                case Err(_) => false
                case Ok((auth, at)) =>
                  auth == r.authResponse
                  && DecodeOptional(d, at, r.capabilityFlags) == (Normalised(r).database, Normalised(r).authPlugin))
  {
    hide EncodeResponse, OptionalFields, UpToNul, ReadU32, DecodeAuth, DecodeOptional, Has;
    DecodeHead(r);
  }

  lemma DecodedFieldsAreNulFree(d: seq<byte>)
    requires DecodeResponse(d).Ok?
    ensures var r := DecodeResponse(d).value; NulFree(r.username) && NulFree(r.database) && NulFree(r.authPlugin)
  {
    hide UpToNul, ReadU32, DecodeAuth, Has;
  }

  /** decode inverts encode, up to the default plugin and fields whose flag is off, exactly on those. */
  lemma HandshakeResponseRoundTripExactly(r: HandshakeResponse41)
    ensures DecodeResponse(EncodeResponse(r)) == Ok(Normalised(r)) <==> SurvivesResponse(r)
  {
    hide EncodeResponse, OptionalFields, ReadU32, DecodeAuth, DecodeOptional, DecodeResponse, Has;
    var d, p, flags := EncodeResponse(r), 33 + |r.username|, r.capabilityFlags;
    if DecodeResponse(d).Ok? {
      DecodedFieldsAreNulFree(d);
    }
    if NulFree(r.username) {
      DecodeByParts(r);
      DecodeHead(r);
      if !Has(flags, PLUGIN_AUTH_LENENC) && !Has(flags, SECURE_CONNECTION) {
        NoLengthNoAuth(d, p, flags);
        DecodeWithoutLength(d, p, r);
      } else if |r.authResponse| > if Has(flags, PLUGIN_AUTH_LENENC) then 250 else 255 {
        DecodeAuthTooLong(d, p, r);
      } else {
        DecodeAuthWhole(d, p, r);
        if (Has(flags, CONNECT_WITH_DB) ==> NulFree(r.database)) && (Has(flags, PLUGIN_AUTH) ==> NulFree(r.authPlugin)) {
          DecodeOptionalWhole(d, p + 1 + |r.authResponse|, r);
        }
      }
    }
  }

  lemma NoLengthNoAuth(d: seq<byte>, p: nat, flags: u32)
    requires p <= |d| && !Has(flags, PLUGIN_AUTH_LENENC) && !Has(flags, SECURE_CONNECTION)
    ensures DecodeAuth(d, p, flags) == Ok(([], p))
  {
  }

  /** With neither length flag the length byte is taken for the first optional field. */
  lemma DecodeWithoutLength(d: seq<byte>, p: nat, r: HandshakeResponse41)
    requires p < |d| && d[p..] == [|r.authResponse| % 256] + r.authResponse + OptionalFields(r)
    ensures ([], DecodeOptional(d, p, r.capabilityFlags).0, DecodeOptional(d, p, r.capabilityFlags).1)
            == (r.authResponse, Normalised(r).database, Normalised(r).authPlugin)
            <==>
            r.authResponse == [] && !Has(r.capabilityFlags, PLUGIN_AUTH)
            && (Has(r.capabilityFlags, CONNECT_WITH_DB) ==> r.database == [])
  {
    if r.authResponse == [] {
      assert d[p] == d[p..][0] == 0;
      assert UpToNul(d[p..]) == [];
      if p + 1 < |d| && Has(r.capabilityFlags, CONNECT_WITH_DB) && r.database == [] {
        assert d[p + 1] == d[p..][1] == OptionalFields(r)[0] == 0;
        assert UpToNul(d[p + 1..]) == [];
      }
    }
  }
}
