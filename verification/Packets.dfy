/** Builders of the packets of a text result set, and why a row is never taken for its end. */
module Packets {
  import opened Codec

  const OK_PACKET: byte := 0x00
  const ERR_PACKET: byte := 0xFF
  const EOF_PACKET: byte := 0xFE
  const NULL_VALUE: byte := 0xFB

  predicate Sized(s: seq<byte>) { |s| < 0x1_0000_0000_0000_0000 }

  predicate IsEof(payload: seq<byte>) {
    payload != [] && payload[0] == 0xFE && |payload| < 9
  }

  function MakeEof(warnings: u16, status: u16): seq<byte> {
    [EOF_PACKET] + U16(warnings) + U16(status)
  }

  function MakeColumnCount(count: u64): seq<byte> { LenencInt(count) }

  /** "def", the catalog every column definition names first. */
  const DEF: seq<byte> := [0x64, 0x65, 0x66]

  function MakeColumnDef(name: seq<byte>, colType: byte, length: u32, flags: u16, charset: byte): seq<byte>
    requires Sized(name)
  {
    LenencStr(DEF) + LenencStr([]) + LenencStr([]) + LenencStr([]) + LenencStr(name) + LenencStr([])
    + [0x0C, charset, 0x00] + U32(length) + [colType] + U16(flags) + [0x00] + U16(0)
  }

  /** An empty string is sent as NULL. */
  function TextValue(v: seq<byte>): (r: seq<byte>)
    requires Sized(v)
    ensures |r| >= 1
  {
    if v == [] then [NULL_VALUE] else LenencStr(v)
  }

  function TextRow(values: seq<seq<byte>>): seq<byte>
    requires forall v :: v in values ==> Sized(v)
  {
    if values == [] then [] else TextValue(values[0]) + TextRow(values[1..])
  }

  method MakeTextRow(values: seq<seq<byte>>) returns (buf: seq<byte>)
    requires forall v :: v in values ==> Sized(v)
    ensures buf == TextRow(values)
  {
    hide LenencStr;
    buf := [];
    assert values[0..] == values;
    for i := 0 to |values|
      invariant buf + TextRow(values[i..]) == TextRow(values)
    {
      assert values[i..][1..] == values[i + 1..];
      assert buf + (TextValue(values[i]) + TextRow(values[i + 1..])) == buf + TextValue(values[i]) + TextRow(values[i + 1..]);
      if values[i] == [] {
        buf := buf + [NULL_VALUE];
      } else {
        buf := buf + LenencStr(values[i]);
      }
    }
  }

  // ---- Reading a row back ----

  function ReadTextRow(d: seq<byte>): seq<seq<byte>>
    decreases |d|
  {
    if d == [] then []
    else if d[0] == NULL_VALUE then [[]] + ReadTextRow(d[1..])
    else
      var (v, at) := ReadLenencStr(d, 0);
      if at == 0 then [] else [v] + ReadTextRow(d[at..])
  }

  lemma ReadTextValue(v: seq<byte>, rest: seq<byte>)
    requires Sized(v)
    ensures ReadTextRow(TextValue(v) + rest) == [v] + ReadTextRow(rest)
  {
    var d := TextValue(v) + rest;
    if v == [] {
      assert d[1..] == rest;
    } else {
      assert At(d, 0, LenencStr(v));
      LenencStrRoundTrip(d, 0, v);
      FirstByte(|v|);
      assert d[0] == LenencInt(|v|)[0];
      assert d[|LenencStr(v)|..] == rest;
    }
  }

  /** The first byte of a length: never NULL or ERR; 0xFE only in front of eight more bytes. */
  lemma FirstByte(v: u64)
    ensures var b := LenencInt(v)[0];
            b != NULL_VALUE && b != ERR_PACKET && (b == 0xFE <==> v >= 16777216) && (b == 0 <==> v == 0)
  {
  }

  lemma {:induction false} TextRowRoundTrip(values: seq<seq<byte>>)
    requires forall v :: v in values ==> Sized(v)
    ensures ReadTextRow(TextRow(values)) == values
  {
    if values != [] {
      ReadTextValue(values[0], TextRow(values[1..]));
      TextRowRoundTrip(values[1..]);
    }
  }

  /** Different lists of strings have different rows. */
  lemma TextRowInjective(a: seq<seq<byte>>, b: seq<seq<byte>>)
    requires forall v :: v in a ==> Sized(v)
    requires forall v :: v in b ==> Sized(v)
    requires TextRow(a) == TextRow(b)
    ensures a == b
  {
    TextRowRoundTrip(a);
    TextRowRoundTrip(b);
  }

  /** No row looks like the packet that ends the rows, nor like an error. */
  lemma TextRowIsNeverTerminator(values: seq<seq<byte>>)
    requires forall v :: v in values ==> Sized(v)
    ensures var row := TextRow(values);
            !IsEof(row) && (row != [] ==> row[0] != ERR_PACKET)
  {
    if values != [] && values[0] != [] {
      assert values[0] in values;
      FirstByte(|values[0]|);
    }
  }
}
