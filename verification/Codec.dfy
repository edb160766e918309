/** Little-endian integers, length-encoded integers and strings, NUL-terminated strings. */
module Codec {
  type byte = b: int | 0 <= b < 256
  type u16 = v: int | 0 <= v < 0x1_0000
  type u24 = v: int | 0 <= v < 0x100_0000
  type u32 = v: int | 0 <= v < 0x1_0000_0000
  type u64 = v: int | 0 <= v < 0x1_0000_0000_0000_0000

  // ---- Fixed-width integers ----

  function U16(v: u16): (r: seq<byte>)
    ensures |r| == 2
  {
    [v % 256, v / 256]
  }

  function U24(v: u24): (r: seq<byte>)
    ensures |r| == 3
  {
    [v % 256, v / 256 % 256, v / 65536]
  }

  function U32(v: u32): (r: seq<byte>)
    ensures |r| == 4
  {
    [v % 256, v / 256 % 256, v / 65536 % 256, v / 16777216]
  }

  function ReadU16(d: seq<byte>, pos: nat): u16
    requires pos + 2 <= |d|
  {
    (d[pos] as int) + 256 * (d[pos + 1] as int)
  }

  function ReadU24(d: seq<byte>, pos: nat): u24
    requires pos + 3 <= |d|
  {
    (d[pos] as int) + 256 * (d[pos + 1] as int) + 65536 * (d[pos + 2] as int)
  }

  function ReadU32(d: seq<byte>, pos: nat): u32
    requires pos + 4 <= |d|
  {
    (d[pos] as int) + 256 * (d[pos + 1] as int) + 65536 * (d[pos + 2] as int) + 16777216 * (d[pos + 3] as int)
  }

  /** The low `n` bytes of `v`, least significant first. */
  function LittleEndian(v: nat, n: nat): (r: seq<byte>)
    ensures |r| == n
  {
    if n == 0 then [] else [v % 256] + LittleEndian(v / 256, n - 1)
  }

  function FromLittleEndian(d: seq<byte>): nat {
    if d == [] then 0 else d[0] + 256 * FromLittleEndian(d[1..])
  }

  function Pow256(n: nat): (r: nat)
    ensures r > 0
  {
    if n == 0 then 1 else 256 * Pow256(n - 1)
  }

  lemma {:induction false} LittleEndianRoundTrip(v: nat, n: nat)
    requires v < Pow256(n)
    ensures FromLittleEndian(LittleEndian(v, n)) == v
  {
    if n > 0 {
      LittleEndianRoundTrip(v / 256, n - 1);
      assert LittleEndian(v, n)[1..] == LittleEndian(v / 256, n - 1);
    }
  }

  lemma Pow256Of8()
    ensures Pow256(8) == 0x1_0000_0000_0000_0000
  {
    assert Pow256(4) == 0x1_0000_0000;
    assert Pow256(6) == 65536 * Pow256(4);
  }

  // ---- Length-encoded integers ----

  function LenencInt(v: u64): (r: seq<byte>)
    ensures 1 <= |r| <= 9
  {
    if v < 251 then [v]
    else if v < 65536 then [0xFC] + U16(v)
    else if v < 16777216 then [0xFD] + U24(v)
    else [0xFE] + LittleEndian(v, 8)
  }

  /** The value at `pos` and the position after it; a truncated integer reads as 0. */
  function ReadLenencInt(d: seq<byte>, pos: nat): (r: (nat, nat))
    requires pos <= |d|
    ensures pos <= r.1 <= |d|
  {
    if pos >= |d| then (0, pos)
    else if d[pos] < 0xFB then (d[pos], pos + 1)
    else if d[pos] == 0xFC then
      if pos + 3 > |d| then (0, pos + 1) else (ReadU16(d, pos + 1), pos + 3)
    else if d[pos] == 0xFD then
      if pos + 4 > |d| then (0, pos + 1) else (ReadU24(d, pos + 1), pos + 4)
    else
      if pos + 9 > |d| then (0, pos + 1) else (FromLittleEndian(d[pos + 1..pos + 9]), pos + 9)
  }

  /** `w` stands in `d` at `pos`. */
  predicate At(d: seq<byte>, pos: nat, w: seq<byte>) {
    pos + |w| <= |d| && d[pos..pos + |w|] == w
  }

  lemma AtIndex(d: seq<byte>, pos: nat, w: seq<byte>, i: nat)
    requires At(d, pos, w) && i < |w|
    ensures d[pos + i] == w[i]
  {
    assert d[pos..pos + |w|][i] == w[i];
  }

  lemma AtSplit(d: seq<byte>, pos: nat, a: seq<byte>, b: seq<byte>)
    requires At(d, pos, a + b)
    ensures At(d, pos, a) && At(d, pos + |a|, b)
  {
    assert d[pos..pos + |a|] == (a + b)[..|a|];
    assert d[pos + |a|..pos + |a| + |b|] == (a + b)[|a|..];
  }

  lemma U16RoundTrip(d: seq<byte>, pos: nat, v: u16)
    requires At(d, pos, U16(v))
    ensures ReadU16(d, pos) == v
  {
    AtIndex(d, pos, U16(v), 0);
    AtIndex(d, pos, U16(v), 1);
  }

  lemma U24RoundTrip(d: seq<byte>, pos: nat, v: u24)
    requires At(d, pos, U24(v))
    ensures ReadU24(d, pos) == v
  {
    AtIndex(d, pos, U24(v), 0);
    AtIndex(d, pos, U24(v), 1);
    AtIndex(d, pos, U24(v), 2);
  }

  lemma U32RoundTrip(d: seq<byte>, pos: nat, v: u32)
    requires At(d, pos, U32(v))
    ensures ReadU32(d, pos) == v
  {
    AtIndex(d, pos, U32(v), 0);
    AtIndex(d, pos, U32(v), 1);
    AtIndex(d, pos, U32(v), 2);
    AtIndex(d, pos, U32(v), 3);
    assert v / 65536 % 256 + 256 * (v / 16777216) == v / 65536;
    assert v / 256 % 256 + 256 * (v / 65536) == v / 256;
  }

  /** A written integer is read back, whatever stands before and after it. */
  lemma LenencIntRoundTrip(d: seq<byte>, pos: nat, v: u64)
    requires At(d, pos, LenencInt(v))
    ensures ReadLenencInt(d, pos) == (v, pos + |LenencInt(v)|)
  {
    AtIndex(d, pos, LenencInt(v), 0);
    hide U16, U24, ReadU16, ReadU24;
    if 251 <= v < 65536 {
      AtSplit(d, pos, [0xFC], U16(v));
      U16RoundTrip(d, pos + 1, v);
    } else if 65536 <= v < 16777216 {
      AtSplit(d, pos, [0xFD], U24(v));
      U24RoundTrip(d, pos + 1, v);
    } else if 16777216 <= v {
      AtSplit(d, pos, [0xFE], LittleEndian(v, 8));
      Pow256Of8();
      LittleEndianRoundTrip(v, 8);
    }
  }

  // ---- Length-encoded strings ----

  function LenencStr(s: seq<byte>): seq<byte>
    requires |s| < 0x1_0000_0000_0000_0000
  {
    LenencInt(|s|) + s
  }

  function ReadLenencStr(d: seq<byte>, pos: nat): (r: (seq<byte>, nat))
    requires pos <= |d|
    ensures pos <= r.1 <= |d|
  {
    var (len, at) := ReadLenencInt(d, pos);
    if at + len > |d| then ([], at) else (d[at..at + len], at + len)
  }

  lemma LenencStrRoundTrip(d: seq<byte>, pos: nat, s: seq<byte>)
    requires |s| < 0x1_0000_0000_0000_0000 && At(d, pos, LenencStr(s))
    ensures ReadLenencStr(d, pos) == (s, pos + |LenencStr(s)|)
  {
    AtSplit(d, pos, LenencInt(|s|), s);
    LenencIntRoundTrip(d, pos, |s|);
  }

  /** No code word of one string is a prefix of another's, so the code is uniquely readable. */
  lemma LenencStrPrefixFree(s: seq<byte>, t: seq<byte>)
    requires |s| < 0x1_0000_0000_0000_0000 && |t| < 0x1_0000_0000_0000_0000
    requires LenencStr(s) <= LenencStr(t)
    ensures s == t
  {
    LenencStrRoundTrip(LenencStr(t), 0, s);
    LenencStrRoundTrip(LenencStr(t), 0, t);
  }

  // ---- NUL-terminated strings ----

  predicate NulFree(s: seq<byte>) { 0 !in s }

  function NullStr(s: seq<byte>): seq<byte> { s + [0] }

  /** The bytes up to the next NUL or the end. */
  function UpToNul(d: seq<byte>): (r: seq<byte>)
    ensures r <= d && NulFree(r)
    ensures |r| < |d| ==> d[|r|] == 0
  {
    if d == [] || d[0] == 0 then [] else [d[0]] + UpToNul(d[1..])
  }

  /** The string at `pos` and the position after its NUL, or the end if there is none. */
  function ReadNullStr(d: seq<byte>, pos: nat): (r: (seq<byte>, nat))
    requires pos <= |d|
    ensures pos <= r.1 <= |d| && NulFree(r.0)
  {
    var s := UpToNul(d[pos..]);
    (s, if pos + |s| < |d| then pos + |s| + 1 else pos + |s|)
  }

  lemma {:induction false} UpToNulOfString(s: seq<byte>, rest: seq<byte>)
    requires NulFree(s)
    ensures UpToNul(s + [0] + rest) == s
  {
    var d := s + [0] + rest;
    if s != [] {
      assert d[1..] == s[1..] + [0] + rest;
      UpToNulOfString(s[1..], rest);
    }
  }

  lemma NullStrRoundTrip(d: seq<byte>, pos: nat, s: seq<byte>)
    requires NulFree(s) && At(d, pos, NullStr(s))
    ensures ReadNullStr(d, pos) == (s, pos + |s| + 1)
  {
    var rest := d[pos + |s| + 1..];
    assert d[pos..] == s + [0] + rest;
    UpToNulOfString(s, rest);
  }

  // ---- The loops of the writers and readers ----

  /** The eight-byte branch of write_lenenc_int pushes one byte after another. */
  method WriteEightBytes(buf: seq<byte>, v: u64) returns (out: seq<byte>)
    ensures out == buf + LittleEndian(v, 8)
  {
    out := buf;
    var rest: nat := v;
    for i := 0 to 8
      invariant out + LittleEndian(rest, 8 - i) == buf + LittleEndian(v, 8)
    {
      assert LittleEndian(rest, 8 - i) == [rest % 256] + LittleEndian(rest / 256, 7 - i);
      out := out + [rest % 256];
      rest := rest / 256;
    }
  }

  method WriteLenencInt(buf: seq<byte>, v: u64) returns (out: seq<byte>)
    ensures out == buf + LenencInt(v)
  {
    hide LittleEndian, U16, U24;
    if v < 251 {
      out := buf + [v];
    } else if v < 65536 {
      out := buf + [0xFC];
      out := out + U16(v);
    } else if v < 16777216 {
      out := buf + [0xFD];
      out := out + U24(v);
    } else {
      out := WriteEightBytes(buf + [0xFE], v);
    }
  }

  lemma {:induction false} FromLittleEndianAppend(d: seq<byte>, b: byte)
    ensures FromLittleEndian(d + [b]) == FromLittleEndian(d) + Pow256(|d|) * b
  {
    if d == [] {
      assert d + [b] == [b];
      assert FromLittleEndian([]) == 0;
    } else {
      assert (d + [b])[1..] == d[1..] + [b];
      FromLittleEndianAppend(d[1..], b);
      assert 256 * (Pow256(|d| - 1) * b) == Pow256(|d|) * b;
    }
  }

  /** read_lenenc_int, with the loop of its eight-byte branch. */
  method ReadLenencIntLoop(d: seq<byte>, start: nat) returns (v: nat, pos: nat)
    requires start <= |d|
    ensures (v, pos) == ReadLenencInt(d, start)
  {
    hide FromLittleEndian, Pow256;
    v, pos := 0, start;
    if pos >= |d| {
      return;
    }
    var first := d[pos];
    pos := pos + 1;
    if first < 0xFB {
      v := first;
    } else if first == 0xFC {
      if pos + 2 <= |d| {
        v, pos := ReadU16(d, pos), pos + 2;
      }
    } else if first == 0xFD {
      if pos + 3 <= |d| {
        v, pos := ReadU24(d, pos), pos + 3;
      }
    } else if pos + 8 <= |d| {
      var place := 1;
      EmptyLittleEndian();
      assert d[pos..pos] == [];
      for i := 0 to 8
        invariant pos == start + 1 + i
        invariant place == Pow256(i)
        invariant v == FromLittleEndian(d[start + 1..pos])
      {
        FromLittleEndianAppend(d[start + 1..pos], d[pos]);
        assert d[start + 1..pos] + [d[pos]] == d[start + 1..pos + 1];
        v, place, pos := v + place * d[pos], NextPower(i, place), pos + 1;
      }
    }
  }

  lemma EmptyLittleEndian()
    ensures FromLittleEndian([]) == 0 && Pow256(0) == 1
  {
  }

  function NextPower(i: nat, place: nat): (r: nat)
    requires place == Pow256(i)
    ensures r == Pow256(i + 1)
  {
    256 * place
  }

  lemma {:induction false} UpToNulStops(d: seq<byte>, k: nat)
    requires k <= |d| && NulFree(d[..k]) && (k == |d| || d[k] == 0)
    ensures UpToNul(d) == d[..k]
  {
    if k > 0 {
      assert d[0] in d[..k];
      assert d[1..][..k - 1] == d[..k][1..];
      UpToNulStops(d[1..], k - 1);
    }
  }

  method ReadNullStrLoop(d: seq<byte>, start: nat) returns (s: seq<byte>, pos: nat)
    requires start <= |d|
    ensures (s, pos) == ReadNullStr(d, start)
  {
    hide UpToNul;
    s, pos := [], start;
    while pos < |d| && d[pos] != 0
      invariant start <= pos <= |d|
      invariant s == d[start..pos] && NulFree(s)
    {
      s := s + [d[pos]];
      pos := pos + 1;
    }
    assert d[start..][..pos - start] == s;
    UpToNulStops(d[start..], pos - start);
    if pos < |d| {
      pos := pos + 1;
    }
  }
}
