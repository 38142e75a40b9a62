/**
 * The part of java.io.DataOutputStream that the patient encoder uses: a
 * byte buffer that writeInt, writeByte, writeBoolean, writeUTF and write
 * append to, with the byte formats of the java.io.DataOutput contract, and
 * the matching readers of java.io.DataInput that undo them.
 */
module DataOutput {
  import opened Wrappers

  /** An octet of the output. */
  type byte = x: int | 0 <= x < 0x100

  const MinInt: int := -0x8000_0000
  const MaxInt: int := 0x7FFF_FFFF

  /** A Java int. */
  type Int32 = x: int | MinInt <= x <= MaxInt

  /** writeInt: the 32-bit two's complement value, high byte first. */
  function Int32BE(v: Int32): (r: seq<byte>)
    ensures |r| == 4
  {
    var u := v % 0x1_0000_0000;
    [(u / 0x100_0000), (u / 0x1_0000 % 0x100), (u / 0x100 % 0x100), (u % 0x100)]
  }

  /** readInt: four bytes, high byte first, read as a two's complement value. */
  function ReadInt32(b: seq<byte>): int
    requires |b| == 4
  {
    var u := b[0] as int * 0x100_0000 + b[1] as int * 0x1_0000 + b[2] as int * 0x100 + b[3] as int;
    if u >= 0x8000_0000 then u - 0x1_0000_0000 else u
  }

  /** writeInt loses nothing: readInt gives the value back. */
  lemma ReadInt32BE(v: Int32)
    ensures ReadInt32(Int32BE(v)) == v
  {
    var u := v % 0x1_0000_0000;
    var b := Int32BE(v);
    assert b[0] == u / 0x100_0000;
    assert b[1] == u / 0x1_0000 % 0x100;
    assert b[2] == u / 0x100 % 0x100;
    assert b[3] == u % 0x100;
    assert u / 0x1_0000 == (u / 0x100_0000) * 0x100 + u / 0x1_0000 % 0x100;
    assert u / 0x100 == (u / 0x1_0000) * 0x100 + u / 0x100 % 0x100;
    assert u == (u / 0x100) * 0x100 + u % 0x100;
    assert v >= 0 ==> u == v;
    assert v < 0 ==> u == v + 0x1_0000_0000;
  }

  /** The unsigned 16-bit length prefix of writeUTF, high byte first. */
  function Uint16BE(n: nat): (r: seq<byte>)
    requires n < 0x1_0000
    ensures |r| == 2
  {
    [(n / 0x100), (n % 0x100)]
  }

  function ReadUint16(b: seq<byte>): nat
    requires |b| == 2
  {
    b[0] as int * 0x100 + b[1] as int
  }

  lemma ReadUint16BE(n: nat)
    requires n < 0x1_0000
    ensures ReadUint16(Uint16BE(n)) == n
  {
  }

  // ---------------------------------------------------------------------
  // Modified UTF-8

  predicate IsUnit(u: int) {
    0 <= u < 0x1_0000
  }

  /** The UTF-16 code units of a character: one unit, or a surrogate pair above U+FFFF. */
  function Utf16(c: char): (r: seq<int>)
    ensures forall u :: u in r ==> IsUnit(u)
  {
    var n := c as int;
    if n < 0x1_0000 then [n]
    else [0xD800 + (n - 0x1_0000) / 0x400, 0xDC00 + (n - 0x1_0000) % 0x400]
  }

  /**
   * The bytes of one UTF-16 unit: one byte for U+0001 to U+007F, two for
   * U+0000 and up to U+07FF, three above. No byte is ever zero.
   */
  function UnitBytes(u: int): (r: seq<byte>)
    requires IsUnit(u)
    ensures 1 <= |r| <= 3
    ensures forall b :: b in r ==> b != 0
  {
    if 1 <= u <= 0x7F then [u]
    else if u <= 0x7FF then [(0xC0 + u / 0x40), (0x80 + u % 0x40)]
    else [(0xE0 + u / 0x1000), (0x80 + u / 0x40 % 0x40), (0x80 + u % 0x40)]
  }

  function UnitsBytes(us: seq<int>): (r: seq<byte>)
    requires forall u :: u in us ==> IsUnit(u)
    ensures forall b :: b in r ==> b != 0
  {
    if us == [] then [] else UnitBytes(us[0]) + UnitsBytes(us[1..])
  }

  /** The modified UTF-8 text that writeUTF puts after its length prefix. */
  function ModifiedUtf8(s: string): (r: seq<byte>)
    ensures forall b :: b in r ==> b != 0
    ensures |r| >= |s|
  {
    if s == [] then [] else UnitsBytes(Utf16(s[0])) + ModifiedUtf8(s[1..])
  }

  /** Reads UTF-16 units back from modified UTF-8, by the form of each leading byte. */
  function DecodeUnits(b: seq<byte>): seq<int> {
    if b == [] then []
    else if b[0] < 0x80 then [b[0] as int] + DecodeUnits(b[1..])
    else if b[0] < 0xE0 && |b| >= 2 then [(b[0] as int - 0xC0) * 0x40 + (b[1] as int - 0x80)] + DecodeUnits(b[2..])
    else if |b| >= 3 then
      [(b[0] as int - 0xE0) * 0x1000 + (b[1] as int - 0x80) * 0x40 + (b[2] as int - 0x80)] + DecodeUnits(b[3..])
    else []
  }

  /** Joins UTF-16 units into characters, a surrogate pair into one character. */
  function CombineUnits(us: seq<int>): string {
    if us == [] then ""
    else if |us| >= 2 && 0xD800 <= us[0] < 0xDC00 && 0xDC00 <= us[1] < 0xE000 then
      [(0x1_0000 + (us[0] - 0xD800) * 0x400 + (us[1] - 0xDC00)) as char] + CombineUnits(us[2..])
    else if 0 <= us[0] < 0xD800 || 0xE000 <= us[0] < 0x1_0000 then [us[0] as char] + CombineUnits(us[1..])
    else ""
  }

  /** readUTF's decoding of the bytes after the length prefix. */
  function ReadModifiedUtf8(b: seq<byte>): string {
    CombineUnits(DecodeUnits(b))
  }

  lemma DecodeUnitBytes(u: int, rest: seq<byte>)
    requires IsUnit(u)
    ensures DecodeUnits(UnitBytes(u) + rest) == [u] + DecodeUnits(rest)
  {
    var b := UnitBytes(u) + rest;
    if 1 <= u <= 0x7F {
      assert b[1..] == rest;
    } else if u <= 0x7FF {
      assert b[0] == 0xC0 + u / 0x40 && b[1] == 0x80 + u % 0x40;
      assert b[2..] == rest;
    } else {
      assert b[0] == 0xE0 + u / 0x1000;
      assert b[1] == 0x80 + u / 0x40 % 0x40;
      assert b[2] == 0x80 + u % 0x40;
      assert u / 0x40 == (u / 0x1000) * 0x40 + u / 0x40 % 0x40;
      assert b[3..] == rest;
    }
  }

  lemma {:induction false} DecodeUnitsBytes(us: seq<int>, rest: seq<byte>)
    requires forall u :: u in us ==> IsUnit(u)
    ensures DecodeUnits(UnitsBytes(us) + rest) == us + DecodeUnits(rest)
  {
    if us != [] {
      assert forall u :: u in us[1..] ==> u in us;
      calc {
        DecodeUnits(UnitsBytes(us) + rest);
        { assert UnitsBytes(us) + rest == UnitBytes(us[0]) + (UnitsBytes(us[1..]) + rest); }
        DecodeUnits(UnitBytes(us[0]) + (UnitsBytes(us[1..]) + rest));
        { DecodeUnitBytes(us[0], UnitsBytes(us[1..]) + rest); }
        [us[0]] + DecodeUnits(UnitsBytes(us[1..]) + rest);
        { DecodeUnitsBytes(us[1..], rest); }
        [us[0]] + (us[1..] + DecodeUnits(rest));
        { assert us == [us[0]] + us[1..]; }
        us + DecodeUnits(rest);
      }
    } else {
      assert UnitsBytes(us) + rest == rest;
    }
  }

  lemma CombineUtf16(c: char, rest: seq<int>)
    ensures CombineUnits(Utf16(c) + rest) == [c] + CombineUnits(rest)
  {
    var us := Utf16(c) + rest;
    var n := c as int;
    if n < 0x1_0000 {
      assert us[0] == n && us[1..] == rest;
    } else {
      var hi := 0xD800 + (n - 0x1_0000) / 0x400;
      var lo := 0xDC00 + (n - 0x1_0000) % 0x400;
      assert us[0] == hi && us[1] == lo && us[2..] == rest;
      assert 0x1_0000 + (hi - 0xD800) * 0x400 + (lo - 0xDC00) == n;
    }
  }

  /** The units of a whole string, in order. */
  function Utf16String(s: string): (r: seq<int>)
    ensures forall u :: u in r ==> IsUnit(u)
  {
    if s == [] then [] else Utf16(s[0]) + Utf16String(s[1..])
  }

  lemma {:induction false} ModifiedUtf8Units(s: string)
    ensures ModifiedUtf8(s) == UnitsBytes(Utf16String(s))
  {
    if s != [] {
      ModifiedUtf8Units(s[1..]);
      UnitsBytesAppend(Utf16(s[0]), Utf16String(s[1..]));
    }
  }

  lemma {:induction false} UnitsBytesAppend(a: seq<int>, b: seq<int>)
    requires forall u :: u in a ==> IsUnit(u)
    requires forall u :: u in b ==> IsUnit(u)
    ensures UnitsBytes(a + b) == UnitsBytes(a) + UnitsBytes(b)
  {
    if a != [] {
      assert (a + b)[0] == a[0] && (a + b)[1..] == a[1..] + b;
      assert forall u :: u in a[1..] ==> u in a;
      UnitsBytesAppend(a[1..], b);
    } else {
      assert a + b == b;
    }
  }

  lemma {:induction false} CombineUtf16String(s: string)
    ensures CombineUnits(Utf16String(s)) == s
  {
    if s != [] {
      CombineUtf16(s[0], Utf16String(s[1..]));
      CombineUtf16String(s[1..]);
    }
  }

  /** readUTF undoes writeUTF's character encoding: every string is read back exactly. */
  lemma ReadModifiedUtf8Round(s: string)
    ensures ReadModifiedUtf8(ModifiedUtf8(s)) == s
  {
    ModifiedUtf8Units(s);
    DecodeUnitsBytes(Utf16String(s), []);
    assert UnitsBytes(Utf16String(s)) + [] == UnitsBytes(Utf16String(s));
    assert Utf16String(s) + DecodeUnits([]) == Utf16String(s);
    CombineUtf16String(s);
  }

  /**
   * What writeUTF writes: the encoded length as two bytes, then the
   * encoded text; None when the text needs more than 65535 bytes, in
   * which case writeUTF throws before writing anything.
   */
  function EncodedUtf(s: string): (r: Option<seq<byte>>)
  {
    var e := ModifiedUtf8(s);
    if |e| > 0xFFFF then None else Some(Uint16BE(|e|) + e)
  }

  /**
   * writeUTF succeeds exactly when the text fits the 16-bit prefix; then
   * the prefix gives the number of bytes that follow, those bytes hold no
   * zero, and they read back as the text.
   */
  lemma EncodedUtfLayout(s: string)
    ensures EncodedUtf(s).Some? <==> |ModifiedUtf8(s)| <= 0xFFFF
    ensures EncodedUtf(s).Some? ==>
              var b := EncodedUtf(s).value;
              && |b| >= 2
              && ReadUint16(b[..2]) == |b| - 2
              && (forall i :: 2 <= i < |b| ==> b[i] != 0)
              && ReadModifiedUtf8(b[2..]) == s
  {
    var e := ModifiedUtf8(s);
    if |e| <= 0xFFFF {
      var b := Uint16BE(|e|) + e;
      assert b[..2] == Uint16BE(|e|) && b[2..] == e;
      ReadUint16BE(|e|);
      forall i | 2 <= i < |b| ensures b[i] != 0 {
        assert b[i] == e[i - 2];
        assert e[i - 2] in e;
      }
      ReadModifiedUtf8Round(s);
    }
  }

  // ---------------------------------------------------------------------
  // The stream

  /** An in-memory DataOutputStream: the bytes written so far. */
  class DataOutputStream {
    var written: seq<byte>

    constructor()
      ensures written == []
    {
      written := [];
    }

    method WriteInt(v: Int32)
      modifies this
      ensures written == old(written) + Int32BE(v)
    {
      written := written + Int32BE(v);
    }

    /** writeByte keeps the low eight bits of its argument. */
    method WriteByte(v: Int32)
      modifies this
      ensures written == old(written) + [(v % 0x100)]
    {
      written := written + [(v % 0x100)];
    }

    method WriteBoolean(b: bool)
      modifies this
      ensures written == old(written) + [if b then 1 else 0]
    {
      written := written + [if b then 1 else 0];
    }

    /** write(byte[]): the bytes as they are. */
    method Write(bytes: seq<byte>)
      modifies this
      ensures written == old(written) + bytes
    {
      written := written + bytes;
    }

    /**
     * writeUTF: false when the text needs more than 65535 bytes (the
     * UTFDataFormatException), and then nothing is written.
     */
    method WriteUtf(s: string) returns (ok: bool)
      modifies this
      ensures ok <==> EncodedUtf(s).Some?
      ensures ok ==> written == old(written) + EncodedUtf(s).value
      ensures !ok ==> written == old(written)
    {
      var e := ModifiedUtf8(s);
      if |e| > 0xFFFF {
        ok := false;
      } else {
        written := written + Uint16BE(|e|) + e;
        ok := true;
      }
    }
  }
}
