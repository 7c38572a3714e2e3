/*
  Byte-level layout of a map file (game/mf/inc/MapFile.h and
  game/src/mf/MapFile.cpp): little-endian 16- and 32-bit integers, 32-bit
  float bit patterns, length-prefixed strings, four-character chunk
  signatures and the eight-byte chunk header.  Every writer here has a
  reader that takes its output back.
*/
module MapCodec {
  import opened Wrappers

  newtype byte = b: int | 0 <= b < 256
  type Bytes = seq<byte>

  /** The source's 32-bit `int` and `uint32_t`. */
  newtype int32 = x: int | -0x8000_0000 <= x < 0x8000_0000
  newtype uint32 = x: int | 0 <= x < 0x1_0000_0000

  const TWO16: int := 0x1_0000
  const TWO31: int := 0x8000_0000
  const TWO32: int := 0x1_0000_0000

  /** Ways reading a map file fails (the exceptions the source throws). */
  datatype Error =
    | UnexpectedEof     // "unexpected end of file"
    | InvalidFile       // "invalid file"
    | InvalidClass      // "invalid class"
    | UnknownDataType   // "Unknown data type"
    | LengthError       // std::vector::resize given a negative count
    | BadVariantAccess  // std::get with the wrong alternative

  // ---- fixed-width integers ------------------------------------------------

  function Pow256(n: nat): (p: nat)
    ensures p > 0
  {
    if n == 0 then 1 else 256 * Pow256(n - 1)
  }

  lemma {:induction false} Pow256Values()
    ensures Pow256(2) == TWO16 && Pow256(4) == TWO32
  {
    assert Pow256(1) == 256;
    assert Pow256(3) == 0x100_0000;
  }

  /** The low `n` bytes of `v`, least significant first.  The first byte is
      split off in a second definition, so that a proof sees the division
      only when it asks for it. */
  function LittleEndian(v: nat, n: nat): (b: Bytes)
    ensures |b| == n
    decreases n, 1
  {
    if n == 0 then [] else LowByteFirst(v, n)
  }

  function LowByteFirst(v: nat, n: nat): (b: Bytes)
    requires n > 0
    ensures |b| == n
    decreases n, 0
  {
    [(v % 256) as byte] + LittleEndian(v / 256, n - 1)
  }

  /** The number whose little-endian bytes are `b`. */
  function FromLittleEndian(b: Bytes): (v: nat)
    ensures v < Pow256(|b|)
  {
    if |b| == 0 then 0 else b[0] as nat + 256 * FromLittleEndian(b[1..])
  }

  lemma {:induction false} LittleEndianRoundTrip(v: nat, n: nat)
    requires v < Pow256(n)
    ensures FromLittleEndian(LittleEndian(v, n)) == v
  {
    if n > 0 {
      LittleEndianRoundTrip(v / 256, n - 1);
      assert LittleEndian(v, n) == LowByteFirst(v, n);
      assert LittleEndian(v, n)[1..] == LittleEndian(v / 256, n - 1);
    }
  }

  /** Four bytes as a number, spelled out. */
  lemma {:induction false} FromLittleEndianFour(b: Bytes)
    requires |b| == 4
    ensures FromLittleEndian(b) == b[0] as int + 256 * b[1] as int + TWO16 * b[2] as int + 0x100_0000 * b[3] as int
  {
    assert b[3..][1..] == b[4..] && b[2..][1..] == b[3..] && b[1..][1..] == b[2..];
    assert FromLittleEndian(b[3..]) == b[3] as int;
    assert FromLittleEndian(b[2..]) == b[2] as int + 256 * b[3] as int;
    assert FromLittleEndian(b[1..]) == b[1] as int + 256 * b[2] as int + TWO16 * b[3] as int;
  }

  /** Two bytes as a number, spelled out. */
  lemma {:induction false} FromLittleEndianTwo(b: Bytes)
    requires |b| == 2
    ensures FromLittleEndian(b) == b[0] as int + 256 * b[1] as int
  {
    assert FromLittleEndian(b[2..]) == 0;
    assert b[1..][1..] == b[2..];
  }

  function U16(v: nat): (b: Bytes)
    requires v < TWO16
    ensures |b| == 2
  {
    LittleEndian(v, 2)
  }

  function DecodeU16(b: Bytes): (v: nat)
    requires |b| == 2
    ensures v < TWO16
  {
    Pow256Values();
    FromLittleEndian(b)
  }

  lemma {:induction false} U16RoundTrip(v: nat)
    requires v < TWO16
    ensures DecodeU16(U16(v)) == v
  {
    Pow256Values();
    LittleEndianRoundTrip(v, 2);
  }

  function U32(v: uint32): (b: Bytes)
    ensures |b| == 4
  {
    LittleEndian(v as nat, 4)
  }

  function DecodeU32(b: Bytes): (v: uint32)
    requires |b| == 4
  {
    Pow256Values();
    FromLittleEndian(b) as uint32
  }

  lemma {:induction false} U32RoundTrip(v: uint32)
    ensures DecodeU32(U32(v)) == v
  {
    Pow256Values();
    LittleEndianRoundTrip(v as nat, 4);
  }

  /** A 32-bit pattern read as a two's-complement `int`. */
  function AsInt32(u: uint32): int32
  {
    if u as int >= TWO31 then (u as int - TWO32) as int32 else u as int as int32
  }

  /** An `int` as WriteInt stores it: its two's-complement bits, little-endian. */
  function I32(v: int32): (b: Bytes)
    ensures |b| == 4
  {
    U32((if v < 0 then v as int + TWO32 else v as int) as uint32)
  }

  function DecodeI32(b: Bytes): int32
    requires |b| == 4
  {
    AsInt32(DecodeU32(b))
  }

  lemma {:induction false} I32RoundTrip(v: int32)
    ensures DecodeI32(I32(v)) == v
  {
    U32RoundTrip((if v < 0 then v as int + TWO32 else v as int) as uint32);
  }

  /** The C++ conversion of a count to `int`: the low 32 bits, two's complement. */
  function ToInt32(n: int): (v: int32)
    ensures -TWO31 <= n < TWO31 ==> v as int == n
  {
    var m := n % TWO32;
    if m >= TWO31 then (m - TWO32) as int32 else m as int32
  }

  /** The C++ conversion of a size to `uint32_t`: the low 32 bits. */
  function ToUint32(n: int): (v: uint32)
    ensures 0 <= n < TWO32 ==> v as int == n
  {
    (n % TWO32) as uint32
  }

  /** A float as WriteFloat stores it: its 32-bit pattern, little-endian.
      Floats are carried as their bit patterns throughout. */
  function F32(bits: uint32): (b: Bytes)
    ensures |b| == 4
  {
    U32(bits)
  }

  // ---- reading at a position -------------------------------------------------

  // The readers take bytes by index rather than by slice: a slice of the
  // whole stream at every read makes the solver relate every pair of them.

  function ReadU16At(data: Bytes, pos: nat): Option<nat>
  {
    if pos + 2 <= |data| then Some(data[pos] as nat + 256 * data[pos + 1] as nat) else None
  }

  /** The little-endian 32-bit value of the four bytes at `pos`. */
  function U32At(data: Bytes, pos: nat): uint32
    requires pos + 4 <= |data|
  {
    (data[pos] as int + 256 * data[pos + 1] as int + TWO16 * data[pos + 2] as int + 0x100_0000 * data[pos + 3] as int) as uint32
  }

  lemma {:induction false} U32AtSlice(data: Bytes, pos: nat)
    requires pos + 4 <= |data|
    ensures U32At(data, pos) == DecodeU32(data[pos..pos + 4])
  {
    var b := data[pos..pos + 4];
    FromLittleEndianFour(b);
    assert b[0] == data[pos] && b[1] == data[pos + 1] && b[2] == data[pos + 2] && b[3] == data[pos + 3];
  }

  /** ReadInt: four bytes as a signed 32-bit integer, or "unexpected end of file". */
  function ReadInt(data: Bytes, pos: nat): (r: Result<(int32, nat), Error>)
    ensures r.Ok? ==> r.value.1 == pos + 4 <= |data|
    ensures r.Err? <==> pos + 4 > |data|
    ensures r.Err? ==> r.error == UnexpectedEof
  {
    if pos + 4 <= |data| then Ok((AsInt32(U32At(data, pos)), pos + 4)) else Err(UnexpectedEof)
  }

  /** ReadFloat: four bytes as a float bit pattern, or "unexpected end of file". */
  function ReadFloat(data: Bytes, pos: nat): (r: Result<(uint32, nat), Error>)
    ensures r.Ok? ==> r.value.1 == pos + 4 <= |data|
    ensures r.Err? <==> pos + 4 > |data|
  {
    if pos + 4 <= |data| then Ok((U32At(data, pos), pos + 4)) else Err(UnexpectedEof)
  }

  /** ReadString: a 16-bit length and that many bytes, or "unexpected end of file". */
  function ReadString(data: Bytes, pos: nat): (r: Result<(Bytes, nat), Error>)
    ensures r.Ok? ==> |r.value.0| < TWO16 && r.value.1 == pos + 2 + |r.value.0| <= |data|
    ensures r.Err? ==> r.error == UnexpectedEof
  {
    match ReadU16At(data, pos)
    case None => Err(UnexpectedEof)
    case Some(len) =>
      if pos + 2 + len <= |data| then Ok((data[pos + 2..pos + 2 + len], pos + 2 + len))
      else Err(UnexpectedEof)
  }

  /** The bytes of `s` that WriteString keeps: the length goes through a
      16-bit field, so a longer string loses all but its length modulo 65536. */
  function Cut(s: Bytes): (c: Bytes)
    ensures |c| < TWO16 && |c| == |s| % TWO16
    ensures |s| < TWO16 ==> c == s
  {
    s[..|s| % TWO16]
  }

  /** WriteString: a 16-bit length and that many bytes.  The source asserts
      the string is at most 0xFFFF bytes long; past that (in a build without
      assertions) it writes the cut length and the cut string. */
  function Str(s: Bytes): (b: Bytes)
    ensures |b| == 2 + |s| % TWO16
  {
    U16(|s| % TWO16) + Cut(s)
  }

  /** `x` lies in `data` starting at `pos`.  Stated byte by byte, and
      through three definitions, so that a proof holding such a fact sees
      only its length until it asks for more. */
  predicate At(data: Bytes, pos: nat, x: Bytes)
    decreases |x|, 2
  {
    pos + |x| <= |data| && AtBytes(data, pos, x)
  }

  predicate AtBytes(data: Bytes, pos: nat, x: Bytes)
    requires pos + |x| <= |data|
    decreases |x|, 1
  {
    |x| == 0 || AtFirst(data, pos, x)
  }

  predicate AtFirst(data: Bytes, pos: nat, x: Bytes)
    requires 0 < |x| && pos + |x| <= |data|
    decreases |x|, 0
  {
    data[pos] == x[0] && At(data, pos + 1, x[1..])
  }

  lemma {:induction false} AtSlice(data: Bytes, pos: nat, x: Bytes)
    ensures At(data, pos, x) <==> pos + |x| <= |data| && data[pos..pos + |x|] == x
    decreases |x|
  {
    if |x| > 0 && pos + |x| <= |data| {
      assert At(data, pos, x) <==> AtFirst(data, pos, x);
      AtSlice(data, pos + 1, x[1..]);
      assert data[pos..pos + |x|] == [data[pos]] + data[pos + 1..pos + |x|];
      assert x == [x[0]] + x[1..];
    }
  }

  /** Two pieces lie one after the other exactly when their concatenation does. */
  lemma {:induction false} AtConcat(data: Bytes, pos: nat, a: Bytes, b: Bytes)
    ensures At(data, pos, a + b) <==> At(data, pos, a) && At(data, pos + |a|, b)
  {
    AtSlice(data, pos, a + b);
    AtSlice(data, pos, a);
    AtSlice(data, pos + |a|, b);
    if At(data, pos, a) && At(data, pos + |a|, b) {
      assert data[pos..pos + |a + b|] == data[pos..pos + |a|] + data[pos + |a|..pos + |a| + |b|];
    }
    if At(data, pos, a + b) {
      assert data[pos..pos + |a|] == (a + b)[..|a|];
      assert data[pos + |a|..pos + |a| + |b|] == (a + b)[|a|..];
    }
  }

  /** Splitting a piece that lies at `pos` into two, the second at `p`. */
  lemma {:induction false} AtSplit(data: Bytes, pos: nat, a: Bytes, b: Bytes, p: nat)
    requires At(data, pos, a + b) && p == pos + |a|
    ensures At(data, pos, a) && At(data, p, b)
  {
    AtConcat(data, pos, a, b);
  }

  /** Splitting a piece that lies at `pos` into three, at `p1` and `p2`. */
  lemma {:induction false} AtThree(data: Bytes, pos: nat, a: Bytes, b: Bytes, c: Bytes, p1: nat, p2: nat)
    requires At(data, pos, a + b + c) && p1 == pos + |a| && p2 == p1 + |b|
    ensures At(data, pos, a) && At(data, p1, b) && At(data, p2, c)
  {
    AtConcat(data, pos, a + b, c);
    AtConcat(data, pos, a, b);
  }

  lemma {:induction false} AtWhole(a: Bytes, x: Bytes, b: Bytes)
    ensures At(a + x + b, |a|, x)
  {
    AtSlice(a + x + b, |a|, x);
    assert (a + x + b)[|a|..|a| + |x|] == x;
  }

  lemma {:induction false} ReadIntAt(data: Bytes, pos: nat, v: int32, end: nat)
    requires At(data, pos, I32(v)) && end == pos + 4
    ensures ReadInt(data, pos) == Ok((v, end))
  {
    I32RoundTrip(v);
    AtSlice(data, pos, I32(v));
    U32AtSlice(data, pos);
  }

  lemma {:induction false} ReadFloatAt(data: Bytes, pos: nat, bits: uint32, end: nat)
    requires At(data, pos, F32(bits)) && end == pos + 4
    ensures ReadFloat(data, pos) == Ok((bits, end))
  {
    U32RoundTrip(bits);
    AtSlice(data, pos, F32(bits));
    U32AtSlice(data, pos);
  }

  /** ReadString takes back what WriteString wrote, and stops right after it. */
  lemma {:induction false} ReadStringAt(data: Bytes, pos: nat, s: Bytes, end: nat)
    requires At(data, pos, Str(s)) && end == pos + |Str(s)|
    ensures ReadString(data, pos) == Ok((Cut(s), end))
  {
    var n := |s| % TWO16;
    AtConcat(data, pos, U16(n), Cut(s));
    AtSlice(data, pos, U16(n));
    AtSlice(data, pos + 2, Cut(s));
    U16RoundTrip(n);
    FromLittleEndianTwo(data[pos..pos + 2]);
    assert data[pos..pos + 2][0] == data[pos] && data[pos..pos + 2][1] == data[pos + 1];
  }

  // ---- chunk signatures and headers ------------------------------------------

  /** detail::MakeSignature: four characters packed little-endian into a
      32-bit tag, so that the tag read from a file is its four characters in order. */
  function MakeSignature(s: string): (tag: uint32)
    requires |s| == 4 && forall i :: 0 <= i < 4 ==> s[i] as int < 128
    ensures tag == DecodeU32([s[0] as int as byte, s[1] as int as byte, s[2] as int as byte, s[3] as int as byte])
  {
    FromLittleEndianFour([s[0] as int as byte, s[1] as int as byte, s[2] as int as byte, s[3] as int as byte]);
    (s[0] as int + 256 * s[1] as int + TWO16 * s[2] as int + 0x100_0000 * s[3] as int) as uint32
  }

  const CHUNK_HEADER_OPEN: uint32 := 0x7b72_6468
  const CHUNK_ATTRIB: uint32 := 0x7274_7461
  const CHUNK_HEADER_CLOSE: uint32 := 0x7264_687d
  const CHUNK_OBJDEF: uint32 := 0x3a6e_6664
  const CHUNK_OBJECT: uint32 := 0x3a6a_626f
  const CHUNK_TEXTURE: uint32 := 0x3a78_6574

  /** The six chunk tags are the signatures of "hdr{", "attr", "}hdr",
      "dfn:", "obj:" and "tex:". */
  lemma {:induction false} SignatureValues()
    ensures CHUNK_HEADER_OPEN == MakeSignature("hdr{") && CHUNK_ATTRIB == MakeSignature("attr")
    ensures CHUNK_HEADER_CLOSE == MakeSignature("}hdr") && CHUNK_OBJDEF == MakeSignature("dfn:")
    ensures CHUNK_OBJECT == MakeSignature("obj:") && CHUNK_TEXTURE == MakeSignature("tex:")
  {
  }

  const DATATYPE_INT: int32 := 1
  const DATATYPE_FLOAT: int32 := 2
  const DATATYPE_STRING: int32 := 3

  datatype ChunkHeader = ChunkHeader(chunkType: uint32, chunkSize: uint32)

  function EncodeChunkHeader(ch: ChunkHeader): (b: Bytes)
    ensures |b| == 8
  {
    U32(ch.chunkType) + U32(ch.chunkSize)
  }

  /** _read_chunk_header: eight bytes, or nothing at the end of the stream. */
  function ReadChunkHeader(data: Bytes, pos: nat): (r: Option<ChunkHeader>)
    ensures r.Some? <==> pos + 8 <= |data|
  {
    if pos + 8 <= |data| then Some(ChunkHeader(U32At(data, pos), U32At(data, pos + 4)))
    else None
  }

  lemma {:induction false} ReadChunkHeaderAt(data: Bytes, pos: nat, ch: ChunkHeader)
    requires At(data, pos, EncodeChunkHeader(ch))
    ensures ReadChunkHeader(data, pos) == Some(ch)
  {
    AtConcat(data, pos, U32(ch.chunkType), U32(ch.chunkSize));
    AtSlice(data, pos, U32(ch.chunkType));
    AtSlice(data, pos + 4, U32(ch.chunkSize));
    U32AtSlice(data, pos);
    U32AtSlice(data, pos + 4);
    U32RoundTrip(ch.chunkType);
    U32RoundTrip(ch.chunkSize);
  }
}
