/** What the typed vertex writers of a mesh put into the vertex buffer. A float
    is handled as the 32-bit pattern of the single-precision value (the
    double-to-float conversion is outside the model) and is stored in the
    host's byte order, taken to be little-endian. */
module VertexEncoding {
  import opened Layout

  /** Little-endian byte image of a 32-bit float pattern. */
  function FloatBytes(f: bv32): (b: seq<bv8>)
    ensures |b| == 4
  {
    [(f & 0xFF) as bv8, ((f >> 8) & 0xFF) as bv8, ((f >> 16) & 0xFF) as bv8, (f >> 24) as bv8]
  }

  /** Reads a 32-bit pattern back from its little-endian bytes. */
  function FloatFromBytes(b: seq<bv8>): bv32
    requires |b| == 4
  {
    (b[0] as bv32) | (b[1] as bv32 << 8) | (b[2] as bv32 << 16) | (b[3] as bv32 << 24)
  }

  /** Storing a float loses nothing: its bytes read back as the same pattern. */
  lemma FloatBytesRoundTrip(f: bv32)
    ensures FloatFromBytes(FloatBytes(f)) == f
  {
  }

  /** And every 4-byte group is the image of exactly one pattern. */
  lemma BytesFloatRoundTrip(b: seq<bv8>)
    requires |b| == 4
    ensures FloatBytes(FloatFromBytes(b)) == b
  {
  }

  /** Java's (byte) cast of an int, given as its 32-bit two's-complement
      pattern: the low 8 bits, the higher ones dropped. */
  function LowByte(v: bv32): (b: bv8)
    ensures b as bv32 == v & 0xFF
    ensures b as bv32 == v <==> v < 256
  {
    (v & 0xFF) as bv8
  }

  /** One call of a typed vertex writer, with its arguments. */
  datatype VertexWrite =
    | PutUByte(v: bv32)
    | PutFloat(x: bv32)
    | PutVec2(x: bv32, y: bv32)
    | PutVec3(x: bv32, y: bv32, z: bv32)
    | PutVec4(x: bv32, y: bv32, z: bv32, w: bv32)
    | PutColor(r: bv32, g: bv32, b: bv32, a: bv32)

  /** The attribute kind a write fills; a colour is a 4-component float vector. */
  function Kind(w: VertexWrite): Attrib
  {
    match w
    case PutUByte(_) => UByte
    case PutFloat(_) => Float
    case PutVec2(_, _) => Vec2
    case PutVec3(_, _, _) => Vec3
    case PutVec4(_, _, _, _) => Vec4
    case PutColor(_, _, _, _) => Vec4
  }

  /** The bytes one write stores at the cursor, components in argument order. */
  function Bytes(w: VertexWrite): (b: seq<bv8>)
    ensures |b| == Size(Kind(w))
  {
    match w
    case PutUByte(v) => [LowByte(v)]
    case PutFloat(x) => FloatBytes(x)
    case PutVec2(x, y) => FloatBytes(x) + FloatBytes(y)
    case PutVec3(x, y, z) => FloatBytes(x) + FloatBytes(y) + FloatBytes(z)
    case PutVec4(x, y, z, w) => FloatBytes(x) + FloatBytes(y) + FloatBytes(z) + FloatBytes(w)
    case PutColor(r, g, b, a) => FloatBytes(r) + FloatBytes(g) + FloatBytes(b) + FloatBytes(a)
  }

  /** The vertex bytes a sequence of writes leaves behind, in write order. */
  function Encode(ws: seq<VertexWrite>): seq<bv8>
  {
    if ws == [] then [] else Encode(ws[..|ws| - 1]) + Bytes(ws[|ws| - 1])
  }

  /** One more write appends its bytes and leaves the earlier ones alone. */
  lemma EncodeSnoc(ws: seq<VertexWrite>, w: VertexWrite)
    ensures Encode(ws + [w]) == Encode(ws) + Bytes(w)
  {
    assert (ws + [w])[..|ws|] == ws;
  }

  /** Sum of the widths of a sequence of writes. */
  function WidthSum(ws: seq<VertexWrite>): nat
  {
    if ws == [] then 0 else WidthSum(ws[..|ws| - 1]) + Size(Kind(ws[|ws| - 1]))
  }

  /** The encoded length is the sum of the widths written. */
  lemma {:induction false} EncodeLength(ws: seq<VertexWrite>)
    ensures |Encode(ws)| == WidthSum(ws)
  {
    if ws != [] {
      EncodeLength(ws[..|ws| - 1]);
    }
  }

  lemma {:induction false} WidthSumAppend(a: seq<VertexWrite>, b: seq<VertexWrite>)
    ensures WidthSum(a + b) == WidthSum(a) + WidthSum(b)
    decreases |b|
  {
    if b == [] {
      assert a + b == a;
    } else {
      var n := |b| - 1;
      assert (a + b)[..|a + b| - 1] == a + b[..n];
      WidthSumAppend(a, b[..n]);
    }
  }

  /** A vertex record written attribute by attribute in the declared order. */
  ghost predicate Matches(rec: seq<VertexWrite>, attrs: seq<Attrib>)
  {
    |rec| == |attrs| && forall i :: 0 <= i < |rec| ==> Kind(rec[i]) == attrs[i]
  }

  /** The writes are n whole vertex records, each matching the layout. */
  ghost predicate FollowsLayout(ws: seq<VertexWrite>, attrs: seq<Attrib>, n: nat)
    decreases n
  {
    if n == 0 then ws == []
    else
      |ws| >= |attrs|
      && Matches(ws[|ws| - |attrs|..], attrs)
      && FollowsLayout(ws[..|ws| - |attrs|], attrs, n - 1)
  }

  /** A record that matches the layout is exactly one stride wide. */
  lemma {:induction false} RecordWidth(rec: seq<VertexWrite>, attrs: seq<Attrib>)
    requires Matches(rec, attrs)
    ensures WidthSum(rec) == Stride(attrs)
    decreases |rec|
  {
    if rec != [] {
      var n := |rec| - 1;
      assert Matches(rec[..n], attrs[..n]);
      RecordWidth(rec[..n], attrs[..n]);
    }
  }

  /** n vertices written as the layout declares occupy exactly n * stride
      bytes, so that is what the mesh uploads for them. */
  lemma {:induction false} LayoutBytes(ws: seq<VertexWrite>, attrs: seq<Attrib>, n: nat)
    requires FollowsLayout(ws, attrs, n)
    ensures |Encode(ws)| == n * Stride(attrs)
  {
    EncodeLength(ws);
    LayoutWidth(ws, attrs, n);
  }

  lemma {:induction false} LayoutWidth(ws: seq<VertexWrite>, attrs: seq<Attrib>, n: nat)
    requires FollowsLayout(ws, attrs, n)
    ensures WidthSum(ws) == n * Stride(attrs)
    decreases n
  {
    if n > 0 {
      var k := |ws| - |attrs|;
      LayoutWidth(ws[..k], attrs, n - 1);
      RecordWidth(ws[k..], attrs);
      assert ws[..k] + ws[k..] == ws;
      WidthSumAppend(ws[..k], ws[k..]);
      assert n * Stride(attrs) == (n - 1) * Stride(attrs) + Stride(attrs);
    }
  }
}
