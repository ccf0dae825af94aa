/** Vertex attribute layout of a mesh: the element types and attribute kinds
    a mesh is configured with, the byte size of each attribute, the stride of a
    vertex record and the offset of every attribute inside it. The two loops of
    the Mesh constructor (summing the stride, then declaring one attribute
    pointer per attribute at its running offset) are the methods at the end. */
module Layout {

  /** OpenGL element types and their sizes in bytes. */
  datatype GLType = GLByte | GLUByte | GLShort | GLUShort | GLInt | GLUInt | GLFloat | GLDouble

  function TypeSize(t: GLType): nat
  {
    match t
    case GLByte => 1
    case GLUByte => 1
    case GLShort => 2
    case GLUShort => 2
    case GLInt => 4
    case GLUInt => 4
    case GLFloat => 4
    case GLDouble => 8
  }

  /** The shader vertex attributes a mesh can be built from. */
  datatype Attrib = UByte | Float | Vec2 | Vec3 | Vec4

  /** Number of components of an attribute. */
  function Count(a: Attrib): nat
  {
    match a
    case UByte => 1
    case Float => 1
    case Vec2 => 2
    case Vec3 => 3
    case Vec4 => 4
  }

  /** Element type of an attribute's components. */
  function ElementType(a: Attrib): GLType
  {
    if a == UByte then GLUByte else GLFloat
  }

  /** Byte size of an attribute: component count times element size. */
  function Size(a: Attrib): nat
  {
    Count(a) * TypeSize(ElementType(a))
  }

  lemma AttribSizes()
    ensures Size(UByte) == 1 && Size(Float) == 4 && Size(Vec2) == 8
    ensures Size(Vec3) == 12 && Size(Vec4) == 16
  {
  }

  /** Byte size of one vertex record: the sum of its attributes' sizes. */
  function Stride(attrs: seq<Attrib>): nat
  {
    if attrs == [] then 0 else Stride(attrs[..|attrs| - 1]) + Size(attrs[|attrs| - 1])
  }

  /** Byte offset of attribute i inside a vertex record: the sizes of the
      attributes before it. Offset(attrs, |attrs|) is the stride. */
  function Offset(attrs: seq<Attrib>, i: nat): nat
    requires i <= |attrs|
  {
    Stride(attrs[..i])
  }

  /** The stride of a concatenated layout is the sum of the parts' strides. */
  lemma {:induction false} StrideAppend(a: seq<Attrib>, b: seq<Attrib>)
    ensures Stride(a + b) == Stride(a) + Stride(b)
    decreases |b|
  {
    if b == [] {
      assert a + b == a;
    } else {
      var n := |b| - 1;
      assert (a + b)[..|a + b| - 1] == a + b[..n];
      StrideAppend(a, b[..n]);
    }
  }

  /** Every attribute takes between 1 and 16 bytes, so the stride lies between
      |attrs| and 16 * |attrs|; in particular it is zero exactly for the empty
      layout. */
  lemma {:induction false} StrideBounds(attrs: seq<Attrib>)
    ensures |attrs| <= Stride(attrs) <= 16 * |attrs|
    ensures Stride(attrs) == 0 <==> attrs == []
  {
    if attrs != [] {
      StrideBounds(attrs[..|attrs| - 1]);
    }
  }

  /** Attribute i starts where attribute i - 1 ends, and lies inside the vertex
      record: the offsets tile the record from 0 to the stride. */
  lemma OffsetLayout(attrs: seq<Attrib>, i: nat)
    requires i < |attrs|
    ensures Offset(attrs, 0) == 0
    ensures Offset(attrs, i + 1) == Offset(attrs, i) + Size(attrs[i])
    ensures Offset(attrs, i) + Size(attrs[i]) <= Stride(attrs)
    ensures Offset(attrs, |attrs|) == Stride(attrs)
  {
    assert attrs[..0] == [];
    assert attrs[..|attrs|] == attrs;
    var head := attrs[..i + 1];
    assert head[..|head| - 1] == attrs[..i] && head[|head| - 1] == attrs[i];
    assert Stride(head) == Stride(attrs[..i]) + Size(attrs[i]);
    assert head + attrs[i + 1..] == attrs;
    StrideAppend(head, attrs[i + 1..]);
  }

  /** One glVertexAttribPointer declaration: shader location, component count,
      element type, normalisation flag, stride and byte offset. */
  datatype AttribPointer = AttribPointer(location: nat, count: nat, glType: GLType,
                                         normalized: bool, stride: nat, offset: nat)

  /** The pointer the mesh declares for attribute i of a layout. */
  function PointerFor(attrs: seq<Attrib>, i: nat): AttribPointer
    requires i < |attrs|
  {
    AttribPointer(i, Count(attrs[i]), ElementType(attrs[i]), false, Stride(attrs), Offset(attrs, i))
  }

  /** The stride loop of the constructor. */
  method ComputeStride(attributes: seq<Attrib>) returns (stride: nat)
    ensures stride == Stride(attributes)
  {
    stride := 0;
    for i := 0 to |attributes|
      invariant stride == Stride(attributes[..i])
    {
      assert attributes[..i + 1][..i] == attributes[..i];
      stride := stride + Size(attributes[i]);
    }
    assert attributes[..|attributes|] == attributes;
  }

  /** The attribute-pointer loop of the constructor: location i gets attribute
      i's component count and type, the common stride, and the running offset. */
  method AttribPointers(attributes: seq<Attrib>, stride: nat) returns (pointers: seq<AttribPointer>)
    requires stride == Stride(attributes)
    ensures |pointers| == |attributes|
    ensures forall i :: 0 <= i < |attributes| ==> pointers[i] == PointerFor(attributes, i)
  {
    pointers := [];
    var offset := 0;
    for i := 0 to |attributes|
      invariant |pointers| == i
      invariant offset == Offset(attributes, i)
      invariant forall j :: 0 <= j < i ==> pointers[j] == PointerFor(attributes, j)
    {
      var attrib := attributes[i];
      pointers := pointers + [AttribPointer(i, Count(attrib), ElementType(attrib), false, stride, offset)];
      OffsetLayout(attributes, i);
      offset := offset + Size(attrib);
    }
  }
}
