/** The mesh builder. A mesh assembles dynamic geometry in two growable
    buffers (vertex bytes behind a byte cursor, 4-byte indices behind a count)
    through the protocol begin, typed vertex writes / next / primitive
    emission, end, render. The raw memory regions are arrays with offsets, a
    growth step allocates a new array and copies what was written, and the
    graphics calls are recorded in a ghost event log. */
module Meshes {
  import opened Layout
  import opened VertexEncoding
  import opened Capacity

  /** Java's 32-bit int: the type of a vertex index. */
  newtype int32 = x: int | -0x8000_0000 <= x < 0x8000_0000

  /** OpenGL draw modes. */
  datatype DrawMode = Lines | Triangles

  /** The number of indices one primitive of a draw mode takes. */
  function IndicesPerPrimitive(mode: DrawMode): (n: nat)
    ensures n == 2 <==> mode == Lines
    ensures n == 3 <==> mode == Triangles
  {
    match mode
    case Lines => 2
    case Triangles => 3
  }

  /** How a mesh operation ends: normally, with an IllegalStateException, or
      with the ArithmeticException of a remainder by zero. */
  datatype Status = Ok | IllegalState(message: string) | ArithmeticFault

  const BeginWhileBuilding: string := "Mesh.begin() called while already building."
  const EndWhileIdle: string := "Mesh.end() called while not building."

  /** Graphics calls a mesh makes, as they are seen from outside. */
  datatype GLEvent =
    | AttribPointerSet(pointer: AttribPointer)
    | VertexUpload(bytes: seq<bv8>)
    | IndexUpload(indices: seq<int32>)
    | BeforeRender
    | Draw(mode: DrawMode, count: nat)
    | AfterRender

  /** The attribute pointers a new mesh declares, one per attribute. */
  function AttributeSetup(attrs: seq<Attrib>): (events: seq<GLEvent>)
    ensures |events| == |attrs|
  {
    seq(|attrs|, i requires 0 <= i < |attrs| => AttribPointerSet(PointerFor(attrs, i)))
  }

  /** The uploads that end a build cycle: both written ranges, or nothing
      when no index was emitted. */
  function UploadEvents(vertexBytes: seq<bv8>, indices: seq<int32>): seq<GLEvent>
  {
    if |indices| > 0 then [VertexUpload(vertexBytes), IndexUpload(indices)] else []
  }

  /** The calls of one render: a draw of count elements between the two
      hooks, or nothing when count is zero. */
  function DrawEvents(mode: DrawMode, count: nat): seq<GLEvent>
  {
    if count > 0 then [BeforeRender, Draw(mode, count), AfterRender] else []
  }

  /** memCopy: the first n elements of src, copied into dst. */
  method MemCopy<T>(src: array<T>, dst: array<T>, n: nat)
    requires n <= src.Length && n <= dst.Length && src != dst
    modifies dst
    ensures dst[..n] == src[..n]
  {
    var i := 0;
    while i < n
      invariant 0 <= i <= n
      invariant dst[..i] == src[..i]
    {
      dst[i] := src[i];
      assert dst[..i + 1] == dst[..i] + [src[i]];
      assert src[..i + 1] == src[..i] + [src[i]];
      i := i + 1;
    }
  }

  class Mesh {
    /** Bytes of one triangle's vertices: three strides. */
    const primitiveVerticesSize: nat
    const drawMode: DrawMode
    /** The layout the mesh was built with; the source keeps only its stride. */
    ghost const attributes: seq<Attrib>

    var verticesCapacity: nat
    var vertices: array<bv8>
    var indicesCapacity: nat
    var indices: array<int32>
    /** The vertex write cursor, as a byte offset from the start of vertices. */
    var verticesI: nat
    var building: bool
    /** The ordinal the next vertex gets. */
    var vertexI: nat
    var indicesCount: nat

    /** Whether begin() has ever succeeded: before that the source's cursor is
        the null address, not a position in the vertex buffer. */
    ghost var begun: bool
    /** The typed writes since the last begin(), in order. */
    ghost var writes: seq<VertexWrite>
    /** The graphics calls made so far. */
    ghost var log: seq<GLEvent>

    ghost predicate Valid()
      reads this, vertices
    {
      && primitiveVerticesSize == 3 * Stride(attributes)
      && vertices as object != indices as object
      && vertices.Length == verticesCapacity
      && indices.Length * 4 == indicesCapacity
      && VerticesCapacityOk(verticesCapacity, primitiveVerticesSize)
      && IndicesCapacityOk(indicesCapacity)
      && verticesI <= verticesCapacity
      && indicesCount <= indices.Length
      && vertices[..verticesI] == Encode(writes)
    }

    /** The indices emitted since the last begin(). */
    ghost function WrittenIndices(): seq<int32>
      reads this, indices
      requires indicesCount <= indices.Length
    {
      indices[..indicesCount]
    }

    /** Computes the stride, allocates both buffers at their initial
        capacities and declares one attribute pointer per attribute. */
    constructor (drawMode: DrawMode, attributes: seq<Attrib>)
      ensures Valid() && fresh(vertices) && fresh(indices)
      ensures this.drawMode == drawMode && this.attributes == attributes
      ensures primitiveVerticesSize == 3 * Stride(attributes)
      ensures verticesCapacity == InitialVerticesCapacity(primitiveVerticesSize)
      ensures indicesCapacity == InitialIndicesCapacity
      ensures !building && !begun && vertexI == 0 && indicesCount == 0 && writes == []
      ensures log == AttributeSetup(attributes)
    {
      var stride := ComputeStride(attributes);
      var quantum := stride * 3;
      InitialCapacitiesOk(quantum);
      var pointers := AttribPointers(attributes, stride);
      this.drawMode := drawMode;
      this.attributes := attributes;
      primitiveVerticesSize := quantum;
      verticesCapacity := quantum * 256 * 4;
      vertices := new bv8[quantum * 256 * 4];
      indicesCapacity := 3 * 512 * 4;
      indices := new int32[3 * 512];
      verticesI, building, vertexI, indicesCount := 0, false, 0, 0;
      begun, writes := false, [];
      log := seq(|pointers|, i requires 0 <= i < |pointers| => AttribPointerSet(pointers[i]));
    }

    /** Starts a build cycle: rewinds the vertex cursor, the vertex ordinal and
        the index count, keeping both buffers and their capacities. */
    method Begin() returns (status: Status)
      requires Valid()
      modifies this`verticesI, this`vertexI, this`indicesCount, this`building, this`begun, this`writes
      ensures Valid()
      ensures old(building) ==> status == IllegalState(BeginWhileBuilding) && unchanged(this)
      ensures !old(building) ==> status == Ok && building && begun
      ensures !old(building) ==> verticesI == 0 && vertexI == 0 && indicesCount == 0 && writes == []
    {
      if building {
        return IllegalState(BeginWhileBuilding);
      }
      verticesI := 0;
      vertexI := 0;
      indicesCount := 0;
      building := true;
      begun, writes := true, [];
      status := Ok;
    }

    /** memPut: the given bytes at byte offset at, after the bytes already
        there. */
    method StoreAt(at: nat, bytes: seq<bv8>, ghost prefix: seq<bv8>)
      requires at + |bytes| <= vertices.Length && vertices[..at] == prefix
      modifies vertices
      ensures vertices[..at + |bytes|] == prefix + bytes
    {
      for k := 0 to |bytes|
        invariant vertices[..at + k] == prefix + bytes[..k]
      {
        vertices[at + k] := bytes[k];
        assert bytes[..k + 1] == bytes[..k] + [bytes[k]];
      }
      assert bytes[..|bytes|] == bytes;
    }

    /** What every typed writer does: store the bytes of the write at the
        cursor and advance the cursor past them. The cursor is not checked
        against the capacity here; the writes rely on the last growth check. */
    method Put(w: VertexWrite)
      requires Valid() && begun
      requires verticesI + Size(Kind(w)) <= verticesCapacity
      modifies this`verticesI, this`writes, vertices
      ensures Valid()
      ensures verticesI == old(verticesI) + Size(Kind(w))
      ensures writes == old(writes) + [w]
      ensures vertices[..old(verticesI)] == old(vertices[..verticesI])
      ensures vertices[old(verticesI)..verticesI] == Bytes(w)
    {
      ghost var before := Encode(writes);
      var bytes := Bytes(w);
      StoreAt(verticesI, bytes, before);
      ghost var after := before + bytes;
      assert vertices[..verticesI] == after[..verticesI];
      assert vertices[verticesI..verticesI + |bytes|] == after[verticesI..];
      EncodeSnoc(writes, w);
      verticesI := verticesI + |bytes|;
      writes := writes + [w];
    }

    /** Puts an unsigned byte: the low 8 bits of v. */
    method UByte(v: bv32)
      requires Valid() && begun
      requires verticesI + 1 <= verticesCapacity
      modifies this`verticesI, this`writes, vertices
      ensures Valid()
      ensures verticesI == old(verticesI) + 1
      ensures writes == old(writes) + [PutUByte(v)]
      ensures vertices[..old(verticesI)] == old(vertices[..verticesI])
      ensures vertices[old(verticesI)..verticesI] == Bytes(PutUByte(v))
    {
      Put(PutUByte(v));
    }

    /** Puts a float. */
    method Float(x: bv32)
      requires Valid() && begun
      requires verticesI + 4 <= verticesCapacity
      modifies this`verticesI, this`writes, vertices
      ensures Valid()
      ensures verticesI == old(verticesI) + 4
      ensures writes == old(writes) + [PutFloat(x)]
      ensures vertices[..old(verticesI)] == old(vertices[..verticesI])
      ensures vertices[old(verticesI)..verticesI] == Bytes(PutFloat(x))
    {
      Put(PutFloat(x));
    }

    /** Puts a 2d float vector. */
    method Vec2(x: bv32, y: bv32)
      requires Valid() && begun
      requires verticesI + 8 <= verticesCapacity
      modifies this`verticesI, this`writes, vertices
      ensures Valid()
      ensures verticesI == old(verticesI) + 8
      ensures writes == old(writes) + [PutVec2(x, y)]
      ensures vertices[..old(verticesI)] == old(vertices[..verticesI])
      ensures vertices[old(verticesI)..verticesI] == Bytes(PutVec2(x, y))
    {
      Put(PutVec2(x, y));
    }

    /** Puts a 3d float vector. */
    method Vec3(x: bv32, y: bv32, z: bv32)
      requires Valid() && begun
      requires verticesI + 12 <= verticesCapacity
      modifies this`verticesI, this`writes, vertices
      ensures Valid()
      ensures verticesI == old(verticesI) + 12
      ensures writes == old(writes) + [PutVec3(x, y, z)]
      ensures vertices[..old(verticesI)] == old(vertices[..verticesI])
      ensures vertices[old(verticesI)..verticesI] == Bytes(PutVec3(x, y, z))
    {
      Put(PutVec3(x, y, z));
    }

    /** Puts a 4d float vector. */
    method Vec4(x: bv32, y: bv32, z: bv32, w: bv32)
      requires Valid() && begun
      requires verticesI + 16 <= verticesCapacity
      modifies this`verticesI, this`writes, vertices
      ensures Valid()
      ensures verticesI == old(verticesI) + 16
      ensures writes == old(writes) + [PutVec4(x, y, z, w)]
      ensures vertices[..old(verticesI)] == old(vertices[..verticesI])
      ensures vertices[old(verticesI)..verticesI] == Bytes(PutVec4(x, y, z, w))
    {
      Put(PutVec4(x, y, z, w));
    }

    /** Puts an RGBA colour as four floats. */
    method Color(r: bv32, g: bv32, b: bv32, a: bv32)
      requires Valid() && begun
      requires verticesI + 16 <= verticesCapacity
      modifies this`verticesI, this`writes, vertices
      ensures Valid()
      ensures verticesI == old(verticesI) + 16
      ensures writes == old(writes) + [PutColor(r, g, b, a)]
      ensures vertices[..old(verticesI)] == old(vertices[..verticesI])
      ensures vertices[old(verticesI)..verticesI] == Bytes(PutColor(r, g, b, a))
    {
      Put(PutColor(r, g, b, a));
    }

    /** Ends the current vertex and returns its ordinal. */
    method Next() returns (ordinal: nat)
      requires Valid()
      modifies this`vertexI
      ensures Valid()
      ensures ordinal == old(vertexI) && vertexI == old(vertexI) + 1
    {
      ordinal := vertexI;
      vertexI := vertexI + 1;
    }

    /** The effect of one growth check, from the state before it: with no
        attributes it faults on the remainder by zero before touching
        anything; otherwise each buffer grows by the policy of Capacity
        (the vertex buffer keyed on the vertex ordinal, the index buffer on
        the index count), a buffer that grows is a fresh array, and one that
        does not is the same array. */
    twostate predicate GrowthChecked(status: Status)
      reads this
    {
      && status == (if primitiveVerticesSize == 0 then ArithmeticFault else Ok)
      && verticesCapacity == (if primitiveVerticesSize == 0 then old(verticesCapacity)
                              else NextVerticesCapacity(vertexI, primitiveVerticesSize, old(verticesCapacity)))
      && indicesCapacity == (if primitiveVerticesSize == 0 then old(indicesCapacity)
                             else NextIndicesCapacity(indicesCount, old(indicesCapacity)))
      && (verticesCapacity == old(verticesCapacity) ==> vertices == old(vertices))
      && (verticesCapacity != old(verticesCapacity) ==> fresh(vertices))
      && (indicesCapacity == old(indicesCapacity) ==> indices == old(indices))
      && (indicesCapacity != old(indicesCapacity) ==> fresh(indices))
    }

    /** Grows either buffer when it is full: doubles its capacity, allocates a
        new region, copies what was written, and keeps the cursor at the same
        offset. Every capacity only grows, everything written is kept, and
        when the demand was below twice the old capacity it now fits. */
    method GrowIfNeeded() returns (status: Status)
      requires Valid()
      modifies this`verticesCapacity, this`vertices, this`indicesCapacity, this`indices
      ensures Valid()
      ensures GrowthChecked(status)
      ensures verticesCapacity >= old(verticesCapacity) && indicesCapacity >= old(indicesCapacity)
      ensures WrittenIndices() == old(WrittenIndices())
      ensures status == Ok && (vertexI + 1) * primitiveVerticesSize < 2 * old(verticesCapacity)
              ==> (vertexI + 1) * primitiveVerticesSize < verticesCapacity
      ensures status == Ok && indicesCount * 4 < 2 * old(indicesCapacity)
              ==> indicesCount * 4 < indicesCapacity
    {
      status := GrowVertices();
      if status == Ok {
        GrowIndices();
      }
    }

    /** The vertex half of the growth check, keyed on the vertex ordinal: the
        buffer grows when (vertexI + 1) primitive quanta, three strides each,
        reach its capacity. With no attributes the alignment test divides by
        zero. */
    method GrowVertices() returns (status: Status)
      requires Valid()
      modifies this`verticesCapacity, this`vertices
      ensures Valid()
      ensures status == (if primitiveVerticesSize == 0 then ArithmeticFault else Ok)
      ensures verticesCapacity == (if primitiveVerticesSize == 0 then old(verticesCapacity)
                                   else NextVerticesCapacity(vertexI, primitiveVerticesSize, old(verticesCapacity)))
      ensures verticesCapacity >= old(verticesCapacity)
      ensures verticesCapacity == old(verticesCapacity) ==> vertices == old(vertices)
      ensures verticesCapacity != old(verticesCapacity) ==> fresh(vertices)
      ensures status == Ok && (vertexI + 1) * primitiveVerticesSize < 2 * old(verticesCapacity)
              ==> (vertexI + 1) * primitiveVerticesSize < verticesCapacity
    {
      VerticesCapacityAligned(verticesCapacity, primitiveVerticesSize);
      if primitiveVerticesSize > 0 {
        NextVerticesCapacityOk(vertexI, primitiveVerticesSize, verticesCapacity);
      }
      if (vertexI + 1) * primitiveVerticesSize >= verticesCapacity {
        if primitiveVerticesSize == 0 {
          // verticesCapacity % primitiveVerticesSize throws ArithmeticException
          return ArithmeticFault;
        }
        ghost var written := vertices[..verticesI];
        var capacity := GrownVerticesCapacity(verticesCapacity, primitiveVerticesSize);
        var grown := new bv8[capacity];
        MemCopy(vertices, grown, verticesI);
        verticesCapacity := capacity;
        vertices := grown;
        assert vertices[..verticesI] == written;
      }
      status := Ok;
    }

    /** The index half of the growth check, keyed on the index count. */
    method GrowIndices()
      requires Valid()
      modifies this`indicesCapacity, this`indices
      ensures Valid()
      ensures indicesCapacity == NextIndicesCapacity(indicesCount, old(indicesCapacity))
      ensures indicesCapacity >= old(indicesCapacity)
      ensures indicesCapacity == old(indicesCapacity) ==> indices == old(indices)
      ensures indicesCapacity != old(indicesCapacity) ==> fresh(indices)
      ensures WrittenIndices() == old(WrittenIndices())
      ensures indicesCount * 4 < 2 * old(indicesCapacity) ==> indicesCount * 4 < indicesCapacity
    {
      NextIndicesCapacityOk(indicesCount, indicesCapacity);
      if indicesCount * 4 >= indicesCapacity {
        ghost var emitted := indices[..indicesCount];
        var capacity := GrownIndicesCapacity(indicesCapacity);
        assert capacity == 8 * indices.Length && capacity / 4 == 2 * indices.Length;
        var grown := new int32[capacity / 4];
        MemCopy(indices, grown, indicesCount);
        indicesCapacity := capacity;
        indices := grown;
        assert indices[..indicesCount] == emitted;
      }
    }

    /** Creates a line: writes its two indices at the index count, then runs
        the growth check. The write comes first, so it must fit as it is. */
    method Line(i1: int32, i2: int32) returns (status: Status)
      requires Valid()
      requires indicesCount + 2 <= indices.Length
      modifies indices, this`indicesCount, this`verticesCapacity, this`vertices, this`indicesCapacity, this`indices
      ensures Valid()
      ensures indicesCount == old(indicesCount) + 2
      ensures WrittenIndices() == old(WrittenIndices()) + [i1, i2]
      ensures GrowthChecked(status)
      ensures status == Ok && old(indicesCount) * 4 < old(indicesCapacity) ==> indicesCount * 4 < indicesCapacity
    {
      var p := indicesCount;
      indices[p] := i1;
      indices[p + 1] := i2;
      indicesCount := indicesCount + 2;
      assert indices[..indicesCount] == old(WrittenIndices()) + [i1, i2];
      assert vertices[..verticesI] == old(vertices[..verticesI]);
      status := GrowIfNeeded();
    }

    /** Creates a triangle: writes its three indices at the index count, then
        runs the growth check. */
    method Triangle(i1: int32, i2: int32, i3: int32) returns (status: Status)
      requires Valid()
      requires indicesCount + 3 <= indices.Length
      modifies indices, this`indicesCount, this`verticesCapacity, this`vertices, this`indicesCapacity, this`indices
      ensures Valid()
      ensures indicesCount == old(indicesCount) + 3
      ensures WrittenIndices() == old(WrittenIndices()) + [i1, i2, i3]
      ensures GrowthChecked(status)
      ensures status == Ok && old(indicesCount) * 4 < old(indicesCapacity) ==> indicesCount * 4 < indicesCapacity
    {
      var p := indicesCount;
      indices[p] := i1;
      indices[p + 1] := i2;
      indices[p + 2] := i3;
      indicesCount := indicesCount + 3;
      assert indices[..indicesCount] == old(WrittenIndices()) + [i1, i2, i3];
      status := GrowIfNeeded();
    }

    /** Creates a quad as two triangles sharing the diagonal i1-i3:
        (i1, i2, i3) then (i3, i4, i1), then runs the growth check. */
    method Quad(i1: int32, i2: int32, i3: int32, i4: int32) returns (status: Status)
      requires Valid()
      requires indicesCount + 6 <= indices.Length
      modifies indices, this`indicesCount, this`verticesCapacity, this`vertices, this`indicesCapacity, this`indices
      ensures Valid()
      ensures indicesCount == old(indicesCount) + 6
      ensures WrittenIndices() == old(WrittenIndices()) + [i1, i2, i3, i3, i4, i1]
      ensures GrowthChecked(status)
      ensures status == Ok && old(indicesCount) * 4 < old(indicesCapacity) ==> indicesCount * 4 < indicesCapacity
    {
      var p := indicesCount;
      indices[p] := i1;
      indices[p + 1] := i2;
      indices[p + 2] := i3;
      indices[p + 3] := i3;
      indices[p + 4] := i4;
      indices[p + 5] := i1;
      indicesCount := indicesCount + 6;
      assert indices[..indicesCount] == old(WrittenIndices()) + [i1, i2, i3, i3, i4, i1];
      status := GrowIfNeeded();
    }

    /** Ends the build cycle: uploads both written ranges when any index was
        emitted, and is idle afterwards whatever happened. */
    method End() returns (status: Status)
      requires Valid()
      modifies this`building, this`log
      ensures Valid() && !building
      ensures status == (if old(building) then Ok else IllegalState(EndWhileIdle))
      ensures log == old(log) + (if old(building) then UploadEvents(Encode(writes), WrittenIndices()) else [])
    {
      if !building {
        return IllegalState(EndWhileIdle);
      }
      if indicesCount > 0 {
        log := log + [VertexUpload(vertices[..verticesI]), IndexUpload(indices[..indicesCount])];
      }
      building := false;
      status := Ok;
    }

    /** Renders: ends a cycle still in progress, then draws the last cycle's
        indices between the two hooks, or nothing when there are none. */
    method Render()
      requires Valid()
      modifies this`building, this`log
      ensures Valid() && !building
      ensures log == old(log) + (if old(building) then UploadEvents(Encode(writes), WrittenIndices()) else [])
                     + DrawEvents(drawMode, indicesCount)
    {
      if building {
        var _ := End();
      }
      if indicesCount > 0 {
        log := log + [BeforeRender, Draw(drawMode, indicesCount), AfterRender];
      }
    }

    /** The write-before-check emissions are safe for a mesh that emits only
        the primitive of its draw mode, or only quads: after a growth check
        left headroom, a count that is a whole number of n-index primitives
        has room for n more. */
    lemma EmissionHeadroom(n: nat)
      requires Valid() && (n == IndicesPerPrimitive(drawMode) || n == 6)
      requires indicesCount % n == 0 && indicesCount * 4 < indicesCapacity
      ensures indicesCount + n <= indices.Length
    {
      UniformEmissionsFit(indicesCount, indicesCapacity, n);
    }

    /** The vertex writers rely on the last growth check. When the writes so
        far are vertexI whole vertices followed by the first k attributes of
        the next one, all as the layout declares, and the last check, at
        ordinal checkedAt, left room for the primitive after it, the write of
        attribute k fits as long as vertexI is at most 3 * checkedAt + 1. A
        caller that writes more vertices without emitting a primitive (which
        runs the check again) can run past the buffer. */
    lemma NextAttributeFits(whole: seq<VertexWrite>, partial: seq<VertexWrite>, k: nat, checkedAt: nat)
      requires Valid() && writes == whole + partial
      requires FollowsLayout(whole, attributes, vertexI)
      requires k < |attributes| && Matches(partial, attributes[..k])
      requires (checkedAt + 1) * primitiveVerticesSize < verticesCapacity
      requires vertexI <= 3 * checkedAt + 1
      ensures verticesI + Size(attributes[k]) <= verticesCapacity
    {
      assert |vertices[..verticesI]| == verticesI;
      EncodeLength(writes);
      WidthSumAppend(whole, partial);
      LayoutWidth(whole, attributes, vertexI);
      RecordWidth(partial, attributes[..k]);
      OffsetLayout(attributes, k);
      VertexWriteFits(checkedAt, vertexI, Stride(attributes), Offset(attributes, k), Size(attributes[k]), verticesCapacity);
    }

    /** Under the same contract, the ordinal-keyed vertex test compares three
        times the byte cursor plus one stride with the capacity. */
    lemma VertexGrowthTrigger()
      requires Valid() && FollowsLayout(writes, attributes, vertexI)
      ensures (vertexI + 1) * primitiveVerticesSize >= verticesCapacity
              <==> 3 * (verticesI + Stride(attributes)) >= verticesCapacity
    {
      CursorTracksOrdinal();
      QuantaAsBytes(vertexI, Stride(attributes));
    }

    /** Under the caller contract that vertices are written attribute by
        attribute as the layout declares, the byte cursor is the vertex
        ordinal times the stride, so the vertex bytes uploaded for n vertices
        are exactly n strides. */
    lemma CursorTracksOrdinal()
      requires Valid() && FollowsLayout(writes, attributes, vertexI)
      ensures verticesI == vertexI * Stride(attributes)
    {
      assert |vertices[..verticesI]| == verticesI;
      LayoutBytes(writes, attributes, vertexI);
    }
  }
}
