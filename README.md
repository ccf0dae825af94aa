# Mesh builder of the dark renderer, in Dafny

The dark renderer assembles dynamic geometry through its `Mesh` class. A mesh
is created with a draw mode (lines or triangles) and a list of shader vertex
attributes. It derives a vertex stride from the attributes and declares one
attribute pointer per attribute. It then owns two growable buffers:

- vertex bytes, written behind a byte cursor;
- 4-byte indices, counted by an index count.

A build cycle runs as follows:

1. `begin` rewinds both buffers.
2. Typed writers (`uByte`, `float_`, `vec2`, `vec3`, `vec4`, `color`) store vertex components at the cursor.
3. `next` hands out vertex ordinals.
4. `line`, `triangle` and `quad` append indices and then run the growth check `growIfNeeded`.
5. `end` uploads both written ranges.
6. `render` ends a cycle still in progress and draws the indices between a before-render and an after-render hook.

This project models that class and proves what it guarantees:

- `layout.dfy` (module `Layout`): attributes and element types, their sizes, the stride, the attribute offsets, and the constructor's two loops.
- `encoding.dfy` (module `VertexEncoding`): the bytes each typed write leaves in the vertex buffer, and how many bytes a vertex written as the layout declares takes.
- `capacity.dfy` (module `Capacity`): the growth policy exactly as written, the capacities it can reach, why its correction branches never run, and when the write-then-check index emissions fit.
- `mesh.dfy` (module `Meshes`): the class `Mesh` itself.

In `Mesh`:

- The two raw memory regions are arrays, and the cursor is a byte offset into the vertex array.
- Growth allocates a new array and copies what was written.
- The graphics calls (attribute pointers, buffer uploads, the draw and its hooks) are appended to a ghost event log.
- A ghost sequence of the typed writes since `begin` specifies the vertex bytes. The class invariant `Valid` states that the written prefix of the vertex array is exactly the encoding of those writes. It also states that both capacities are the initial ones doubled some number of times.

The source's behaviour is kept in the following places:

- Index writes happen before the growth check. So `Line`, `Triangle` and `Quad` require the write to fit.
- `EmissionHeadroom` and `UniformEmissionsFit` show that the requirement is met when a mesh emits one kind of primitive.
- `QuadAfterTrianglesOverruns` shows that it is not met when a quad follows triangles at the last slot.
- Vertex writers never check capacity. They require room. `NextAttributeFits` shows that a growth check at ordinal c leaves room for layout-following writes up to ordinal 3c + 1, so the room exists only while the caller emits primitives (each runs the check) often enough; a caller that writes vertices without emitting runs past the buffer.
- Vertex growth is keyed on the vertex ordinal: the test compares (vertexI + 1) primitive quanta, three strides each, with the capacity. `CursorTracksOrdinal` ties the ordinal to the byte cursor under the caller contract that vertices are written as the layout declares. `VertexGrowthTrigger` restates the test on the cursor: it fires when three times (cursor + stride) reaches the capacity. So the buffer doubles when about a third full; at the initial capacity of 3072 strides it grows at vertex 1023 (`InitialVertexGrowthOrdinal`).
- The draw mode is not checked by emissions, and the model does not check it either.

## Model

| member | source | states |
|---|---|---|
| Layout.AttribSizes | src/main/java/me/agxpt/dark/renderer/defaultImpl/Mesh.java:340-355 | attribute sizes are count times type size: UByte 1, Float 4, Vec2 8, Vec3 12, Vec4 16 |
| Layout.StrideAppend | src/main/java/me/agxpt/dark/renderer/defaultImpl/Mesh.java:36-37 | the stride of a concatenated layout is the sum of the parts' strides |
| Layout.StrideBounds | src/main/java/me/agxpt/dark/renderer/defaultImpl/Mesh.java:36-39 | the stride lies between one and sixteen bytes per attribute, and is zero exactly for an empty layout |
| Layout.OffsetLayout | src/main/java/me/agxpt/dark/renderer/defaultImpl/Mesh.java:56-64 | offsets start at 0, each attribute starts where the previous one ends, every attribute lies inside the vertex record, and the final offset is the stride |
| Layout.ComputeStride | src/main/java/me/agxpt/dark/renderer/defaultImpl/Mesh.java:36-37 | the stride loop returns the sum of the attribute sizes |
| Layout.AttribPointers | src/main/java/me/agxpt/dark/renderer/defaultImpl/Mesh.java:56-64 | the pointer loop declares, for every location i, attribute i's component count and element type, not normalised, with the common stride and the running offset |
| VertexEncoding.FloatBytes | src/main/java/me/agxpt/dark/renderer/defaultImpl/Mesh.java:107-112 | a stored float takes four bytes |
| VertexEncoding.FloatBytesRoundTrip | src/main/java/me/agxpt/dark/renderer/defaultImpl/Mesh.java:107-112 | the four stored bytes read back as the same float pattern |
| VertexEncoding.BytesFloatRoundTrip | src/main/java/me/agxpt/dark/renderer/defaultImpl/Mesh.java:107-112 | every 4-byte group is the image of exactly one float pattern |
| VertexEncoding.LowByte | src/main/java/me/agxpt/dark/renderer/defaultImpl/Mesh.java:95-96 | the (byte) cast keeps the low 8 bits of the int and is lossless exactly for values below 256 |
| VertexEncoding.Bytes | src/main/java/me/agxpt/dark/renderer/defaultImpl/Mesh.java:95-202 | each typed write stores exactly the size of the attribute it fills |
| VertexEncoding.EncodeSnoc | src/main/java/me/agxpt/dark/renderer/defaultImpl/Mesh.java:95-202 | one more write appends its bytes and leaves every earlier byte alone |
| VertexEncoding.EncodeLength | src/main/java/me/agxpt/dark/renderer/defaultImpl/Mesh.java:307 | the uploaded vertex length is the sum of the widths written in the cycle |
| VertexEncoding.WidthSumAppend | src/main/java/me/agxpt/dark/renderer/defaultImpl/Mesh.java:95-202 | widths of consecutive runs of writes add up |
| VertexEncoding.RecordWidth | src/main/java/me/agxpt/dark/renderer/defaultImpl/Mesh.java:36-37 | a vertex written attribute by attribute as declared is exactly one stride wide |
| VertexEncoding.LayoutWidth | src/main/java/me/agxpt/dark/renderer/defaultImpl/Mesh.java:36-39 | n vertices written as declared have total width n times the stride |
| VertexEncoding.LayoutBytes | src/main/java/me/agxpt/dark/renderer/defaultImpl/Mesh.java:307 | n vertices written as declared upload exactly n strides of bytes |
| Capacity.InitialCapacitiesOk | src/main/java/me/agxpt/dark/renderer/defaultImpl/Mesh.java:41-44 | the initial capacities (1024 primitives of vertices, 512 triangles of indices) are reachable ones |
| Capacity.DoublingsBound | src/main/java/me/agxpt/dark/renderer/defaultImpl/Mesh.java:273-297 | a capacity reached by doublings is never below the initial one, and stays zero when that is zero |
| Capacity.DoublingsMultiple | src/main/java/me/agxpt/dark/renderer/defaultImpl/Mesh.java:276-278 | doubling keeps every multiple of the initial capacity a multiple of it |
| Capacity.DoublingsDouble | src/main/java/me/agxpt/dark/renderer/defaultImpl/Mesh.java:276 | doubling a reachable non-zero capacity gives a reachable one |
| Capacity.VerticesCapacityAligned | src/main/java/me/agxpt/dark/renderer/defaultImpl/Mesh.java:41-42 | every reachable vertex capacity is at least the initial one and a multiple of the primitive quantum, and is zero exactly when the quantum is |
| Capacity.IndicesCapacityAligned | src/main/java/me/agxpt/dark/renderer/defaultImpl/Mesh.java:44-45 | every reachable index capacity is a multiple of the initial 6144 bytes, so a multiple of 12 |
| Capacity.NextVerticesCapacityOk | src/main/java/me/agxpt/dark/renderer/defaultImpl/Mesh.java:275-278 | from a reachable capacity the vertex check exactly doubles when (vertexI + 1) times the primitive quantum reaches the capacity (the correction never runs), keeps it otherwise, never shrinks it, and covers any demand below twice the old capacity |
| Capacity.NextIndicesCapacityOk | src/main/java/me/agxpt/dark/renderer/defaultImpl/Mesh.java:288-290 | from a reachable capacity the index check exactly doubles when the indices fill it (the correction never runs), never shrinks it, and leaves room beyond any count below twice the old capacity |
| Capacity.VerticesCorrectionMisaligns | src/main/java/me/agxpt/dark/renderer/defaultImpl/Mesh.java:276-278 | were the correction to run, adding the remainder aligns the capacity only when the remainder is half the quantum |
| Capacity.EmissionFits | src/main/java/me/agxpt/dark/renderer/defaultImpl/Mesh.java:219-268 | an n-index emission written before the check fits when the count is a multiple of n, the last check left headroom, and the capacity holds whole emissions |
| Capacity.UniformEmissionsFit | src/main/java/me/agxpt/dark/renderer/defaultImpl/Mesh.java:219-268 | lines only, triangles only, or quads only never write past the index buffer at a reachable capacity |
| Capacity.QuadAfterTrianglesOverruns | src/main/java/me/agxpt/dark/renderer/defaultImpl/Mesh.java:255-268 | at every reachable capacity, a quad emitted three indices short of full after triangles writes three indices past the end |
| Capacity.VertexWriteFits | src/main/java/me/agxpt/dark/renderer/defaultImpl/Mesh.java:95-202 | when a check at ordinal c left room for the primitive after c, a write completing at most the current vertex stays inside the buffer for every ordinal up to 3c + 1 |
| Capacity.InitialVertexGrowthOrdinal | src/main/java/me/agxpt/dark/renderer/defaultImpl/Mesh.java:275 | at the initial vertex capacity the ordinal-keyed test fires exactly from vertex 1023 on, when a third of the buffer is used |
| Meshes.AttributeSetup | src/main/java/me/agxpt/dark/renderer/defaultImpl/Mesh.java:56-64 | a new mesh declares one attribute pointer per attribute |
| Meshes.MemCopy | src/main/java/me/agxpt/dark/renderer/defaultImpl/Mesh.java:281 | the copy on growth puts the first n elements of the old region into the new one |
| Meshes.Mesh.constructor | src/main/java/me/agxpt/dark/renderer/defaultImpl/Mesh.java:33-69 | the quantum is three strides, the buffers have their initial capacities, nothing is written, the mesh is idle, and the log holds the attribute pointers |
| Meshes.Mesh.Begin | src/main/java/me/agxpt/dark/renderer/defaultImpl/Mesh.java:80-88 | while building it fails with the source's message and changes nothing; otherwise it rewinds cursor, ordinal and count, starts building, and keeps the buffers and capacities |
| Meshes.Mesh.StoreAt | src/main/java/me/agxpt/dark/renderer/defaultImpl/Mesh.java:121-122 | the given bytes land at the given offset after the bytes already there |
| Meshes.Mesh.Put | src/main/java/me/agxpt/dark/renderer/defaultImpl/Mesh.java:95-202 | a typed write stores its bytes at the cursor, advances the cursor by its width, keeps every earlier byte, and keeps the invariant |
| Meshes.Mesh.UByte | src/main/java/me/agxpt/dark/renderer/defaultImpl/Mesh.java:95-100 | stores the low byte of v and advances the cursor by 1, keeping earlier bytes |
| Meshes.Mesh.Float | src/main/java/me/agxpt/dark/renderer/defaultImpl/Mesh.java:107-112 | stores one float and advances the cursor by 4, keeping earlier bytes |
| Meshes.Mesh.Vec2 | src/main/java/me/agxpt/dark/renderer/defaultImpl/Mesh.java:120-126 | stores x, y and advances the cursor by 8, keeping earlier bytes |
| Meshes.Mesh.Vec3 | src/main/java/me/agxpt/dark/renderer/defaultImpl/Mesh.java:148-155 | stores x, y, z and advances the cursor by 12, keeping earlier bytes |
| Meshes.Mesh.Vec4 | src/main/java/me/agxpt/dark/renderer/defaultImpl/Mesh.java:179-187 | stores x, y, z, w and advances the cursor by 16, keeping earlier bytes |
| Meshes.Mesh.Color | src/main/java/me/agxpt/dark/renderer/defaultImpl/Mesh.java:194-202 | stores r, g, b, a and advances the cursor by 16, keeping earlier bytes |
| Meshes.Mesh.Next | src/main/java/me/agxpt/dark/renderer/defaultImpl/Mesh.java:209-211 | returns the current ordinal and increments it, so a cycle hands out 0, 1, 2, … |
| Meshes.Mesh.GrowIfNeeded | src/main/java/me/agxpt/dark/renderer/defaultImpl/Mesh.java:273-297 | each buffer grows by the capacity policy into a fresh array, or stays the same array; capacities never shrink; written vertex bytes, cursor and indices are kept; demand below twice the old capacity now fits; with no attributes it faults on the remainder by zero |
| Meshes.Mesh.GrowVertices | src/main/java/me/agxpt/dark/renderer/defaultImpl/Mesh.java:274-285 | the vertex half of the check, keyed on the ordinal, with the fault for an empty layout |
| Meshes.Mesh.GrowIndices | src/main/java/me/agxpt/dark/renderer/defaultImpl/Mesh.java:287-296 | the index half of the check, keyed on the index count, keeping the indices written |
| Meshes.Mesh.Line | src/main/java/me/agxpt/dark/renderer/defaultImpl/Mesh.java:219-227 | appends i1, i2 after the indices written, then runs the growth check, which restores headroom |
| Meshes.Mesh.Triangle | src/main/java/me/agxpt/dark/renderer/defaultImpl/Mesh.java:236-245 | appends i1, i2, i3, then runs the growth check |
| Meshes.Mesh.Quad | src/main/java/me/agxpt/dark/renderer/defaultImpl/Mesh.java:255-268 | appends exactly i1, i2, i3, i3, i4, i1, then runs the growth check |
| Meshes.Mesh.End | src/main/java/me/agxpt/dark/renderer/defaultImpl/Mesh.java:302-316 | when idle it fails with the source's message; otherwise it uploads the encoded vertex bytes and the written indices when any index was emitted; the mesh is idle afterwards |
| Meshes.Mesh.Render | src/main/java/me/agxpt/dark/renderer/defaultImpl/Mesh.java:325-335 | ends a cycle in progress, then draws the last cycle's index count in the mesh's mode between the two hooks, or nothing when there are no indices |
| Meshes.Mesh.EmissionHeadroom | src/main/java/me/agxpt/dark/renderer/defaultImpl/Mesh.java:219-268 | a mesh emitting only its draw mode's primitive (2 indices for lines, 3 for triangles) or only quads has room for the next one after a growth check |
| Meshes.Mesh.NextAttributeFits | src/main/java/me/agxpt/dark/renderer/defaultImpl/Mesh.java:95-202 | when the writes are whole vertices plus the first k attributes of the next, as the layout declares, and a check at ordinal c left room for the primitive after c, the write of attribute k fits while the ordinal is at most 3c + 1 |
| Meshes.Mesh.VertexGrowthTrigger | src/main/java/me/agxpt/dark/renderer/defaultImpl/Mesh.java:275 | under the layout contract the ordinal-keyed test fires exactly when three times (cursor + stride) reaches the capacity |
| Meshes.Mesh.CursorTracksOrdinal | src/main/java/me/agxpt/dark/renderer/defaultImpl/Mesh.java:275 | when vertices are written as the layout declares, the byte cursor is the ordinal times the stride, which is what the ordinal-keyed vertex growth check assumes |

## Left out

- The OpenGL calls are foreign. Only the attribute pointers, the two buffer uploads, the draw and the two render hooks are logged in the ghost event log. Vertex-array and buffer generation, the binds and `glEnableVertexAttribArray` (Mesh.java:47-54, 60, 66-68 and the binds around the uploads and the draw) are not modelled, nor are the GL enum values.
- The before-render hook of the shader-bound mesh (ShaderMesh.java:13-17) binds a shader. It is the `BeforeRender` log entry.
- The double-to-float conversion is left out. A float is its 32-bit pattern, stored in the host byte order, taken to be little-endian.
- Allocation failure of the native allocator, and freeing memory (`dispose`), are left out. The old regions are never freed on growth, and the model does not reproduce that leak.
- Java's 32-bit int wrap-around is left out: of the capacity expressions (Mesh.java:41, 275-276, 288-289) and of the counters `vertexI` and `indicesCount`. These are unbounded naturals here, and index values are 32-bit ints. The cursor is a 64-bit address in the source and a byte offset here.
- The argument of `uByte` is taken as the 32-bit pattern of the Java int.
- Before the first `begin` the source's cursor is the null address. So the writers require that `begin` has run once (ghost `begun`). A growth before any `begin` would copy a negative length in the source, whereas here it copies nothing.
- Meshes.Mesh.Line, Meshes.Mesh.Triangle, Meshes.Mesh.Quad: the source writes the indices before any check, so these require that the write fits. The overrun the source allows (see `QuadAfterTrianglesOverruns`) is not modelled as a write past the end.
- Meshes.Mesh.UByte, Meshes.Mesh.Float, Meshes.Mesh.Vec2, Meshes.Mesh.Vec3, Meshes.Mesh.Vec4, Meshes.Mesh.Color: the source never checks capacity, so these require that the write fits.
- The `vec2(IV2d)` and `vec3(IV3d)` overloads store the same bytes as the component forms, and `color` reads its four components from the colour object. Only the component forms are modelled.
- The writers return the mesh for chaining; the model's writers return nothing.
- Texture, shader, GL binding, renderer singleton and interface classes are not part of this model.
