/** The capacity policy of the mesh's two growable buffers: the initial
    capacities, one growth step exactly as the growth routine computes it
    (double, then a correction when the doubled value is not aligned), the
    alignment that keeps the correction from ever running, and what the
    capacities left by a growth check guarantee to the next writes. All
    capacities are in bytes; the index buffer holds 4-byte indices. */
module Capacity {

  /** Vertex capacity of a new mesh: 1024 primitives' worth of bytes. */
  function InitialVerticesCapacity(primitiveVerticesSize: nat): nat
  {
    primitiveVerticesSize * 256 * 4
  }

  /** Index capacity of a new mesh: 512 triangles of 4-byte indices. */
  const InitialIndicesCapacity: nat := 3 * 512 * 4

  /** One growth step of the vertex buffer, as written: double, and when the
      doubled value is not a multiple of the primitive quantum, add the
      remainder to it. */
  function GrownVerticesCapacity(capacity: nat, quantum: nat): nat
    requires quantum > 0
  {
    var doubled := capacity * 2;
    if doubled % quantum != 0 then doubled + doubled % quantum else doubled
  }

  /** One growth step of the index buffer, as written: double, and when the
      doubled value is not a multiple of 3, add its remainder modulo 12. */
  function GrownIndicesCapacity(capacity: nat): nat
  {
    var doubled := capacity * 2;
    if doubled % 3 != 0 then doubled + doubled % (3 * 4) else doubled
  }

  /** The vertex capacity after a growth check: it grows once when the
      ordinal after vertexI times the primitive quantum (three strides)
      reaches the capacity. */
  function NextVerticesCapacity(vertexI: nat, quantum: nat, capacity: nat): nat
    requires quantum > 0
  {
    if (vertexI + 1) * quantum >= capacity then GrownVerticesCapacity(capacity, quantum) else capacity
  }

  /** The index capacity after a growth check: it grows once when the indices
      written fill it. */
  function NextIndicesCapacity(indicesCount: nat, capacity: nat): nat
  {
    if indicesCount * 4 >= capacity then GrownIndicesCapacity(capacity) else capacity
  }

  /** The capacities reachable from an initial one by exact doublings:
      initial * 2^k for some k. */
  ghost predicate Doublings(capacity: nat, initial: nat)
    decreases capacity
  {
    || capacity == initial
    || (capacity > initial && capacity % 2 == 0 && Doublings(capacity / 2, initial))
  }

  /** The vertex capacities a mesh can reach: the initial one doubled any
      number of times (with no attributes, only zero). */
  ghost predicate VerticesCapacityOk(capacity: nat, quantum: nat)
  {
    Doublings(capacity, InitialVerticesCapacity(quantum))
  }

  /** The index capacities a mesh can reach: the initial one doubled any
      number of times. */
  ghost predicate IndicesCapacityOk(capacity: nat)
  {
    Doublings(capacity, InitialIndicesCapacity)
  }

  lemma InitialCapacitiesOk(quantum: nat)
    ensures VerticesCapacityOk(InitialVerticesCapacity(quantum), quantum)
    ensures IndicesCapacityOk(InitialIndicesCapacity)
  {
  }

  /** A reachable capacity is at least the initial one, and is zero when the
      initial one is. */
  lemma {:induction false} DoublingsBound(capacity: nat, initial: nat)
    requires Doublings(capacity, initial)
    ensures capacity >= initial
    ensures initial == 0 ==> capacity == 0
    decreases capacity
  {
    if capacity != initial {
      DoublingsBound(capacity / 2, initial);
    }
  }

  /** Doubling keeps every multiple of the initial capacity a multiple of it. */
  lemma {:induction false} DoublingsMultiple(capacity: nat, initial: nat, quantum: nat)
    requires Doublings(capacity, initial) && quantum > 0 && initial % quantum == 0
    ensures capacity % quantum == 0
    decreases capacity
  {
    if capacity != initial {
      DoublingsMultiple(capacity / 2, initial, quantum);
      DoubledAligned(capacity / 2, quantum);
      assert capacity == 2 * (capacity / 2);
    }
  }

  /** A reachable capacity doubled is reachable. */
  lemma DoublingsDouble(capacity: nat, initial: nat)
    requires Doublings(capacity, initial) && capacity > 0
    ensures Doublings(2 * capacity, initial)
  {
    DoublingsBound(capacity, initial);
    assert (2 * capacity) / 2 == capacity;
  }

  /** Reachable vertex capacities are aligned to the primitive quantum and
      at least the initial capacity. */
  lemma VerticesCapacityAligned(capacity: nat, quantum: nat)
    requires VerticesCapacityOk(capacity, quantum)
    ensures capacity >= InitialVerticesCapacity(quantum)
    ensures quantum == 0 <==> capacity == 0
    ensures quantum > 0 ==> capacity % quantum == 0
  {
    DoublingsBound(capacity, InitialVerticesCapacity(quantum));
    if quantum > 0 {
      assert InitialVerticesCapacity(quantum) == 1024 * quantum;
      MultipleMod(1024, quantum);
      DoublingsMultiple(capacity, InitialVerticesCapacity(quantum), quantum);
    }
  }

  /** Reachable index capacities are whole multiples of the initial one. */
  lemma IndicesCapacityAligned(capacity: nat)
    requires IndicesCapacityOk(capacity)
    ensures capacity >= InitialIndicesCapacity
    ensures capacity % InitialIndicesCapacity == 0
  {
    DoublingsBound(capacity, InitialIndicesCapacity);
    DoublingsMultiple(capacity, InitialIndicesCapacity, InitialIndicesCapacity);
  }

  /** Quotient and remainder are determined by any decomposition a == m * q + r
      with 0 <= r < q. */
  lemma DivModUnique(a: int, q: int, m: int, r: int)
    requires q > 0 && 0 <= r < q && a == m * q + r
    ensures a / q == m && a % q == r
  {
    var t := m - a / q;
    assert t * q == a % q - r;
    MulBounds(t, q);
  }

  lemma MulBounds(t: int, q: int)
    requires q > 0
    ensures t >= 1 ==> t * q >= q
    ensures t <= -1 ==> t * q <= -q
  {
    if t >= 1 {
      assert (t - 1) * q >= 0;
    }
    if t <= -1 {
      assert (-t - 1) * q >= 0;
    }
  }

  lemma MultipleMod(k: nat, q: nat)
    requires q > 0
    ensures (k * q) % q == 0
  {
    DivModUnique(k * q, q, k, 0);
  }

  /** Growth of an aligned vertex capacity is an exact doubling: the
      correction branch never runs, alignment is kept, and the capacity never
      shrinks. When the demand is less than twice the old capacity, the grown
      capacity covers it. */
  lemma NextVerticesCapacityOk(vertexI: nat, quantum: nat, capacity: nat)
    requires quantum > 0 && VerticesCapacityOk(capacity, quantum)
    ensures var r := NextVerticesCapacity(vertexI, quantum, capacity);
      && VerticesCapacityOk(r, quantum)
      && r == (if (vertexI + 1) * quantum >= capacity then 2 * capacity else capacity)
      && r >= capacity
      && ((vertexI + 1) * quantum < 2 * capacity ==> (vertexI + 1) * quantum < r)
  {
    VerticesCapacityAligned(capacity, quantum);
    DoubledAligned(capacity, quantum);
    assert GrownVerticesCapacity(capacity, quantum) == 2 * capacity;
    DoublingsDouble(capacity, InitialVerticesCapacity(quantum));
  }

  lemma DoubledAligned(capacity: nat, quantum: nat)
    requires quantum > 0 && capacity % quantum == 0
    ensures (2 * capacity) % quantum == 0
  {
    var k := capacity / quantum;
    DivModUnique(capacity, quantum, k, 0);
    assert 2 * capacity == (2 * k) * quantum;
    MultipleMod(2 * k, quantum);
  }

  /** Growth of a reachable index capacity is an exact doubling: the
      correction branch never runs, the capacity stays a power-of-two multiple
      of the initial one, and when the indices written take less than twice
      the old capacity, the grown capacity has room beyond them. */
  lemma NextIndicesCapacityOk(indicesCount: nat, capacity: nat)
    requires IndicesCapacityOk(capacity)
    ensures var r := NextIndicesCapacity(indicesCount, capacity);
      && IndicesCapacityOk(r)
      && r == (if indicesCount * 4 >= capacity then 2 * capacity else capacity)
      && r >= capacity
      && (indicesCount * 4 < 2 * capacity ==> indicesCount * 4 < r)
  {
    IndicesCapacityAligned(capacity);
    var k := capacity / InitialIndicesCapacity;
    assert capacity == k * InitialIndicesCapacity;
    assert 2 * capacity == (2 * k) * InitialIndicesCapacity;
    assert (2 * capacity) % 3 == 0;
    DoublingsDouble(capacity, InitialIndicesCapacity);
  }

  /** Were the vertex correction ever to run, it would not round up to a
      multiple of the quantum: doubled + doubled % quantum is aligned exactly
      when the remainder is half the quantum. */
  lemma VerticesCorrectionMisaligns(capacity: nat, quantum: nat)
    requires quantum > 0 && (2 * capacity) % quantum != 0
    ensures GrownVerticesCapacity(capacity, quantum) % quantum == 0
        <==> 2 * ((2 * capacity) % quantum) == quantum
  {
    var d := 2 * capacity;
    var k, rem := d / quantum, d % quantum;
    assert d + rem == k * quantum + 2 * rem;
    ModShift(k, quantum, 2 * rem);
    assert GrownVerticesCapacity(capacity, quantum) % quantum == (2 * rem) % quantum;
    if 2 * rem < quantum {
      DivModUnique(2 * rem, quantum, 0, 2 * rem);
    } else {
      DivModUnique(2 * rem, quantum, 1, 2 * rem - quantum);
    }
  }

  lemma ModShift(k: nat, q: nat, x: nat)
    requires q > 0
    ensures (k * q + x) % q == x % q
  {
    assert (k + x / q) * q == k * q + (x / q) * q;
    DivModUnique(k * q + x, q, k + x / q, x % q);
  }

  /** Where the index growth check writes first and grows afterwards, an
      emission of n indices stays inside the buffer when the count before it
      is a multiple of n, the count left room after the last growth check,
      and the capacity holds a whole number of such emissions. */
  lemma EmissionFits(indicesCount: nat, capacity: nat, n: nat)
    requires n > 0 && capacity % (4 * n) == 0 && indicesCount % n == 0
    requires indicesCount * 4 < capacity
    ensures indicesCount + n <= capacity / 4
  {
    var q := capacity / (4 * n);
    var m := indicesCount / n;
    assert capacity == (4 * n) * q;
    assert indicesCount == n * m;
    assert (4 * n) * m < (4 * n) * q;
    assert m + 1 <= q;
    assert n * (m + 1) <= n * q;
    assert capacity / 4 == n * q;
  }

  /** Hence a mesh that only emits lines, only triangles, or only quads never
      writes past its index buffer. */
  lemma UniformEmissionsFit(indicesCount: nat, capacity: nat, n: nat)
    requires IndicesCapacityOk(capacity)
    requires n == 2 || n == 3 || n == 6
    requires indicesCount % n == 0 && indicesCount * 4 < capacity
    ensures indicesCount + n <= capacity / 4
  {
    IndicesCapacityAligned(capacity);
    var k := capacity / InitialIndicesCapacity;
    assert capacity == k * InitialIndicesCapacity;
    assert InitialIndicesCapacity == (4 * n) * (InitialIndicesCapacity / (4 * n));
    assert capacity == (4 * n) * (k * (InitialIndicesCapacity / (4 * n)));
    MultipleMod(k * (InitialIndicesCapacity / (4 * n)), 4 * n);
    EmissionFits(indicesCount, capacity, n);
  }

  /** But mixing primitives can overrun: at every reachable capacity, the
      count three short of full is a valid state after a growth check (a
      multiple of 3 with room left), and a quad emitted there writes three
      indices past the end before the growth check runs. */
  lemma QuadAfterTrianglesOverruns(capacity: nat)
    requires IndicesCapacityOk(capacity)
    ensures var indicesCount := capacity / 4 - 3;
      && indicesCount % 3 == 0
      && indicesCount * 4 < capacity
      && indicesCount + 6 == capacity / 4 + 3
  {
    IndicesCapacityAligned(capacity);
    var k := capacity / InitialIndicesCapacity;
    assert capacity == k * InitialIndicesCapacity;
    assert capacity / 4 == 3 * (512 * k);
    assert capacity / 4 - 3 == 3 * (512 * k - 1);
  }

  /** At the initial vertex capacity of 1024 primitives, the ordinal-keyed
      test first fires at vertex 1023: the buffer then holds 1023 vertices of
      its 3072, about a third of it. */
  lemma InitialVertexGrowthOrdinal(stride: nat, vertexI: nat)
    requires stride > 0
    ensures (vertexI + 1) * (3 * stride) >= InitialVerticesCapacity(3 * stride) <==> vertexI >= 1023
  {
    assert (vertexI + 1) * (3 * stride) - InitialVerticesCapacity(3 * stride)
        == (vertexI + 1 - 1024) * (3 * stride);
    MulBounds(vertexI + 1 - 1024, 3 * stride);
  }

  /** n + 1 primitive quanta of three strides are three times the bytes of
      n vertices plus one stride. */
  lemma QuantaAsBytes(n: nat, stride: nat)
    ensures (n + 1) * (3 * stride) == 3 * (n * stride + stride)
  {
  }

  /** The vertex writers never check capacity; they rely on the last growth
      check. If that check, at ordinal checkedAt, left room for the primitive
      after it, and every vertex takes exactly stride bytes, then a write of
      w bytes that completes at most the current vertex stays inside the
      buffer for every ordinal up to 3 * checkedAt + 1; the next one may not. */
  lemma VertexWriteFits(checkedAt: nat, vertexI: nat, stride: nat, written: nat, w: nat, capacity: nat)
    requires written + w <= stride
    requires (checkedAt + 1) * (3 * stride) < capacity
    requires vertexI <= 3 * checkedAt + 1
    ensures vertexI * stride + written + w < capacity
  {
    assert (vertexI + 1) * stride == vertexI * stride + stride;
    MulMonotone(vertexI + 1, 3 * checkedAt + 3, stride);
    assert (3 * checkedAt + 3) * stride == (checkedAt + 1) * (3 * stride);
  }

  lemma MulMonotone(a: nat, b: nat, c: nat)
    requires a <= b
    ensures a * c <= b * c
  {
    assert b * c - a * c == (b - a) * c;
  }
}
