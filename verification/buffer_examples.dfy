/** The data-movement examples run against the buffer store: a whole write
    followed by a rectangular read, sub-buffer windows and their release
    order, and a copy followed by a map, a host copy and an unmap.  Kernel
    sources are not part of the model: a kernel launch is an arbitrary
    rewrite of the buffers it is given, passed in as a parameter.  The
    command queues here are in-order, so commands take effect in the order
    they are enqueued. */
module BufferExamples {
  import opened Bits
  import opened Status
  import opened Buffers
  import opened Rect
  import opened Launch
  import opened Checks

  const FloatBytes: nat := 4

  /** n zeros. */
  function Zeros(n: nat): (r: seq<int>)
    ensures |r| == n && forall i :: 0 <= i < n ==> r[i] == 0
  {
    seq(n, i => 0)
  }

  // ---------------------------------------------------------------------
  // Whole write, then rectangular read of a 4x4 block of a 10x8 matrix

  /** The block copied from the 10-float-wide matrix: rows 3..6, columns
      5..8 of the buffer go to rows 1..4, columns 1..4 of the host array.
      Origins and region are the call's byte values divided by the float
      width; the slice pitches are 0 and the depth 1. */
  const BufferOrigin: Point := Point(5 * FloatBytes / FloatBytes, 3, 0)
  const HostOrigin: Point := Point(1 * FloatBytes / FloatBytes, 1, 0)
  const Region: Point := Point(4 * FloatBytes / FloatBytes, 4, 1)
  const RowPitch: nat := 10 * FloatBytes / FloatBytes

  /** Host index of row r, column c of the copied block. */
  function BlockIndex(r: nat, c: nat): nat
  {
    (1 + r) * 10 + 1 + c
  }

  /** Index i of the 10-wide host matrix lies in rows 1..4, columns 1..4. */
  predicate InBlock(i: nat)
  {
    1 <= i / 10 <= 4 && 1 <= i % 10 <= 4
  }

  /** The host array the example ends with: zero except for the copied
      block, whose cell (r, c) holds buffer element (3 + r) * 10 + 5 + c. */
  predicate RectResult(host: seq<int>)
  {
    |host| == 80
    && (forall r: nat, c: nat :: r < 4 && c < 4 ==> BlockIndex(r, c) < 80 && host[BlockIndex(r, c)] == (3 + r) * 10 + 5 + c)
    && (forall i :: 0 <= i < 80 && !InBlock(i) ==> host[i] == 0)
  }

  /** Host and buffer layouts after the zero slice pitches are resolved. */
  const HostLayout: Layout := Layout(HostOrigin, 10, 40)
  const BufferLayout: Layout := Layout(BufferOrigin, 10, 40)

  /** The example read applied to a buffer holding `contents`. */
  function ExampleRead(contents: seq<int>): (r: Result<seq<int>>)
    requires |contents| == 80
    ensures r.Ok? && |r.value| == 80
    ensures contents == Range(80) ==> RectResult(r.value)
  {
    assert Resolve(HostOrigin, Region, RowPitch, 0) == HostLayout;
    assert Resolve(BufferOrigin, Region, RowPitch, 0) == BufferLayout;
    assert Extent(HostLayout, Region) == 45;
    assert Extent(BufferLayout, Region) == 69;
    var r := ReadRect(contents, Zeros(80), BufferOrigin, HostOrigin, Region, RowPitch, 0, RowPitch, 0);
    if contents == Range(80) then
      RectExample(r.value);
      r
    else r
  }

  /** A host cell outside the block is not in the box the read copies. */
  lemma OutsideBlock(i: nat)
    requires i < 80 && !InBlock(i)
    ensures !Covered(HostLayout, Region, i)
  {
    if Covered(HostLayout, Region, i) {
      var j := i - 11;
      assert j / 40 == 0;
      assert j % 40 == j;
      var y, x := j / 10, j % 10;
      assert i == (1 + y) * 10 + (1 + x);
      DivUnique(i, 10, 1 + y, 1 + x);
      assert false;
    }
  }

  /** The block lands where the example prints it, and nothing else moves. */
  lemma RectExample(host: seq<int>)
    requires ReadRect(Range(80), Zeros(80), BufferOrigin, HostOrigin, Region, RowPitch, 0, RowPitch, 0) == Ok(host)
    ensures RectResult(host)
  {
    assert Resolve(HostOrigin, Region, RowPitch, 0) == HostLayout;
    assert Resolve(BufferOrigin, Region, RowPitch, 0) == BufferLayout;
    var ramp := Range(80);
    forall r: nat, c: nat | r < 4 && c < 4
      ensures BlockIndex(r, c) < 80 && host[BlockIndex(r, c)] == (3 + r) * 10 + 5 + c
    {
      assert InRegion(Region, c, r, 0);
      assert At(HostLayout, c, r, 0) == BlockIndex(r, c);
      assert At(BufferLayout, c, r, 0) == (3 + r) * 10 + 5 + c;
      assert host[At(HostLayout, c, r, 0)] == ramp[At(BufferLayout, c, r, 0)];
    }
    forall i | 0 <= i < 80 && !InBlock(i)
      ensures host[i] == 0
    {
      OutsideBlock(i);
    }
  }

  /** Both sides of the read stay inside their 80-float (320-byte) arrays:
      the last byte touched is 276 in the buffer and 180 on the host, and a
      zero slice pitch with depth 1 reads a single slice. */
  lemma RectBounds()
    ensures FloatBytes * Extent(Resolve(BufferOrigin, Region, RowPitch, 0), Region) == 276
    ensures FloatBytes * Extent(Resolve(HostOrigin, Region, RowPitch, 0), Region) == 180
    ensures 276 <= FloatBytes * 80 && 180 <= FloatBytes * 80
    ensures Resolve(BufferOrigin, Region, RowPitch, 0).slicePitch == Region.y * RowPitch
  {
  }

  /** The C version: the buffer is created from `full_matrix`, the kernel
      may rewrite it, the blocking write restores `full_matrix`, and the
      rectangular read fills the block of `zero_matrix`. */
  method BufferTestC(kernelOut: seq<int>) returns (host: seq<int>, final: Store)
    requires |kernelOut| == 80
    ensures RectResult(host)
    ensures Valid(final)
  {
    EmptyValid();
    var full := Range(80);
    var created := CopyFromHost(Empty, full, 80, FloatBytes).value;
    var s, buf := created.store, created.id;
    // The task, then the blocking write of the whole matrix.
    s := Write(s, buf, 0, kernelOut).value;
    s := Write(s, buf, 0, full).value;
    assert Contents(s, buf) == full by {
      assert Contents(s, buf)[0..80] == full;
    }
    var read := ExampleRead(Read(s, buf, 0, 80).value);
    host, final := read.value, s;
  }

  /** A `cl::size_t<3>` as the C++ binding of the time defines it: a
      fixed-capacity vector that `push_back` fills from empty. */
  function PushBack(v: seq<nat>, x: nat): (r: Result<seq<nat>>)
    ensures r.Ok? <==> |v| < 3
    ensures r.Ok? ==> r.value == v + [x]
  {
    if |v| < 3 then Ok(v + [x]) else Fail(InvalidValue)
  }

  /** Three pushes give exactly the three components, in order. */
  lemma ThreePushes(a: nat, b: nat, c: nat)
    ensures PushBack([], a).Ok? && PushBack([a], b).Ok? && PushBack([a, b], c).Ok?
    ensures PushBack([a, b], c).value == [a, b, c]
    ensures PushBack([a, b, c], 0).Fail?
  {
  }

  /** The C++ version: the buffer starts as a copy of `zeroMatrix`, the task
      runs, the blocking write replaces everything with `fullMatrix`, and
      the rectangle is read back with origins built by `push_back`. */
  method BufferTestCpp(kernelOut: seq<int>) returns (host: seq<int>, final: Store)
    requires |kernelOut| == 80
    ensures RectResult(host)
    ensures Valid(final)
  {
    EmptyValid();
    var created := CopyFromHost(Empty, Zeros(80), 80, FloatBytes).value;
    var s, buf := created.store, created.id;
    s := Write(s, buf, 0, kernelOut).value;
    s := Write(s, buf, 0, Range(80)).value;
    assert Contents(s, buf) == Range(80) by {
      assert Contents(s, buf)[0..80] == Range(80);
    }
    ThreePushes(5 * FloatBytes, 3, 0);
    ThreePushes(1 * FloatBytes, 1, 0);
    ThreePushes(4 * FloatBytes, 4, 1);
    var read := ExampleRead(Read(s, buf, 0, 80).value);
    host, final := read.value, s;
  }

  // ---------------------------------------------------------------------
  // Sub-buffers

  /** Result of the sub-buffer examples: reported sizes in bytes. */
  datatype SubSizes = SubSizes(mainBytes: nat, subBytes: nat)

  /** The region check of the examples' sub-buffers, in bytes. */
  predicate AlignedOrigin(originBytes: nat, align: nat)
    requires align >= 1
  {
    originBytes % align == 0
  }

  /** Main buffer of `n` floats from `data`, sub-buffer of `count` floats at
      element `origin`, then both sizes queried.  `align` is the device's
      base-address alignment in bytes; creation fails when the origin is
      not aligned to it. */
  method SubBufferSizes(data: seq<int>, n: nat, origin: nat, count: nat, align: nat)
    returns (r: Result<SubSizes>, final: Store, main: nat, sub: nat)
    requires |data| == n && n >= 1 && 1 <= count && origin + count <= n && align >= 1
    ensures r.Ok? <==> AlignedOrigin(origin * FloatBytes, align)
    ensures r.Fail? ==> r.code == MisalignedSubBufferOffset
    ensures r.Ok? ==> r.value == SubSizes(n * FloatBytes, count * FloatBytes)
    ensures r.Ok? ==> Valid(final) && main in final.objs && sub in final.objs
    ensures r.Ok? ==> Contents(final, sub) == data[origin..origin + count]
    ensures r.Ok? ==> final.objs[sub].root == main
  {
    EmptyValid();
    var created := CopyFromHost(Empty, data, n, FloatBytes).value;
    final, main, sub := created.store, created.id, 0;
    assert Contents(final, main) == data;
    var made := SubBuffer(final, main, origin, count, align);
    if made.Fail? {
      return Fail(made.code), final, main, sub;
    }
    final, sub := made.value.store, made.value.id;
    var mainSize := SizeBytes(final, main).value;
    var subSize := SizeBytes(final, sub).value;
    r := Ok(SubSizes(mainSize, subSize));
  }

  /** An origin that is not a multiple of 16 bytes is not a multiple of
      any power-of-two alignment of at least 16 bytes. */
  lemma NotAligned(originBytes: nat, align: nat)
    requires IsPow2(align) && align >= 16 && originBytes % 16 != 0
    ensures !AlignedOrigin(originBytes, align)
  {
    IsPow2OfPow2(4);
    assert Pow2(4) == 16;
    Pow2Divides(16, align);
    if originBytes % align == 0 {
      DividesTransitive(originBytes, align, 16);
    }
  }

  /** buffer_check as written: 100 floats, sub-buffer of elements 30..49,
      byte origin 120.  On a device whose base-address alignment is a power
      of two of at least 16 bytes the creation fails. */
  method BufferCheck(data: seq<int>, align: nat) returns (r: Result<SubSizes>, final: Store)
    requires |data| == 100 && align >= 1
    ensures IsPow2(align) && align >= 16 ==> r == Fail(MisalignedSubBufferOffset)
    ensures r.Ok? ==> r.value == SubSizes(400, 80)
    ensures r.Ok? <==> 120 % align == 0
  {
    var main, sub;
    r, final, main, sub := SubBufferSizes(data, 100, 30, 20, align);
    if IsPow2(align) && align >= 16 {
      NotAligned(120, align);
    }
  }

  /** sub_buffer as written: 200 floats, sub-buffer of elements 70..89,
      byte origin 280, with the same failure on such a device. */
  method SubBufferExample(data: seq<int>, align: nat) returns (r: Result<SubSizes>, final: Store)
    requires |data| == 200 && align >= 1
    ensures IsPow2(align) && align >= 16 ==> r == Fail(MisalignedSubBufferOffset)
    ensures r.Ok? ==> r.value == SubSizes(800, 80)
    ensures r.Ok? <==> 280 % align == 0
  {
    var main, sub;
    r, final, main, sub := SubBufferSizes(data, 200, 70, 20, align);
    if IsPow2(align) && align >= 16 {
      NotAligned(280, align);
    }
  }

  /** The element a window meant to start at `origin` starts at when it
      is moved down to the nearest boundary of `align` bytes. */
  function AlignDown(origin: nat, align: nat): (o: nat)
    requires align >= 1
    ensures o <= origin && AlignedOrigin(o * FloatBytes, align)
    ensures forall k :: o < k <= origin ==> !AlignedOrigin(k * FloatBytes, align)
  {
    if origin == 0 || AlignedOrigin(origin * FloatBytes, align) then origin
    else AlignDown(origin - 1, align)
  }

  /** Both examples with their windows moved down to an aligned element
      are created on every device, whatever its alignment, and report the
      sizes the examples print. */
  method AlignedSubBuffers(small: seq<int>, large: seq<int>, align: nat)
    returns (firstOrigin: nat, first: Result<SubSizes>, secondOrigin: nat, second: Result<SubSizes>)
    requires |small| == 100 && |large| == 200 && align >= 1
    ensures firstOrigin == AlignDown(30, align) && secondOrigin == AlignDown(70, align)
    ensures first == Ok(SubSizes(400, 80))
    ensures second == Ok(SubSizes(800, 80))
  {
    firstOrigin := AlignDown(30, align);
    secondOrigin := AlignDown(70, align);
    var f1, m1, s1, f2, m2, s2;
    first, f1, m1, s1 := SubBufferSizes(small, 100, firstOrigin, 20, align);
    second, f2, m2, s2 := SubBufferSizes(large, 200, secondOrigin, 20, align);
  }

  /** On a device with 128-byte alignment (1024 bits) the windows move to
      elements 0 and 64. */
  lemma AlignedOrigins128()
    ensures AlignDown(30, 128) == 0 && AlignDown(70, 128) == 64
  {
    assert AlignedOrigin(64 * FloatBytes, 128);
    assert AlignedOrigin(0, 128);
  }

  /** Releasing the parent before the sub-buffer, as buffer_check does,
      keeps the parent's storage while the sub-buffer lives, and frees it
      with the sub-buffer's release. */
  lemma ReleaseParentFirst(s: Store, main: nat, sub: nat)
    requires Valid(s) && main in s.objs && sub in s.objs && main != sub
    requires !s.objs[main].isSub && s.objs[main].refs == 1
    requires s.objs[sub].isSub && s.objs[sub].root == main && s.objs[sub].refs == 1
    requires forall k :: k in s.objs ==> k == main || k == sub
    ensures Release(s, main).Ok?
    ensures var s1 := Release(s, main).value;
      main !in s1.objs && sub in s1.objs && main in s1.mem && Contents(s1, sub) == Contents(s, sub)
    ensures var s1 := Release(s, main).value;
      Release(s1, sub).Ok? && main !in Release(s1, sub).value.mem && Release(s1, sub).value.objs == map[]
  {
    var s1 := Release(s, main).value;
    assert Referenced(s.objs - {main}, main) by {
      assert sub in s.objs - {main};
    }
    var s2 := Release(s1, sub).value;
    assert s1.objs - {sub} == map[];
    assert !Referenced(s1.objs - {sub}, main);
  }

  /** In sub_buffer the kernel's argument 0 is the parent and argument 1 the
      sub-buffer, which sees exactly elements 70..89 of it. */
  method SubBufferArgs(data: seq<int>, align: nat) returns (r: Result<map<nat, ArgValue>>, final: Store)
    requires |data| == 200 && align >= 1
    ensures r.Ok? <==> AlignedOrigin(280, align)
    ensures r.Ok? ==> 0 in r.value && 1 in r.value && r.value[0].BufferArg? && r.value[1].BufferArg?
    ensures r.Ok? ==> Valid(final) && r.value[0].buffer in final.objs && r.value[1].buffer in final.objs
    ensures r.Ok? ==> Contents(final, r.value[1].buffer) == data[70..90]
    ensures r.Ok? ==> final.objs[r.value[1].buffer].root == r.value[0].buffer
  {
    var sizes, main, sub;
    sizes, final, main, sub := SubBufferSizes(data, 200, 70, 20, align);
    if sizes.Fail? {
      return Fail(sizes.code), final;
    }
    r := Ok(map[0 := BufferArg(main), 1 := BufferArg(sub)]);
  }

  // ---------------------------------------------------------------------
  // Copy, map, host copy, unmap

  /** map_copy (both the C and the C++ version): buffers one and two are
      created from `i` and `-i`, the task may rewrite both, buffer one is
      copied over buffer two in full, buffer two is mapped for reading, the
      host copies the mapping out, and the mapping is released. */
  method MapCopy(kernelOne: seq<int>, kernelTwo: seq<int>) returns (result: seq<int>, final: Store, one: nat, two: nat)
    requires |kernelOne| == 100 && |kernelTwo| == 100
    ensures result == kernelOne
    ensures Valid(final) && one in final.objs && two in final.objs
    ensures Contents(final, one) == kernelOne && Contents(final, two) == kernelOne
    ensures final.maps == map[]
    ensures kernelOne == Range(100) ==> forall i :: 0 <= i < 100 ==> result[i] == i
  {
    EmptyValid();
    var dataOne := Range(100);
    var dataTwo := seq(100, i => -i);
    var c1 := CopyFromHost(Empty, dataOne, 100, FloatBytes).value;
    var c2 := CopyFromHost(c1.store, dataTwo, 100, FloatBytes).value;
    var s := c2.store;
    one, two := c1.id, c2.id;
    // The task.
    s := Write(s, one, 0, kernelOne).value;
    s := Write(s, two, 0, kernelTwo).value;
    assert Contents(s, one) == kernelOne by {
      WriteFrame(Write(c2.store, one, 0, kernelOne).value, two, 0, kernelTwo, one);
      assert Contents(Write(c2.store, one, 0, kernelOne).value, one)[0..100] == kernelOne;
    }
    // The copy of 400 bytes from offset 0 to offset 0.
    WholeCopy(s, one, two);
    s := Copy(s, one, two, 0, 0, 100).value;
    // Blocking map for reading, memcpy, unmap.
    var m := Map(s, two, 0, 100).value;
    assert m.data == Contents(s, two);
    result := m.data;
    MapThenUnmap(s, two, 0, 100);
    final := Unmap(m.store, two, m.ptr).value;
    assert final.maps == s.maps;
  }
}
