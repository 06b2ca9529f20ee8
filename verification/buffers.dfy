/** An abstract store of buffer objects, as the data-movement examples use
    it: creation from host data, whole and partial reads and writes, copies
    between buffers, sub-buffer windows (section 5.2.1 of the OpenCL 1.1
    specification), reference-counted release, and map/unmap pairs.

    Contents are measured in elements of the host array type (floats, ints,
    shorts); each buffer records its element width in bytes so that sizes
    and sub-buffer origins can be reported and checked in bytes as the API
    does.  Element values are modelled as integers: the examples only move
    and compare them. */
module Buffers {
  import opened Status

  /** A live memory object: a window [origin, origin+count) of the storage
      of `root`.  A buffer is its own root with origin 0; a sub-buffer
      aliases part of its parent's storage. */
  datatype Obj = Obj(root: nat, origin: nat, count: nat, elemBytes: nat, isSub: bool, refs: nat)

  /** A mapped region handed to the host, remembered until unmapped. */
  datatype Mapping = Mapping(buffer: nat, offset: nat, count: nat)

  /** Storage per root buffer, live objects, and outstanding mappings. */
  datatype Store = Store(mem: map<nat, seq<int>>, objs: map<nat, Obj>, maps: map<nat, Mapping>, next: nat)

  const Empty: Store := Store(map[], map[], map[], 0)

  /** The store's shape: every live object lies inside storage that is
      still allocated, a buffer is its own root and spans all of its
      storage, and ids and pointers are below `next`.  Storage may outlive
      its buffer's last handle while sub-buffers still alias it. */
  predicate Valid(s: Store)
  {
    (forall id :: id in s.mem ==> id < s.next)
    && (forall id :: id in s.objs ==>
          var o := s.objs[id];
          id < s.next && o.refs >= 1
          && o.root in s.mem && o.origin + o.count <= |s.mem[o.root]|
          && (!o.isSub ==> o.root == id && o.origin == 0 && o.count == |s.mem[id]|)
          && (o.isSub ==> id !in s.mem))
    && (forall p :: p in s.maps ==> p < s.next)
  }

  lemma EmptyValid()
    ensures Valid(Empty)
  {
  }

  /** `base` with `values` written from position `at` on. */
  function Splice(base: seq<int>, at: nat, values: seq<int>): (r: seq<int>)
    requires at + |values| <= |base|
    ensures |r| == |base|
    ensures r[at..at + |values|] == values
    ensures forall i :: 0 <= i < |base| && !(at <= i < at + |values|) ==> r[i] == base[i]
  {
    base[..at] + values + base[at + |values|..]
  }

  /** A window of a window is a window of the whole. */
  lemma SliceOfSlice(a: seq<int>, i: nat, j: nat, k: nat, l: nat)
    requires i <= j <= |a| && k <= l <= j - i
    ensures a[i..j][k..l] == a[i + k..i + l]
  {
    assert forall t :: 0 <= t < l - k ==> a[i..j][k..l][t] == a[i + k + t];
  }

  /** A new buffer object whose storage starts as `init`; the caller has
      already checked the size. */
  datatype Created = Created(store: Store, id: nat)

  /** `clCreateBuffer`: a zero size is rejected; otherwise a fresh buffer
      whose storage is `init`. */
  function CreateBuffer(s: Store, init: seq<int>, elemBytes: nat): (r: Result<Created>)
    requires Valid(s)
    ensures |init| == 0 || elemBytes == 0 <==> r == Fail(InvalidBufferSize)
    ensures r.Ok? ==> Valid(r.value.store) && r.value.id !in s.objs && r.value.id in r.value.store.objs
    ensures r.Ok? ==> Contents(r.value.store, r.value.id) == init
    ensures r.Ok? ==> forall id :: id in s.objs ==> id in r.value.store.objs && Contents(r.value.store, id) == Contents(s, id)
    ensures r.Ok? ==> r.value.store.maps == s.maps
  {
    if |init| == 0 || elemBytes == 0 then Fail(InvalidBufferSize)
    else
      var id := s.next;
      var s' := Store(s.mem[id := init], s.objs[id := Obj(id, 0, |init|, elemBytes, false, 1)], s.maps, s.next + 1);
      Ok(Created(s', id))
  }

  /** `CL_MEM_COPY_HOST_PTR`: the first n elements of the host array are
      copied in, so the host array must hold at least n elements. */
  function CopyFromHost(s: Store, host: seq<int>, n: nat, elemBytes: nat): (r: Result<Created>)
    requires Valid(s)
    requires |host| >= n
    ensures r.Ok? <==> n > 0 && elemBytes > 0
    ensures r.Ok? ==> Valid(r.value.store) && r.value.id in r.value.store.objs
    ensures r.Ok? ==> Contents(r.value.store, r.value.id) == host[..n]
    ensures r.Ok? ==> r.value.id !in s.objs && r.value.store.maps == s.maps
    ensures r.Ok? ==> forall id :: id in s.objs ==> id in r.value.store.objs && Contents(r.value.store, id) == Contents(s, id)
  {
    CreateBuffer(s, host[..n], elemBytes)
  }

  /** What an object currently shows: its window of the root's storage. */
  function Contents(s: Store, id: nat): (c: seq<int>)
    requires Valid(s) && id in s.objs
    ensures |c| == s.objs[id].count
  {
    var o := s.objs[id];
    s.mem[o.root][o.origin..o.origin + o.count]
  }

  /** `CL_MEM_SIZE`: the object's size in bytes. */
  function SizeBytes(s: Store, id: nat): (r: Result<nat>)
    requires Valid(s)
    ensures r.Ok? <==> id in s.objs
    ensures r.Ok? ==> r.value == s.objs[id].count * s.objs[id].elemBytes
  {
    if id !in s.objs then Fail(InvalidMemObject)
    else Ok(s.objs[id].count * s.objs[id].elemBytes)
  }

  /** `clEnqueueReadBuffer` of count elements from offset. */
  function Read(s: Store, id: nat, offset: nat, count: nat): (r: Result<seq<int>>)
    requires Valid(s)
    ensures id !in s.objs ==> r == Fail(InvalidMemObject)
    ensures id in s.objs && offset + count > s.objs[id].count ==> r == Fail(InvalidValue)
    ensures r.Ok? <==> id in s.objs && offset + count <= s.objs[id].count
    ensures r.Ok? ==> r.value == Contents(s, id)[offset..offset + count]
  {
    if id !in s.objs then Fail(InvalidMemObject)
    else if offset + count > s.objs[id].count then Fail(InvalidValue)
    else
      var o := s.objs[id];
      SliceOfSlice(s.mem[o.root], o.origin, o.origin + o.count, offset, offset + count);
      Ok(s.mem[o.root][o.origin + offset..o.origin + offset + count])
  }

  /** Element i of object b lies in the n-element window of object `id`
      that starts at `offset`: same storage, and a storage position inside
      the window. */
  predicate InWindow(s: Store, id: nat, offset: nat, n: nat, b: nat, i: nat)
    requires Valid(s) && id in s.objs && b in s.objs
  {
    var o := s.objs[id];
    s.objs[b].root == o.root && o.origin + offset <= s.objs[b].origin + i < o.origin + offset + n
  }

  /** `clEnqueueWriteBuffer` of the host values from offset: the root's
      storage changes in exactly the written window. */
  function Write(s: Store, id: nat, offset: nat, values: seq<int>): (r: Result<Store>)
    requires Valid(s)
    ensures id !in s.objs ==> r == Fail(InvalidMemObject)
    ensures r.Ok? <==> id in s.objs && offset + |values| <= s.objs[id].count
    ensures r.Ok? ==> Valid(r.value) && r.value.objs == s.objs && r.value.maps == s.maps
    ensures r.Ok? ==> Contents(r.value, id)[offset..offset + |values|] == values
    ensures r.Ok? ==> forall b, i ::
      (b in s.objs && 0 <= i < s.objs[b].count && !InWindow(s, id, offset, |values|, b, i) ==> Contents(r.value, b)[i] == Contents(s, b)[i])
  {
    if id !in s.objs then Fail(InvalidMemObject)
    else if offset + |values| > s.objs[id].count then Fail(InvalidValue)
    else
      var o := s.objs[id];
      var at := o.origin + offset;
      var s' := s.(mem := s.mem[o.root := Splice(s.mem[o.root], at, values)]);
      assert Contents(s', id)[offset..offset + |values|] == s'.mem[o.root][at..at + |values|];
      Ok(s')
  }

  /** Two windows of the same storage share an element. */
  predicate Overlap(s: Store, a: nat, aOff: nat, b: nat, bOff: nat, count: nat)
    requires Valid(s) && a in s.objs && b in s.objs
  {
    s.objs[a].root == s.objs[b].root && count > 0
    && s.objs[a].origin + aOff < s.objs[b].origin + bOff + count
    && s.objs[b].origin + bOff < s.objs[a].origin + aOff + count
  }

  /** `clEnqueueCopyBuffer`: both windows must be in bounds and must not
      overlap in the same storage. */
  function Copy(s: Store, src: nat, dst: nat, srcOff: nat, dstOff: nat, count: nat): (r: Result<Store>)
    requires Valid(s)
    ensures src !in s.objs || dst !in s.objs ==> r == Fail(InvalidMemObject)
    ensures r.Ok? <==> (src in s.objs && dst in s.objs
      && srcOff + count <= s.objs[src].count && dstOff + count <= s.objs[dst].count
      && !Overlap(s, src, srcOff, dst, dstOff, count))
    ensures r.Ok? ==> Valid(r.value) && r.value.objs == s.objs && r.value.maps == s.maps
    ensures r.Ok? ==> Contents(r.value, dst)[dstOff..dstOff + count] == Contents(s, src)[srcOff..srcOff + count]
    ensures r.Ok? ==> forall b, i ::
      (b in s.objs && 0 <= i < s.objs[b].count && !InWindow(s, dst, dstOff, count, b, i) ==> Contents(r.value, b)[i] == Contents(s, b)[i])
  {
    if src !in s.objs || dst !in s.objs then Fail(InvalidMemObject)
    else if srcOff + count > s.objs[src].count || dstOff + count > s.objs[dst].count then Fail(InvalidValue)
    else if Overlap(s, src, srcOff, dst, dstOff, count) then Fail(MemCopyOverlap)
    else
      var values := Read(s, src, srcOff, count).value;
      Write(s, dst, dstOff, values)
  }

  /** The sub-buffer region is acceptable: a live parent that is not itself
      a sub-buffer, a nonempty window inside it, and an origin whose byte
      offset is a multiple of the device alignment. */
  predicate RegionOk(s: Store, parent: nat, origin: nat, count: nat, align: nat)
    requires align >= 1
  {
    parent in s.objs && !s.objs[parent].isSub && count > 0
    && origin + count <= s.objs[parent].count && (origin * s.objs[parent].elemBytes) % align == 0
  }

  /** The store after adding the sub-buffer object. */
  function AddSub(s: Store, parent: nat, origin: nat, count: nat): (r: Created)
    requires Valid(s) && parent in s.objs && !s.objs[parent].isSub && origin + count <= s.objs[parent].count
    ensures Valid(r.store) && r.id !in s.objs && r.id in r.store.objs
    ensures r.store.mem == s.mem && r.store.maps == s.maps
    ensures r.store.objs[r.id].root == parent && r.store.objs[r.id].origin == origin
    ensures forall id :: id in s.objs ==> (id in r.store.objs && r.store.objs[id].root == s.objs[id].root
      && r.store.objs[id].origin == s.objs[id].origin && r.store.objs[id].count == s.objs[id].count)
  {
    var p := s.objs[parent];
    var id := s.next;
    var objs' := s.objs[id := Obj(parent, origin, count, p.elemBytes, true, 1)];
    Created(Store(s.mem, objs', s.maps, s.next + 1), id)
  }

  /** `clCreateSubBuffer` with a region given in elements; `align` is the
      device's base-address alignment in bytes.  The sub-buffer aliases the
      parent's storage. */
  function SubBuffer(s: Store, parent: nat, origin: nat, count: nat, align: nat): (r: Result<Created>)
    requires Valid(s) && align >= 1
    ensures parent !in s.objs || s.objs[parent].isSub ==> r == Fail(InvalidMemObject)
    ensures r.Ok? <==> RegionOk(s, parent, origin, count, align)
    ensures (RegionOk(s, parent, origin, count, 1) && !RegionOk(s, parent, origin, count, align))
      ==> r == Fail(MisalignedSubBufferOffset)
    ensures r.Ok? ==> Valid(r.value.store) && r.value.id !in s.objs && r.value.id in r.value.store.objs
    ensures r.Ok? ==> Contents(r.value.store, r.value.id) == Contents(s, parent)[origin..origin + count]
    ensures r.Ok? ==> forall id :: id in s.objs ==> id in r.value.store.objs && Contents(r.value.store, id) == Contents(s, id)
  {
    if parent !in s.objs || s.objs[parent].isSub then Fail(InvalidMemObject)
    else if count == 0 then Fail(InvalidBufferSize)
    else if origin + count > s.objs[parent].count then Fail(InvalidValue)
    else if (origin * s.objs[parent].elemBytes) % align != 0 then Fail(MisalignedSubBufferOffset)
    else
      var c := AddSub(s, parent, origin, count);
      assert Contents(c.store, c.id) == Contents(s, parent)[origin..origin + count];
      Ok(c)
  }

  /** Some live object still uses the storage of `root`. */
  predicate Referenced(objs: map<nat, Obj>, root: nat)
  {
    exists k :: k in objs && objs[k].root == root
  }

  /** The last handle of `id` goes away, and with it the storage when
      nothing else uses it. */
  function DropHandle(s: Store, id: nat): (s': Store)
    requires Valid(s) && id in s.objs
    ensures Valid(s') && id !in s'.objs && s'.objs == s.objs - {id}
    ensures forall b :: b in s'.objs ==> Contents(s', b) == Contents(s, b)
    ensures s.objs[id].root in s'.mem <==> Referenced(s.objs - {id}, s.objs[id].root)
  {
    var o := s.objs[id];
    var objs' := s.objs - {id};
    var mem' := if Referenced(objs', o.root) then s.mem else s.mem - {o.root};
    Store(mem', objs', s.maps, s.next)
  }

  /** `clReleaseMemObject`: drop one reference.  The handle dies at zero;
      its storage is freed only when no live buffer or sub-buffer uses it,
      so a parent released before its sub-buffer keeps its storage. */
  function Release(s: Store, id: nat): (r: Result<Store>)
    requires Valid(s)
    ensures r.Fail? <==> id !in s.objs
    ensures r.Ok? ==> Valid(r.value)
    ensures r.Ok? ==> (id in r.value.objs <==> s.objs[id].refs > 1)
    ensures r.Ok? ==> forall b :: b in s.objs && b != id ==>
      b in r.value.objs && r.value.objs[b] == s.objs[b] && Contents(r.value, b) == Contents(s, b)
    ensures r.Ok? ==> (s.objs[id].root in r.value.mem <==> s.objs[id].refs > 1 || Referenced(s.objs - {id}, s.objs[id].root))
  {
    if id !in s.objs then Fail(InvalidMemObject)
    else
      var o := s.objs[id];
      if o.refs > 1 then Ok(s.(objs := s.objs[id := o.(refs := o.refs - 1)]))
      else Ok(DropHandle(s, id))
  }

  /** A mapped pointer with the data the host sees through it. */
  datatype Mapped = Mapped(store: Store, ptr: nat, data: seq<int>)

  /** Blocking `clEnqueueMapBuffer` for reading: the host sees the window's
      current contents, and the mapping is recorded under a fresh pointer. */
  function Map(s: Store, id: nat, offset: nat, count: nat): (r: Result<Mapped>)
    requires Valid(s)
    ensures r.Ok? <==> id in s.objs && offset + count <= s.objs[id].count
    ensures r.Ok? ==> Valid(r.value.store) && r.value.ptr !in s.maps && r.value.ptr in r.value.store.maps
    ensures r.Ok? ==> r.value.data == Contents(s, id)[offset..offset + count]
    ensures r.Ok? ==> r.value.store.mem == s.mem && r.value.store.objs == s.objs
  {
    match Read(s, id, offset, count)
    case Fail(code) => Fail(code)
    case Ok(data) =>
      var ptr := s.next;
      Ok(Mapped(s.(maps := s.maps[ptr := Mapping(id, offset, count)], next := s.next + 1), ptr, data))
  }

  /** `clEnqueueUnmapMemObject` of a read mapping: the pointer must be an
      outstanding mapping, which it retires; storage is unchanged. */
  function Unmap(s: Store, id: nat, ptr: nat): (r: Result<Store>)
    requires Valid(s)
    ensures r.Ok? <==> ptr in s.maps && s.maps[ptr].buffer == id
    ensures r.Ok? ==> Valid(r.value) && r.value.mem == s.mem && r.value.objs == s.objs
    ensures r.Ok? ==> r.value.maps == s.maps - {ptr}
  {
    if ptr !in s.maps || s.maps[ptr].buffer != id then Fail(InvalidValue)
    else Ok(s.(maps := s.maps - {ptr}))
  }

  // ---------------------------------------------------------------------
  // Properties of the store

  /** A read of the window just written returns the written values. */
  lemma ReadAfterWrite(s: Store, id: nat, offset: nat, values: seq<int>)
    requires Valid(s) && Write(s, id, offset, values).Ok?
    ensures Read(Write(s, id, offset, values).value, id, offset, |values|) == Ok(values)
  {
  }

  /** A write changes nothing outside its own storage. */
  lemma WriteFrame(s: Store, id: nat, offset: nat, values: seq<int>, b: nat)
    requires Valid(s) && Write(s, id, offset, values).Ok?
    requires b in s.objs && s.objs[b].root != s.objs[id].root
    ensures Contents(Write(s, id, offset, values).value, b) == Contents(s, b)
  {
  }

  /** A write through a sub-buffer shows up in its parent at the
      sub-buffer's origin. */
  lemma WriteThroughSub(s: Store, sub: nat, offset: nat, values: seq<int>)
    requires Valid(s) && Write(s, sub, offset, values).Ok?
    requires s.objs[sub].isSub
    ensures var parent := s.objs[sub].root;
      var at := s.objs[sub].origin + offset;
      parent in s.objs ==>
        parent in Write(s, sub, offset, values).value.objs
        && Contents(Write(s, sub, offset, values).value, parent)[at..at + |values|] == values
  {
    var parent := s.objs[sub].root;
    var s' := Write(s, sub, offset, values).value;
    if parent in s.objs {
      assert Contents(s', parent) == s'.mem[parent];
    }
  }

  /** A copy between different storages leaves the source as it was. */
  lemma CopyKeepsSource(s: Store, src: nat, dst: nat, srcOff: nat, dstOff: nat, count: nat)
    requires Valid(s) && Copy(s, src, dst, srcOff, dstOff, count).Ok?
    requires s.objs[src].root != s.objs[dst].root
    ensures Contents(Copy(s, src, dst, srcOff, dstOff, count).value, src) == Contents(s, src)
  {
    var values := Read(s, src, srcOff, count).value;
    WriteFrame(s, dst, dstOff, values, src);
  }

  /** A whole-buffer copy makes the destination equal to the source. */
  lemma WholeCopy(s: Store, src: nat, dst: nat)
    requires Valid(s) && src in s.objs && dst in s.objs
    requires s.objs[src].root != s.objs[dst].root
    requires s.objs[src].count == s.objs[dst].count
    ensures Copy(s, src, dst, 0, 0, s.objs[src].count).Ok?
    ensures var s' := Copy(s, src, dst, 0, 0, s.objs[src].count).value;
      Contents(s', dst) == Contents(s, src) && Contents(s', src) == Contents(s, src)
  {
    var n := s.objs[src].count;
    CopyKeepsSource(s, src, dst, 0, 0, n);
    var s' := Copy(s, src, dst, 0, 0, n).value;
    assert Contents(s', dst)[0..n] == Contents(s', dst);
    assert Contents(s, src)[0..n] == Contents(s, src);
  }

  /** Mapping and then unmapping the same pointer leaves no mapping behind
      and changes no storage. */
  lemma MapThenUnmap(s: Store, id: nat, offset: nat, count: nat)
    requires Valid(s) && Map(s, id, offset, count).Ok?
    ensures var m := Map(s, id, offset, count).value;
      Unmap(m.store, id, m.ptr) == Ok(s.(next := m.store.next))
  {
    var m := Map(s, id, offset, count).value;
    assert m.store.maps - {m.ptr} == s.maps;
  }

  /** Unmapping a pointer that was never mapped (or already unmapped) is an
      error. */
  lemma UnmapTwiceFails(s: Store, id: nat, offset: nat, count: nat)
    requires Valid(s) && Map(s, id, offset, count).Ok?
    ensures var m := Map(s, id, offset, count).value;
      Unmap(Unmap(m.store, id, m.ptr).value, id, m.ptr) == Fail(InvalidValue)
  {
  }

  /** The pattern of most kernel examples on a fresh context: a buffer is
      created from the whole host input, a kernel leaves `kernelOut` in it,
      and the whole buffer is read back blocking. */
  method KernelRoundTrip(input: seq<int>, kernelOut: seq<int>, elemBytes: nat) returns (buffer: nat, uploaded: seq<int>, output: seq<int>)
    requires |input| == |kernelOut| >= 1 && elemBytes >= 1
    ensures uploaded == input && output == kernelOut
  {
    EmptyValid();
    var created := CopyFromHost(Empty, input, |input|, elemBytes).value;
    var s := created.store;
    buffer := created.id;
    assert input[..|input|] == input;
    uploaded := Contents(s, buffer);
    s := Write(s, buffer, 0, kernelOut).value;
    output := Read(s, buffer, 0, |input|).value;
    assert Contents(s, buffer)[0..|input|] == kernelOut;
  }

  /** The other common pattern: an input buffer and a separate output
      buffer, both created from host data; the kernel leaves `kernelOut`
      in the output buffer, which is read back blocking. */
  method InputOutputPass(input: seq<int>, init: seq<int>, kernelOut: seq<int>, inBytes: nat, outBytes: nat)
    returns (inId: nat, outId: nat, uploaded: seq<int>, initial: seq<int>, output: seq<int>)
    requires |input| >= 1 && |init| == |kernelOut| >= 1 && inBytes >= 1 && outBytes >= 1
    ensures inId != outId
    ensures uploaded == input && initial == init && output == kernelOut
  {
    EmptyValid();
    var a := CopyFromHost(Empty, input, |input|, inBytes).value;
    assert input[..|input|] == input;
    inId := a.id;
    uploaded := Contents(a.store, inId);
    var b := CopyFromHost(a.store, init, |init|, outBytes).value;
    assert init[..|init|] == init;
    outId := b.id;
    initial := Contents(b.store, outId);
    output := WriteThenRead(b.store, outId, kernelOut);
  }

  /** A kernel overwrites a whole buffer and the host reads it back. */
  method WriteThenRead(s: Store, id: nat, kernelOut: seq<int>) returns (output: seq<int>)
    requires Valid(s) && id in s.objs && s.objs[id].count == |kernelOut|
    ensures output == kernelOut
  {
    var s' := Write(s, id, 0, kernelOut).value;
    output := Read(s', id, 0, |kernelOut|).value;
    assert Contents(s', id)[0..|kernelOut|] == kernelOut;
  }
}
