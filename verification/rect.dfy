/** The rectangular read `clEnqueueReadBufferRect` (section 5.2.2 of the
    OpenCL 1.1 specification): a box of region.x by region.y by region.z
    cells is copied from the buffer to host memory, each side addressing
    cells by origin, row pitch and slice pitch.

    Cells are elements of the arrays involved: the byte quantities of the
    call (origin.x, region.x and the pitches) are divided by the element
    width by the caller. */
module Rect {
  import opened Bits
  import opened Status

  datatype Point = Point(x: nat, y: nat, z: nat)

  /** One side's addressing after the zero-pitch defaults are applied. */
  datatype Layout = Layout(origin: Point, rowPitch: nat, slicePitch: nat)

  /** A pitch of 0 means "tightly packed": the row pitch becomes region.x
      and the slice pitch region.y times the row pitch. */
  function Resolve(origin: Point, region: Point, rowPitch: nat, slicePitch: nat): (l: Layout)
    ensures l.origin == origin
    ensures l.rowPitch == if rowPitch == 0 then region.x else rowPitch
    ensures l.slicePitch == if slicePitch == 0 then region.y * l.rowPitch else slicePitch
  {
    var rp := if rowPitch == 0 then region.x else rowPitch;
    Layout(origin, rp, if slicePitch == 0 then region.y * rp else slicePitch)
  }

  /** Offset of the box origin. */
  function Base(l: Layout): nat
  {
    l.origin.z * l.slicePitch + l.origin.y * l.rowPitch + l.origin.x
  }

  /** Offset of cell (x, y, z) of the box. */
  function At(l: Layout, x: nat, y: nat, z: nat): nat
  {
    Base(l) + z * l.slicePitch + y * l.rowPitch + x
  }

  /** (x, y, z) lies inside the region. */
  predicate InRegion(region: Point, x: nat, y: nat, z: nat)
  {
    x < region.x && y < region.y && z < region.z
  }

  /** Rows do not overlap within a slice and slices do not overlap. */
  predicate Separated(l: Layout, region: Point)
  {
    region.x >= 1 && region.y >= 1 && region.z >= 1
    && l.rowPitch >= region.x && l.slicePitch >= region.y * l.rowPitch
  }

  /** One past the last cell of the box. */
  function Extent(l: Layout, region: Point): nat
    requires region.x >= 1 && region.y >= 1 && region.z >= 1
  {
    At(l, region.x - 1, region.y - 1, region.z - 1) + 1
  }

  /** The argument checks of the call: a nonempty region, and explicit
      pitches no smaller than the packed ones. */
  predicate ArgsOk(region: Point, bufRowPitch: nat, bufSlicePitch: nat, hostRowPitch: nat, hostSlicePitch: nat)
  {
    region.x >= 1 && region.y >= 1 && region.z >= 1
    && (bufRowPitch == 0 || bufRowPitch >= region.x)
    && (hostRowPitch == 0 || hostRowPitch >= region.x)
    && (bufSlicePitch == 0 || bufSlicePitch >= region.y * (if bufRowPitch == 0 then region.x else bufRowPitch))
    && (hostSlicePitch == 0 || hostSlicePitch >= region.y * (if hostRowPitch == 0 then region.x else hostRowPitch))
  }

  /** Cell i is inside the box: the position of i relative to the box
      origin splits into a slice, a row and a column within the region. */
  predicate Covered(l: Layout, region: Point, i: nat)
    requires l.rowPitch >= 1 && l.slicePitch >= 1
  {
    i >= Base(l)
    && var j := i - Base(l);
    InRegion(region, (j % l.slicePitch) % l.rowPitch, (j % l.slicePitch) / l.rowPitch, j / l.slicePitch)
  }

  /** The box cell that host cell i receives, as a buffer offset. */
  function Source(b: Layout, h: Layout, i: nat): nat
    requires h.rowPitch >= 1 && h.slicePitch >= 1
    requires i >= Base(h)
  {
    var j := i - Base(h);
    At(b, (j % h.slicePitch) % h.rowPitch, (j % h.slicePitch) / h.rowPitch, j / h.slicePitch)
  }

  /** A box cell's offset splits back into its coordinates. */
  lemma Decompose(l: Layout, region: Point, x: nat, y: nat, z: nat)
    requires Separated(l, region) && InRegion(region, x, y, z)
    ensures var j := At(l, x, y, z) - Base(l);
      j / l.slicePitch == z && (j % l.slicePitch) / l.rowPitch == y && (j % l.slicePitch) % l.rowPitch == x
  {
    var inner := y * l.rowPitch + x;
    assert inner < l.slicePitch by {
      MulLe(y + 1, region.y, l.rowPitch);
      assert (y + 1) * l.rowPitch == y * l.rowPitch + l.rowPitch;
    }
    DivUnique(z * l.slicePitch + inner, l.slicePitch, z, inner);
    DivUnique(inner, l.rowPitch, y, x);
  }

  /** Covered cells are exactly the offsets of box cells. */
  lemma CoveredIff(l: Layout, region: Point, i: nat)
    requires Separated(l, region)
    ensures Covered(l, region, i) <==> exists x, y, z :: InRegion(region, x, y, z) && i == At(l, x, y, z)
  {
    if Covered(l, region, i) {
      var j := i - Base(l);
      var z, r := j / l.slicePitch, j % l.slicePitch;
      var y, x := r / l.rowPitch, r % l.rowPitch;
      assert j == z * l.slicePitch + r;
      assert r == y * l.rowPitch + x;
      assert i == At(l, x, y, z);
    }
    if exists x, y, z :: InRegion(region, x, y, z) && i == At(l, x, y, z) {
      var x, y, z :| InRegion(region, x, y, z) && i == At(l, x, y, z);
      Decompose(l, region, x, y, z);
    }
  }

  /** What host cell i holds after the copy. */
  function Cell(b: Layout, h: Layout, region: Point, buf: seq<int>, host: seq<int>, i: nat): int
    requires Separated(b, region) && Separated(h, region)
    requires Extent(b, region) <= |buf| && i < |host|
  {
    if Covered(h, region, i) then (SourceInBox(b, h, region, i); buf[Source(b, h, i)]) else host[i]
  }

  /** The host memory after the box is copied in: covered cells take
      their buffer cell, all others keep their value. */
  function Fill(b: Layout, h: Layout, region: Point, buf: seq<int>, host: seq<int>): (out: seq<int>)
    requires Separated(b, region) && Separated(h, region)
    requires Extent(b, region) <= |buf| && Extent(h, region) <= |host|
    ensures |out| == |host|
    ensures forall x, y, z :: InRegion(region, x, y, z) ==>
      At(h, x, y, z) < |host| && At(b, x, y, z) < |buf| && out[At(h, x, y, z)] == buf[At(b, x, y, z)]
    ensures forall i :: 0 <= i < |host| && !Covered(h, region, i) ==> out[i] == host[i]
  {
    var out := seq(|host|, i requires 0 <= i < |host| => Cell(b, h, region, buf, host, i));
    ForwardMap(b, h, region, buf, host, out);
    out
  }

  /** The blocking rectangular read.  The buffer side is bounds-checked by
      the call; the host side is memory the caller must provide. */
  function ReadRect(buf: seq<int>, host: seq<int>, bufOrigin: Point, hostOrigin: Point, region: Point,
                    bufRowPitch: nat, bufSlicePitch: nat, hostRowPitch: nat, hostSlicePitch: nat): (r: Result<seq<int>>)
    requires ArgsOk(region, bufRowPitch, bufSlicePitch, hostRowPitch, hostSlicePitch) ==>
      Extent(Resolve(hostOrigin, region, hostRowPitch, hostSlicePitch), region) <= |host|
    ensures r.Ok? <==> (ArgsOk(region, bufRowPitch, bufSlicePitch, hostRowPitch, hostSlicePitch)
      && Extent(Resolve(bufOrigin, region, bufRowPitch, bufSlicePitch), region) <= |buf|)
    ensures r.Fail? ==> r.code == InvalidValue
    ensures r.Ok? ==> |r.value| == |host|
    ensures r.Ok? ==>
      var b := Resolve(bufOrigin, region, bufRowPitch, bufSlicePitch);
      var h := Resolve(hostOrigin, region, hostRowPitch, hostSlicePitch);
      (forall x, y, z :: InRegion(region, x, y, z) ==>
         At(h, x, y, z) < |host| && At(b, x, y, z) < |buf| && r.value[At(h, x, y, z)] == buf[At(b, x, y, z)])
      && (forall i :: 0 <= i < |host| && !Covered(h, region, i) ==> r.value[i] == host[i])
  {
    if !ArgsOk(region, bufRowPitch, bufSlicePitch, hostRowPitch, hostSlicePitch) then Fail(InvalidValue)
    else
      var b := Resolve(bufOrigin, region, bufRowPitch, bufSlicePitch);
      var h := Resolve(hostOrigin, region, hostRowPitch, hostSlicePitch);
      if Extent(b, region) > |buf| then Fail(InvalidValue)
      else
        SeparatedResolve(bufOrigin, region, bufRowPitch, bufSlicePitch);
        SeparatedResolve(hostOrigin, region, hostRowPitch, hostSlicePitch);
        Ok(Fill(b, h, region, buf, host))
  }

  /** Every box cell lies below the extent. */
  lemma InBox(l: Layout, region: Point)
    requires Separated(l, region)
    ensures forall x, y, z :: InRegion(region, x, y, z) ==> At(l, x, y, z) < Extent(l, region)
  {
    forall x, y, z | InRegion(region, x, y, z)
      ensures At(l, x, y, z) < Extent(l, region)
    {
      MulLe(z, region.z - 1, l.slicePitch);
      MulLe(y, region.y - 1, l.rowPitch);
    }
  }

  /** The buffer cell a covered host cell receives is inside the buffer. */
  lemma SourceInBox(b: Layout, h: Layout, region: Point, i: nat)
    requires Separated(b, region) && Separated(h, region)
    requires Covered(h, region, i)
    ensures Source(b, h, i) < Extent(b, region)
  {
    InBox(b, region);
  }

  /** Accepted arguments give separated layouts on both sides. */
  lemma SeparatedResolve(origin: Point, region: Point, rowPitch: nat, slicePitch: nat)
    requires region.x >= 1 && region.y >= 1 && region.z >= 1
    requires rowPitch == 0 || rowPitch >= region.x
    requires slicePitch == 0 || slicePitch >= region.y * (if rowPitch == 0 then region.x else rowPitch)
    ensures Separated(Resolve(origin, region, rowPitch, slicePitch), region)
  {
  }

  /** The comprehension puts each box cell in place. */
  lemma ForwardMap(b: Layout, h: Layout, region: Point, buf: seq<int>, host: seq<int>, out: seq<int>)
    requires Separated(b, region) && Separated(h, region)
    requires Extent(b, region) <= |buf| && Extent(h, region) <= |host|
    requires |out| == |host|
    requires forall i :: 0 <= i < |host| ==> out[i] == Cell(b, h, region, buf, host, i)
    ensures forall x, y, z :: InRegion(region, x, y, z) ==>
      At(h, x, y, z) < |host| && At(b, x, y, z) < |buf| && out[At(h, x, y, z)] == buf[At(b, x, y, z)]
  {
    InBox(b, region);
    InBox(h, region);
    forall x, y, z | InRegion(region, x, y, z)
      ensures out[At(h, x, y, z)] == buf[At(b, x, y, z)]
    {
      var i := At(h, x, y, z);
      Decompose(h, region, x, y, z);
      CoveredIff(h, region, i);
      assert Source(b, h, i) == At(b, x, y, z);
      assert out[i] == Cell(b, h, region, buf, host, i);
    }
  }
}
