/** The host side of the 256-point real-valued DFT: the rectangle input,
    the single-work-group launch, and the check of the packed output
    against a reference spectrum.  A real input's spectrum is stored in n
    floats: slot 0 holds the real part of bin 0, slot 1 the real part of
    bin n/2, and slots 2k, 2k+1 the real and imaginary parts of bin k for
    0 < k < n/2.  The kernel and the floating-point tolerance are not
    modelled: values are compared exactly. */
module Rdft {
  import opened Launch

  const NumPoints: nat := 256
  const DataBuffer: nat := 0
  const Kernel: string := "rdft"

  /** Input: 1 on the first quarter, 0 elsewhere. */
  function RectangleInput(n: nat): (r: seq<int>)
    ensures |r| == n
    ensures forall i :: 0 <= i < n ==> r[i] == (if i < n / 4 then 1 else 0)
  {
    seq(n, i => if i < n / 4 then 1 else 0)
  }

  /** The one launch: a single work-group of n/2 + 1 items. */
  function RdftLaunch(n: nat): (l: Launch)
    ensures l.global == l.local == n / 2 + 1
    ensures l.global / l.local == 1
    ensures AllBound(l, 1)
  {
    Launch(Kernel, n / 2 + 1, n / 2 + 1, map[0 := BufferArg(DataBuffer)])
  }

  datatype Part = Re | Im
  datatype Complex = Complex(re: int, im: int)

  /** A spectrum component: a bin and which part of it. */
  datatype Component = Component(bin: nat, part: Part)

  /** The sizes the layout works for: a multiple of four, at least 8. */
  predicate ValidSize(n: nat)
  {
    n >= 8 && n % 4 == 0
  }

  /** Which component output slot i holds. */
  function Slot(n: nat, i: nat): (c: Component)
    requires ValidSize(n) && i < n
    ensures c.bin <= n / 2
    ensures c.bin == 0 || c.bin == n / 2 ==> c.part == Re
  {
    if i == 0 then Component(0, Re)
    else if i == 1 then Component(n / 2, Re)
    else Component(i / 2, if i % 2 == 0 then Re else Im)
  }

  /** The components a real input's spectrum needs: both parts of the
      bins strictly between 0 and n/2, and the real parts of 0 and n/2. */
  predicate Needed(n: nat, c: Component)
  {
    c.bin <= n / 2 && (c.bin == 0 || c.bin == n / 2 ==> c.part == Re)
  }

  /** Different slots hold different components. */
  lemma SlotInjective(n: nat, i: nat, j: nat)
    requires ValidSize(n) && i < n && j < n && Slot(n, i) == Slot(n, j)
    ensures i == j
  {
    if i >= 2 && j >= 2 {
      assert i / 2 == j / 2 && i % 2 == j % 2;
      assert i == 2 * (i / 2) + i % 2;
      assert j == 2 * (j / 2) + j % 2;
    }
  }

  /** Every needed component has a slot, and every slot holds one. */
  lemma SlotsCoverSpectrum(n: nat, c: Component)
    requires ValidSize(n)
    ensures Needed(n, c) <==> exists i :: 0 <= i < n && Slot(n, i) == c
  {
    if Needed(n, c) {
      if c.bin == 0 {
        assert Slot(n, 0) == c;
      } else if c.bin == n / 2 {
        assert Slot(n, 1) == c;
      } else {
        var i := 2 * c.bin + (if c.part == Re then 0 else 1);
        assert i / 2 == c.bin && i % 2 == (if c.part == Re then 0 else 1);
        assert Slot(n, i) == c;
      }
    }
  }

  /** The value of a component in a spectrum of bins. */
  function Value(spectrum: seq<Complex>, c: Component): int
    requires c.bin < |spectrum|
  {
    if c.part == Re then spectrum[c.bin].re else spectrum[c.bin].im
  }

  /** The packed output a correct kernel produces for the spectrum. */
  function Packed(spectrum: seq<Complex>, n: nat): (r: seq<int>)
    requires ValidSize(n) && |spectrum| > n / 2
    ensures |r| == n
    ensures forall i :: 0 <= i < n ==> r[i] == Value(spectrum, Slot(n, i))
  {
    seq(n, i requires 0 <= i < n => Value(spectrum, Slot(n, i)))
  }

  /** Slot i is compared by the check as written: slots 0 and 1 up front,
      then pairs (i, i+1) for even i from 2 while i < n/2. */
  predicate CheckedAsWritten(n: nat, i: nat)
  {
    i < n / 2
  }

  /** The check as written: 1 iff every slot it compares matches. */
  method CheckPackedAsWritten(output: seq<int>, spectrum: seq<Complex>, n: nat) returns (check: int)
    requires ValidSize(n) && |output| == n && |spectrum| > n / 2
    ensures check == 0 || check == 1
    ensures check == 1 <==> output[..n / 2] == Packed(spectrum, n)[..n / 2]
  {
    var expected := Packed(spectrum, n);
    check := 1;
    if output[0] != Value(spectrum, Component(0, Re)) || output[1] != Value(spectrum, Component(n / 2, Re)) {
      check := 0;
    }
    var i := 2;
    while i < n / 2
      invariant 2 <= i <= n / 2 + 1 && i % 2 == 0
      invariant check == 1 <==> forall k :: 0 <= k < i && k < n ==> output[k] == expected[k]
    {
      if output[i] != Value(spectrum, Slot(n, i)) || output[i + 1] != Value(spectrum, Slot(n, i + 1)) {
        check := 0;
        break;
      }
      i := i + 2;
    }
    assert check == 1 <==> forall k :: 0 <= k < n / 2 ==> output[k] == expected[k];
  }

  /** The check over every slot, pairs (i, i+1) for even i below n. */
  method CheckPacked(output: seq<int>, spectrum: seq<Complex>, n: nat) returns (check: int)
    requires ValidSize(n) && |output| == n && |spectrum| > n / 2
    ensures check == 0 || check == 1
    ensures check == 1 <==> output == Packed(spectrum, n)
  {
    var expected := Packed(spectrum, n);
    check := 1;
    if output[0] != Value(spectrum, Component(0, Re)) || output[1] != Value(spectrum, Component(n / 2, Re)) {
      check := 0;
    }
    var i := 2;
    while i < n
      invariant 2 <= i <= n && i % 2 == 0
      invariant check == 1 <==> forall k :: 0 <= k < i ==> output[k] == expected[k]
    {
      if output[i] != Value(spectrum, Slot(n, i)) || output[i + 1] != Value(spectrum, Slot(n, i + 1)) {
        check := 0;
        break;
      }
      i := i + 2;
    }
  }

  /** The bins the check as written looks at: 0, n/2 and 1 .. n/4-1. */
  lemma CheckedBins(n: nat, b: nat)
    requires ValidSize(n)
    ensures (exists i :: 0 <= i < n && CheckedAsWritten(n, i) && Slot(n, i).bin == b)
      <==> b == 0 || b == n / 2 || 1 <= b < n / 4
  {
    if b == 0 {
      assert Slot(n, 0).bin == b && CheckedAsWritten(n, 0);
    } else if b == n / 2 {
      assert Slot(n, 1).bin == b && CheckedAsWritten(n, 1);
    } else if 1 <= b < n / 4 {
      assert Slot(n, 2 * b).bin == b && CheckedAsWritten(n, 2 * b);
    }
  }

  /** A kernel output wrong in the real part of bin n/4, slot n/2, passes
      the check as written and fails the full one. */
  lemma UncheckedSlot(spectrum: seq<Complex>, n: nat)
    requires ValidSize(n) && |spectrum| > n / 2
    ensures var bad := Packed(spectrum, n)[n / 2 := Packed(spectrum, n)[n / 2] + 1];
      bad[..n / 2] == Packed(spectrum, n)[..n / 2] && bad != Packed(spectrum, n)
      && Slot(n, n / 2) == Component(n / 4, Re)
  {
    var p := Packed(spectrum, n);
    var bad := p[n / 2 := p[n / 2] + 1];
    assert bad[n / 2] != p[n / 2];
    assert (n / 2) / 2 == n / 4 && (n / 2) % 2 == 0;
  }

  /** The example's size is one the layout works for. */
  lemma ExampleSize()
    ensures ValidSize(NumPoints) && NumPoints / 2 + 1 == 129 && NumPoints / 4 == 64
  {
  }
}
