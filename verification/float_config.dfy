/** Decoding of the single-precision floating-point configuration bitfield
    (`CL_DEVICE_SINGLE_FP_CONFIG`, a `cl_bitfield`) into the feature lines
    the configuration example prints. */
module FloatConfig {
  import opened Bits
  import opened Status

  datatype Feature = InfNan | Denorm | RoundToNearest | RoundToInf | RoundToZero | Fma | SoftFloat

  /** Bit position of each feature flag in the OpenCL 1.1 header. */
  function FlagBit(f: Feature): nat
  {
    match f
    case Denorm => 0
    case InfNan => 1
    case RoundToNearest => 2
    case RoundToZero => 3
    case RoundToInf => 4
    case Fma => 5
    case SoftFloat => 6
  }

  /** Position of each feature's line in the program's output. */
  function Rank(f: Feature): nat
  {
    match f
    case InfNan => 0
    case Denorm => 1
    case RoundToNearest => 2
    case RoundToInf => 3
    case RoundToZero => 4
    case Fma => 5
    case SoftFloat => 6
  }

  /** The order in which the program tests the flags. */
  const PrintOrder: seq<Feature> := [InfNan, Denorm, RoundToNearest, RoundToInf, RoundToZero, Fma, SoftFloat]

  /** A feature's line is printed when its bit is set; the soft-float line
      is compiled only when `MAC` is undefined. */
  predicate Prints(f: Feature, flag: nat, mac: bool)
  {
    TestBit(flag, FlagBit(f)) && (f != SoftFloat || !mac)
  }

  /** Sequence in strictly increasing output rank. */
  predicate Ordered(s: seq<Feature>)
  {
    forall i, j :: 0 <= i < j < |s| ==> Rank(s[i]) < Rank(s[j])
  }

  /** The lines printed when the tests of `order` run one after another,
      each independently of the others. */
  function Printed(order: seq<Feature>, flag: nat, mac: bool): (r: seq<Feature>)
    requires Ordered(order)
    ensures forall f :: f in r <==> f in order && Prints(f, flag, mac)
    ensures Ordered(r)
  {
    if |order| == 0 then []
    else
      var rest := Printed(order[1..], flag, mac);
      assert forall f :: f in order[1..] ==> Rank(order[0]) < Rank(f);
      if Prints(order[0], flag, mac) then [order[0]] + rest else rest
  }

  /** Every feature has a test in the program. */
  lemma InPrintOrder(f: Feature)
    ensures f in PrintOrder
  {
    assert PrintOrder[Rank(f)] == f;
  }

  /** The whole feature report: the flag query must succeed. */
  function Report(query: Result<nat>, mac: bool): (r: Result<seq<Feature>>)
    ensures r.Fail? <==> query.Fail?
    ensures r.Ok? ==> forall f :: f in r.value <==> Prints(f, query.value, mac)
    ensures r.Ok? ==> Ordered(r.value)
  {
    if query.Fail? then Fail(query.code)
    else
      var lines := Printed(PrintOrder, query.value, mac);
      assert forall f: Feature :: f in PrintOrder by {
        forall f: Feature
          ensures f in PrintOrder
        {
          InPrintOrder(f);
        }
      }
      Ok(lines)
  }

  /** A zero bitfield prints no feature line. */
  lemma NoFlagNoLines(mac: bool)
    ensures Printed(PrintOrder, 0, mac) == []
  {
    NonePrinted(PrintOrder, 0, mac);
  }

  /** When no checked flag prints, nothing is printed. */
  lemma {:induction false} NonePrinted(order: seq<Feature>, flag: nat, mac: bool)
    requires Ordered(order)
    requires forall f :: f in order ==> !Prints(f, flag, mac)
    ensures Printed(order, flag, mac) == []
  {
    if |order| > 0 {
      assert order[0] in order;
      NonePrinted(order[1..], flag, mac);
    }
  }

  /** When every checked flag prints, the output is the tests' order itself. */
  lemma {:induction false} AllPrinted(order: seq<Feature>, flag: nat, mac: bool)
    requires Ordered(order)
    requires forall f :: f in order ==> Prints(f, flag, mac)
    ensures Printed(order, flag, mac) == order
  {
    if |order| > 0 {
      assert order[0] in order;
      AllPrinted(order[1..], flag, mac);
      assert [order[0]] + order[1..] == order;
    }
  }

  /** With all seven bits set and `MAC` undefined, every line is printed,
      in the program's order. */
  lemma AllFlagsAllLines()
    ensures Printed(PrintOrder, 0x7F, false) == PrintOrder
  {
    assert Pow2(2) == 4 && Pow2(3) == 8;
    assert Pow2(4) == 16 && Pow2(5) == 32 && Pow2(6) == 64;
    assert forall k :: 0 <= k < 7 ==> TestBit(0x7F, k);
    AllPrinted(PrintOrder, 0x7F, false);
  }
}
