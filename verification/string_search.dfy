/** The host side of the parallel word count: four 4-character words
    packed in one 16-character pattern, a text cut into equal chunks, one
    chunk per work-item, and four counters read back.  The kernel is not
    modelled: it leaves four arbitrary counts in the result buffer. */
module StringSearch {
  import opened Bits
  import opened Status
  import opened Launch
  import opened Buffers
  import opened Selection

  const Kernel: string := "string_search"
  const Pattern: string := "thatwithhavefrom"
  const WordLength: nat := 4
  const WordCount: nat := 4

  /** Word k of the pattern. */
  function Word(k: nat): (w: string)
    requires k < WordCount
    ensures |w| == WordLength
    ensures Pattern == Pattern[..k * WordLength] + w + Pattern[(k + 1) * WordLength..]
  {
    Pattern[k * WordLength..(k + 1) * WordLength]
  }

  /** The words, in the order the results are reported. */
  lemma Words()
    ensures |Pattern| == WordCount * WordLength
    ensures Word(0) == "that" && Word(1) == "with" && Word(2) == "have" && Word(3) == "from"
  {
  }

  // ---------------------------------------------------------------------
  // Work partition

  /** `global_size = compute_units * local_size`. */
  function GlobalSize(computeUnits: nat, local: nat): (g: nat)
    ensures local >= 1 ==> g % local == 0
    ensures g >= 1 <==> computeUnits >= 1 && local >= 1
  {
    ProductFacts(computeUnits, local);
    computeUnits * local
  }

  lemma ProductFacts(a: nat, b: nat)
    ensures b >= 1 ==> (a * b) % b == 0
    ensures a * b >= 1 <==> a >= 1 && b >= 1
  {
    if b >= 1 {
      ExactDivision(a * b, b, a);
    }
    if a >= 1 && b >= 1 {
      MulAtLeast(a, b);
    }
  }

  /** A whole number of work-groups, so the launch is always accepted. */
  lemma LaunchAccepted(computeUnits: nat, local: nat)
    requires computeUnits >= 1 && local >= 1
    ensures CheckRange(GlobalSize(computeUnits, local), local, local) == Success
  {
  }

  /** `global_size` as the program fills it: the variable is an
      uninitialised 8-byte `size_t`, and the compute-unit query writes only
      the 4-byte `cl_uint` count into its low half, so the high half keeps
      whatever the variable held (`upper`). */
  function QueriedGlobal(upper: nat, computeUnits: nat): (v: nat)
    requires upper < Word32 && computeUnits < Word32
    ensures v < Word64
    ensures v % Word32 == computeUnits && v / Word32 == upper
  {
    DivUnique(upper * Word32 + computeUnits, Word32, upper, computeUnits);
    MulLe(upper, Word32 - 1, Word32);
    upper * Word32 + computeUnits
  }

  /** `global_size *= local_size` on that value, wrapping as `size_t`
      does.  Only a zero high half gives the intended product. */
  function GlobalSizeAsWritten(upper: nat, computeUnits: nat, local: nat): (g: nat)
    requires upper < Word32 && computeUnits < Word32 && local < Word64
    ensures g < Word64
    ensures upper == 0 && computeUnits * local < Word64 ==> g == GlobalSize(computeUnits, local)
  {
    (QueriedGlobal(upper, computeUnits) * local) % Word64
  }

  /** Any nonzero high half, when the product does not wrap, makes the
      launch at least 2^32 work-items, more than compute units times local
      size; the work-size checks still accept it, and every text shorter
      than 2^32 characters is cut into one-character chunks. */
  lemma UpperHalfInflatesGlobal(upper: nat, computeUnits: nat, local: nat, textSize: nat)
    requires 1 <= upper < Word32 && computeUnits < Word32 && local >= 1
    requires QueriedGlobal(upper, computeUnits) * local < Word64
    requires textSize < Word32
    ensures local < Word64
    ensures var g := GlobalSizeAsWritten(upper, computeUnits, local);
      g >= Word32 && g > GlobalSize(computeUnits, local)
      && CheckRange(g, local, local) == Success && CharsPerItem(textSize, g) == 1
  {
    var q := QueriedGlobal(upper, computeUnits);
    MulAtLeast(upper, Word32);
    var g := q * local;
    ProductGrows(q, computeUnits, local);
    DivUnique(g, Word64, 0, g);
    assert GlobalSizeAsWritten(upper, computeUnits, local) == g;
    ExactDivision(g, local, q);
    DivUnique(textSize, g, 0, textSize);
  }

  /** A factor above c gives a product above c's, and no smaller than
      either factor. */
  lemma ProductGrows(q: nat, c: nat, local: nat)
    requires c < q && local >= 1
    ensures q * local > c * local && q * local >= q && q * local >= local
  {
    MulAtLeast(local, q);
    MulAtLeast(q, local);
    assert q * local == (q - c) * local + c * local;
    MulAtLeast(q - c, local);
  }

  /** A high half of 1 on a device with 4 compute units and work-groups of
      256: 2^40 + 1024 work-items instead of 1024. */
  lemma InflatedExample()
    ensures GlobalSizeAsWritten(1, 4, 256) == 0x100_0000_0400
    ensures GlobalSize(4, 256) == 0x400
  {
  }

  /** `text_size / global_size + 1` characters per work-item. */
  function CharsPerItem(textSize: nat, global: nat): (c: nat)
    requires global >= 1
    ensures c >= 1
    ensures c * global > textSize
  {
    var q := textSize / global;
    assert textSize == q * global + textSize % global;
    assert (q + 1) * global == q * global + global;
    q + 1
  }

  /** Work-item k scans the positions [k*c, (k+1)*c). */
  predicate InChunk(k: nat, c: nat, p: nat)
  {
    k * c <= p < (k + 1) * c
  }

  /** Every text position lies in the chunk of exactly one work-item, and
      that work-item exists. */
  lemma ChunksCover(textSize: nat, global: nat, p: nat)
    requires global >= 1 && p < textSize
    ensures var c := CharsPerItem(textSize, global);
      p / c < global && InChunk(p / c, c, p)
      && forall k: nat :: InChunk(k, c, p) ==> k == p / c
  {
    var c := CharsPerItem(textSize, global);
    var k := p / c;
    assert p == k * c + p % c;
    assert (k + 1) * c == k * c + c;
    assert k < global by {
      if k >= global {
        MulLe(global, k, c);
      }
    }
    forall j: nat | InChunk(j, c, p)
      ensures j == k
    {
      DivUnique(p, c, j, p - j * c);
    }
  }

  /** The text uploaded: the file without its last character. */
  function TextOf(file: string): (t: string)
    requires |file| >= 1
    ensures |t| == |file| - 1 && file == t + [file[|file| - 1]]
  {
    file[..|file| - 1]
  }

  /** Characters as the byte values a buffer holds. */
  function Codes(t: string): (c: seq<int>)
    ensures |c| == |t| && forall i :: 0 <= i < |t| ==> c[i] == t[i] as int
  {
    seq(|t|, i requires 0 <= i < |t| => t[i] as int)
  }

  // ---------------------------------------------------------------------
  // Host program

  /** What the host observes: the launch, the text and counters uploaded,
      and the counters read back. */
  datatype Search = Search(launch: Launch, text: seq<int>, counters: seq<int>, result: seq<int>)

  /** The program.  `gpu` is the answer of the GPU query (there is no CPU
      fallback), `computeUnits` and `local` the device's compute units and
      maximum work-group size, `file` the text file's contents and
      `kernelOut` the four counts the kernel leaves. */
  method SearchHost(platform: int, gpu: Result<nat>, computeUnits: nat, local: nat, file: string, kernelOut: seq<int>)
    returns (r: Result<Search>)
    requires computeUnits >= 1 && local >= 1
    requires |file| >= 1 && |kernelOut| == WordCount
    ensures r.Ok? <==> CreateGpuDevice(platform, gpu).Ok? && |file| >= 2
    ensures CreateGpuDevice(platform, gpu).Fail? ==> r == Fail(CreateGpuDevice(platform, gpu).code)
    ensures r.Ok? ==> var l := r.value.launch;
      l.kernel == Kernel && l.global == computeUnits * local && l.local == local
      && CheckRange(l.global, l.local, local) == Success
      && AllBound(l, 5) && l.args.Keys == {0, 1, 2, 3, 4}
      && l.args[0] == CharsArg(Pattern) && l.args[1].BufferArg? && l.args[4].BufferArg?
      && l.args[2] == ScalarArg(CharsPerItem(|file| - 1, l.global))
      && l.args[3] == LocalArg(WordCount * 4)
    ensures r.Ok? ==> r.value.text == Codes(TextOf(file)) && r.value.counters == [0, 0, 0, 0]
    ensures r.Ok? ==> r.value.result == kernelOut
  {
    var device := CreateGpuDevice(platform, gpu);
    if device.Fail? {
      return Fail(device.code);
    }
    var global := GlobalSize(computeUnits, local);
    var text := TextOf(file);
    var charsPerItem := CharsPerItem(|text|, global);
    if |text| == 0 {
      return Fail(InvalidBufferSize);
    }
    var textId, resultId, uploaded, counters, result :=
      InputOutputPass(Codes(text), [0, 0, 0, 0], kernelOut, 1, 4);
    var launch := Launch(Kernel, global, local,
      map[0 := CharsArg(Pattern), 1 := BufferArg(textId), 2 := ScalarArg(charsPerItem),
          3 := LocalArg(WordCount * 4), 4 := BufferArg(resultId)]);
    LaunchAccepted(computeUnits, local);
    r := Ok(Search(launch, uploaded, counters, result));
  }

  /** The report: result slot k is the count of word k. */
  function Report(result: seq<int>): (lines: seq<(string, int)>)
    requires |result| == WordCount
    ensures |lines| == WordCount
    ensures forall k :: 0 <= k < WordCount ==> lines[k].0 == Word(k) && lines[k].1 == result[k]
  {
    seq(WordCount, k requires 0 <= k < WordCount => (Word(k), result[k]))
  }

  /** The words reported are the four words of the pattern, in order, and
      concatenated they give the pattern back. */
  lemma ReportSpellsPattern(result: seq<int>)
    requires |result| == WordCount
    ensures var lines := Report(result);
      lines[0].0 + lines[1].0 + lines[2].0 + lines[3].0 == Pattern
  {
    Words();
  }
}
