/** The small selection rules the host programs share: choosing a device,
    choosing build options from an extension string, finding the first
    platform with an extension, looking a kernel up by name, reading the
    command line, and checking several query results at once. */
module Selection {
  import opened Status
  import opened Text

  /** `create_device` as most examples write it: the platform query must
      succeed, a GPU is asked for first, and a CPU is asked for only when
      the GPU query answers "device not found".  Devices are opaque ids. */
  function CreateDevice(platform: int, gpu: Result<nat>, cpu: Result<nat>): (r: Result<nat>)
    ensures platform < 0 ==> r == Fail(platform)
    ensures r.Ok? <==> platform >= 0 && (gpu.Ok? || (gpu == Fail(DeviceNotFound) && cpu.Ok?))
    ensures r.Ok? && gpu.Ok? ==> r == gpu
    ensures r.Ok? && !gpu.Ok? ==> r == cpu
  {
    if platform < 0 then Fail(platform)
    else if gpu == Fail(DeviceNotFound) then cpu
    else gpu
  }

  /** The GPU-only lookup of the steepest-descent, radix-sort, real-DFT and
      string-search examples: any GPU error aborts. */
  function CreateGpuDevice(platform: int, gpu: Result<nat>): (r: Result<nat>)
    ensures r.Ok? <==> platform >= 0 && gpu.Ok?
    ensures r.Ok? ==> r == gpu
  {
    if platform < 0 then Fail(platform) else gpu
  }

  /** The fallback changes the outcome only when the GPU query answers
      "device not found"; every other answer, success or failure, is kept. */
  lemma FallbackOnlyOnNotFound(platform: int, gpu: Result<nat>, cpu: Result<nat>)
    requires platform >= 0 && gpu != Fail(DeviceNotFound)
    ensures CreateDevice(platform, gpu, cpu) == CreateGpuDevice(platform, gpu)
  {
  }

  /** With no GPU present, the fallback finds the CPU that the GPU-only
      lookup never asks for. */
  lemma FallbackFindsCpu(platform: int, cpu: nat)
    requires platform >= 0
    ensures CreateDevice(platform, Fail(DeviceNotFound), Ok(cpu)) == Ok(cpu)
    ensures CreateGpuDevice(platform, Fail(DeviceNotFound)).Fail?
  {
  }

  // ---------------------------------------------------------------------
  // Build options from the device extension string

  const Fp64Extension: string := "cl_khr_fp64"
  const Fp64Option: string := "-DFP_64 "
  /** Size of the `options` character array, terminator included. */
  const OptionsCapacity: nat := 20

  /** The option string handed to the program build: `"-DFP_64 "` appended
      to an empty array exactly when `strstr` finds the double-precision
      extension. */
  method SelectBuildOptions(extensions: string) returns (options: string)
    ensures options == Fp64Option <==> Contains(extensions, Fp64Extension)
    ensures options == "" <==> !Contains(extensions, Fp64Extension)
    ensures |options| + 1 <= OptionsCapacity
  {
    options := "";
    var at := Find(extensions, Fp64Extension);
    if at != -1 {
      options := options + Fp64Option;
    }
  }

  /** The test is a substring match: a longer name that merely begins or
      ends with `cl_khr_fp64` also selects the option. */
  lemma SubstringSelectsOption(before: string, after: string)
    ensures Contains(before + Fp64Extension + after, Fp64Extension)
  {
    ContainsSelf(Fp64Extension);
    ContainsInContext(before, Fp64Extension, after, Fp64Extension);
  }

  /** The text a C string function sees in a character array: everything
      before the first NUL. */
  function CString(buf: seq<char>): (s: string)
    ensures |s| <= |buf|
    ensures s == buf[..|s|]
    ensures forall i :: 0 <= i < |s| ==> s[i] != '\0'
    ensures |s| < |buf| ==> buf[|s|] == '\0'
  {
    if |buf| == 0 || buf[0] == '\0' then [] else [buf[0]] + CString(buf[1..])
  }

  /** The extension array is allocated one longer than the reported size
      and its last element is set to NUL, so the search never runs past the
      allocation whatever the query wrote. */
  lemma {:induction false} TerminatedBufferBoundsText(buf: seq<char>, extSize: nat)
    requires |buf| == extSize + 1 && buf[extSize] == '\0'
    ensures |CString(buf)| <= extSize
  {
  }

  // ---------------------------------------------------------------------
  // First platform with an extension

  const IcdExtension: string := "cl_khr_icd"

  /** Outcome of the platform scan: the index printed (-1 when no platform
      qualifies), or the exit taken when a size query fails. */
  datatype PlatformScan = Scanned(index: int) | Aborted(code: int)

  /** The extension-size query for platform i succeeded and its string
      contains the extension. */
  predicate HasExt(infos: seq<Result<string>>, i: nat, ext: string)
    requires i < |infos|
  {
    infos[i].Ok? && Contains(infos[i].value, ext)
  }

  /** Platforms 0..k-1 were all queried successfully and none matched. */
  predicate NoneBefore(infos: seq<Result<string>>, k: nat, ext: string)
    requires k <= |infos|
  {
    forall j :: 0 <= j < k ==> infos[j].Ok? && !Contains(infos[j].value, ext)
  }

  /** The indices 0..n-1, in order. */
  function Upto(n: nat): (r: seq<nat>)
    ensures |r| == n && forall j :: 0 <= j < n ==> r[j] == j
  {
    seq(n, j requires 0 <= j < n => j)
  }

  /** The platform scan: each platform's extension-size query either fails
      (and the program exits) or yields the string, which is searched for
      `cl_khr_icd`; the first match stops the scan.  `buffers` lists the
      platforms whose extension buffer was allocated, `freed` those whose
      buffer was freed, in call order. */
  method FindIcdPlatform(countCode: int, infos: seq<Result<string>>)
    returns (r: PlatformScan, buffers: seq<nat>, freed: seq<nat>)
    ensures countCode < 0 ==> r == Aborted(countCode)
    ensures r.Scanned? ==> -1 <= r.index < |infos|
    ensures r.Scanned? && r.index >= 0 ==>
      HasExt(infos, r.index, IcdExtension) && NoneBefore(infos, r.index, IcdExtension)
    ensures r == Scanned(-1) <==> countCode >= 0 && NoneBefore(infos, |infos|, IcdExtension)
    ensures r.Aborted? && countCode >= 0 ==>
      exists k :: 0 <= k < |infos| && infos[k] == Fail(r.code) && NoneBefore(infos, k, IcdExtension)
    ensures r.Scanned? && r.index >= 0 ==> buffers == Upto(r.index + 1)
    ensures r == Scanned(-1) ==> buffers == Upto(|infos|)
    ensures r.Aborted? ==>
      buffers == Upto(|buffers|) && (countCode >= 0 ==> |buffers| < |infos| && infos[|buffers|] == Fail(r.code))
    ensures freed == buffers
  {
    buffers, freed := [], [];
    if countCode < 0 {
      return Aborted(countCode), buffers, freed;
    }
    var index := -1;
    var i := 0;
    while i < |infos|
      invariant 0 <= i <= |infos|
      invariant NoneBefore(infos, i, IcdExtension)
      invariant buffers == Upto(i) && freed == buffers
    {
      if infos[i].Fail? {
        return Aborted(infos[i].code), buffers, freed;
      }
      buffers := buffers + [i];
      assert buffers == Upto(i + 1);
      var at := Find(infos[i].value, IcdExtension);
      if at != -1 {
        freed := freed + [i];
        index := i;
        break;
      }
      freed := freed + [i];
      i := i + 1;
    }
    return Scanned(index), buffers, freed;
  }

  // ---------------------------------------------------------------------
  // Kernel lookup by name

  const SearchedKernel: string := "mult"

  /** What the kernel search leaves behind: the kernel handles created (one
      per kernel of the program, numbered in creation order), the index of
      the kernel found (-1 when `found_kernel` is never assigned), and the
      handles released, in call order. */
  datatype KernelSearch = Searched(kernels: seq<nat>, found: int, released: seq<nat>) | CountFailed(code: int)

  /** Count the kernels, create that many, stop at the first whose name
      equals "mult" exactly, then release every kernel. */
  method SearchKernels(countCode: int, names: seq<string>) returns (r: KernelSearch)
    ensures countCode < 0 <==> r.CountFailed?
    ensures r.Searched? ==> r.kernels == Upto(|names|) && r.released == r.kernels
    ensures r.Searched? ==> -1 <= r.found < |names|
    ensures r.Searched? && r.found >= 0 ==>
      names[r.found] == SearchedKernel && forall j :: 0 <= j < r.found ==> names[j] != SearchedKernel
    ensures r.Searched? ==> (r.found == -1 <==> forall j :: 0 <= j < |names| ==> names[j] != SearchedKernel)
  {
    if countCode < 0 {
      return CountFailed(countCode);
    }
    var kernels := Upto(|names|);
    var found := -1;
    var i := 0;
    while i < |kernels|
      invariant 0 <= i <= |kernels|
      invariant forall j :: 0 <= j < i ==> names[j] != SearchedKernel
    {
      if names[i] == SearchedKernel {
        found := i;
        break;
      }
      i := i + 1;
    }
    var released := [];
    i := 0;
    while i < |kernels|
      invariant 0 <= i <= |kernels|
      invariant released == kernels[..i]
    {
      released := released + [kernels[i]];
      i := i + 1;
    }
    assert kernels[..|kernels|] == kernels;
    return Searched(kernels, found, released);
  }

  // ---------------------------------------------------------------------
  // Command line of the work-group query tool

  const DefaultProgram: string := "blank.cl"
  const DefaultKernel: string := "blank"

  /** Program file and kernel name chosen from `argv` (whose length is
      `argc`), or the usage exit. */
  datatype Dispatch = Run(programFile: string, kernelName: string) | Usage

  function DispatchArgs(argv: seq<string>): (d: Dispatch)
    ensures d.Run? <==> |argv| == 1 || |argv| == 3
    ensures |argv| == 1 ==> d == Run(DefaultProgram, DefaultKernel)
    ensures |argv| == 3 ==> d == Run(argv[1], argv[2])
  {
    if |argv| == 1 then Run(DefaultProgram, DefaultKernel)
    else if |argv| == 3 then Run(argv[1], argv[2])
    else Usage
  }

  /** Naming the default program and kernel on the command line runs the
      same thing as giving no arguments, and any other argument count than
      one or three names nothing. */
  lemma ExplicitDefaults(command: string, extra: seq<string>)
    ensures DispatchArgs([command]) == DispatchArgs([command, DefaultProgram, DefaultKernel])
    ensures |extra| != 0 && |extra| != 2 ==> DispatchArgs([command] + extra) == Usage
  {
  }

  /** The four kernel work-group queries are OR-combined and checked once:
      the tool exits exactly when one of them failed. */
  function WorkGroupQueriesAbort(wgSize: int, multiple: int, localMem: int, privateMem: int): (abort: bool)
    requires IsClInt(wgSize) && IsClInt(multiple) && IsClInt(localMem) && IsClInt(privateMem)
    ensures abort <==> wgSize < 0 || multiple < 0 || localMem < 0 || privateMem < 0
  {
    var codes := [wgSize, multiple, localMem, privateMem];
    assert codes[0] == wgSize && codes[1] == multiple && codes[2] == localMem && codes[3] == privateMem;
    CombinedCheckAborts(codes)
  }

  /** The device-name and local-memory queries are checked the same way. */
  function DeviceQueriesAbort(name: int, localMem: int): (abort: bool)
    requires IsClInt(name) && IsClInt(localMem)
    ensures abort <==> name < 0 || localMem < 0
  {
    var codes := [name, localMem];
    assert codes[0] == name && codes[1] == localMem;
    CombinedCheckAborts(codes)
  }
}
