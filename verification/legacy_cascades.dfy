/** The older radiance-cascade engine of RadianceCascades.cpp: all levels share one texture
    array of N slices laid out as a square of probes, level i being slice i. `Generate` traces
    every slice with a single dispatch, then walks the merge loop, which binds views but whose
    dispatch is commented out in the source, so no merge work is recorded. */
module LegacyCascades {
  import opened Wrappers
  import opened Arith
  import opened ResourceStates
  import Cascades

  /** Texels per probe along x and y. */
  const ProbePixelsX: nat := 4
  const ProbePixelsY: nat := 2

  /** Threads per merge thread group along x and y. */
  const MergeGroupSize: nat := 8

  /** A 2D-array view: `slices` slices starting at `firstSlice`. */
  datatype ArrayView = ArrayView(firstSlice: nat, slices: nat)

  /** The engine after construction. `probesPerLine` is the side of the square the probes are
      laid out in; the array has `count` slices, one per level. The texture's dimensions are
      what the texture-creation call receives, which takes them as 16-bit values. */
  datatype Engine = Engine(
    resolution: Cascades.Resolution,
    count: nat,
    probesPerLine: nat,
    pixelsX: nat,
    pixelsY: nat,
    textureWidth: nat,
    textureHeight: nat,
    textureSlices: nat,
    wholeWriteView: ArrayView,
    readViews: seq<ArrayView>,
    writeViews: seq<ArrayView>)

  /** The number of probes, x * y * z evaluated in uint32. */
  function ProbeCount(res: Cascades.Resolution): (n: nat)
    ensures n < U32
    ensures (res.x * res.y * res.z - n) % U32 == 0
    ensures res.x * res.y * res.z < U32 ==> n == res.x * res.y * res.z
  {
    Wrap32Mul(res.x * res.y, res.z);
    Wrap32(Wrap32(res.x * res.y) * res.z)
  }

  /** The constructor: p = ceil(sqrt(probe count)) probes per line, X = 4p and Y = 2p texels,
      a write view over the whole array and a read and a write view per slice. */
  function Create(res: Cascades.Resolution, count: nat): (e: Engine)
    ensures e.count == count && e.resolution == res
    ensures e.probesPerLine * e.probesPerLine >= ProbeCount(res)
    ensures forall q: nat :: q * q >= ProbeCount(res) ==> e.probesPerLine <= q
    ensures e.wholeWriteView == ArrayView(0, count)
    ensures e.pixelsX == Wrap32(ProbePixelsX * e.probesPerLine) && e.pixelsY == Wrap32(ProbePixelsY * e.probesPerLine)
    ensures e.textureWidth == Wrap16(e.pixelsX) && e.textureHeight == Wrap16(e.pixelsY) && e.textureSlices == Wrap16(count)
    ensures e.textureWidth < U16 && e.textureHeight < U16 && e.textureSlices < U16
    ensures e.pixelsX < U16 && e.pixelsY < U16 && count < U16 ==>
      e.textureWidth == e.pixelsX && e.textureHeight == e.pixelsY && e.textureSlices == count
    ensures |e.readViews| == count && |e.writeViews| == count
    ensures forall i :: 0 <= i < count ==> e.readViews[i] == ArrayView(i, 1) && e.writeViews[i] == ArrayView(i, 1)
  {
    var p := CeilSqrt(ProbeCount(res));
    var views := seq(count, i requires 0 <= i => ArrayView(i, 1));
    var x := Wrap32(ProbePixelsX * p);
    var y := Wrap32(ProbePixelsY * p);
    Engine(res, count, p, x, y, Wrap16(x), Wrap16(y), Wrap16(count), ArrayView(0, count), views, views)
  }

  /** The probe count fits in 32 bits, so at most 65536 probes per line are needed and the
      texel extents X = 4p and Y = 2p never wrap. */
  lemma {:induction false} CreateExtentsExact(res: Cascades.Resolution, count: nat)
    ensures var e := Create(res, count);
      && e.probesPerLine <= U16
      && e.pixelsX == ProbePixelsX * e.probesPerLine
      && e.pixelsY == ProbePixelsY * e.probesPerLine
  {
    var e := Create(res, count);
    assert U16 * U16 == U32;
    assert U16 * U16 >= ProbeCount(res);
  }

  /** Which subresources a barrier covers. */
  datatype Target = WholeArray | Slice(index: nat)

  /** The commands `Generate` records. `MergeSetup` is one merge iteration's bindings: the read
      view of slice `source` and the write view of slice `target`. `Dispatch` is the merge
      dispatch, which the source has commented out. */
  datatype Command =
    | Transition(covers: Target, before: ResourceState, after: ResourceState)
    | Trace(width: nat, height: nat, depth: nat)
    | MergeSetup(source: nat, target: nat)
    | Dispatch(groupsX: nat, groupsY: nat, groupsZ: nat)

  /** The merge loop from level i down to level 0: make slice i + 1 readable, then bind it as
      the source and slice i as the target. */
  function MergeLoop(i: int): seq<Command>
    decreases i + 1
  {
    if i < 0 then []
    else [Transition(Slice(i + 1), UnorderedAccess, ShaderResource), MergeSetup(i + 1, i)] + MergeLoop(i - 1)
  }

  datatype TracingConstants = TracingConstants(resolution: Cascades.Resolution, sizeX: nat, sizeY: nat)

  datatype Generated = Generated(constants: TracingConstants, commands: seq<Command>, readView: ArrayView)

  /** Generate: make the whole array writable, trace all N slices with one dispatch, run the
      merge loop from N-2 down to 0, make slice 0 readable again and return its read view.
      The source asserts N > 1. */
  function Generate(e: Engine): (g: Generated)
    requires e.count > 1
    requires |e.readViews| == e.count
    ensures g.readView == e.readViews[0]
    ensures g.constants == TracingConstants(e.resolution, e.pixelsX, e.pixelsY)
  {
    Generated(
      TracingConstants(e.resolution, e.pixelsX, e.pixelsY),
      [Transition(WholeArray, ShaderResource, UnorderedAccess), Trace(e.pixelsX, e.pixelsY, e.count)]
        + MergeLoop(e.count - 2)
        + [Transition(Slice(0), UnorderedAccess, ShaderResource)],
      e.readViews[0])
  }

  /** The group counts the merge loop computes for its (disabled) dispatch. */
  function MergeGroups(e: Engine): (nat, nat)
  {
    (GroupCount(e.pixelsX, MergeGroupSize), GroupCount(e.pixelsY, MergeGroupSize))
  }

  /** For an engine built by `Create`, the merge group counts are exact ceilings over the
      texel extents: groups * 8 cover X and Y, and one group fewer would not. */
  lemma {:induction false} MergeGroupsCover(res: Cascades.Resolution, count: nat)
    ensures var e := Create(res, count); var (gx, gy) := MergeGroups(e);
      && gx * MergeGroupSize >= e.pixelsX && (gx - 1) * MergeGroupSize < e.pixelsX
      && gy * MergeGroupSize >= e.pixelsY && (gy - 1) * MergeGroupSize < e.pixelsY
  {
    var e := Create(res, count);
    CreateExtentsExact(res, count);
    GroupCountIsCeiling(e.pixelsX, MergeGroupSize);
    GroupCountIsCeiling(e.pixelsY, MergeGroupSize);
  }

  // ----- Per-subresource state tracking -----

  /** `n` subresources all in state `s`. */
  function Uniform(n: nat, s: ResourceState): (r: seq<ResourceState>)
    ensures |r| == n
  {
    seq(n, _ => s)
  }

  /** One command against the per-slice states. A whole-array barrier needs every slice in
      its before-state; a slice barrier needs that slice in it. The trace writes through the
      whole-array view, so every slice must be writable; a merge setup would be ready to
      dispatch only with its source readable and its target writable. */
  function Step(states: seq<ResourceState>, c: Command): Option<seq<ResourceState>>
  {
    match c
    case Transition(WholeArray, before, after) =>
      if states == Uniform(|states|, before) then Some(Uniform(|states|, after)) else None
    case Transition(Slice(i), before, after) => ApplyBarrier(states, i, before, after)
    case Trace(_, _, _) =>
      if states == Uniform(|states|, UnorderedAccess) then Some(states) else None
    case MergeSetup(s, t) =>
      if s < |states| && t < |states| && states[s] == ShaderResource && states[t] == UnorderedAccess
      then Some(states) else None
    case Dispatch(_, _, _) => Some(states)
  }

  /** The merge loop from level i down makes slices i+1 .. 1 readable, each before it is bound
      as a source. */
  lemma {:induction false} MergeLoopRuns(n: nat, i: int)
    requires -1 <= i <= n - 2
    ensures Run(Step, Split(n, i + 2, UnorderedAccess, ShaderResource), MergeLoop(i))
         == Some(Split(n, 1, UnorderedAccess, ShaderResource))
    decreases i + 1
  {
    if i >= 0 {
      var s := Split(n, i + 2, UnorderedAccess, ShaderResource);
      var t := Split(n, i + 1, UnorderedAccess, ShaderResource);
      BarrierShrinksSplit(n, i + 2, UnorderedAccess, ShaderResource);
      var head := [Transition(Slice(i + 1), UnorderedAccess, ShaderResource), MergeSetup(i + 1, i)];
      assert Run(Step, s, head) == Some(t) by {
        assert Step(s, head[0]) == Some(t);
        assert t[i + 1] == ShaderResource && t[i] == UnorderedAccess;
        assert Step(t, head[1]) == Some(t);
        RunPair(Step, s, head[0], head[1]);
      }
      RunAppend(Step, s, head, MergeLoop(i - 1));
      MergeLoopRuns(n, i - 1);
    }
  }

  /** Over the N slices, every barrier `Generate` records names the current state of what it
      covers, the trace finds every slice writable, and every slice ends in the shader-resource
      state it was created in. */
  lemma {:induction false} GenerateKeepsStates(e: Engine)
    requires e.count > 1 && |e.readViews| == e.count
    ensures Run(Step, Uniform(e.count, ShaderResource), Generate(e).commands)
         == Some(Uniform(e.count, ShaderResource))
  {
    var n := e.count;
    var sr := Uniform(n, ShaderResource);
    var ua := Uniform(n, UnorderedAccess);
    var head := [Transition(WholeArray, ShaderResource, UnorderedAccess), Trace(e.pixelsX, e.pixelsY, n)];
    var merged := MergeLoop(n - 2);
    var last := [Transition(Slice(0), UnorderedAccess, ShaderResource)];
    assert Generate(e).commands == head + merged + last;
    assert Run(Step, sr, head) == Some(ua) by {
      RunPair(Step, sr, head[0], head[1]);
    }
    assert ua == Split(n, n, UnorderedAccess, ShaderResource);
    MergeLoopRuns(n, n - 2);
    BarrierShrinksSplit(n, 1, UnorderedAccess, ShaderResource);
    assert Split(n, 0, UnorderedAccess, ShaderResource) == sr;
    RunSingle(Step, Split(n, 1, UnorderedAccess, ShaderResource), last[0]);
    RunAppend(Step, sr, head, merged);
    RunAppend(Step, sr, head + merged, last);
  }

  // ----- Dispatch order -----

  /** The (source, target) slices of the merge setups, in recording order. */
  function MergeSetups(cmds: seq<Command>): seq<(nat, nat)>
  {
    if cmds == [] then []
    else (if cmds[0].MergeSetup? then [(cmds[0].source, cmds[0].target)] else []) + MergeSetups(cmds[1..])
  }

  lemma {:induction false} MergeSetupsAppend(a: seq<Command>, b: seq<Command>)
    ensures MergeSetups(a + b) == MergeSetups(a) + MergeSetups(b)
    decreases |a|
  {
    if a == [] {
      assert a + b == b;
    } else {
      assert (a + b)[0] == a[0];
      assert (a + b)[1..] == a[1..] + b;
      MergeSetupsAppend(a[1..], b);
    }
  }

  lemma {:induction false} MergeLoopOrder(i: int)
    requires i >= -1
    ensures MergeSetups(MergeLoop(i)) == seq(i + 1, k => (i + 1 - k, i - k))
    ensures forall c :: c in MergeLoop(i) ==> c.Transition? || c.MergeSetup?
    decreases i + 1
  {
    if i >= 0 {
      var head := [Transition(Slice(i + 1), UnorderedAccess, ShaderResource), MergeSetup(i + 1, i)];
      MergeSetupsAppend(head, MergeLoop(i - 1));
      MergeLoopOrder(i - 1);
      assert head[1..][1..] == [];
    }
  }

  /** `Generate` records exactly one ray dispatch, of X by Y by N, right after the single
      whole-array barrier; it records no merge dispatch; and its merge loop binds (N-1, N-2),
      ..., (1, 0) in that order. */
  lemma {:induction false} GenerateDispatches(e: Engine)
    requires e.count > 1 && |e.readViews| == e.count
    ensures var cmds := Generate(e).commands; var n := e.count;
      && cmds[0] == Transition(WholeArray, ShaderResource, UnorderedAccess)
      && cmds[1] == Trace(e.pixelsX, e.pixelsY, n)
      && (forall j :: 0 <= j < |cmds| && cmds[j].Trace? ==> j == 1)
      && (forall j :: 0 <= j < |cmds| && cmds[j].Transition? && cmds[j].covers == WholeArray ==> j == 0)
      && (forall c :: c in cmds ==> !c.Dispatch?)
      && MergeSetups(cmds) == seq(n - 1, k => (n - 1 - k, n - 2 - k))
  {
    var n := e.count;
    var head := [Transition(WholeArray, ShaderResource, UnorderedAccess), Trace(e.pixelsX, e.pixelsY, n)];
    var merged := MergeLoop(n - 2);
    var last := [Transition(Slice(0), UnorderedAccess, ShaderResource)];
    var cmds := head + merged + last;
    assert Generate(e).commands == cmds;
    MergeLoopOrder(n - 2);
    MergeSetupsAppend(head, merged);
    MergeSetupsAppend(head + merged, last);
    assert MergeSetups(head) == [] by {
      assert head[1..][1..] == [];
    }
    assert MergeSetups(last) == [] by {
      assert last[1..] == [];
    }
    MergeLoopSlicesOnly(n - 2);
    forall j | 2 <= j < |cmds|
      ensures !cmds[j].Trace? && !cmds[j].Dispatch? && (cmds[j].Transition? ==> cmds[j].covers != WholeArray)
    {
      if j < 2 + |merged| {
        assert cmds[j] == merged[j - 2];
        assert merged[j - 2] in merged;
      }
    }
    assert forall c :: c in cmds ==> exists j :: 0 <= j < |cmds| && cmds[j] == c;
  }

  lemma {:induction false} MergeLoopSlicesOnly(i: int)
    requires i >= -1
    ensures forall c :: c in MergeLoop(i) && c.Transition? ==> c.covers.Slice?
    decreases i + 1
  {
    if i >= 0 {
      MergeLoopSlicesOnly(i - 1);
    }
  }

}
