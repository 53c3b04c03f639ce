/** The radiance-cascade engine of sources/RadianceCascades.cpp: one texture array per cascade
    level, level i holding Z >> i slices. `Generate` records a trace phase (one ray dispatch per
    level, finest first) and a merge phase (one compute dispatch per adjacent pair, coarse to
    fine) into a command list; the model returns that list as an abstract command trace. */
module Cascades {
  import opened Wrappers
  import opened Arith
  import opened ResourceStates

  /** Texels per probe along x and y of a level's texture. */
  const ProbePixelsX: nat := 64
  const ProbePixelsY: nat := 32

  /** Threads per merge thread group along each axis. */
  const MergeGroupSize: nat := 4

  /** The probe-grid resolution (three uint32 values). */
  datatype Resolution = Resolution(x: nat, y: nat, z: nat)

  /** One level's texture array and its two views. The texture's dimensions are what the
      texture-creation call receives, which takes them as 16-bit values; both views are
      2D-array views starting at slice `firstSlice` and spanning `readViewSlices` /
      `writeViewSlices` slices (32-bit fields). */
  datatype Level = Level(
    textureWidth: nat,
    textureHeight: nat,
    textureSlices: nat,
    firstSlice: nat,
    readViewSlices: nat,
    writeViewSlices: nat)

  /** The engine after construction: the resolution, the per-level pixel extents (uint32)
      and the levels, finest (index 0) first. */
  datatype Engine = Engine(resolution: Resolution, pixelsX: nat, pixelsY: nat, pixelsZ: nat, levels: seq<Level>)

  /** The constructor: level i is an X by Y texture array with Z >> i slices, and both of its
      views cover the whole array. X and Y are computed in uint32, and the texture's
      dimensions pass through 16 bits. */
  function Create(res: Resolution, count: nat): (e: Engine)
    ensures |e.levels| == count
    ensures e.resolution == res && e.pixelsZ == res.z
    ensures e.pixelsX < U32 && e.pixelsY < U32
    ensures e.pixelsX == Wrap32(ProbePixelsX * res.x) && e.pixelsY == Wrap32(ProbePixelsY * res.y)
    ensures forall i :: 0 <= i < count ==>
      && e.levels[i].textureWidth == Wrap16(e.pixelsX)
      && e.levels[i].textureHeight == Wrap16(e.pixelsY)
      && e.levels[i].textureSlices == Wrap16(Shr(e.pixelsZ, i))
      && e.levels[i].readViewSlices == Shr(e.pixelsZ, i)
  {
    var x := Wrap32(ProbePixelsX * res.x);
    var y := Wrap32(ProbePixelsY * res.y);
    var z := res.z;
    Engine(res, x, y, z, seq(count, i requires 0 <= i =>
      Level(Wrap16(x), Wrap16(y), Wrap16(Shr(z, i)), 0, Shr(z, i), Shr(z, i))))
  }

  /** Without 32-bit overflow, X is 64 texels per probe and Y is 32, and level 0 has one slice
      per probe along z; when the extents also fit in 16 bits, every level's texture is exactly
      as large as the dispatches that write it. */
  lemma {:induction false} CreateExtents(res: Resolution, count: nat)
    requires ProbePixelsX * res.x < U32 && ProbePixelsY * res.y < U32
    ensures var e := Create(res, count);
      && e.pixelsX == ProbePixelsX * res.x
      && e.pixelsY == ProbePixelsY * res.y
      && (count > 0 ==> e.levels[0].readViewSlices == res.z)
      && (e.pixelsX < U16 && e.pixelsY < U16 && res.z < U16 ==>
            forall i :: 0 <= i < count ==>
              && e.levels[i].textureWidth == e.pixelsX
              && e.levels[i].textureHeight == e.pixelsY
              && e.levels[i].textureSlices == e.levels[i].readViewSlices)
  {
    var e := Create(res, count);
    forall i | 0 <= i < count
      ensures Shr(e.pixelsZ, i) <= res.z
    {
      ShrAntitone(e.pixelsZ, 0, i);
    }
  }

  /** Slice counts halve from one level to the next, so they never increase with the level,
      and each level's two views span exactly that level's slices from slice 0. */
  lemma {:induction false} LevelSlicesHalve(res: Resolution, count: nat)
    ensures var e := Create(res, count);
      && (forall i :: 0 < i < count ==> e.levels[i].readViewSlices == e.levels[i - 1].readViewSlices / 2)
      && (forall i, j :: 0 <= i <= j < count ==> e.levels[j].readViewSlices <= e.levels[i].readViewSlices)
      && (forall i :: 0 <= i < count ==>
            e.levels[i].firstSlice == 0
            && e.levels[i].writeViewSlices == e.levels[i].readViewSlices
            && e.levels[i].readViewSlices == Shr(res.z, i))
  {
    var e := Create(res, count);
    forall i, j | 0 <= i <= j < count
      ensures e.levels[j].readViewSlices <= e.levels[i].readViewSlices
    {
      ShrAntitone(e.pixelsZ, i, j);
    }
  }

  /** The commands `Generate` records. A `Trace` binds level `level`'s write view and dispatches
      width x height x depth rays; a `Merge` binds level `source`'s read view and level
      `target`'s write view and dispatches the given thread-group counts. */
  datatype Command =
    | Transition(level: nat, before: ResourceState, after: ResourceState)
    | Trace(level: nat, width: nat, height: nat, depth: nat)
    | Merge(source: nat, target: nat, groupsX: nat, groupsY: nat, groupsZ: nat)

  /** The ray dispatch for level i: the level's full pixel footprint and its Z >> i slices. */
  function TraceOf(e: Engine, i: nat): Command
  {
    Trace(i, e.pixelsX, e.pixelsY, Shr(e.pixelsZ, i))
  }

  /** The merge dispatch into level i: coarser level i + 1 into level i, over level i's
      texels in groups of 4, counts rounded up. */
  function MergeInto(e: Engine, i: nat): Command
  {
    Merge(i + 1, i,
      GroupCount(e.pixelsX, MergeGroupSize),
      GroupCount(e.pixelsY, MergeGroupSize),
      GroupCount(Shr(e.pixelsZ, i), MergeGroupSize))
  }

  /** The trace loop from level i on: make the level writable, then trace it. */
  function TracePhase(e: Engine, i: nat): seq<Command>
    decreases |e.levels| - i
  {
    if i >= |e.levels| then []
    else [Transition(i, ShaderResource, UnorderedAccess), TraceOf(e, i)] + TracePhase(e, i + 1)
  }

  /** The merge loop from level i down to level 0: make the coarser level i + 1 readable,
      then merge it into level i. */
  function MergePhase(e: Engine, i: int): seq<Command>
    decreases i + 1
  {
    if i < 0 then []
    else [Transition(i + 1, UnorderedAccess, ShaderResource), MergeInto(e, i)] + MergePhase(e, i - 1)
  }

  /** The constants `Generate` uploads before recording. */
  datatype TracingConstants = TracingConstants(probeCount: Resolution, sizeX: nat, sizeY: nat)

  /** A read (shader-resource) view of one level's texture. */
  datatype ReadView = ReadView(level: nat)

  datatype Generated = Generated(constants: TracingConstants, commands: seq<Command>, readViews: seq<ReadView>)

  /** Generate: trace every level finest first, merge coarse to fine, make level 0 readable
      again, and return the read views of all levels. The source indexes level 0 after the
      loops, so it needs at least one level. */
  function Generate(e: Engine): (g: Generated)
    requires |e.levels| >= 1
    ensures |g.readViews| == |e.levels|
    ensures forall i :: 0 <= i < |e.levels| ==> g.readViews[i] == ReadView(i)
    ensures g.constants == TracingConstants(e.resolution, e.pixelsX, e.pixelsY)
  {
    var n := |e.levels|;
    Generated(
      TracingConstants(e.resolution, e.pixelsX, e.pixelsY),
      TracePhase(e, 0) + MergePhase(e, n - 2) + [Transition(0, UnorderedAccess, ShaderResource)],
      seq(n, i requires 0 <= i => ReadView(i)))
  }

  // ----- Resource-state tracking -----

  /** One command against the tracked level states: a transition must name a level in its
      before-state; a trace needs its level writable; a merge needs its source readable and
      its target writable. `None` marks a violation. */
  function Step(states: seq<ResourceState>, c: Command): Option<seq<ResourceState>>
  {
    match c
    case Transition(l, before, after) => ApplyBarrier(states, l, before, after)
    case Trace(l, _, _, _) =>
      if l < |states| && states[l] == UnorderedAccess then Some(states) else None
    case Merge(s, t, _, _, _) =>
      if s < |states| && t < |states| && states[s] == ShaderResource && states[t] == UnorderedAccess
      then Some(states) else None
  }

  function Execute(states: seq<ResourceState>, cmds: seq<Command>): Option<seq<ResourceState>>
  {
    Run(Step, states, cmds)
  }

  /** The trace loop from level i turns levels i.. from readable to writable, each just in time. */
  lemma {:induction false} TracePhaseRuns(e: Engine, i: nat)
    requires i <= |e.levels|
    ensures var n := |e.levels|;
      Execute(Split(n, i, UnorderedAccess, ShaderResource), TracePhase(e, i))
        == Some(Split(n, n, UnorderedAccess, ShaderResource))
    decreases |e.levels| - i
  {
    var n := |e.levels|;
    if i < n {
      var s := Split(n, i, UnorderedAccess, ShaderResource);
      var t := Split(n, i + 1, UnorderedAccess, ShaderResource);
      BarrierGrowsSplit(n, i, UnorderedAccess, ShaderResource);
      var head := [Transition(i, ShaderResource, UnorderedAccess), TraceOf(e, i)];
      assert Execute(s, head) == Some(t) by {
        assert Step(s, head[0]) == Some(t);
        assert Step(t, head[1]) == Some(t);
        RunPair(Step, s, head[0], head[1]);
      }
      RunAppend(Step, s, head, TracePhase(e, i + 1));
      TracePhaseRuns(e, i + 1);
    }
  }

  /** The merge loop from level i down: every source is made readable before it is read, and
      afterwards only level 0 is still writable. */
  lemma {:induction false} MergePhaseRuns(e: Engine, i: int)
    requires -1 <= i <= |e.levels| - 2
    ensures var n := |e.levels|;
      Execute(Split(n, i + 2, UnorderedAccess, ShaderResource), MergePhase(e, i))
        == Some(Split(n, 1, UnorderedAccess, ShaderResource))
    decreases i + 1
  {
    var n := |e.levels|;
    if i >= 0 {
      var s := Split(n, i + 2, UnorderedAccess, ShaderResource);
      var t := Split(n, i + 1, UnorderedAccess, ShaderResource);
      BarrierShrinksSplit(n, i + 2, UnorderedAccess, ShaderResource);
      var head := [Transition(i + 1, UnorderedAccess, ShaderResource), MergeInto(e, i)];
      assert Execute(s, head) == Some(t) by {
        assert Step(s, head[0]) == Some(t);
        assert t[i + 1] == ShaderResource && t[i] == UnorderedAccess;
        assert Step(t, head[1]) == Some(t);
        RunPair(Step, s, head[0], head[1]);
      }
      RunAppend(Step, s, head, MergePhase(e, i - 1));
      MergePhaseRuns(e, i - 1);
    }
  }

  /** Every barrier `Generate` records names its level's current state, every dispatch finds
      its levels in the state it needs, and all levels end in the shader-resource state they
      were created in, so level 0 can be read by shading without a further transition. */
  lemma {:induction false} GenerateKeepsStates(e: Engine)
    requires |e.levels| >= 1
    ensures var n := |e.levels|;
      Execute(seq(n, _ => ShaderResource), Generate(e).commands) == Some(seq(n, _ => ShaderResource))
  {
    var n := |e.levels|;
    var sr := Split(n, 0, UnorderedAccess, ShaderResource);
    assert sr == seq(n, _ => ShaderResource);
    var traced := TracePhase(e, 0);
    var merged := MergePhase(e, n - 2);
    var last := [Transition(0, UnorderedAccess, ShaderResource)];
    TracePhaseRuns(e, 0);
    MergePhaseRuns(e, n - 2);
    RunAppend(Step, sr, traced, merged);
    RunAppend(Step, sr, traced + merged, last);
    BarrierShrinksSplit(n, 1, UnorderedAccess, ShaderResource);
    RunSingle(Step, Split(n, 1, UnorderedAccess, ShaderResource), last[0]);
  }

  // ----- Dispatch order and sizes -----

  /** The levels of the ray dispatches, in recording order. */
  function Traces(cmds: seq<Command>): seq<nat>
  {
    if cmds == [] then []
    else (if cmds[0].Trace? then [cmds[0].level] else []) + Traces(cmds[1..])
  }

  /** The (source, target) levels of the merge dispatches, in recording order. */
  function Merges(cmds: seq<Command>): seq<(nat, nat)>
  {
    if cmds == [] then []
    else (if cmds[0].Merge? then [(cmds[0].source, cmds[0].target)] else []) + Merges(cmds[1..])
  }

  /** Trace extraction distributes over concatenation. */
  lemma {:induction false} TracesAppend(a: seq<Command>, b: seq<Command>)
    ensures Traces(a + b) == Traces(a) + Traces(b)
    decreases |a|
  {
    if a == [] {
      assert a + b == b;
    } else {
      var ab := a + b;
      assert ab[0] == a[0];
      assert ab[1..] == a[1..] + b;
      TracesAppend(a[1..], b);
      var h := if a[0].Trace? then [a[0].level] else [];
      assert Traces(ab) == h + Traces(ab[1..]);
      assert Traces(a) == h + Traces(a[1..]);
      assert h + (Traces(a[1..]) + Traces(b)) == (h + Traces(a[1..])) + Traces(b);
    }
  }

  /** Merge extraction distributes over concatenation. */
  lemma {:induction false} MergesAppend(a: seq<Command>, b: seq<Command>)
    ensures Merges(a + b) == Merges(a) + Merges(b)
    decreases |a|
  {
    if a == [] {
      assert a + b == b;
    } else {
      var ab := a + b;
      assert ab[0] == a[0];
      assert ab[1..] == a[1..] + b;
      MergesAppend(a[1..], b);
      var h := if a[0].Merge? then [(a[0].source, a[0].target)] else [];
      assert Merges(ab) == h + Merges(ab[1..]);
      assert Merges(a) == h + Merges(a[1..]);
      assert h + (Merges(a[1..]) + Merges(b)) == (h + Merges(a[1..])) + Merges(b);
    }
  }

  lemma {:induction false} TracePhaseOrder(e: Engine, i: nat)
    requires i <= |e.levels|
    ensures Traces(TracePhase(e, i)) == seq(|e.levels| - i, k => i + k)
    ensures Merges(TracePhase(e, i)) == []
    decreases |e.levels| - i
  {
    if i < |e.levels| {
      var head := [Transition(i, ShaderResource, UnorderedAccess), TraceOf(e, i)];
      TracesAppend(head, TracePhase(e, i + 1));
      MergesAppend(head, TracePhase(e, i + 1));
      TracePhaseOrder(e, i + 1);
      assert head[1..][1..] == [];
    }
  }

  lemma {:induction false} MergePhaseOrder(e: Engine, i: int)
    requires i >= -1
    ensures Traces(MergePhase(e, i)) == []
    ensures Merges(MergePhase(e, i)) == seq(i + 1, k => (i + 1 - k, i - k))
    decreases i + 1
  {
    if i >= 0 {
      var head := [Transition(i + 1, UnorderedAccess, ShaderResource), MergeInto(e, i)];
      TracesAppend(head, MergePhase(e, i - 1));
      MergesAppend(head, MergePhase(e, i - 1));
      MergePhaseOrder(e, i - 1);
      assert head[1..][1..] == [];
    }
  }

  /** The command trace of `Generate` splits into the trace loop, the merge loop and the final
      transition, which holds no dispatch. */
  lemma {:induction false} GenerateSplits(e: Engine)
    requires |e.levels| >= 1
    ensures var cmds := Generate(e).commands; var n := |e.levels|;
      && Traces(cmds) == Traces(TracePhase(e, 0)) + Traces(MergePhase(e, n - 2))
      && Merges(cmds) == Merges(TracePhase(e, 0)) + Merges(MergePhase(e, n - 2))
  {
    var traced := TracePhase(e, 0);
    var merged := MergePhase(e, |e.levels| - 2);
    var last := [Transition(0, UnorderedAccess, ShaderResource)];
    TracesAppend(traced, merged);
    TracesAppend(traced + merged, last);
    MergesAppend(traced, merged);
    MergesAppend(traced + merged, last);
    assert last[1..] == [];
    assert Traces(last) == [] && Merges(last) == [];
  }

  /** `Generate` records exactly N ray dispatches, for levels 0, 1, ..., N-1 in that order, and
      then exactly N-1 merges, into levels N-2, ..., 0, each reading the next coarser level. */
  lemma {:induction false} GenerateDispatchOrder(e: Engine)
    requires |e.levels| >= 1
    ensures var cmds := Generate(e).commands; var n := |e.levels|;
      && Traces(cmds) == seq(n, k => k)
      && Merges(cmds) == seq(n - 1, k => (n - 1 - k, n - 2 - k))
  {
    var n := |e.levels|;
    GenerateSplits(e);
    TracePhaseOrder(e, 0);
    MergePhaseOrder(e, n - 2);
    assert Traces(TracePhase(e, 0)) == seq(n, k => k);
  }

  /** A recorded command has the size the source gives it: a trace of level l covers the full
      pixel footprint and Z >> l slices; a merge into level t reads level t + 1 with ceiling
      group counts over level t. */
  predicate Sized(e: Engine, c: Command)
  {
    match c
    case Transition(_, _, _) => true
    case Trace(l, _, _, _) => c == TraceOf(e, l)
    case Merge(_, t, _, _, _) => c == MergeInto(e, t)
  }

  lemma {:induction false} TracePhaseSized(e: Engine, i: nat)
    ensures forall c :: c in TracePhase(e, i) ==> Sized(e, c)
    decreases |e.levels| - i
  {
    if i < |e.levels| {
      TracePhaseSized(e, i + 1);
    }
  }

  lemma {:induction false} MergePhaseSized(e: Engine, i: int)
    ensures forall c :: c in MergePhase(e, i) ==> Sized(e, c)
    decreases i + 1
  {
    if i >= 0 {
      MergePhaseSized(e, i - 1);
    }
  }

  /** Every ray dispatch in `Generate` is X by Y by (Z >> level); every merge of level l + 1
      into l dispatches ceil(X/4) by ceil(Y/4) by ceil((Z >> l)/4) groups. */
  lemma {:induction false} GenerateSizes(e: Engine)
    requires |e.levels| >= 1
    ensures forall c :: c in Generate(e).commands && c.Trace? ==>
      c.width == e.pixelsX && c.height == e.pixelsY && c.depth == Shr(e.pixelsZ, c.level)
    ensures forall c :: c in Generate(e).commands && c.Merge? ==>
      c == MergeInto(e, c.target)
  {
    TracePhaseSized(e, 0);
    MergePhaseSized(e, |e.levels| - 2);
  }

  /** Without 32-bit overflow in the rounding addition, the merge groups into a level cover its
      texels, and one group fewer along any axis would not. */
  lemma {:induction false} MergeGroupsCover(e: Engine, i: nat)
    requires e.pixelsX + MergeGroupSize - 1 < U32
    requires e.pixelsY + MergeGroupSize - 1 < U32
    requires Shr(e.pixelsZ, i) + MergeGroupSize - 1 < U32
    ensures var m := MergeInto(e, i); var g := MergeGroupSize;
      && m.groupsX * g >= e.pixelsX && (m.groupsX - 1) * g < e.pixelsX
      && m.groupsY * g >= e.pixelsY && (m.groupsY - 1) * g < e.pixelsY
      && m.groupsZ * g >= Shr(e.pixelsZ, i) && (m.groupsZ - 1) * g < Shr(e.pixelsZ, i)
  {
    GroupCountIsCeiling(e.pixelsX, MergeGroupSize);
    GroupCountIsCeiling(e.pixelsY, MergeGroupSize);
    GroupCountIsCeiling(Shr(e.pixelsZ, i), MergeGroupSize);
  }

  /** Each level is made writable exactly once. */
  lemma {:induction false} GenerateTransitionsOncePerLevel(e: Engine)
    requires |e.levels| >= 1
    ensures forall l :: 0 <= l < |e.levels| ==>
      multiset(Generate(e).commands)[Transition(l, ShaderResource, UnorderedAccess)] == 1
  {
    var n := |e.levels|;
    var traced := TracePhase(e, 0);
    var merged := MergePhase(e, n - 2);
    var last := [Transition(0, UnorderedAccess, ShaderResource)];
    assert Generate(e).commands == traced + merged + last;
    forall l | 0 <= l < n
      ensures multiset(traced + merged + last)[Transition(l, ShaderResource, UnorderedAccess)] == 1
    {
      TracePhaseCounts(e, 0, l);
      MergePhaseCounts(e, n - 2, l);
      assert multiset(traced + merged + last) == multiset(traced) + multiset(merged) + multiset(last);
    }
  }

  /** Every ray dispatch in `cmds` immediately follows the barrier that makes its own level
      writable. */
  predicate TracesFollowBarriers(cmds: seq<Command>)
  {
    forall j :: 0 <= j < |cmds| && cmds[j].Trace? ==>
      j > 0 && cmds[j - 1] == Transition(cmds[j].level, ShaderResource, UnorderedAccess)
  }

  /** In `Generate`, every ray dispatch immediately follows the barrier that makes its own
      level writable. */
  lemma {:induction false} GenerateTracesFollowBarriers(e: Engine)
    requires |e.levels| >= 1
    ensures TracesFollowBarriers(Generate(e).commands)
  {
    var n := |e.levels|;
    var traced := TracePhase(e, 0);
    var merged := MergePhase(e, n - 2);
    var last := [Transition(0, UnorderedAccess, ShaderResource)];
    var cmds := traced + merged + last;
    assert Generate(e).commands == cmds;
    TracePhasePairs(e, 0);
    forall j | 0 <= j < |cmds| && cmds[j].Trace?
      ensures j > 0 && cmds[j - 1] == Transition(cmds[j].level, ShaderResource, UnorderedAccess)
    {
      if j < |traced| {
        assert cmds[j] == traced[j];
        assert cmds[j - 1] == traced[j - 1];
      } else if j < |traced| + |merged| {
        assert cmds[j] == merged[j - |traced|];
        NoTraceInMerges(e, n - 2, j - |traced|);
      }
    }
  }

  /** Occurrences of x in a sequence that starts with a and b. */
  lemma {:induction false} CountAfterPair<T>(x: T, a: T, b: T, rest: seq<T>)
    ensures multiset([a, b] + rest)[x] == (if a == x then 1 else 0) + (if b == x then 1 else 0) + multiset(rest)[x]
  {
    assert multiset([a, b] + rest) == multiset{a} + multiset{b} + multiset(rest);
  }

  lemma {:induction false} TracePhaseCounts(e: Engine, i: nat, l: nat)
    requires i <= |e.levels|
    ensures multiset(TracePhase(e, i))[Transition(l, ShaderResource, UnorderedAccess)]
         == if i <= l < |e.levels| then 1 else 0
    decreases |e.levels| - i
  {
    if i < |e.levels| {
      var head := [Transition(i, ShaderResource, UnorderedAccess), TraceOf(e, i)];
      var rest := TracePhase(e, i + 1);
      var x := Transition(l, ShaderResource, UnorderedAccess);
      TracePhaseCounts(e, i + 1, l);
      CountAfterPair(x, head[0], head[1], rest);
      assert TracePhase(e, i) == [head[0], head[1]] + rest;
    } else {
      assert TracePhase(e, i) == [];
    }
  }

  lemma {:induction false} MergePhaseCounts(e: Engine, i: int, l: nat)
    requires i >= -1
    ensures multiset(MergePhase(e, i))[Transition(l, ShaderResource, UnorderedAccess)] == 0
    decreases i + 1
  {
    if i >= 0 {
      var head := [Transition(i + 1, UnorderedAccess, ShaderResource), MergeInto(e, i)];
      var rest := MergePhase(e, i - 1);
      MergePhaseCounts(e, i - 1, l);
      CountAfterPair(Transition(l, ShaderResource, UnorderedAccess), head[0], head[1], rest);
      assert MergePhase(e, i) == [head[0], head[1]] + rest;
    }
  }

  lemma {:induction false} TracePhasePairs(e: Engine, i: nat)
    requires i <= |e.levels|
    ensures TracesFollowBarriers(TracePhase(e, i))
    decreases |e.levels| - i
  {
    if i < |e.levels| {
      TracePhasePairs(e, i + 1);
      var head := [Transition(i, ShaderResource, UnorderedAccess), TraceOf(e, i)];
      var rest := TracePhase(e, i + 1);
      var cmds := head + rest;
      assert cmds == TracePhase(e, i);
      forall j | 0 <= j < |cmds| && cmds[j].Trace?
        ensures j > 0 && cmds[j - 1] == Transition(cmds[j].level, ShaderResource, UnorderedAccess)
      {
        if j >= 2 {
          assert cmds[j] == rest[j - 2];
          assert cmds[j - 1] == rest[j - 3];
        }
      }
    }
  }

  lemma {:induction false} NoTraceInMerges(e: Engine, i: int, j: nat)
    requires i >= -1
    requires j < |MergePhase(e, i)|
    ensures !MergePhase(e, i)[j].Trace?
    decreases i + 1
  {
    if i >= 0 && j >= 2 {
      NoTraceInMerges(e, i - 1, j - 2);
    }
  }

}
