/** The scene instance store of Scene.cpp / Scene.h: a fixed-capacity table of instances with
    a CPU staging copy, a GPU copy, one ray-tracing instance descriptor per slot and a
    top-level acceleration structure, kept in step by two dirty flags. Matrices and colours
    are float payload the store only copies, so they stay uninterpreted. */
module SceneStore {
  import opened Wrappers

  /** Instance slots in the store. */
  const InstanceCapacity: nat := 65536

  /** Bytes of one `Instance` record: a 4x4 float matrix and two 4-float vectors. */
  const InstanceRecordSize: nat := 96

  /** Bytes of the staging (and GPU) instance buffers. */
  const InstanceDataSize: nat := InstanceCapacity * InstanceRecordSize

  /** Bytes of one ray-tracing instance descriptor. */
  const InstanceDescSize: nat := 64

  /** The instance mask every descriptor gets: visible to every ray. */
  const FullMask: nat := 0xFF

  /** A 4x4 float matrix and a 4-float vector, as payload. */
  type Matrix = seq<real>
  type Vector = seq<real>

  /** A model, as far as the store sees it: the address of its bottom-level structure. */
  datatype ModelRef = ModelRef(blas: nat)

  /** One staging record. */
  datatype Instance = Instance(transform: Matrix, albedo: Vector, emission: Vector)

  datatype InstanceFlag = TriangleCullDisable

  /** The ray-tracing instance descriptor of one slot. Its 3x4 matrix is the transpose of
      `transform`; the transpose is float payload and is not modelled. */
  datatype InstanceDesc = InstanceDesc(
    blas: nat,
    flags: InstanceFlag,
    hitGroupContribution: nat,
    instanceId: nat,
    mask: nat,
    transform: Matrix)

  /** A built top-level structure over the first `instanceCount` descriptors. */
  datatype TopLevel = TopLevel(instanceCount: nat)

  /** The store. `staging`, `gpuData` and `buildData` map a slot to what has been written to it;
      slots never written hold no defined value. */
  datatype Scene = Scene(
    models: seq<ModelRef>,
    staging: map<nat, Instance>,
    gpuData: map<nat, Instance>,
    buildData: map<nat, InstanceDesc>,
    buildDataSize: nat,
    tlas: Option<TopLevel>,
    transformsDirty: bool,
    instanceDataDirty: bool)

  /** The byte just past the descriptor of slot `id` in the descriptor buffer. */
  function DescEnd(id: nat): nat
  {
    (id + 1) * InstanceDescSize
  }

  /** The size in bytes the descriptor buffer needs: every slot's descriptor fits, and the last
      slot's descriptor ends exactly at the end of the buffer, so no smaller size would do. */
  function BuildDataSize(): (n: nat)
    ensures forall id :: 0 <= id < InstanceCapacity ==> DescEnd(id) <= n
    ensures DescEnd(InstanceCapacity - 1) == n
  {
    InstanceCapacity * InstanceDescSize
  }

  /** The corrected size is the least buffer size that holds the descriptor of every slot. */
  lemma {:induction false} BuildDataSizeLeast(m: nat)
    requires forall id :: 0 <= id < InstanceCapacity ==> DescEnd(id) <= m
    ensures BuildDataSize() <= m
  {
    assert DescEnd(InstanceCapacity - 1) <= m;
  }

  /** The size the constructor actually requests: the staging buffer's byte size times the
      descriptor size. */
  function BuildDataSizeAsWritten(): nat
  {
    InstanceDataSize * InstanceDescSize
  }

  /** The requested descriptor buffer is 96 times larger than the capacity needs: 384 MiB
      instead of 4 MiB. */
  lemma {:induction false} BuildDataSizeAsWrittenOverAllocates()
    ensures BuildDataSizeAsWritten() == InstanceRecordSize * BuildDataSize()
    ensures BuildDataSizeAsWritten() == 402653184 && BuildDataSize() == 4194304
  {
  }

  /** The descriptor written for slot `id`. */
  function DescFor(id: nat, model: ModelRef, transform: Matrix): InstanceDesc
  {
    InstanceDesc(model.blas, TriangleCullDisable, 0, id, FullMask, transform)
  }

  /** The written slots of `m` are exactly 0 .. n-1. */
  predicate HoldsSlots<T>(m: map<nat, T>, n: nat)
  {
    && (forall id :: id in m ==> id < n)
    && (forall id :: 0 <= id < n ==> id in m)
  }

  /** The store's invariant: the instance count is within capacity, exactly the slots below it
      have been written, each slot's descriptor names its own slot and its model's structure,
      a clean store's GPU copy matches staging, and a clean non-empty store has a top-level
      structure over every instance. */
  predicate Valid(s: Scene)
  {
    && |s.models| <= InstanceCapacity
    && s.buildDataSize >= BuildDataSize()
    && HoldsSlots(s.staging, |s.models|)
    && HoldsSlots(s.buildData, |s.models|)
    && (forall id :: 0 <= id < |s.models| ==>
          s.buildData[id] == DescFor(id, s.models[id], s.staging[id].transform))
    && (!s.transformsDirty && !s.instanceDataDirty ==> s.gpuData == s.staging)
    && (!s.transformsDirty && |s.models| > 0 ==> s.tlas == Some(TopLevel(|s.models|)))
  }

  /** The constructor: no instances, nothing written, both flags clear. The descriptor buffer
      has the size the source requests, 96 times the size its descriptors need. */
  function New(): (s: Scene)
    ensures Valid(s)
    ensures |s.models| == 0 && !s.transformsDirty && !s.instanceDataDirty
    ensures s.buildDataSize == InstanceRecordSize * BuildDataSize()
  {
    Scene([], map[], map[], map[], BuildDataSizeAsWritten(), None, false, false)
  }

  datatype Added = Added(scene: Scene, id: nat)

  /** AddInstance: the new instance takes the next id, its record goes into staging slot id,
      its descriptor into descriptor slot id, and both flags are raised. The source asserts
      there is a free slot. */
  function AddInstance(s: Scene, model: ModelRef, transform: Matrix, albedo: Vector, emission: Vector): (r: Added)
    requires |s.models| < InstanceCapacity
    ensures r.id == |s.models| && |r.scene.models| == |s.models| + 1
    ensures r.scene.transformsDirty && r.scene.instanceDataDirty
    ensures r.scene.gpuData == s.gpuData && r.scene.tlas == s.tlas
  {
    var id := |s.models|;
    Added(
      s.(models := s.models + [model],
         staging := s.staging[id := Instance(transform, albedo, emission)],
         buildData := s.buildData[id := DescFor(id, model, transform)],
         transformsDirty := true,
         instanceDataDirty := true),
      id)
  }

  /** Adding an instance keeps the invariant. */
  lemma {:induction false} AddInstanceKeepsValid(s: Scene, model: ModelRef, transform: Matrix, albedo: Vector, emission: Vector)
    requires Valid(s) && |s.models| < InstanceCapacity
    ensures Valid(AddInstance(s, model, transform, albedo, emission).scene)
  {
    var t := AddInstance(s, model, transform, albedo, emission).scene;
    var id := |s.models|;
    forall j | 0 <= j < |t.models|
      ensures t.buildData[j] == DescFor(j, t.models[j], t.staging[j].transform)
    {
      if j < id {
        assert t.models[j] == s.models[j];
      }
    }
  }

  /** Reading slot `id` back after an add yields what was written: the record, and a
      descriptor with instance id `id`, mask 0xFF, hit-group contribution 0, culling disabled
      and the model's structure. Every other slot and every earlier instance's model is
      unchanged, and the write falls inside both buffers. */
  lemma {:induction false} AddInstanceReadBack(s: Scene, model: ModelRef, transform: Matrix, albedo: Vector, emission: Vector)
    requires Valid(s) && |s.models| < InstanceCapacity
    ensures var r := AddInstance(s, model, transform, albedo, emission); var id := r.id;
      && r.scene.models[id] == model
      && r.scene.staging[id] == Instance(transform, albedo, emission)
      && r.scene.buildData[id].instanceId == id
      && r.scene.buildData[id].mask == 0xFF
      && r.scene.buildData[id].hitGroupContribution == 0
      && r.scene.buildData[id].flags == TriangleCullDisable
      && r.scene.buildData[id].blas == model.blas
      && (forall j :: 0 <= j < id ==> r.scene.models[j] == s.models[j])
      && (forall j :: j in s.staging ==> r.scene.staging[j] == s.staging[j])
      && (forall j :: j in s.buildData ==> r.scene.buildData[j] == s.buildData[j])
      && (id + 1) * InstanceRecordSize <= InstanceDataSize
      && (id + 1) * InstanceDescSize <= r.scene.buildDataSize
  {
    var id := |s.models|;
    assert id + 1 <= InstanceCapacity;
    assert (id + 1) * InstanceRecordSize <= InstanceCapacity * InstanceRecordSize;
    assert (id + 1) * InstanceDescSize <= InstanceCapacity * InstanceDescSize;
    assert (id + 1) * InstanceDescSize == DescEnd(id);
  }

  /** Adds a list of instances in order, collecting the ids handed out. */
  function AddAll(s: Scene, items: seq<(ModelRef, Instance)>): (r: (Scene, seq<nat>))
    requires |s.models| + |items| <= InstanceCapacity
    decreases |items|
  {
    if items == [] then (s, [])
    else
      var (m, inst) := items[0];
      var a := AddInstance(s, m, inst.transform, inst.albedo, inst.emission);
      var rest := AddAll(a.scene, items[1..]);
      (rest.0, [a.id] + rest.1)
  }

  /** Ids are handed out sequentially: adding k instances to a store with n of them returns
      n, n+1, ..., n+k-1, and the store then holds n + k instances with the added models in
      order after the existing ones. */
  lemma {:induction false} AddAllSequentialIds(s: Scene, items: seq<(ModelRef, Instance)>)
    requires |s.models| + |items| <= InstanceCapacity
    ensures var (t, ids) := AddAll(s, items);
      && ids == seq(|items|, k => |s.models| + k)
      && |t.models| == |s.models| + |items|
      && t.models[..|s.models|] == s.models
      && (forall k :: 0 <= k < |items| ==> t.models[|s.models| + k] == items[k].0)
    decreases |items|
  {
    if items != [] {
      var (m, inst) := items[0];
      var a := AddInstance(s, m, inst.transform, inst.albedo, inst.emission);
      AddAllSequentialIds(a.scene, items[1..]);
      var (t, ids) := AddAll(s, items);
      assert a.scene.models[..|s.models|] == s.models;
      assert t.models[..|a.scene.models|] == a.scene.models;
      assert t.models[..|s.models|] == a.scene.models[..|s.models|];
      forall k | 0 <= k < |items|
        ensures t.models[|s.models| + k] == items[k].0
      {
        if k > 0 {
          assert items[1..][k - 1] == items[k];
        }
      }
    }
  }

  /** The commands `Update` records. */
  datatype SceneCommand = CopyInstanceData | BuildTopLevel(instanceCount: nat)

  datatype Updated = Updated(scene: Scene, commands: seq<SceneCommand>)

  /** Update: copy staging to the GPU copy when either flag is raised, rebuild the top-level
      structure over every instance when transforms are dirty, then clear both flags. */
  function Update(s: Scene): (r: Updated)
    ensures !r.scene.transformsDirty && !r.scene.instanceDataDirty
    ensures r.scene.models == s.models && r.scene.staging == s.staging && r.scene.buildData == s.buildData
  {
    var dirty := s.transformsDirty || s.instanceDataDirty;
    var copy := if dirty then [CopyInstanceData] else [];
    var build := if s.transformsDirty then [BuildTopLevel(|s.models|)] else [];
    Updated(
      s.(gpuData := if dirty then s.staging else s.gpuData,
         tlas := if s.transformsDirty then Some(TopLevel(|s.models|)) else s.tlas,
         transformsDirty := false,
         instanceDataDirty := false),
      copy + build)
  }

  /** `Update` copies exactly when at least one flag is raised, rebuilds exactly when
      transforms are dirty, and a rebuild covers exactly the current instance count; the copy
      comes first. Afterwards the GPU copy matches staging and the invariant still holds. */
  lemma {:induction false} UpdateEffects(s: Scene)
    ensures var r := Update(s);
      && (CopyInstanceData in r.commands <==> s.transformsDirty || s.instanceDataDirty)
      && ((exists n :: BuildTopLevel(n) in r.commands) <==> s.transformsDirty)
      && (forall n :: BuildTopLevel(n) in r.commands ==> n == |s.models|)
      && (|r.commands| == 2 ==> r.commands[0] == CopyInstanceData)
      && (Valid(s) ==> Valid(r.scene) && r.scene.gpuData == r.scene.staging)
  {
    var r := Update(s);
    if s.transformsDirty {
      assert BuildTopLevel(|s.models|) in r.commands;
    }
  }

  /** With no change in between, a second `Update` records nothing and changes nothing. */
  lemma {:induction false} UpdateIdempotent(s: Scene)
    ensures Update(Update(s).scene) == Updated(Update(s).scene, [])
  {
  }

  /** `Update` on a fresh store records nothing. */
  lemma {:induction false} UpdateFreshDoesNothing()
    ensures Update(New()).commands == []
    ensures Update(New()).scene == New()
  {
  }

  /** After an add, the next `Update` both copies and rebuilds over every instance including
      the new one. */
  lemma {:induction false} AddThenUpdate(s: Scene, model: ModelRef, transform: Matrix, albedo: Vector, emission: Vector)
    requires |s.models| < InstanceCapacity
    ensures Update(AddInstance(s, model, transform, albedo, emission).scene).commands
         == [CopyInstanceData, BuildTopLevel(|s.models| + 1)]
  {
  }

}
