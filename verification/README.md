# dx12-radiance-cascades: the host-side logic of the renderer

This project models, in Dafny, the integer and state-machine logic of a small Direct3D 12
renderer that computes global illumination with radiance cascades. GPU calls become abstract
events or command traces. The contracts and lemmas state what that logic promises.

- `wrappers.dfy` (`Wrappers`): `Option`.
- `arith.dfy` (`Arith`): the C++ integer arithmetic the code relies on:
  - `uint32_t` and `uint16_t` wrap-around;
  - `>>`;
  - ceiling division for thread-group counts;
  - the integer ceiling square root.
- `states.dfy` (`ResourceStates`): resource states, the transition-barrier rule (a barrier is
  legal only from the resource's current state), and a generic executor that runs a command
  trace against tracked states.
- `device.dfy` (`GpuDevice`), from `Device.cpp` / `Device.h`:
  - the command-allocator pool: a LIFO free list, a FIFO queue of `{allocator, stamp}`
    entries, and a pre-incremented submission counter;
  - batch acquisition and submission with reclamation of completed batches;
  - `WaitIdle`;
  - the bump-pointer render-target and depth-stencil view cursors;
  - the vertex- and index-buffer view sizes.
- `cascades.dfy` (`Cascades`), from `sources/RadianceCascades.cpp`: one texture array per
  level. The constructor's extents and views, and `Generate` as a command trace (one trace per
  level, then merges from the coarsest level down).
- `legacy_cascades.dfy` (`LegacyCascades`), from the older `RadianceCascades.cpp`:
  - one N-slice array laid out as a square of probes;
  - a single trace dispatch;
  - a merge loop whose dispatch is commented out.
- `scene.dfy` (`SceneStore`), from `Scene.cpp` / `Scene.h`: the fixed-capacity instance store,
  sequential ids, slot writes, the two dirty flags and `Update`.
- `model.dfy` (`Meshes`), from `Model.cpp`: concatenation of a list of meshes, with each mesh's
  triangle indices rebased by the vertices before it. A loop implementation is proved equal to
  a recursive reference definition.
- `renderer.dfy` (`Frames`), from `Renderer.cpp`: the constructor's view creation and one frame:
  - back-buffer rotation;
  - the paired PRESENT/RENDER_TARGET barriers;
  - exactly one batch acquired and submitted.

Environment inputs:
- The fence's completed value is a parameter of every submission (`completed`). The
  per-submission lemmas hold for every value. For the guarantee across operations, the
  device keeps two pieces of bookkeeping the source does not: each allocator's last stamp
  (`stamps`) and the largest completed value observed so far (`lastCompleted`). A fence
  never decreases, so the GPU has finished every batch stamped at or below `lastCompleted`.
  `FenceSafe` states that every pooled allocator's last stamp is at most that value.
- Descriptor-handle starts and increments are parameters of device construction.
- Bottom-level structures are opaque ids.
- Transforms and colours are opaque `seq<real>` values.

## Model

| member | source | states |
|---|---|---|
| `Arith.Wrap32` | Model.cpp:33 | conversion to `uint32_t`: the result is below 2^32, differs from the input by a multiple of 2^32, and equals the input when that fits |
| `Arith.Wrap16` | Device.h:45 | conversion to `uint16_t`: the result is below 2^16, differs from the input by a multiple of 2^16, and equals the input when that fits |
| `Arith.ShrAntitone` | sources/RadianceCascades.cpp:22 | `z >> i` never increases as `i` grows |
| `Arith.GroupCountIsCeiling` | sources/RadianceCascades.cpp:105-108 | `(e + g - 1) / g` is the least group count covering `e`: `groups * g >= e` and `(groups - 1) * g < e`, when `e + g - 1` does not wrap |
| `Arith.CeilSqrt` | RadianceCascades.cpp:14-15 | probes per line is the least `p` with `p * p >= n` |
| `ResourceStates.ApplyBarrier` | Renderer.cpp:33-40 | a transition barrier succeeds iff the resource is in the before-state; it then moves that resource alone to the after-state |
| `GpuDevice.CreateDescriptorHeap` | Device.cpp:57-70 | the heap has the requested kind and size, and is shader visible exactly when it is not a render-target or depth-stencil heap |
| `GpuDevice.CreateView` | Device.cpp:202-205 | a view returns the current cursor and advances it by exactly one increment; the handle stays inside the 128-entry table |
| `GpuDevice.CreatedViewsAscend` | Device.cpp:202-230 | views created one after another start at the cursor, handle i is the cursor plus i increments, so they are strictly increasing and all inside the table |
| `GpuDevice.NewDevice` | Device.cpp:6-27 | a fresh device satisfies the pool invariant and the reuse guarantee: counter 0, no allocator created, empty queue and pool, a 65536-entry shader-visible SRV table, and 128-entry RTV/DSV tables whose cursors start at the given table starts with no view issued |
| `GpuDevice.CreateGraphicsCommands` | Device.cpp:166-181 | acquiring pops the most recently freed allocator (LIFO) when the pool is non-empty, and otherwise creates a new one; the queue and counter are untouched |
| `GpuDevice.AcquireCreatesOnlyWhenEmpty` | Device.cpp:169-179 | an allocator is created iff the pool is empty, and the last two calls are always reset-then-create-list on the acquired allocator |
| `GpuDevice.AcquireTransfersOwnership` | Device.cpp:166-181 | acquiring keeps the device valid and hands the allocator to the caller: it is no longer owned by the device, and pool plus queue hold exactly what they held minus it |
| `GpuDevice.CompletedPrefix` | Device.cpp:194 | the reclaim loop's stopping point: every entry before it has stamp at most the completed value, the entry at it (if any) exceeds it |
| `GpuDevice.SubmitGraphicsCommands` | Device.cpp:183-200 | submit closes, executes, and signals exactly the pre-incremented counter; the counter grows by one |
| `GpuDevice.SubmitKeepsQueue` | Device.cpp:188-190 | after submit the queue's stamps are still strictly ascending and all at most the new counter |
| `GpuDevice.SubmitKeepsInvariant` | Device.cpp:183-200 | submit keeps the device valid and creates or destroys no allocator: pool plus queue afterwards is the old contents plus the submitted allocator (as a multiset) |
| `GpuDevice.Reclaim` | Device.cpp:194-199 | reclamation pops a front part of the queue, every popped entry's stamp is complete, its allocators are pushed onto the pool's back in queue order, the old pool is kept as a prefix, and the entry left at the front (if any) is incomplete |
| `GpuDevice.ReclaimConserves` | Device.cpp:194-199 | reclamation moves entries from queue front to pool back without creating or losing any |
| `GpuDevice.ReclaimLeavesOnlyIncomplete` | Device.cpp:192-199 | with ascending stamps, every entry left in the queue has a stamp above the completed value |
| `GpuDevice.ReclaimFreesOnlyComplete` | Device.cpp:194-199 | the pool keeps its old contents as a prefix, and every allocator appended to it came from a queue entry whose stamp is at most the completed value |
| `GpuDevice.SubmitNeverFreesInFlight` | Device.cpp:188-199 | within one submission: every entry left pending has a stamp above the completed value, the pool keeps its old contents as a prefix, and every allocator the submission moves to the pool comes from an entry whose stamp is at most the completed value |
| `GpuDevice.SubmitKeepsFenceSafe` | Device.cpp:183-200 | across submissions: if every pooled allocator's last stamp was complete by the largest observed fence value, the same holds afterwards, both for allocators already pooled and for those this submission reclaims |
| `GpuDevice.AcquireNeverReusesInFlight` | Device.cpp:166-181 | the allocator an acquisition resets is either newly created (pool empty) or one whose last submission is complete by the largest observed fence value; the guarantee is kept |
| `GpuDevice.UploadKeepsFenceSafe` | Device.cpp:128-130 | a buffer upload's acquire and submit keep the reuse guarantee |
| `GpuDevice.WaitIdle` | Device.cpp:349-353 | the value waited for is at least every stamp still pending |
| `GpuDevice.WaitIdleWaitsForLastSignal` | Device.cpp:349-353 | right after a submission, the value `WaitIdle` waits for is exactly the value that submission's `Signal` used |
| `GpuDevice.WaitIdleCompletesAll` | Device.cpp:349-353 | once the fence reaches the value `WaitIdle` waits for, every issued stamp is complete and a reclamation run then would empty the queue |
| `GpuDevice.FirstStampIsOne` | Device.h:84-86 | the first submission on a fresh device is signalled with 1, and it is reclaimed iff the completed value has reached 1 |
| `GpuDevice.CreateVertexBuffer` | Device.cpp:120-141 | the view's size is the byte count truncated to 32 bits (below 2^32, congruent to the byte count modulo 2^32, exact when it fits), the stride is three floats, and one batch is submitted |
| `GpuDevice.CreateIndexBuffer` | Device.cpp:143-164 | the view's size is the byte count truncated to 32 bits (below 2^32, congruent to the byte count modulo 2^32, exact when it fits), the format is 32-bit unsigned, and one batch is submitted |
| `GpuDevice.UploadKeepsInvariant` | Device.cpp:128-138 | an upload keeps the device valid, and after its `WaitIdle` every pending stamp is complete |
| `Cascades.Create` | sources/RadianceCascades.cpp:10-43 | there are `count` levels; X and Y are the uint32 products 64 * res.x and 32 * res.y on every input; level i's texture is X by Y by `Z >> i`, each truncated to `uint16_t`, and its read view spans `Z >> i` slices |
| `Cascades.CreateExtents` | sources/RadianceCascades.cpp:10-15 | without overflow X = 64 * res.x and Y = 32 * res.y, level 0 has res.z slices, and when the extents fit in 16 bits each texture has exactly the traced extents |
| `Cascades.LevelSlicesHalve` | sources/RadianceCascades.cpp:22-35 | level i's views span `res.z >> i` slices from slice 0; each level has half the previous level's slices and the counts never increase |
| `Cascades.Generate` | sources/RadianceCascades.cpp:51-113 | `Generate` returns one read view per level, in level order, and uploads the resolution and X, Y as constants |
| `Cascades.GenerateKeepsStates` | sources/RadianceCascades.cpp:84-111 | starting from every level in shader-resource state, every barrier's before-state matches, every trace writes an unordered-access level, every merge reads a shader-resource level into an unordered-access one, and all levels end in shader-resource state |
| `Cascades.GenerateDispatchOrder` | sources/RadianceCascades.cpp:84-110 | traces run for levels 0..N-1 in order; merges run N-1 times, from (N-1 into N-2) down to (1 into 0) |
| `Cascades.GenerateSizes` | sources/RadianceCascades.cpp:77-109 | every trace of level i is X by Y by `Z >> i`; every merge into level i has the group counts `GroupCount` of X, Y and `Z >> i` by 4 |
| `Cascades.MergeGroupsCover` | sources/RadianceCascades.cpp:105-108 | without overflow, each merge's group counts times 4 cover the level's extents and are the least that do |
| `Cascades.GenerateTransitionsOncePerLevel` | sources/RadianceCascades.cpp:86 | each level is transitioned shader-resource to unordered-access exactly once |
| `Cascades.GenerateTracesFollowBarriers` | sources/RadianceCascades.cpp:84-92 | every trace of a level comes immediately after that level's shader-resource to unordered-access barrier |
| `LegacyCascades.ProbeCount` | RadianceCascades.cpp:14 | the probe count `x * y * z` in uint32: below 2^32, congruent to the true product modulo 2^32, and equal to it when it fits |
| `LegacyCascades.Create` | RadianceCascades.cpp:11-54 | probes per line is the least p with p * p >= x * y * z (uint32); the whole-array write view spans all N slices; level i's views cover exactly slice i; X = 4p and Y = 2p in uint32; the texture dimensions are X, Y and N truncated to `uint16_t` (so they equal X, Y, N when those fit) |
| `LegacyCascades.CreateExtentsExact` | RadianceCascades.cpp:14-17 | p is at most 65536, so X = 4p and Y = 2p never wrap in 32 bits |
| `LegacyCascades.Generate` | RadianceCascades.cpp:62-123 | requires N > 1 and returns only the level-0 read view, uploading X and Y as constants |
| `LegacyCascades.MergeGroupsCover` | RadianceCascades.cpp:115-117 | the unused merge group counts are exact ceilings of X and Y over 8 |
| `LegacyCascades.GenerateKeepsStates` | RadianceCascades.cpp:64-120 | from an all-shader-resource array the whole-array barrier is legal, the trace sees every slice in unordered-access state, each merge reads slice i+1 in shader-resource state and writes slice i in unordered-access state, and the array ends all shader-resource |
| `LegacyCascades.GenerateDispatches` | RadianceCascades.cpp:64-120 | the first command is the single whole-array barrier and the second the single X by Y by N trace; no merge dispatch is recorded; merge bindings run (N-1, N-2) down to (1, 0) |
| `LegacyCascades.MergeLoopSlicesOnly` | RadianceCascades.cpp:108-110 | every barrier inside the merge loop covers one slice, never the whole array |
| `SceneStore.BuildDataSizeAsWrittenOverAllocates` | Scene.cpp:8 | the build-data buffer as written is 96 times the size its contents need (see Findings) |
| `SceneStore.BuildDataSize` | Scene.cpp:8 | the corrected build-data size holds the descriptor of every slot, and the last slot's descriptor ends exactly at its end |
| `SceneStore.BuildDataSizeLeast` | Scene.cpp:8 | any buffer size that holds the descriptor of every slot is at least the corrected size |
| `SceneStore.New` | Scene.cpp:3-24 | a fresh scene is valid, empty and has both dirty flags clear; its build-data buffer has the size the source requests, 96 times the corrected size (see Findings) |
| `SceneStore.AddInstance` | Scene.cpp:58-91 | the id is the previous instance count, the count grows by one, both flags are set, and GPU-side data is untouched |
| `SceneStore.AddInstanceKeepsValid` | Scene.cpp:58-91 | adding below capacity keeps the store's invariant |
| `SceneStore.AddInstanceReadBack` | Scene.cpp:63-84 | slot id reads back the written record; its build descriptor has InstanceID = id, mask 0xFF, contribution 0, cull-disable and the model's bottom-level structure; no other slot changes; the written range lies inside both buffers |
| `SceneStore.AddAllSequentialIds` | Scene.cpp:63-64 | successive additions receive ids n, n+1, n+2, … |
| `SceneStore.Update` | Scene.cpp:26-48 | `Update` clears both flags and changes no instance or build data |
| `SceneStore.UpdateEffects` | Scene.cpp:28-47 | `Update` copies iff either flag is set and rebuilds iff transforms are dirty, over exactly the current instance count; on a valid store the GPU data then equals the staging data |
| `SceneStore.UpdateIdempotent` | Scene.cpp:46-47 | a second `Update` with nothing in between issues no commands and changes nothing |
| `SceneStore.UpdateFreshDoesNothing` | Scene.h:43-44 | `Update` on a fresh scene issues no commands |
| `SceneStore.AddThenUpdate` | Scene.cpp:28-44 | after an addition, `Update` both copies and rebuilds |
| `Meshes.AppendTriangles` | Model.cpp:23-31 | the face loop appends exactly the mesh's face indices, each shifted by the offset in 32-bit arithmetic |
| `Meshes.Concatenate` | Model.cpp:13-40 | the loop computes exactly the recursive concatenation; there are three indices per face, three floats per vertex, and as many normal floats as vertex floats |
| `Meshes.PositionsAppend` | Model.cpp:20 | vertex floats are appended in mesh order |
| `Meshes.NormalsAppend` | Model.cpp:21 | normal floats are appended in mesh order |
| `Meshes.ModelCounts` | Model.cpp:39-40 | the index count is 3 times the face total, and the vertex count is the vertex total when the counts fit in 32 bits |
| `Meshes.OffsetIsVertexTotal` | Model.cpp:16-33 | the running offset is the total vertex count of the meshes before, when that fits in 32 bits |
| `Meshes.IndicesAt` | Model.cpp:23-33 | index k of face f of mesh m sits at position 3 * (faces before + f) + k and equals the local index plus the offset after meshes 0..m-1, added in 32 bits |
| `Meshes.RebasedIndex` | Model.cpp:28-33 | a local index below its mesh's vertex count becomes that index plus the vertices before the mesh, and stays below the total vertex count |
| `Frames.NewRenderer` | Renderer.cpp:9-21 | construction yields a valid renderer with frame counter 0, a device with no submissions, and the reuse guarantee (`FenceSafe`) in force; the model load at Renderer.cpp:22 is left out; its three buffer uploads alone would leave the counter at 3 or more, with allocators in the pool or queue |
| `Frames.NewRendererViews` | Renderer.cpp:14-21 | the two back-buffer views are the first two RTV slots, and the depth view is the first DSV slot |
| `Frames.FrameIndex` | Renderer.cpp:31 | the back-buffer index is below the back-buffer count |
| `Frames.Render` | Renderer.cpp:27-75 | a frame advances the frame counter and the submission counter by exactly one and keeps the views |
| `Frames.FrameBarriersPaired` | Renderer.cpp:33-68 | the frame's barriers run iff the current back buffer is PRESENT, and then both back buffers end as they started |
| `Frames.FrameRotates` | Renderer.cpp:31-40 | the index is counter mod 2 and alternates between frames; the first operation is the PRESENT to RENDER_TARGET barrier on that buffer |
| `Frames.RenderSubmitsOnce` | Renderer.cpp:29-70 | a frame executes exactly one list and signals exactly once; its calls end reset, create-list, close, execute, signal on one allocator |
| `Frames.RenderKeepsInvariant` | Renderer.cpp:27-75 | a frame keeps the device invariant, and keeps the reuse guarantee whenever it held before; the device owns the same allocators afterwards, plus the one the frame created when the pool was empty |
| `Frames.RenderReusesOnlyCompleted` | Renderer.cpp:28 | whenever the reuse guarantee holds, every frame records into a new allocator or one whose previous batch the fence has shown complete, and the largest observed fence value never decreases |

## Left out

- Shaders, pipelines, root signatures, the swap chain and `Present`, acceleration-structure
  building, and `SetResourceData` (Map/memcpy): direct Direct3D 12 / DXGI calls with no host logic
  of their own. Buffer uploads keep only their command batch and view sizes.
- `Device::PipelineBarrierTransition` is not part of this model. Barriers follow the
  Direct3D 12 rule instead: a transition is legal only from the resource's current state.
- Floating-point payloads are opaque: transforms, albedo, emission, the transpose at
  Scene.cpp:74, the cascade extents and offsets, and clear colours.
- The GPU fence and host/GPU concurrency. The completed value is an input, and `WaitIdle`'s
  blocking wait is modelled as the value it waits for.
- The Assimp import in `Model.cpp`: the mesh list is a parameter. The hard-coded model load
  in the renderer constructor is left out with it.
- `SetInstanceTransform`, `SetInstanceAlbedo` and `SetInstanceEmission`: declared in Scene.h
  but never defined, so their effect on the flags is unknown.
- The 64-bit submission and frame counters are unbounded; 2^64 submissions are unreachable.
- `>>` by 32 or more is undefined behaviour in C++. `Arith.Shr` keeps halving instead.
- `GpuDevice.CreateView`: requires a free table slot. The source never checks this; writing
  past the 128-entry table is outside what Direct3D 12 defines.
- `SceneStore.AddInstance`: requires free capacity, as the source's `assert` demands. Release
  builds would write past the buffers instead.
- `LegacyCascades.Generate`: the loop counter is a C++ `int`, so more than 2^31 cascades are not
  modelled.
- `Cascades.Generate`: requires at least one level, because the final barrier indexes level 0.
- `Cascades.Generate`: the merge loop counter is a C++ `int` starting at `m_count - 2`, so counts
  of 2^31 + 2 and above, which would start it negative, are not modelled.
- `LegacyCascades.Create`: the square root of the probe count is taken in `double` and rounded up. For 32-bit
  counts that equals the integer ceiling square root, which is what is modelled.
- Direct3D 12's own limits on texture sizes and dispatch dimensions: texture dimensions are
  modelled only as the 16-bit values the texture-creation call receives.
- The 16-bit texture parameters come from the `CreateTexture` declaration at Device.h:45. The
  cascade and scene code call a later `Device` revision (a four-argument `CreateBuffer`,
  `CreateUnorderedAccessView`) that is not part of this model; its `CreateTexture` is assumed
  to keep the same `uint16_t` parameters.
- `SceneStore.Valid`: demands a build-data buffer of at least the corrected size rather than
  exactly one size, so that the store built with the size the source requests is valid.

## Findings

| source | as written | input that shows it | evidently intended | confidence | as-written member | corrected member |
|---|---|---|---|---|---|---|
| Scene.cpp:8 | the build-data buffer is sized `c_instanceDataSize * sizeof(D3D12_RAYTRACING_INSTANCE_DESC)`. That is a byte count times a byte count. | any scene: 65536 * 96 * 64 = 402653184 bytes are allocated for 65536 descriptors of 64 bytes | `c_instanceCount * sizeof(D3D12_RAYTRACING_INSTANCE_DESC)` = 4194304 bytes, one descriptor per slot | high; not executed | `SceneStore.BuildDataSizeAsWrittenOverAllocates` | `SceneStore.BuildDataSize` |
