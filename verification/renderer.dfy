/** The frame step of Renderer.cpp: the renderer owns a device, two swap-chain back buffers
    with one render-target view each and a depth buffer with one depth-stencil view. Every
    `Render` call records one batch that makes the current back buffer a render target,
    clears and draws into it and hands it back for presentation, submits that batch and
    advances the frame counter. The draw itself and the presentation are driver work. */
module Frames {
  import opened Wrappers
  import opened ResourceStates
  import opened GpuDevice

  /** Back buffers in the swap chain. */
  const BackBufferCount: nat := 2

  /** The renderer: its device, the frame counter (uint64, never near wrap-around), the
      render-target view of each back buffer and the depth buffer's view. */
  datatype Renderer = Renderer(device: Device, frameCounter: nat, targets: seq<nat>, depthTarget: nat)

  predicate Valid(r: Renderer)
  {
    && GpuDevice.Valid(r.device)
    && |r.targets| == BackBufferCount
  }

  /** The constructor's view creation: one render-target view per back buffer, then the
      depth-stencil view. The heap starts and increments come from the driver. The model load
      that follows is not modelled; its buffer uploads would each add one submission, so the
      device here is the one before that load. */
  function NewRenderer(rtvStart: nat, rtvIncrement: nat, dsvStart: nat, dsvIncrement: nat): (r: Renderer)
    requires rtvIncrement > 0 && dsvIncrement > 0
    ensures Valid(r) && FenceSafe(r.device)
    ensures r.frameCounter == 0
    ensures r.device.counter == 0 && r.device.pending == [] && r.device.free == []
  {
    var d := NewDevice(rtvStart, rtvIncrement, dsvStart, dsvIncrement);
    var (targets, rtv) := CreateViews(d.rtv, BackBufferCount);
    var (depth, dsv) := CreateView(d.dsv);
    Renderer(d.(rtv := rtv, dsv := dsv), 0, targets, depth)
  }

  /** The two back buffers get distinct, consecutive render-target views at the start of their
      heap, and the depth view is the first of its heap. */
  lemma {:induction false} NewRendererViews(rtvStart: nat, rtvIncrement: nat, dsvStart: nat, dsvIncrement: nat)
    requires rtvIncrement > 0 && dsvIncrement > 0
    ensures var r := NewRenderer(rtvStart, rtvIncrement, dsvStart, dsvIncrement);
      && r.targets == [rtvStart, rtvStart + rtvIncrement]
      && r.depthTarget == dsvStart
      && r.device.rtv.issued == BackBufferCount && r.device.dsv.issued == 1
  {
    var d := NewDevice(rtvStart, rtvIncrement, dsvStart, dsvIncrement);
    CreatedViewsAscend(d.rtv, BackBufferCount);
    var hs := CreateViews(d.rtv, BackBufferCount).0;
    assert hs[0] == d.rtv.pos;
  }

  /** What one frame records, against back buffer `buffer`: the two transition barriers,
      the clears, the output binding and the model's draw. */
  datatype FrameOp =
    | Barrier(buffer: nat, before: ResourceState, after: ResourceState)
    | ClearTarget(buffer: nat, view: nat)
    | ClearDepth(view: nat)
    | SetTargets(buffer: nat, view: nat, depthView: nat)
    | DrawModel(buffer: nat)

  /** The back buffer a frame draws into. */
  function FrameIndex(frameCounter: nat): (i: nat)
    ensures i < BackBufferCount
  {
    frameCounter % BackBufferCount
  }

  /** The batch `Render` records for the frame with counter `frameCounter`. */
  function FrameOps(r: Renderer): seq<FrameOp>
    requires |r.targets| == BackBufferCount
  {
    var i := FrameIndex(r.frameCounter);
    [ Barrier(i, Present, RenderTarget),
      ClearTarget(i, r.targets[i]),
      ClearDepth(r.depthTarget),
      SetTargets(i, r.targets[i], r.depthTarget),
      DrawModel(i),
      Barrier(i, RenderTarget, Present) ]
  }

  datatype Frame = Frame(renderer: Renderer, ops: seq<FrameOp>, calls: seq<DriverCall>)

  /** Render: acquire a batch, record the frame into it, submit it and count the frame.
      `completed` is the fence value the device observes during the submission. */
  function Render(r: Renderer, completed: nat): (f: Frame)
    requires Valid(r)
    ensures f.renderer.frameCounter == r.frameCounter + 1
    ensures f.renderer.targets == r.targets && f.renderer.depthTarget == r.depthTarget
    ensures f.renderer.device.counter == r.device.counter + 1
  {
    var acquired := CreateGraphicsCommands(r.device);
    var submitted := SubmitGraphicsCommands(acquired.device, acquired.commands, completed);
    Frame(r.(device := submitted.device, frameCounter := r.frameCounter + 1),
          FrameOps(r),
          acquired.calls + submitted.calls)
  }

  /** One recorded op against the tracked back-buffer states: a barrier needs its before-state;
      clearing, binding and drawing need the buffer to be a render target. */
  function FrameStep(states: seq<ResourceState>, op: FrameOp): Option<seq<ResourceState>>
  {
    match op
    case Barrier(i, before, after) => ApplyBarrier(states, i, before, after)
    case ClearTarget(i, _) => if i < |states| && states[i] == RenderTarget then Some(states) else None
    case ClearDepth(_) => Some(states)
    case SetTargets(i, _, _) => if i < |states| && states[i] == RenderTarget then Some(states) else None
    case DrawModel(i) => if i < |states| && states[i] == RenderTarget then Some(states) else None
  }

  /** The frame's barriers pair up: the batch is legal exactly when the frame's back buffer is
      in the present state, and then every back buffer ends in the state it started in. */
  lemma {:induction false} FrameBarriersPaired(r: Renderer, states: seq<ResourceState>)
    requires Valid(r)
    requires |states| == BackBufferCount
    ensures var i := FrameIndex(r.frameCounter);
      && (Run(FrameStep, states, FrameOps(r)).Some? <==> states[i] == Present)
      && (states[i] == Present ==> Run(FrameStep, states, FrameOps(r)) == Some(states))
  {
    var i := FrameIndex(r.frameCounter);
    var ops := FrameOps(r);
    var rt := states[i := RenderTarget];
    var first := ops[..1];
    var middle := ops[1..5];
    var last := ops[5..];
    assert ops == first + middle + last;
    RunSingle(FrameStep, states, ops[0]);
    assert first == [ops[0]];
    RunAppend(FrameStep, states, first, middle + last);
    assert first + (middle + last) == ops;
    if states[i] == Present {
      assert Run(FrameStep, rt, middle) == Some(rt) by {
        RunPair(FrameStep, rt, middle[0], middle[1]);
        RunPair(FrameStep, rt, middle[2], middle[3]);
        assert middle == [middle[0], middle[1]] + [middle[2], middle[3]];
        RunAppend(FrameStep, rt, [middle[0], middle[1]], [middle[2], middle[3]]);
      }
      RunAppend(FrameStep, rt, middle, last);
      RunSingle(FrameStep, rt, ops[5]);
      assert last == [ops[5]];
      assert rt[i := Present] == states;
    }
  }

  /** The back buffer rotates: frame n draws into buffer n mod 2, so consecutive frames
      alternate between the two buffers. */
  lemma {:induction false} FrameRotates(r: Renderer, completed: nat)
    requires Valid(r)
    ensures var next := Render(r, completed).renderer;
      && FrameIndex(r.frameCounter) == r.frameCounter % 2
      && FrameIndex(next.frameCounter) == 1 - FrameIndex(r.frameCounter)
      && Render(r, completed).ops[0] == Barrier(FrameIndex(r.frameCounter), Present, RenderTarget)
  {
  }

  /** The number of submissions (list executions) in a run of driver calls. */
  function Executions(calls: seq<DriverCall>): nat
  {
    if calls == [] then 0
    else (if calls[0].ExecuteList? then 1 else 0) + Executions(calls[1..])
  }

  /** The number of signals in a run of driver calls. */
  function Signals(calls: seq<DriverCall>): nat
  {
    if calls == [] then 0
    else (if calls[0].Signal? then 1 else 0) + Signals(calls[1..])
  }

  lemma {:induction false} CountsAppend(a: seq<DriverCall>, b: seq<DriverCall>)
    ensures Executions(a + b) == Executions(a) + Executions(b)
    ensures Signals(a + b) == Signals(a) + Signals(b)
    decreases |a|
  {
    if a == [] {
      assert a + b == b;
    } else {
      assert (a + b)[0] == a[0];
      assert (a + b)[1..] == a[1..] + b;
      CountsAppend(a[1..], b);
    }
  }

  /** Acquiring a batch neither executes nor signals. */
  lemma {:induction false} AcquireNeitherExecutesNorSignals(d: Device)
    ensures Executions(CreateGraphicsCommands(d).calls) == 0
    ensures Signals(CreateGraphicsCommands(d).calls) == 0
  {
    var calls := CreateGraphicsCommands(d).calls;
    var c1 := calls[1..];
    var c2 := c1[1..];
    if |d.free| == 0 {
      assert c2[1..] == [];
      assert Executions(c2) == 0 && Signals(c2) == 0;
    } else {
      assert c2 == [];
    }
    assert Executions(c1) == 0 && Signals(c1) == 0;
  }

  /** A submission executes once and signals once. */
  lemma {:induction false} SubmitExecutesOnce(d: Device, c: Commands, completed: nat)
    ensures Executions(SubmitGraphicsCommands(d, c, completed).calls) == 1
    ensures Signals(SubmitGraphicsCommands(d, c, completed).calls) == 1
  {
    var calls := SubmitGraphicsCommands(d, c, completed).calls;
    var c1 := calls[1..];
    var c2 := c1[1..];
    assert c2[1..] == [];
    assert Executions(c2) == 0 && Signals(c2) == 1;
    assert Executions(c1) == 1 && Signals(c1) == 1;
  }

  /** Each frame acquires one batch and submits exactly that batch once: one list execution and
      one signal, with the device's new counter, and the list executed is the one on the
      acquired allocator, which was reset before its list was opened. */
  lemma {:induction false} RenderSubmitsOnce(r: Renderer, completed: nat)
    requires Valid(r)
    ensures var f := Render(r, completed); var a := CreateGraphicsCommands(r.device).commands.allocator;
      && Executions(f.calls) == 1
      && Signals(f.calls) == 1
      && |f.calls| >= 5
      && f.calls[|f.calls| - 3..] == [CloseList(a), ExecuteList(a), Signal(r.device.counter + 1)]
      && f.calls[|f.calls| - 5..|f.calls| - 3] == [ResetAllocator(a), CreateList(a)]
  {
    var acquired := CreateGraphicsCommands(r.device);
    var submitted := SubmitGraphicsCommands(acquired.device, acquired.commands, completed);
    assert Render(r, completed).calls == acquired.calls + submitted.calls;
    AcquireCreatesOnlyWhenEmpty(r.device);
    AcquireNeitherExecutesNorSignals(r.device);
    SubmitExecutesOnce(acquired.device, acquired.commands, completed);
    BatchShape(acquired.calls, submitted.calls, acquired.commands.allocator, r.device.counter + 1);
  }

  /** The driver calls of an acquisition followed by a submission of the same batch. */
  lemma {:induction false} BatchShape(acquire: seq<DriverCall>, submit: seq<DriverCall>, a: Allocator, stamp: nat)
    requires |acquire| >= 2 && acquire[|acquire| - 2..] == [ResetAllocator(a), CreateList(a)]
    requires Executions(acquire) == 0 && Signals(acquire) == 0
    requires submit == [CloseList(a), ExecuteList(a), Signal(stamp)]
    requires Executions(submit) == 1 && Signals(submit) == 1
    ensures var calls := acquire + submit;
      && Executions(calls) == 1
      && Signals(calls) == 1
      && |calls| >= 5
      && calls[|calls| - 3..] == submit
      && calls[|calls| - 5..|calls| - 3] == [ResetAllocator(a), CreateList(a)]
  {
    CountsAppend(acquire, submit);
    var calls := acquire + submit;
    assert calls[|calls| - 5..|calls| - 3] == acquire[|acquire| - 2..];
  }

  /** A frame keeps the renderer's invariant: the device still owns every allocator exactly
      once, its queue still ascends, the reuse guarantee survives, and the allocator the frame
      used is back in its care. */
  lemma {:induction false} RenderKeepsInvariant(r: Renderer, completed: nat)
    requires Valid(r)
    ensures Valid(Render(r, completed).renderer)
    ensures FenceSafe(r.device) ==> FenceSafe(Render(r, completed).renderer.device)
    ensures multiset(Owned(Render(r, completed).renderer.device))
         == multiset(Owned(r.device)) + (if |r.device.free| == 0 then multiset{CreateGraphicsCommands(r.device).commands.allocator} else multiset{})
  {
    var acquired := CreateGraphicsCommands(r.device);
    AcquireTransfersOwnership(r.device);
    SubmitKeepsInvariant(acquired.device, acquired.commands, completed);
    if FenceSafe(r.device) {
      AcquireNeverReusesInFlight(r.device);
      SubmitKeepsFenceSafe(acquired.device, acquired.commands, completed);
    }
  }

  /** A frame records into an allocator that is either new or whose previous batch the fence
      has shown complete, so no frame resets an allocator the GPU may still be reading. */
  lemma {:induction false} RenderReusesOnlyCompleted(r: Renderer, completed: nat)
    requires Valid(r) && FenceSafe(r.device)
    ensures var a := CreateGraphicsCommands(r.device).commands.allocator;
      || (|r.device.free| == 0 && a.id == r.device.created)
      || (a in r.device.stamps && r.device.stamps[a] <= r.device.lastCompleted)
    ensures Render(r, completed).renderer.device.lastCompleted >= r.device.lastCompleted
  {
    AcquireNeverReusesInFlight(r.device);
  }

}
