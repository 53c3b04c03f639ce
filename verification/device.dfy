/** The resource and command manager of Device.cpp: command-allocator recycling gated by
    submission stamps, the bump-pointer render-target and depth-stencil view cursors, and the
    synchronous buffer uploads. Driver objects are opaque; every driver call the manager makes
    is reported as a `DriverCall` so that its order can be stated. */
module GpuDevice {
  import opened Wrappers
  import opened Arith

  /** Size of a descriptor heap when the caller gives none. */
  const DefaultHeapSize: nat := 65536

  /** Size the device gives its render-target and depth-stencil view heaps. */
  const TargetHeapSize: nat := 128

  /** Bytes in a float and in a 32-bit index. */
  const ElementBytes: nat := 4

  datatype HeapKind = CbvSrvUav | Sampler | Rtv | Dsv

  /** A descriptor heap: its kind, its entry count and whether shaders can see it. */
  datatype Heap = Heap(kind: HeapKind, size: nat, shaderVisible: bool)

  /** CreateDescriptorHeap: only view and sampler heaps are shader visible. */
  function CreateDescriptorHeap(kind: HeapKind, size: nat := DefaultHeapSize): (h: Heap)
    ensures h.kind == kind && h.size == size
    ensures h.shaderVisible <==> !(kind == Rtv || kind == Dsv)
  {
    Heap(kind, size, kind == CbvSrvUav || kind == Sampler)
  }

  /** A bump-pointer cursor into a CPU descriptor heap. `pos` is the next handle; `issued`
      counts the views handed out; `increment` is the driver's handle increment size. */
  datatype ViewCursor = ViewCursor(heap: Heap, start: nat, pos: nat, increment: nat, issued: nat)
  {
    predicate Valid()
    {
      && increment > 0
      && issued <= heap.size
      && pos == start + issued * increment
    }
  }

  /** CreateRenderTargetView / CreateDepthStencilView: hand out the current cursor and advance
      it by one increment. The source never checks the cursor against the heap size, so callers
      must stay below it. */
  function CreateView(c: ViewCursor): (r: (nat, ViewCursor))
    requires c.Valid()
    requires c.issued < c.heap.size
    ensures r.0 == c.pos && r.1.pos == c.pos + c.increment
    ensures r.1.Valid() && r.1.issued == c.issued + 1
    ensures r.1.heap == c.heap && r.1.start == c.start && r.1.increment == c.increment
    ensures c.start <= r.0 < r.1.pos
    ensures r.0 + c.increment <= c.start + c.heap.size * c.increment
  {
    MulMonotone(c.issued + 1, c.increment, c.heap.size, c.increment);
    (c.pos, c.(pos := c.pos + c.increment, issued := c.issued + 1))
  }

  /** `k` views created one after another; returns their handles in order and the final cursor. */
  function CreateViews(c: ViewCursor, k: nat): (r: (seq<nat>, ViewCursor))
    requires c.Valid()
    requires c.issued + k <= c.heap.size
    ensures |r.0| == k
    ensures r.1.Valid() && r.1.issued == c.issued + k && r.1.start == c.start
    ensures r.1.heap == c.heap && r.1.increment == c.increment
    decreases k
  {
    if k == 0 then ([], c)
    else
      var (h, c1) := CreateView(c);
      var (hs, c2) := CreateViews(c1, k - 1);
      ([h] + hs, c2)
  }

  /** Handles from one cursor start at the cursor and are strictly increasing (hence pairwise
      distinct), each lies inside the heap, and each sits exactly one increment after the
      previous one. */
  lemma {:induction false} CreatedViewsAscend(c: ViewCursor, k: nat)
    requires c.Valid()
    requires c.issued + k <= c.heap.size
    ensures var hs := CreateViews(c, k).0;
      && (forall i, j :: 0 <= i < j < k ==> hs[i] < hs[j])
      && (forall i :: 0 <= i < k ==> c.pos <= hs[i] && c.start <= hs[i] < c.start + c.heap.size * c.increment)
      && (forall i :: 0 < i < k ==> hs[i] == hs[i - 1] + c.increment)
      && (forall i :: 0 <= i < k ==> hs[i] == c.pos + i * c.increment)
      && CreateViews(c, k).1.pos == c.pos + k * c.increment
    decreases k
  {
    var r := CreateViews(c, k);
    assert r.1.pos == c.pos + k * c.increment by {
      assert (c.issued + k) * c.increment == c.issued * c.increment + k * c.increment;
    }
    if k > 0 {
      var (h, c1) := CreateView(c);
      CreatedViewsAscend(c1, k - 1);
      var hs1 := CreateViews(c1, k - 1).0;
      var hs := r.0;
      assert hs == [h] + hs1;
      assert h == c.pos && c1.pos == c.pos + c.increment;
      forall i | 0 <= i < k
        ensures c.pos <= hs[i] && c.start <= hs[i] < c.start + c.heap.size * c.increment
      {
        if i > 0 {
          assert hs[i] == hs1[i - 1];
        }
      }
      forall i, j | 0 <= i < j < k
        ensures hs[i] < hs[j]
      {
        assert hs[j] == hs1[j - 1];
        if i > 0 {
          assert hs[i] == hs1[i - 1];
        }
      }
      forall i | 0 < i < k
        ensures hs[i] == hs[i - 1] + c.increment
      {
        assert hs[i] == hs1[i - 1];
        if i > 1 {
          assert hs[i - 1] == hs1[i - 2];
        }
      }
    }
    ViewHandlesAt(c, k);
  }

  /** Handle i of a run of created views is the starting cursor plus i increments. */
  lemma {:induction false} ViewHandlesAt(c: ViewCursor, k: nat)
    requires c.Valid()
    requires c.issued + k <= c.heap.size
    ensures forall i :: 0 <= i < k ==> CreateViews(c, k).0[i] == c.pos + i * c.increment
    decreases k
  {
    if k > 0 {
      var (h, c1) := CreateView(c);
      ViewHandlesAt(c1, k - 1);
      var hs := CreateViews(c, k).0;
      var hs1 := CreateViews(c1, k - 1).0;
      assert hs == [h] + hs1;
      forall i | 0 < i < k
        ensures hs[i] == c.pos + i * c.increment
      {
        assert hs[i] == hs1[i - 1] == c1.pos + (i - 1) * c.increment;
        assert (i - 1) * c.increment + c.increment == i * c.increment;
      }
    }
  }

  /** A command allocator, identified by the order in which the device created it. */
  datatype Allocator = Allocator(id: nat)

  /** A batch being recorded: the allocator backing the list (Device.h `Commands`). */
  datatype Commands = Commands(allocator: Allocator)

  /** A submitted batch's allocator and the stamp its submission signalled. */
  datatype PendingCommands = PendingCommands(allocator: Allocator, submission: nat)

  /** The driver calls the manager issues, in order. */
  datatype DriverCall =
    | CreateAllocator(allocator: Allocator)
    | ResetAllocator(allocator: Allocator)
    | CreateList(allocator: Allocator)
    | CloseList(allocator: Allocator)
    | ExecuteList(allocator: Allocator)
    | Signal(value: nat)

  /** The manager's state: the LIFO pool of free allocators (back = last element), the FIFO
      queue of pending batches (front = first element), the submission counter, the number of
      allocators created so far, the shader-visible view heap and the two view cursors.
      `stamps` records the stamp of each allocator's most recent submission and
      `lastCompleted` the largest completed fence value observed so far; the source keeps
      neither, they are bookkeeping for stating when an allocator may be reused. */
  datatype Device = Device(
    free: seq<Allocator>,
    pending: seq<PendingCommands>,
    counter: nat,
    created: nat,
    srvHeap: Heap,
    rtv: ViewCursor,
    dsv: ViewCursor,
    stamps: map<Allocator, nat>,
    lastCompleted: nat)

  /** The allocators of a run of pending entries, in queue order. */
  function Allocators(ps: seq<PendingCommands>): (r: seq<Allocator>)
    ensures |r| == |ps|
  {
    seq(|ps|, i requires 0 <= i < |ps| => ps[i].allocator)
  }

  lemma {:induction false} AllocatorsAppend(a: seq<PendingCommands>, b: seq<PendingCommands>)
    ensures Allocators(a + b) == Allocators(a) + Allocators(b)
  {
    assert forall i :: 0 <= i < |a + b| ==> Allocators(a + b)[i] == (Allocators(a) + Allocators(b))[i];
  }

  /** Every allocator the device itself holds, free or awaiting completion. */
  function Owned(d: Device): seq<Allocator>
  {
    d.free + Allocators(d.pending)
  }

  /** No element occurs twice. */
  predicate NoDuplicates(s: seq<Allocator>)
  {
    forall x | x in s :: multiset(s)[x] == 1
  }

  predicate StampsAscending(ps: seq<PendingCommands>)
  {
    forall i, j :: 0 <= i < j < |ps| ==> ps[i].submission < ps[j].submission
  }

  /** Pending stamps strictly ascend and were all issued by the counter. */
  predicate QueueValid(pending: seq<PendingCommands>, counter: nat)
  {
    && StampsAscending(pending)
    && (forall i :: 0 <= i < |pending| ==> 0 < pending[i].submission <= counter)
  }

  /** No allocator is held twice and every one held was created by the device. */
  predicate OwnershipValid(owned: seq<Allocator>, created: nat)
  {
    && NoDuplicates(owned)
    && (forall a :: a in owned ==> a.id < created)
  }

  /** The invariant the manager keeps: a consistent pending queue, exclusive ownership of its
      allocators, and consistent view cursors. */
  predicate Valid(d: Device)
  {
    && QueueValid(d.pending, d.counter)
    && OwnershipValid(Owned(d), d.created)
    && d.rtv.Valid()
    && d.dsv.Valid()
  }

  /** Giving away one allocator keeps ownership exclusive, and the device keeps no copy. */
  lemma {:induction false} OwnershipAfterTake(big: seq<Allocator>, small: seq<Allocator>, a: Allocator, created: nat)
    requires OwnershipValid(big, created)
    requires multiset(big) == multiset(small) + multiset{a}
    ensures OwnershipValid(small, created) && a !in small
  {
    assert multiset(big)[a] == multiset(small)[a] + 1;
    forall x | x in small
      ensures multiset(small)[x] == 1 && x.id < created
    {
      assert x in multiset(big);
    }
  }

  /** Taking in one allocator the device did not hold, and had created, keeps ownership exclusive. */
  lemma {:induction false} OwnershipAfterAdd(small: seq<Allocator>, big: seq<Allocator>, a: Allocator, created: nat)
    requires OwnershipValid(small, created)
    requires a !in small && a.id < created
    requires multiset(big) == multiset(small) + multiset{a}
    ensures OwnershipValid(big, created)
  {
    forall x | x in big
      ensures multiset(big)[x] == 1 && x.id < created
    {
      assert x in multiset(big);
      assert multiset(big)[x] == multiset(small)[x] + multiset{a}[x];
      if x == a {
        assert multiset(small)[a] == 0;
      } else {
        assert x in multiset(small);
        assert x in small;
      }
    }
  }

  /** The Device constructor: counter 0, nothing pending, an empty pool, a default-sized view
      heap and 128-entry render-target and depth-stencil heaps whose cursors start at the heap
      starts. Heap starts and increments are reported by the driver, so they are parameters. */
  function NewDevice(rtvStart: nat, rtvIncrement: nat, dsvStart: nat, dsvIncrement: nat): (d: Device)
    requires rtvIncrement > 0 && dsvIncrement > 0
    ensures Valid(d)
    ensures d.counter == 0 && d.pending == [] && d.free == []
    ensures d.srvHeap.size == DefaultHeapSize && d.srvHeap.shaderVisible
    ensures d.rtv.heap.size == TargetHeapSize && !d.rtv.heap.shaderVisible && d.rtv.pos == rtvStart
    ensures d.dsv.heap.size == TargetHeapSize && !d.dsv.heap.shaderVisible && d.dsv.pos == dsvStart
    ensures d.rtv.start == rtvStart && d.rtv.issued == 0 && d.rtv.increment == rtvIncrement
    ensures d.dsv.start == dsvStart && d.dsv.issued == 0 && d.dsv.increment == dsvIncrement
    ensures d.created == 0
    ensures FenceSafe(d)
  {
    Device(
      [], [], 0, 0,
      CreateDescriptorHeap(CbvSrvUav),
      ViewCursor(CreateDescriptorHeap(Rtv, TargetHeapSize), rtvStart, rtvStart, rtvIncrement, 0),
      ViewCursor(CreateDescriptorHeap(Dsv, TargetHeapSize), dsvStart, dsvStart, dsvIncrement, 0),
      map[], 0)
  }

  datatype Acquired = Acquired(device: Device, commands: Commands, calls: seq<DriverCall>)

  /** CreateGraphicsCommands: pop the most recently freed allocator, or create one only when
      the pool is empty; reset it, then open a list on it. */
  function CreateGraphicsCommands(d: Device): (r: Acquired)
    ensures r.device.pending == d.pending && r.device.counter == d.counter
    ensures r.device.rtv == d.rtv && r.device.dsv == d.dsv
    ensures r.device.stamps == d.stamps && r.device.lastCompleted == d.lastCompleted
    ensures |d.free| > 0 ==> r.commands.allocator == d.free[|d.free| - 1]
    ensures |d.free| > 0 ==> r.device.free == d.free[..|d.free| - 1]
    ensures |d.free| == 0 ==> r.device.free == []
    ensures |d.free| == 0 ==> r.commands.allocator == Allocator(d.created) && r.device.created == d.created + 1
    ensures |d.free| > 0 ==> r.device.created == d.created
  {
    if |d.free| == 0 then
      var a := Allocator(d.created);
      Acquired(d.(created := d.created + 1), Commands(a), [CreateAllocator(a), ResetAllocator(a), CreateList(a)])
    else
      var a := d.free[|d.free| - 1];
      Acquired(d.(free := d.free[..|d.free| - 1]), Commands(a), [ResetAllocator(a), CreateList(a)])
  }

  /** Acquiring a batch creates an allocator only when the pool is empty, and the allocator it
      hands out is reset, then a list is opened on it, as the last two driver calls. */
  lemma {:induction false} AcquireCreatesOnlyWhenEmpty(d: Device)
    ensures var r := CreateGraphicsCommands(d);
      && ((exists a :: CreateAllocator(a) in r.calls) <==> |d.free| == 0)
      && |r.calls| >= 2
      && r.calls[|r.calls| - 2..] == [ResetAllocator(r.commands.allocator), CreateList(r.commands.allocator)]
  {
    var r := CreateGraphicsCommands(d);
    if |d.free| == 0 {
      assert r.calls[0] == CreateAllocator(r.commands.allocator);
    }
  }

  /** The allocators the device holds after an acquisition: all it held, less the one popped. */
  lemma {:induction false} AcquireOwned(d: Device)
    ensures var r := CreateGraphicsCommands(d);
      multiset(Owned(d)) == multiset(Owned(r.device))
        + (if |d.free| > 0 then multiset{r.commands.allocator} else multiset{})
  {
    var r := CreateGraphicsCommands(d);
    if |d.free| > 0 {
      var a, kept, held := r.commands.allocator, r.device.free, Allocators(d.pending);
      assert d.free == kept + [a];
      assert multiset(d.free) == multiset(kept) + multiset{a};
      assert multiset(Owned(d)) == multiset(d.free) + multiset(held);
      assert multiset(Owned(r.device)) == multiset(kept) + multiset(held);
    }
  }

  /** Acquiring a batch hands its allocator to the caller: the device no longer holds it,
      nothing else leaves the device, and the invariant is kept. */
  lemma {:induction false} AcquireTransfersOwnership(d: Device)
    requires Valid(d)
    ensures var r := CreateGraphicsCommands(d);
      && Valid(r.device)
      && r.commands.allocator !in Owned(r.device)
      && r.commands.allocator.id < r.device.created
      && multiset(Owned(d)) == multiset(Owned(r.device))
           + (if |d.free| > 0 then multiset{r.commands.allocator} else multiset{})
  {
    var r := CreateGraphicsCommands(d);
    AcquireOwned(d);
    if |d.free| > 0 {
      OwnershipAfterTake(Owned(d), Owned(r.device), r.commands.allocator, d.created);
    } else {
      assert Owned(r.device) == Owned(d);
    }
  }

  /** How many entries the reclamation loop of SubmitGraphicsCommands pops. It pops from the
      front while the queue is non-empty and the front stamp is at most the completed fence
      value: it takes the longest prefix of complete entries and stops at the first entry that
      is not complete. */
  function CompletedPrefix(pending: seq<PendingCommands>, completed: nat): (k: nat)
    ensures k <= |pending|
    ensures forall j :: 0 <= j < k ==> pending[j].submission <= completed
    ensures k < |pending| ==> pending[k].submission > completed
  {
    if |pending| > 0 && pending[0].submission <= completed then
      1 + CompletedPrefix(pending[1..], completed)
    else
      0
  }

  datatype Reclaimed = Reclaimed(free: seq<Allocator>, pending: seq<PendingCommands>)

  /** The reclamation loop: every popped entry's allocator is pushed onto the back of the pool. */
  function Reclaim(free: seq<Allocator>, pending: seq<PendingCommands>, completed: nat): (r: Reclaimed)
    ensures |r.pending| <= |pending| && r.pending == pending[|pending| - |r.pending|..]
    ensures |r.free| == |free| + (|pending| - |r.pending|) && r.free[..|free|] == free
    ensures forall j :: 0 <= j < |pending| - |r.pending| ==>
      pending[j].submission <= completed && r.free[|free| + j] == pending[j].allocator
    ensures r.pending != [] ==> r.pending[0].submission > completed
  {
    var k := CompletedPrefix(pending, completed);
    Reclaimed(free + Allocators(pending[..k]), pending[k..])
  }

  datatype Submitted = Submitted(device: Device, calls: seq<DriverCall>)

  /** SubmitGraphicsCommands: close and execute the list, signal the queue with the
      pre-incremented counter, queue the allocator with that stamp, then reclaim every
      allocator whose batch the completed fence value `completed` shows finished. The
      submitted allocator's last stamp becomes the new one, and the largest completed value
      observed so far is kept. */
  function SubmitGraphicsCommands(d: Device, c: Commands, completed: nat): (r: Submitted)
    ensures r.device.counter == d.counter + 1
    ensures r.device.stamps == d.stamps[c.allocator := r.device.counter]
    ensures r.device.lastCompleted >= d.lastCompleted && r.device.lastCompleted >= completed
    ensures r.device.lastCompleted == d.lastCompleted || r.device.lastCompleted == completed
    ensures r.calls == [CloseList(c.allocator), ExecuteList(c.allocator), Signal(r.device.counter)]
    ensures r.device.created == d.created && r.device.rtv == d.rtv && r.device.dsv == d.dsv
    ensures Reclaimed(r.device.free, r.device.pending)
         == Reclaim(d.free, d.pending + [PendingCommands(c.allocator, r.device.counter)], completed)
  {
    var stamp := d.counter + 1;
    var queued := d.pending + [PendingCommands(c.allocator, stamp)];
    var reclaimed := Reclaim(d.free, queued, completed);
    Submitted(d.(free := reclaimed.free, pending := reclaimed.pending, counter := stamp,
                 stamps := d.stamps[c.allocator := stamp],
                 lastCompleted := if completed > d.lastCompleted then completed else d.lastCompleted),
              [CloseList(c.allocator), ExecuteList(c.allocator), Signal(stamp)])
  }

  /** Splitting a queue and moving the front part's allocators to the pool loses none. */
  lemma {:induction false} SplitConserves(free: seq<Allocator>, pending: seq<PendingCommands>, k: nat)
    requires k <= |pending|
    ensures (free + Allocators(pending[..k])) + Allocators(pending[k..]) == free + Allocators(pending)
  {
    var taken, kept := pending[..k], pending[k..];
    assert pending == taken + kept;
    AllocatorsAppend(taken, kept);
    var a, b, c := free, Allocators(taken), Allocators(kept);
    assert (a + b) + c == a + (b + c);
  }

  /** Reclamation moves allocators from the queue to the pool without creating or losing any. */
  lemma {:induction false} ReclaimConserves(free: seq<Allocator>, pending: seq<PendingCommands>, completed: nat)
    ensures var r := Reclaim(free, pending, completed);
      r.free + Allocators(r.pending) == free + Allocators(pending)
  {
    SplitConserves(free, pending, CompletedPrefix(pending, completed));
  }

  /** The allocators the device holds after a submission: all it held, plus the submitted one. */
  lemma {:induction false} SubmitOwned(d: Device, c: Commands, completed: nat)
    ensures multiset(Owned(SubmitGraphicsCommands(d, c, completed).device))
         == multiset(Owned(d)) + multiset{c.allocator}
  {
    var r := SubmitGraphicsCommands(d, c, completed).device;
    PushThenReclaimMultiset(d.free, d.pending, PendingCommands(c.allocator, d.counter + 1), completed, r.free, r.pending);
  }

  /** The multiset form of `PushThenReclaimConserves`, for whatever pool and queue result. */
  lemma {:induction false} PushThenReclaimMultiset(free: seq<Allocator>, pending: seq<PendingCommands>, p: PendingCommands, completed: nat,
                                                   free': seq<Allocator>, pending': seq<PendingCommands>)
    requires Reclaimed(free', pending') == Reclaim(free, pending + [p], completed)
    ensures multiset(free' + Allocators(pending')) == multiset(free + Allocators(pending)) + multiset{p.allocator}
  {
    PushThenReclaimConserves(free, pending, p, completed);
  }

  /** Queuing one entry and reclaiming keeps every allocator already held and adds its one. */
  lemma {:induction false} PushThenReclaimConserves(free: seq<Allocator>, pending: seq<PendingCommands>, p: PendingCommands, completed: nat)
    ensures var rc := Reclaim(free, pending + [p], completed);
      rc.free + Allocators(rc.pending) == (free + Allocators(pending)) + [p.allocator]
  {
    ReclaimConserves(free, pending + [p], completed);
    AllocatorsAppend(pending, [p]);
    assert Allocators([p]) == [p.allocator];
    assert free + (Allocators(pending) + [p.allocator]) == (free + Allocators(pending)) + [p.allocator];
  }

  /** Queuing the next stamp at the back of a valid queue keeps it valid for the new counter. */
  lemma {:induction false} QueuePush(pending: seq<PendingCommands>, counter: nat, a: Allocator)
    requires QueueValid(pending, counter)
    ensures QueueValid(pending + [PendingCommands(a, counter + 1)], counter + 1)
  {
    var queued := pending + [PendingCommands(a, counter + 1)];
    forall i, j | 0 <= i < j < |queued|
      ensures queued[i].submission < queued[j].submission
    {
      assert queued[i] == pending[i];
      if j < |pending| {
        assert queued[j] == pending[j];
      }
    }
  }

  /** Dropping a front part of a valid queue leaves a valid queue. */
  lemma {:induction false} QueueDrop(pending: seq<PendingCommands>, counter: nat, k: nat)
    requires QueueValid(pending, counter) && k <= |pending|
    ensures QueueValid(pending[k..], counter)
  {
    var rest := pending[k..];
    forall i, j | 0 <= i < j < |rest|
      ensures rest[i].submission < rest[j].submission
    {
      assert rest[i] == pending[k + i] && rest[j] == pending[k + j];
    }
  }

  /** Reclamation leaves a valid queue valid. */
  lemma {:induction false} ReclaimKeepsQueue(free: seq<Allocator>, pending: seq<PendingCommands>, counter: nat, completed: nat)
    requires QueueValid(pending, counter)
    ensures QueueValid(Reclaim(free, pending, completed).pending, counter)
  {
    QueueDrop(pending, counter, CompletedPrefix(pending, completed));
  }

  /** After a submission the queue still ascends: the new stamp exceeds every stamp issued. */
  lemma {:induction false} SubmitKeepsQueue(d: Device, c: Commands, completed: nat)
    requires QueueValid(d.pending, d.counter)
    ensures var r := SubmitGraphicsCommands(d, c, completed).device;
      QueueValid(r.pending, r.counter)
  {
    var queued := d.pending + [PendingCommands(c.allocator, d.counter + 1)];
    QueuePush(d.pending, d.counter, c.allocator);
    ReclaimKeepsQueue(d.free, queued, d.counter + 1, completed);
    var r := SubmitGraphicsCommands(d, c, completed).device;
    assert r.pending == Reclaim(d.free, queued, completed).pending;
  }

  /** Submission takes ownership of the caller's allocator: the device afterwards holds
      exactly what it held before plus that allocator, and the invariant is kept, so the new
      stamp exceeds every stamp still pending. */
  lemma {:induction false} SubmitKeepsInvariant(d: Device, c: Commands, completed: nat)
    requires Valid(d)
    requires c.allocator !in Owned(d) && c.allocator.id < d.created
    ensures var r := SubmitGraphicsCommands(d, c, completed).device;
      && Valid(r)
      && multiset(Owned(r)) == multiset(Owned(d)) + multiset{c.allocator}
  {
    var r := SubmitGraphicsCommands(d, c, completed).device;
    SubmitOwned(d, c, completed);
    SubmitKeepsQueue(d, c, completed);
    OwnershipAfterAdd(Owned(d), Owned(r), c.allocator, d.created);
  }

  /** On an ascending queue, every entry reclamation leaves behind is still incomplete. */
  lemma {:induction false} ReclaimLeavesOnlyIncomplete(free: seq<Allocator>, pending: seq<PendingCommands>, completed: nat)
    requires StampsAscending(pending)
    ensures forall p :: p in Reclaim(free, pending, completed).pending ==> p.submission > completed
  {
    var k := CompletedPrefix(pending, completed);
    forall p | p in pending[k..]
      ensures p.submission > completed
    {
      var i :| k <= i < |pending| && pending[i] == p;
      assert pending[k].submission <= pending[i].submission;
    }
  }

  /** Reclamation only appends to the pool, and only allocators of complete entries. */
  lemma {:induction false} ReclaimFreesOnlyComplete(free: seq<Allocator>, pending: seq<PendingCommands>, completed: nat)
    ensures var r := Reclaim(free, pending, completed);
      && r.free[..|free|] == free
      && (forall j :: |free| <= j < |r.free| ==>
            exists p :: p in pending && p.allocator == r.free[j] && p.submission <= completed)
  {
    var r := Reclaim(free, pending, completed);
    var k := CompletedPrefix(pending, completed);
    assert r.free == free + Allocators(pending[..k]);
    forall j | |free| <= j < |r.free|
      ensures exists p :: p in pending && p.allocator == r.free[j] && p.submission <= completed
    {
      var i := j - |free|;
      assert r.free[j] == Allocators(pending[..k])[i] == pending[i].allocator;
      assert pending[i] in pending;
    }
  }

  /** No allocator enters the pool while its batch may still run: after a submission every
      entry left in the queue has a stamp above the completed value, and every allocator the
      submission added to the pool comes from a queued entry whose stamp is at most it. */
  lemma {:induction false} SubmitNeverFreesInFlight(d: Device, c: Commands, completed: nat)
    requires QueueValid(d.pending, d.counter)
    ensures var r := SubmitGraphicsCommands(d, c, completed).device;
      var queued := d.pending + [PendingCommands(c.allocator, d.counter + 1)];
      && (forall p :: p in r.pending ==> p.submission > completed)
      && r.free[..|d.free|] == d.free
      && (forall j :: |d.free| <= j < |r.free| ==>
            exists p :: p in queued && p.allocator == r.free[j] && p.submission <= completed)
  {
    var queued := d.pending + [PendingCommands(c.allocator, d.counter + 1)];
    QueuePush(d.pending, d.counter, c.allocator);
    ReclaimLeavesOnlyIncomplete(d.free, queued, completed);
    ReclaimFreesOnlyComplete(d.free, queued, completed);
  }

  /** The reuse guarantee the pool keeps across operations: every pooled allocator's last
      submission is complete by the largest fence value observed, and every pending entry
      carries its allocator's last stamp. The fence never decreases, so the GPU has finished
      every batch stamped at or below `lastCompleted`. */
  predicate FenceSafe(d: Device)
  {
    && (forall i :: 0 <= i < |d.free| ==> d.free[i] in d.stamps && d.stamps[d.free[i]] <= d.lastCompleted)
    && StampsRecorded(d.pending, d.stamps)
  }

  /** Each entry's allocator has the entry's stamp as its last stamp. */
  predicate StampsRecorded(ps: seq<PendingCommands>, stamps: map<Allocator, nat>)
  {
    forall i :: 0 <= i < |ps| ==> ps[i].allocator in stamps && stamps[ps[i].allocator] == ps[i].submission
  }

  /** Every allocator the pool or queue holds is among the device's own allocators. */
  lemma {:induction false} HeldIsOwned(d: Device)
    ensures forall i :: 0 <= i < |d.free| ==> d.free[i] in Owned(d)
    ensures forall i :: 0 <= i < |d.pending| ==> d.pending[i].allocator in Owned(d)
  {
    forall i | 0 <= i < |d.pending|
      ensures d.pending[i].allocator in Owned(d)
    {
      assert Owned(d)[|d.free| + i] == Allocators(d.pending)[i];
    }
    forall i | 0 <= i < |d.free|
      ensures d.free[i] in Owned(d)
    {
      assert Owned(d)[i] == d.free[i];
    }
  }

  /** Queuing the submitted allocator with its new stamp keeps every entry's stamp recorded,
      since the allocator is not already in the queue. */
  lemma {:induction false} QueuedStampsRecorded(pending: seq<PendingCommands>, stamps: map<Allocator, nat>, a: Allocator, stamp: nat)
    requires StampsRecorded(pending, stamps)
    requires forall i :: 0 <= i < |pending| ==> pending[i].allocator != a
    ensures StampsRecorded(pending + [PendingCommands(a, stamp)], stamps[a := stamp])
  {
    var queued := pending + [PendingCommands(a, stamp)];
    forall i | 0 <= i < |queued|
      ensures queued[i].allocator in stamps[a := stamp] && stamps[a := stamp][queued[i].allocator] == queued[i].submission
    {
      if i < |pending| {
        assert queued[i] == pending[i];
      }
    }
  }

  /** A run of recorded entries stays recorded when the front is dropped. */
  lemma {:induction false} RecordedSuffix(ps: seq<PendingCommands>, stamps: map<Allocator, nat>, k: nat)
    requires StampsRecorded(ps, stamps) && k <= |ps|
    ensures StampsRecorded(ps[k..], stamps)
  {
    forall i | 0 <= i < |ps| - k
      ensures ps[k..][i].allocator in stamps && stamps[ps[k..][i].allocator] == ps[k..][i].submission
    {
      assert ps[k..][i] == ps[k + i];
    }
  }

  /** A submission keeps the reuse guarantee: allocators already pooled were complete before,
      and the ones it reclaims are complete by the value it observes. */
  lemma {:induction false} SubmitKeepsFenceSafe(d: Device, c: Commands, completed: nat)
    requires Valid(d) && FenceSafe(d)
    requires c.allocator !in Owned(d)
    ensures FenceSafe(SubmitGraphicsCommands(d, c, completed).device)
  {
    var r := SubmitGraphicsCommands(d, c, completed).device;
    HeldIsOwned(d);
    ReclaimKeepsFenceSafe(d.free, d.pending, d.stamps, d.lastCompleted, c.allocator, d.counter + 1,
                          completed, r.free, r.pending, r.lastCompleted);
  }

  /** The pool-and-queue core of `SubmitKeepsFenceSafe`: queue allocator `a` with `stamp`,
      reclaim by `completed`, and the guarantee holds for the new stamps and any observed
      value `last'` at least the old one and `completed`. */
  lemma {:induction false} ReclaimKeepsFenceSafe(free: seq<Allocator>, pending: seq<PendingCommands>, stamps: map<Allocator, nat>,
                                                 last: nat, a: Allocator, stamp: nat, completed: nat,
                                                 free': seq<Allocator>, pending': seq<PendingCommands>, last': nat)
    requires forall i :: 0 <= i < |free| ==> free[i] in stamps && stamps[free[i]] <= last
    requires StampsRecorded(pending, stamps)
    requires forall i :: 0 <= i < |free| ==> free[i] != a
    requires forall i :: 0 <= i < |pending| ==> pending[i].allocator != a
    requires Reclaimed(free', pending') == Reclaim(free, pending + [PendingCommands(a, stamp)], completed)
    requires last' >= last && last' >= completed
    ensures forall i :: 0 <= i < |free'| ==> free'[i] in stamps[a := stamp] && stamps[a := stamp][free'[i]] <= last'
    ensures StampsRecorded(pending', stamps[a := stamp])
  {
    var queued := pending + [PendingCommands(a, stamp)];
    var st := stamps[a := stamp];
    QueuedStampsRecorded(pending, stamps, a, stamp);
    var k := |queued| - |pending'|;
    RecordedSuffix(queued, st, k);
    forall i | 0 <= i < |free'|
      ensures free'[i] in st && st[free'[i]] <= last'
    {
      if i < |free| {
        assert free'[i] == free[i] != a;
      } else {
        var j := i - |free|;
        assert free'[i] == queued[j].allocator && queued[j].submission <= completed;
      }
    }
  }

  /** An acquisition never hands out an allocator whose batch may still run: it is either
      newly created or its last submission is complete. The guarantee is kept. */
  lemma {:induction false} AcquireNeverReusesInFlight(d: Device)
    requires FenceSafe(d)
    ensures var r := CreateGraphicsCommands(d); var a := r.commands.allocator;
      && FenceSafe(r.device)
      && (|d.free| == 0 ==> a.id == d.created)
      && (|d.free| > 0 ==> a in d.stamps && d.stamps[a] <= d.lastCompleted)
  {
    var r := CreateGraphicsCommands(d);
    if |d.free| > 0 {
      assert r.commands.allocator == d.free[|d.free| - 1];
      forall i | 0 <= i < |r.device.free|
        ensures r.device.free[i] in r.device.stamps && r.device.stamps[r.device.free[i]] <= r.device.lastCompleted
      {
        assert r.device.free[i] == d.free[i];
      }
    }
  }

  /** The fence value WaitIdle blocks on: the most recent submission stamp. */
  function WaitIdle(d: Device): (v: nat)
    ensures QueueValid(d.pending, d.counter) ==> forall i :: 0 <= i < |d.pending| ==> d.pending[i].submission <= v
  {
    d.counter
  }

  /** Right after a submission, WaitIdle waits for exactly the value that submission signalled. */
  lemma {:induction false} WaitIdleWaitsForLastSignal(d: Device, c: Commands, completed: nat)
    ensures var r := SubmitGraphicsCommands(d, c, completed);
      r.calls[|r.calls| - 1] == Signal(WaitIdle(r.device))
  {
  }

  /** Once the completed value has reached what WaitIdle waits for, every stamp issued so far
      is complete, so a reclamation run at that point would empty the pending queue. */
  lemma {:induction false} WaitIdleCompletesAll(d: Device, completed: nat)
    requires Valid(d)
    requires completed >= WaitIdle(d)
    ensures forall p :: p in d.pending ==> p.submission <= completed
    ensures Reclaim(d.free, d.pending, completed).pending == []
  {
  }

  /** A fresh device stamps its first submission 1, and a submission into a valid device
      stamps a value above every stamp still pending. */
  lemma {:induction false} FirstStampIsOne(rtvStart: nat, rtvIncrement: nat, dsvStart: nat, dsvIncrement: nat, c: Commands, completed: nat)
    requires rtvIncrement > 0 && dsvIncrement > 0
    ensures var r := SubmitGraphicsCommands(NewDevice(rtvStart, rtvIncrement, dsvStart, dsvIncrement), c, completed);
      && r.calls[2] == Signal(1)
      && (completed == 0 ==> r.device.pending == [PendingCommands(c.allocator, 1)] && r.device.free == [])
      && (completed >= 1 ==> r.device.pending == [] && r.device.free == [c.allocator])
  {
    var d := NewDevice(rtvStart, rtvIncrement, dsvStart, dsvIncrement);
    var queued := [PendingCommands(c.allocator, 1)];
    assert d.pending + [PendingCommands(c.allocator, d.counter + 1)] == queued;
    var rc := Reclaim(d.free, queued, completed);
    if completed == 0 {
      assert CompletedPrefix(queued, completed) == 0;
      assert rc.pending == queued;
    } else {
      assert CompletedPrefix(queued, completed) == 1;
      assert Allocators(queued[..1]) == [c.allocator];
      assert rc.pending == [];
    }
  }

  datatype IndexFormat = R32Uint

  datatype BufferView =
    | VertexBufferView(sizeInBytes: nat, strideInBytes: nat)
    | IndexBufferView(sizeInBytes: nat, format: IndexFormat)

  /** A synchronous upload: one batch copies the staging buffer, then the host waits for it. */
  datatype Uploaded = Uploaded(device: Device, view: BufferView, waitValue: nat, calls: seq<DriverCall>)

  /** Acquire a batch, record the copy, submit it; WaitIdle then waits for that submission. */
  function Upload(d: Device, view: BufferView, completed: nat): (r: Uploaded)
    ensures r.device.counter == d.counter + 1
    ensures r.waitValue == r.device.counter
    ensures r.view == view
  {
    var acquired := CreateGraphicsCommands(d);
    var submitted := SubmitGraphicsCommands(acquired.device, acquired.commands, completed);
    Uploaded(submitted.device, view, WaitIdle(submitted.device), acquired.calls + submitted.calls)
  }

  /** CreateVertexBuffer over `floatCount` floats: a view whose byte size is the float count
      times 4 truncated to 32 bits and whose stride is one float triple, after exactly one
      submission that the host then waits for. */
  function CreateVertexBuffer(d: Device, floatCount: nat, completed: nat): (r: Uploaded)
    ensures r.device.counter == d.counter + 1 && r.waitValue == r.device.counter
    ensures r.view.VertexBufferView?
    ensures r.view.strideInBytes == 3 * ElementBytes
    ensures Truncated32(ElementBytes * floatCount, r.view.sizeInBytes)
  {
    var size := Wrap32(ElementBytes * floatCount);
    Upload(d, VertexBufferView(size, 3 * ElementBytes), completed)
  }

  /** CreateIndexBuffer over `indexCount` 32-bit indices: same upload, 32-bit index format. */
  function CreateIndexBuffer(d: Device, indexCount: nat, completed: nat): (r: Uploaded)
    ensures r.device.counter == d.counter + 1 && r.waitValue == r.device.counter
    ensures r.view == IndexBufferView(r.view.sizeInBytes, R32Uint)
    ensures Truncated32(ElementBytes * indexCount, r.view.sizeInBytes)
  {
    var size := Wrap32(ElementBytes * indexCount);
    Upload(d, IndexBufferView(size, R32Uint), completed)
  }

  /** An upload keeps the manager's invariant and afterwards, once the wait returns, every
      batch it ever submitted is complete. */
  lemma {:induction false} UploadKeepsInvariant(d: Device, view: BufferView, completed: nat, waited: nat)
    requires Valid(d)
    requires waited >= Upload(d, view, completed).waitValue
    ensures Valid(Upload(d, view, completed).device)
    ensures forall p :: p in Upload(d, view, completed).device.pending ==> p.submission <= waited
  {
    var acquired := CreateGraphicsCommands(d);
    AcquireTransfersOwnership(d);
    SubmitKeepsInvariant(acquired.device, acquired.commands, completed);
    WaitIdleCompletesAll(Upload(d, view, completed).device, waited);
  }

  /** An upload keeps the reuse guarantee of the pool. */
  lemma {:induction false} UploadKeepsFenceSafe(d: Device, view: BufferView, completed: nat)
    requires Valid(d) && FenceSafe(d)
    ensures FenceSafe(Upload(d, view, completed).device)
  {
    var acquired := CreateGraphicsCommands(d);
    AcquireTransfersOwnership(d);
    AcquireNeverReusesInFlight(d);
    SubmitKeepsFenceSafe(acquired.device, acquired.commands, completed);
  }

}
