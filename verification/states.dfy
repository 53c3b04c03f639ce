/** Direct3D 12 resource usage states and the tracked effect of a transition barrier. */
module ResourceStates {
  import opened Wrappers

  /** The subset of D3D12_RESOURCE_STATES the modelled code uses. */
  datatype ResourceState =
    | Common
    | Present
    | RenderTarget
    | DepthWrite
    | ShaderResource
    | UnorderedAccess

  /** A transition barrier on resource `i` of a tracked set: legal only when the
      barrier's before-state is the resource's current state; it changes that resource alone. */
  function ApplyBarrier(states: seq<ResourceState>, i: nat, before: ResourceState, after: ResourceState)
    : (r: Option<seq<ResourceState>>)
    ensures r.Some? <==> i < |states| && states[i] == before
    ensures r.Some? ==> |r.value| == |states| && r.value[i] == after
    ensures r.Some? ==> forall j :: 0 <= j < |states| && j != i ==> r.value[j] == states[j]
  {
    if i < |states| && states[i] == before then Some(states[i := after]) else None
  }

  /** `n` resources of which the first `k` are in state `lo` and the rest in state `hi`. */
  function Split(n: nat, k: nat, lo: ResourceState, hi: ResourceState): (s: seq<ResourceState>)
    ensures |s| == n
  {
    seq(n, j => if j < k then lo else hi)
  }

  /** Moving resource k - 1 from `lo` to `hi` moves the boundary of a split down by one. */
  lemma {:induction false} BarrierShrinksSplit(n: nat, k: nat, lo: ResourceState, hi: ResourceState)
    requires 0 < k <= n
    ensures ApplyBarrier(Split(n, k, lo, hi), k - 1, lo, hi) == Some(Split(n, k - 1, lo, hi))
  {
    var s := Split(n, k, lo, hi);
    assert s[k - 1 := hi] == Split(n, k - 1, lo, hi);
  }

  /** Moving resource k from `hi` to `lo` moves the boundary of a split up by one. */
  lemma {:induction false} BarrierGrowsSplit(n: nat, k: nat, lo: ResourceState, hi: ResourceState)
    requires k < n
    ensures ApplyBarrier(Split(n, k, lo, hi), k, hi, lo) == Some(Split(n, k + 1, lo, hi))
  {
    var s := Split(n, k, lo, hi);
    assert s[k := lo] == Split(n, k + 1, lo, hi);
  }

  /** Runs a command trace against tracked states, one `step` per command; the first command
      the step rejects makes the whole trace `None`. */
  function Run<C>(step: (seq<ResourceState>, C) -> Option<seq<ResourceState>>, states: seq<ResourceState>, cmds: seq<C>)
    : Option<seq<ResourceState>>
    decreases |cmds|
  {
    if cmds == [] then Some(states)
    else match step(states, cmds[0])
      case None => None
      case Some(next) => Run(step, next, cmds[1..])
  }

  /** Running a concatenation runs the second trace from where the first one ends. */
  lemma {:induction false} RunAppend<C>(step: (seq<ResourceState>, C) -> Option<seq<ResourceState>>,
                                        states: seq<ResourceState>, a: seq<C>, b: seq<C>)
    ensures Run(step, states, a + b)
         == match Run(step, states, a) case None => None case Some(mid) => Run(step, mid, b)
    decreases |a|
  {
    if a == [] {
      assert a + b == b;
    } else {
      assert (a + b)[0] == a[0];
      assert (a + b)[1..] == a[1..] + b;
      match step(states, a[0])
      case None =>
      case Some(next) => RunAppend(step, next, a[1..], b);
    }
  }

  /** A two-command trace is two steps. */
  lemma {:induction false} RunPair<C>(step: (seq<ResourceState>, C) -> Option<seq<ResourceState>>,
                   states: seq<ResourceState>, c: C, d: C)
    ensures Run(step, states, [c, d])
         == match step(states, c) case None => None case Some(mid) => step(mid, d)
  {
    var cd := [c, d];
    assert cd[0] == c && cd[1..] == [d];
    match step(states, c)
    case None =>
    case Some(mid) =>
      assert [d][0] == d && [d][1..] == [];
      match step(mid, d)
      case None =>
      case Some(after) => assert Run(step, after, []) == Some(after);
  }

  /** A one-command trace is one step. */
  lemma {:induction false} RunSingle<C>(step: (seq<ResourceState>, C) -> Option<seq<ResourceState>>,
                     states: seq<ResourceState>, c: C)
    ensures Run(step, states, [c]) == step(states, c)
  {
    assert [c][0] == c && [c][1..] == [];
    match step(states, c)
    case None =>
    case Some(after) => assert Run(step, after, []) == Some(after);
  }

}
