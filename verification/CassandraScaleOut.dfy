/**
  Runs of the Cassandra controller, interleaved with pods that become ready or are lost and
  with the statuses the StatefulSet controller posts.
 */
module CassandraScaleOut {
  import opened Common
  import opened CassandraControl

  /** `up` is the number of pods of each pool that are ready now. */
  datatype State = State(store: seq<History>, up: seq<nat>)

  datatype Step =
    | SyncStep(seen: Reads)
    | PodUp(pool: nat)
    | PodLost(pool: nat)
    | PostStatus(pool: nat, ready: int)

  predicate HasSet(s: State, k: nat) {
    k < |s.store| && s.store[k] != [] && Newest(s.store[k]).Some?
  }

  function SetOf(s: State, k: nat): PoolSet
    requires HasSet(s, k)
  {
    Newest(s.store[k]).value
  }

  /** Nothing is assumed of posted counts here, nor of pods staying up. */
  predicate Enabled(pools: seq<NodePool>, s: State, step: Step) {
    && |s.store| == |s.up| == |pools|
    && match step
       case SyncStep(r) => ValidReads(s.store, r)
       case PodUp(k) => HasSet(s, k) && s.up[k] < SetOf(s, k).replicas
       case PodLost(k) => k < |s.up| && s.up[k] > 0
       case PostStatus(k, _) => HasSet(s, k)
  }

  function Next(pools: seq<NodePool>, s: State, step: Step): State
    requires Enabled(pools, s, step)
  {
    match step
    case SyncStep(r) => s.(store := Sync(pools, s.store, r))
    case PodUp(k) => s.(up := s.up[k := s.up[k] + 1])
    case PodLost(k) => s.(up := s.up[k := s.up[k] - 1])
    case PostStatus(k, n) => s.(store := s.store[k := s.store[k] + [Some(SetOf(s, k).(ready := n))]])
  }

  /** Ready counts that do not fall: no pod is lost, and posted counts only lag. */
  predicate Steady(s: State, step: Step) {
    match step
    case SyncStep(_) => true
    case PodUp(_) => true
    case PodLost(_) => false
    case PostStatus(k, n) => HasSet(s, k) && k < |s.up| && SetOf(s, k).ready <= n <= s.up[k]
  }

  predicate IsRun(pools: seq<NodePool>, states: seq<State>, steps: seq<Step>) {
    && |states| == |steps| + 1
    && forall i :: 0 <= i < |steps| ==>
         Enabled(pools, states[i], steps[i]) && states[i + 1] == Next(pools, states[i], steps[i])
  }

  predicate IsSteadyRun(pools: seq<NodePool>, states: seq<State>, steps: seq<Step>) {
    IsRun(pools, states, steps) && forall i :: 0 <= i < |steps| ==> Steady(states[i], steps[i])
  }

  // ----- Over every run: the controller only closes the gap -----

  /** What is still missing of one pool: its creation, and the replicas up to the desired count. */
  function PoolGap(pool: NodePool, s: Option<PoolSet>): nat {
    var replicas := if s.Some? then s.value.replicas else 0;
    (if s.None? then 1 else 0) + (if replicas < pool.replicas then pool.replicas - replicas else 0)
  }

  predicate Shaped(pools: seq<NodePool>, s: State) {
    |s.store| == |s.up| == |pools| && forall k :: 0 <= k < |pools| ==> s.store[k] != []
  }

  function Gaps(pools: seq<NodePool>, s: State): seq<nat>
    requires Shaped(pools, s)
  {
    seq(|pools|, k requires 0 <= k < |pools| => PoolGap(pools[k], Newest(s.store[k])))
  }

  function Gap(pools: seq<NodePool>, s: State): nat
    requires Shaped(pools, s)
  {
    Sum(Gaps(pools, s))
  }

  predicate Writes(pools: seq<NodePool>, s: State, step: Step)
    requires Enabled(pools, s, step)
  {
    step.SyncStep? && Next(pools, s, step).store != s.store
  }

  /**
    A sync that writes changes one pool: it creates the set empty, or adds one replica to a
    set below the desired count, so replicas never fall and never pass the desired count.
   */
  lemma WriteEffect(pools: seq<NodePool>, s: State, r: Reads) returns (k: nat)
    requires Shaped(pools, s) && Enabled(pools, s, SyncStep(r)) && Writes(pools, s, SyncStep(r))
    ensures k < |pools|
    ensures Sync(pools, s.store, r) == s.store[k := Sync(pools, s.store, r)[k]]
    ensures Sync(pools, s.store, r)[k]
            == s.store[k] + [Some(if HasSet(s, k) then SetOf(s, k).(replicas := SetOf(s, k).replicas + 1)
                                  else PoolSet(0, 0))]
    ensures HasSet(s, k) ==>
      && NextAction(pools, Seen(s.store, r)) == ScaleOut(k)
      && SetOf(s, k).ready == SetOf(s, k).replicas < pools[k].replicas
    ensures PoolGap(pools[k], Newest(Sync(pools, s.store, r)[k])) + 1 == PoolGap(pools[k], Newest(s.store[k]))
  {
    k := NextAction(pools, Seen(s.store, r)).pool;
  }

  lemma StepGap(pools: seq<NodePool>, s: State, step: Step)
    requires Shaped(pools, s) && Enabled(pools, s, step)
    ensures Shaped(pools, Next(pools, s, step))
    ensures Gap(pools, Next(pools, s, step)) + (if Writes(pools, s, step) then 1 else 0) == Gap(pools, s)
  {
    var s' := Next(pools, s, step);
    if Writes(pools, s, step) {
      var k := WriteEffect(pools, s, step.seen);
      var v := PoolGap(pools[k], Newest(s'.store[k]));
      assert Gaps(pools, s') == Gaps(pools, s)[k := v];
      SumUpdate(Gaps(pools, s), k, v);
    } else {
      assert Gaps(pools, s') == Gaps(pools, s);
    }
  }

  /** How many of the first n steps of a run are syncs that write. */
  function WriteCount(pools: seq<NodePool>, states: seq<State>, steps: seq<Step>, n: nat): nat
    requires IsRun(pools, states, steps) && n <= |steps|
  {
    if n == 0 then 0
    else WriteCount(pools, states, steps, n - 1) + if Writes(pools, states[n - 1], steps[n - 1]) then 1 else 0
  }

  /**
    Over every run, pods lost and posted counts arbitrary: each write of the controller closes
    exactly one unit of the gap and nothing ever reopens it, so the writes of a run are
    numbered by the gap they close and at most the initial gap of them ever happen.
   */
  lemma {:induction false} WritesCloseTheGap(pools: seq<NodePool>, states: seq<State>, steps: seq<Step>, n: nat)
    requires IsRun(pools, states, steps) && n <= |steps| && Shaped(pools, states[0])
    ensures Shaped(pools, states[n])
    ensures WriteCount(pools, states, steps, n) + Gap(pools, states[n]) == Gap(pools, states[0])
  {
    if n > 0 {
      WritesCloseTheGap(pools, states, steps, n - 1);
      assert Enabled(pools, states[n - 1], steps[n - 1]);
      StepGap(pools, states[n - 1], steps[n - 1]);
    }
  }

  predicate Within(pool: NodePool, s: Option<PoolSet>, t: Option<PoolSet>) {
    s.Some? ==> t.Some? && s.value.replicas <= t.value.replicas
                && (t.value.replicas == s.value.replicas || t.value.replicas <= pool.replicas)
  }

  /** Over every run the replicas of a set never fall, and never grow past the desired count. */
  lemma {:induction false} ReplicasOnlyGrow(pools: seq<NodePool>, states: seq<State>, steps: seq<Step>, i: nat,
                                            j: nat, k: nat)
    requires IsRun(pools, states, steps) && i <= j <= |steps| && Shaped(pools, states[0]) && k < |pools|
    ensures Shaped(pools, states[i]) && Shaped(pools, states[j])
    ensures Within(pools[k], Newest(states[i].store[k]), Newest(states[j].store[k]))
    decreases j
  {
    WritesCloseTheGap(pools, states, steps, i);
    WritesCloseTheGap(pools, states, steps, j);
    if i < j {
      ReplicasOnlyGrow(pools, states, steps, i, j - 1, k);
      var s, step := states[j - 1], steps[j - 1];
      assert Enabled(pools, s, step);
      if Writes(pools, s, step) {
        var m := WriteEffect(pools, s, step.seen);
      }
    }
  }

  // ----- One node at a time -----

  /** Replicas asked for that are not ready. */
  function Outstanding(s: State, k: nat): int
    requires k < |s.store| && k < |s.up| && s.store[k] != []
  {
    if HasSet(s, k) then SetOf(s, k).replicas - s.up[k] else 0
  }

  /**
    Every pool is absent, or all of its replicas are up. Caches may be stale, but no version they
    hold has more ready replicas than there are now, nor a set that has gone.
   */
  predicate Quiet(pools: seq<NodePool>, s: State) {
    && |s.store| == |s.up| == |pools|
    && forall k :: 0 <= k < |pools| ==>
         && s.store[k] != []
         && (forall v :: 0 <= v < |s.store[k]| && s.store[k][v].Some? ==>
               Newest(s.store[k]).Some? && s.store[k][v].value.ready <= s.up[k])
         && (Newest(s.store[k]).None? ==> s.up[k] == 0)
         && (Newest(s.store[k]).Some? ==> Newest(s.store[k]).value.replicas == s.up[k])
  }

  predicate PoolInv(pool: NodePool, h: History, up: nat) {
    && h != []
    && (forall v :: 0 <= v < |h| && h[v].Some? ==> Newest(h).Some? && h[v].value.ready <= up)
    && (Newest(h).None? ==> up == 0)
    && (Newest(h).Some? ==> up <= Newest(h).value.replicas <= up + 1)
    && (Newest(h).Some? && up < Newest(h).value.replicas ==> Newest(h).value.replicas <= pool.replicas)
  }

  predicate Inv(pools: seq<NodePool>, s: State) {
    && |s.store| == |s.up| == |pools|
    && (forall k :: 0 <= k < |pools| ==> PoolInv(pools[k], s.store[k], s.up[k]))
    && forall j, k :: 0 <= j < k < |pools| && Outstanding(s, k) > 0 ==> s.up[j] >= pools[j].replicas
  }

  lemma AppendVersion(pool: NodePool, h: History, up: nat, s: PoolSet)
    requires PoolInv(pool, h, up)
    requires s.ready <= up <= s.replicas <= up + 1
    requires up < s.replicas ==> s.replicas <= pool.replicas
    ensures PoolInv(pool, h + [Some(s)], up)
  {
    var h' := h + [Some(s)];
    assert forall v :: 0 <= v < |h| ==> h'[v] == h[v];
  }

  /** A write from the newest version finds everything before it complete and nothing outstanding anywhere. */
  lemma WriteWhenQuiet(pools: seq<NodePool>, s: State, r: Reads, k: nat)
    requires Inv(pools, s) && ValidReads(s.store, r) && HasSet(s, k)
    requires NextAction(pools, Seen(s.store, r)) == ScaleOut(k)
    requires SetOf(s, k).ready == SetOf(s, k).replicas < pools[k].replicas
    ensures SetOf(s, k).replicas == s.up[k]
    ensures forall j :: 0 <= j < k ==> s.up[j] >= pools[j].replicas
    ensures forall j :: 0 <= j < |pools| ==> Outstanding(s, j) <= 0
  {
    forall j | 0 <= j < k ensures s.up[j] >= pools[j].replicas {
      assert s.store[j][r.listed[j]].Some?;
    }
    assert s.store[k][|s.store[k]| - 1].value.ready <= s.up[k];
    forall j | 0 <= j < |pools| ensures Outstanding(s, j) <= 0 {
      assert PoolInv(pools[j], s.store[j], s.up[j]);
    }
  }

  lemma SyncPreserves(pools: seq<NodePool>, s: State, r: Reads)
    requires Inv(pools, s) && ValidReads(s.store, r)
    ensures Inv(pools, Next(pools, s, SyncStep(r)))
  {
    var s' := Next(pools, s, SyncStep(r));
    if s'.store != s.store {
      var k := WriteEffect(pools, s, r);
      if HasSet(s, k) {
        WriteWhenQuiet(pools, s, r, k);
        AppendVersion(pools[k], s.store[k], s.up[k], SetOf(s, k).(replicas := SetOf(s, k).replicas + 1));
      } else {
        AppendVersion(pools[k], s.store[k], s.up[k], PoolSet(0, 0));
      }
      assert forall j :: 0 <= j < |pools| && j != k ==> Outstanding(s', j) == Outstanding(s, j);
    }
  }

  lemma StepPreserves(pools: seq<NodePool>, s: State, step: Step)
    requires Inv(pools, s) && Enabled(pools, s, step) && Steady(s, step)
    ensures Inv(pools, Next(pools, s, step))
  {
    var s' := Next(pools, s, step);
    match step
    case SyncStep(r) => SyncPreserves(pools, s, r);
    case PodUp(k) =>
      assert forall j :: 0 <= j < |pools| ==> Outstanding(s', j) <= Outstanding(s, j) && s'.up[j] >= s.up[j];
    case PostStatus(k, n) =>
      AppendVersion(pools[k], s.store[k], s.up[k], SetOf(s, k).(ready := n));
      assert forall j :: 0 <= j < |pools| ==> Outstanding(s', j) == Outstanding(s, j);
  }

  lemma {:induction false} RunInv(pools: seq<NodePool>, states: seq<State>, steps: seq<Step>, t: nat)
    requires IsSteadyRun(pools, states, steps) && Quiet(pools, states[0]) && t < |states|
    ensures Inv(pools, states[t])
  {
    if t > 0 {
      RunInv(pools, states, steps, t - 1);
      assert Enabled(pools, states[t - 1], steps[t - 1]) && Steady(states[t - 1], steps[t - 1]);
      StepPreserves(pools, states[t - 1], steps[t - 1]);
    }
  }

  function AllOutstanding(pools: seq<NodePool>, s: State): seq<nat>
    requires Inv(pools, s)
  {
    seq(|pools|, k requires 0 <= k < |pools| =>
      assert PoolInv(pools[k], s.store[k], s.up[k]); Outstanding(s, k))
  }

  lemma {:induction false} AtMostOne(counts: seq<nat>)
    requires forall i :: 0 <= i < |counts| ==> counts[i] <= 1
    requires forall i, j :: 0 <= i < j < |counts| ==> counts[i] == 0 || counts[j] == 0
    ensures Sum(counts) <= 1
  {
    if counts != [] {
      if counts[0] == 0 {
        AtMostOne(counts[1..]);
      } else {
        SumZero(counts[1..]);
      }
    }
  }

  /**
    Nodes are added one at a time: in every reachable state, over all pools together, at most
    one replica that has been asked for is not ready, however stale the reads of any sync.
   */
  lemma OneAtATime(pools: seq<NodePool>, states: seq<State>, steps: seq<Step>, t: nat)
    requires IsSteadyRun(pools, states, steps) && Quiet(pools, states[0]) && t < |states|
    ensures Inv(pools, states[t])
    ensures Sum(AllOutstanding(pools, states[t])) <= 1
  {
    RunInv(pools, states, steps, t);
    var s := states[t];
    var counts := AllOutstanding(pools, s);
    forall i, j | 0 <= i < j < |counts| ensures counts[i] == 0 || counts[j] == 0 {
      assert PoolInv(pools[i], s.store[i], s.up[i]);
    }
    forall i | 0 <= i < |counts| ensures counts[i] <= 1 {
      assert PoolInv(pools[i], s.store[i], s.up[i]);
    }
    AtMostOne(counts);
  }

  // ----- Convergence -----

  predicate Converged(pools: seq<NodePool>, s: State)
    requires Shaped(pools, s)
  {
    forall k :: 0 <= k < |pools| ==> HasSet(s, k) && SetOf(s, k).ready >= pools[k].replicas
  }

  /** Steps that do something, in a steady environment that posts accurate counts. */
  predicate Effective(pools: seq<NodePool>, s: State, step: Step)
    requires Enabled(pools, s, step)
  {
    match step
    case SyncStep(_) => Writes(pools, s, step)
    case PodUp(_) => true
    case PodLost(_) => false
    case PostStatus(k, n) => n == s.up[k] && SetOf(s, k).ready < n
  }

  function PoolPotential(pool: NodePool, s: Option<PoolSet>, up: nat): nat
    requires s.Some? ==> up <= s.value.replicas
  {
    3 * PoolGap(pool, s)
    + if s.Some? then 2 * (s.value.replicas - up) + (if s.value.ready < up then 1 else 0) else 0
  }

  function Potentials(pools: seq<NodePool>, s: State): seq<nat>
    requires Inv(pools, s)
  {
    seq(|pools|, k requires 0 <= k < |pools| =>
      assert PoolInv(pools[k], s.store[k], s.up[k]); PoolPotential(pools[k], Newest(s.store[k]), s.up[k]))
  }

  function Potential(pools: seq<NodePool>, s: State): nat
    requires Inv(pools, s)
  {
    Sum(Potentials(pools, s))
  }

  lemma OnePoolDecreases(pools: seq<NodePool>, s: State, s': State, k: nat)
    requires Inv(pools, s) && Inv(pools, s') && k < |pools|
    requires forall j :: 0 <= j < |pools| && j != k ==> s'.store[j] == s.store[j] && s'.up[j] == s.up[j]
    requires Potentials(pools, s')[k] < Potentials(pools, s)[k]
    ensures Potential(pools, s') < Potential(pools, s)
  {
    var v := Potentials(pools, s')[k];
    assert Potentials(pools, s') == Potentials(pools, s)[k := v];
    SumUpdate(Potentials(pools, s), k, v);
  }

  lemma EffectiveDecreases(pools: seq<NodePool>, s: State, step: Step)
    requires Inv(pools, s) && Enabled(pools, s, step) && Effective(pools, s, step)
    ensures Inv(pools, Next(pools, s, step))
    ensures Potential(pools, Next(pools, s, step)) < Potential(pools, s)
  {
    var s' := Next(pools, s, step);
    var k: nat;
    if step.SyncStep? {
      k := WriteEffect(pools, s, step.seen);
      if HasSet(s, k) {
        WriteWhenQuiet(pools, s, step.seen, k);
      }
    } else {
      k := step.pool;
    }
    assert PoolInv(pools[k], s.store[k], s.up[k]);
    StepPreserves(pools, s, step);
    OnePoolDecreases(pools, s, s', k);
  }

  /** The versions an up-to-date cache returns. */
  function FreshReads(pools: seq<NodePool>, s: State): Reads
    requires Inv(pools, s)
  {
    var newest := seq(|pools|, k requires 0 <= k < |pools| =>
      assert PoolInv(pools[k], s.store[k], s.up[k]); |s.store[k]| - 1);
    Reads(newest, newest)
  }

  /** With nothing outstanding and all counts posted, a sync with fresh reads writes. */
  lemma FreshSyncWrites(pools: seq<NodePool>, s: State)
    requires Inv(pools, s) && !Converged(pools, s)
    requires forall k :: 0 <= k < |pools| && HasSet(s, k) ==> SetOf(s, k).ready >= s.up[k] >= SetOf(s, k).replicas
    ensures Enabled(pools, s, SyncStep(FreshReads(pools, s))) && Writes(pools, s, SyncStep(FreshReads(pools, s)))
  {
    var r := FreshReads(pools, s);
    FreshSeen(pools, s);
    var action := NextAction(pools, Seen(s.store, r));
    assert PoolInv(pools[action.pool], s.store[action.pool], s.up[action.pool]);
  }

  lemma FreshSeen(pools: seq<NodePool>, s: State)
    requires Inv(pools, s) && !Converged(pools, s)
    ensures ValidReads(s.store, FreshReads(pools, s))
    ensures forall k :: 0 <= k < |pools| ==> s.store[k][FreshReads(pools, s).listed[k]] == Newest(s.store[k])
    ensures !NextAction(pools, Seen(s.store, FreshReads(pools, s))).Idle?
  {
    var r := FreshReads(pools, s);
    forall k | 0 <= k < |pools| ensures s.store[k] != [] {
      assert PoolInv(pools[k], s.store[k], s.up[k]);
    }
    var k :| 0 <= k < |pools| && !(HasSet(s, k) && SetOf(s, k).ready >= pools[k].replicas);
    assert Seen(s.store, r)[k] == if Newest(s.store[k]).Some? then Some(SetOf(s, k).ready) else None;
  }

  /** Until every pool has its ready nodes some effective step is enabled. */
  lemma NeverStuck(pools: seq<NodePool>, s: State) returns (step: Step)
    requires Inv(pools, s) && !Converged(pools, s)
    ensures Enabled(pools, s, step) && Effective(pools, s, step)
  {
    if k :| 0 <= k < |pools| && HasSet(s, k) && s.up[k] < SetOf(s, k).replicas {
      return PodUp(k);
    }
    if k :| 0 <= k < |pools| && HasSet(s, k) && SetOf(s, k).ready < s.up[k] {
      return PostStatus(k, s.up[k]);
    }
    FreshSyncWrites(pools, s);
    step := SyncStep(FreshReads(pools, s));
  }

  predicate EffectiveRun(pools: seq<NodePool>, states: seq<State>, steps: seq<Step>) {
    IsRun(pools, states, steps) && forall i :: 0 <= i < |steps| ==> Effective(pools, states[i], steps[i])
  }

  /** Any sequence of effective steps is finite, and one that cannot be extended has converged. */
  lemma {:induction false} RunsConverge(pools: seq<NodePool>, states: seq<State>, steps: seq<Step>)
    requires EffectiveRun(pools, states, steps) && Inv(pools, states[0])
    ensures Inv(pools, states[|steps|])
    ensures |steps| + Potential(pools, states[|steps|]) <= Potential(pools, states[0])
    ensures (forall step :: Enabled(pools, states[|steps|], step) ==> !Effective(pools, states[|steps|], step))
            ==> Converged(pools, states[|steps|])
    decreases |steps|
  {
    if steps != [] {
      var n := |steps| - 1;
      assert IsRun(pools, states[..n + 1], steps[..n]);
      RunsConverge(pools, states[..n + 1], steps[..n]);
      assert Effective(pools, states[n], steps[n]);
      EffectiveDecreases(pools, states[n], steps[n]);
    }
    if !Converged(pools, states[|steps|]) {
      var step := NeverStuck(pools, states[|steps|]);
    }
  }
}
