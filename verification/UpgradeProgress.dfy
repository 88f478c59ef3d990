/**
  Progress of the rolling upgrade. A linear potential bounds the number of effective steps,
  and every state short of completion enables one, so every way of taking effective steps
  ends, and ends with all pools at the new version.
 */
module UpgradeProgress {
  import opened Common
  import opened PodNames
  import opened ElasticsearchActions
  import opened RollingUpgrade
  import C = ElasticsearchControl

  /**
    The steps that do something: any sync that writes, whatever it read, a replacement, a pod
    becoming ready, a first report, and a status that is accurate and news. Pods losing
    readiness are the failures that progress assumes away.
   */
  ghost predicate Effective(plan: Plan, s: State, step: Step)
    requires Enabled(plan, s, step)
  {
    match step
    case Sync(r) => C.Sync(plan.spec, s.cluster, r).pools != s.cluster.pools
    case Replace(_, _) => true
    case BecomeReady(k, i) => !s.pods[k][i].ready
    case BecomeUnready(_, _) => false
    case Report(k, i) => !s.pods[k][i].reported
    case PostStatus(k, u, n) => u == UpgradedPods(s.pods[k]) && n == ReadyPods(s.pods[k])
                                && Stale(SetOf(s, k), s.pods[k])
  }

  predicate Stale(set_: StatefulSet, pods: seq<Pod>) {
    set_.updated != UpgradedPods(pods) || set_.ready != ReadyPods(pods)
  }

  // ----- The potential -----

  function Weight(p: Pod): nat {
    (if p.upgraded then 0 else 4) + (if p.ready then 0 else 2) + (if p.reported then 0 else 1)
  }

  function Weights(pods: seq<Pod>): seq<nat> {
    seq(|pods|, i requires 0 <= i < |pods| => Weight(pods[i]))
  }

  function PoolPotential(plan: Plan, set_: StatefulSet, pods: seq<Pod>): nat {
    WritesLeft(plan, set_, pods) + Sum(Weights(pods)) + (if Stale(set_, pods) then 1 else 0)
  }

  function Potentials(plan: Plan, s: State): seq<nat>
    requires TightInv(plan, s)
  {
    seq(|s.pods|, k requires 0 <= k < |s.pods| => PoolPotential(plan, SetOf(s, k), s.pods[k]))
  }

  function Potential(plan: Plan, s: State): nat
    requires TightInv(plan, s)
  {
    Sum(Potentials(plan, s))
  }

  lemma WeightUpdate(pods: seq<Pod>, i: nat, p: Pod)
    requires i < |pods|
    ensures Sum(Weights(pods[i := p])) + Weight(pods[i]) == Sum(Weights(pods)) + Weight(p)
  {
    assert Weights(pods[i := p]) == Weights(pods)[i := Weight(p)];
    SumUpdate(Weights(pods), i, Weight(p));
  }

  lemma OnePoolChanges(plan: Plan, s: State, s': State, k: nat)
    requires TightInv(plan, s) && TightInv(plan, s') && k < |s.pods|
    requires forall j :: 0 <= j < |s.pods| && j != k ==> SetOf(s', j) == SetOf(s, j) && s'.pods[j] == s.pods[j]
    ensures Potential(plan, s') + PoolPotential(plan, SetOf(s, k), s.pods[k])
            == Potential(plan, s) + PoolPotential(plan, SetOf(s', k), s'.pods[k])
  {
    var v := PoolPotential(plan, SetOf(s', k), s'.pods[k]);
    assert Potentials(plan, s') == Potentials(plan, s)[k := v];
    SumUpdate(Potentials(plan, s), k, v);
  }

  lemma SyncDecreases(plan: Plan, s: State, r: C.Reads)
    requires ValidPlan(plan) && TightInv(plan, s) && Enabled(plan, s, Sync(r)) && Effective(plan, s, Sync(r))
    requires TightInv(plan, Next(plan, s, Sync(r)))
    ensures Potential(plan, Next(plan, s, Sync(r))) < Potential(plan, s)
  {
    var s' := Next(plan, s, Sync(r));
    var k := SyncIsUpgrade(plan, s, r);
    WriteKeepsTight(plan, s, k, r.health, r.pilots);
    OnePoolChanges(plan, s, s', k);
  }

  lemma EffectiveDecreases(plan: Plan, s: State, step: Step)
    requires ValidPlan(plan) && TightInv(plan, s) && Enabled(plan, s, step) && Effective(plan, s, step)
    ensures TightInv(plan, Next(plan, s, step))
    ensures Potential(plan, Next(plan, s, step)) < Potential(plan, s)
  {
    StepKeepsTight(plan, s, step);
    match step
    case Sync(r) => SyncDecreases(plan, s, r);
    case Replace(k, i) => PodStepDecreases(plan, s, k, i, Pod(true, false, false));
    case BecomeReady(k, i) => PodStepDecreases(plan, s, k, i, s.pods[k][i].(ready := true));
    case Report(k, i) =>
      ReportKeepsCounts(s.pods[k], i);
      PodStepDecreases(plan, s, k, i, s.pods[k][i].(reported := true));
    case PostStatus(k, _, _) =>
      OnePoolChanges(plan, s, Next(plan, s, step), k);
  }

  /** Two units of weight pay for a status that becomes stale, one is enough when it does not. */
  lemma PodStepDecreases(plan: Plan, s: State, k: nat, i: nat, p: Pod)
    requires TightInv(plan, s) && HasPod(s, k, i) && TightInv(plan, WithPod(s, k, i, p))
    requires Weight(p) < Weight(s.pods[k][i])
    requires Weight(p) + 2 <= Weight(s.pods[k][i])
             || Stale(SetOf(s, k), s.pods[k][i := p]) == Stale(SetOf(s, k), s.pods[k])
    ensures Potential(plan, WithPod(s, k, i, p)) < Potential(plan, s)
  {
    WeightUpdate(s.pods[k], i, p);
    OnePoolChanges(plan, s, WithPod(s, k, i, p), k);
  }

  lemma {:induction false} ReportKeepsCounts(pods: seq<Pod>, i: nat)
    requires i < |pods|
    ensures UpgradedPods(pods[i := pods[i].(reported := true)]) == UpgradedPods(pods)
    ensures ReadyPods(pods[i := pods[i].(reported := true)]) == ReadyPods(pods)
  {
    var p := pods[i].(reported := true);
    CountUpdate(pods, i, p);
    if i == 0 {
      assert pods[i := p][1..] == pods[1..];
    } else {
      assert pods[i := p][1..] == pods[1..][i - 1 := p];
      ReportKeepsCounts(pods[1..], i - 1);
    }
  }

  // ----- No deadlock -----

  predicate AllDone(plan: Plan, s: State)
    requires TightInv(plan, s)
  {
    forall k :: 0 <= k < |s.pods| ==> Done(plan, SetOf(s, k))
  }

  /** The pilot resource of a pod, as an up-to-date cache holds it. */
  function PilotOf(plan: Plan, s: State, k: nat, i: nat): Pilot
    requires k < |plan.spec.pools| && HasPod(s, k, i)
  {
    Pilot(PilotName(SetName(plan.spec, k), i), plan.spec.namespace,
          Some(PilotStatus(None, Some(if s.pods[k][i].reported then plan.spec.version else plan.oldVersion))))
  }

  function PilotsOf(plan: Plan, s: State, k: nat): seq<Pilot>
    requires k < |plan.spec.pools| && k < |s.pods|
  {
    seq(|s.pods[k]|, i requires 0 <= i < |s.pods[k]| => PilotOf(plan, s, k, i))
  }

  lemma OwnPilotHonest(plan: Plan, s: State, k: nat, i: nat)
    requires ValidPlan(plan) && k < |plan.spec.pools| && HasPod(s, k, i)
    ensures HonestPilot(plan, s, PilotOf(plan, s, k, i))
  {
    forall m: nat, j: nat |
      m < |plan.spec.pools| && HasPod(s, m, j)
      && PilotName(SetName(plan.spec, k), i) == PilotName(SetName(plan.spec, m), j)
      ensures m == k && j == i
    {
      PilotNameInjective(SetName(plan.spec, k), i, SetName(plan.spec, m), j);
      SetNameInjective(plan, k, m);
    }
  }

  lemma SetNameInjective(plan: Plan, k: nat, m: nat)
    requires ValidPlan(plan) && k < |plan.spec.pools| && m < |plan.spec.pools|
    requires SetName(plan.spec, k) == SetName(plan.spec, m)
    ensures k == m
  {
    var base := "es-" + plan.spec.name + "-";
    assert SetName(plan.spec, k)[|base|..] == plan.spec.pools[k].name;
    assert SetName(plan.spec, m)[|base|..] == plan.spec.pools[m].name;
  }

  lemma OwnPilotFound(plan: Plan, s: State, k: nat, i: nat)
    requires ValidPlan(plan) && k < |plan.spec.pools| && HasPod(s, k, i)
    ensures FirstNamed(PilotsOf(plan, s, k), PilotName(SetName(plan.spec, k), i)) == Some(PilotOf(plan, s, k, i))
  {
    var pilots := PilotsOf(plan, s, k);
    forall j | 0 <= j < i ensures pilots[j].name != pilots[i].name {
      if pilots[j].name == pilots[i].name {
        ReplicaInjective(SetName(plan.spec, k), j, i);
      }
    }
    FirstNamedAt(pilots, i);
  }

  /** An up-to-date cache: the newest sets, the labelled pilots of pool k and the pilot at ordinal p. */
  function FreshReads(plan: Plan, s: State, k: nat, p: nat): C.Reads
    requires TightInv(plan, s) && k < |s.pods|
  {
    var newest := seq(|s.pods|, j requires 0 <= j < |s.pods| => |s.cluster.pools[j]| - 1);
    C.Reads(newest, newest,
            PilotLister(PilotsOf(plan, s, k),
                        if p < |s.pods[k]| then map[PilotName(SetName(plan.spec, k), p) := PilotOf(plan, s, k, p)]
                        else map[]),
            Some(Green), [], {})
  }

  lemma FreshEnabled(plan: Plan, s: State, k: nat, p: nat)
    requires ValidPlan(plan) && TightInv(plan, s) && k < |s.pods|
    ensures Enabled(plan, s, Sync(FreshReads(plan, s, k, p)))
  {
    var r := FreshReads(plan, s, k, p);
    forall q | q in r.pilots.labelled ensures HonestPilot(plan, s, q) {
      var i :| 0 <= i < |s.pods[k]| && q == PilotOf(plan, s, k, i);
      OwnPilotHonest(plan, s, k, i);
    }
    if p < |s.pods[k]| {
      OwnPilotHonest(plan, s, k, p);
    }
  }

  /** With fresh reads and all its pods settled down, the first unfinished pool gets its next write. */
  lemma FreshSyncWrites(plan: Plan, s: State, k: nat, p: nat)
    requires ValidPlan(plan) && TightInv(plan, s) && k < |s.pods|
    requires forall j :: 0 <= j < k ==> Done(plan, SetOf(s, j))
    requires !Done(plan, SetOf(s, k)) && !Stale(SetOf(s, k), s.pods[k]) && ReadyPods(s.pods[k]) == |s.pods[k]|
    requires SetOf(s, k).image == plan.spec.image ==>
      SetOf(s, k).partition == Some(p) && s.pods[k][p].upgraded && s.pods[k][p].reported
    ensures Enabled(plan, s, Sync(FreshReads(plan, s, k, p)))
    ensures Effective(plan, s, Sync(FreshReads(plan, s, k, p)))
  {
    var r := FreshReads(plan, s, k, p);
    if SetOf(s, k).image == plan.spec.image {
      RollingCount(SetOf(s, k), s.pods[k]);
    }
    FreshSyncWritesIff(plan, s, k, p, Some(Green));
    assert r.(health := Some(Green)) == r;
  }

  lemma FreshDecision(plan: Plan, s: State, k: nat, p: nat)
    requires ValidPlan(plan) && TightInv(plan, s) && k < |s.pods|
    requires forall j :: 0 <= j < k ==> Done(plan, SetOf(s, j))
    requires !Done(plan, SetOf(s, k))
    ensures C.ValidReads(plan.spec, s.cluster, FreshReads(plan, s, k, p))
    ensures C.NextAction(plan.spec, C.Listed(s.cluster, FreshReads(plan, s, k, p)), 0) == C.Act(k, C.Upgrade)
  {
    var listed := C.Listed(s.cluster, FreshReads(plan, s, k, p));
    assert forall j :: 0 <= j < |s.pods| ==> listed[j] == Some(SetOf(s, j));
    assert forall j :: 0 <= j < k ==> C.Settled(plan.spec, j, listed[j]);
    C.FirstUnsettled(plan.spec, listed, 0, k);
  }

  /** The pool at k is ready for its next write, as far as its set and pods go. */
  predicate Due(plan: Plan, set_: StatefulSet, pods: seq<Pod>) {
    && set_.ready == |pods|
    && (set_.image == plan.spec.image ==>
          && set_.partition.Some? && 0 <= set_.partition.value < |pods|
          && pods[set_.partition.value].reported
          && (set_.partition.value > 0 ==> set_.updated == |pods| - set_.partition.value))
  }

  lemma OwnPilotsUpToDateIff(plan: Plan, s: State, k: nat)
    requires ValidPlan(plan) && k < |plan.spec.pools| && k < |s.pods|
    ensures PilotsUpToDate(plan.spec.version, PilotsOf(plan, s, k), SetName(plan.spec, k), |s.pods[k]|)
            <==> forall i :: 0 <= i < |s.pods[k]| ==> s.pods[k][i].reported
  {
    forall i | 0 <= i < |s.pods[k]|
      ensures FirstNamed(PilotsOf(plan, s, k), PilotName(SetName(plan.spec, k), i)) == Some(PilotOf(plan, s, k, i))
      ensures PilotUpToDate(plan.spec.version, PilotOf(plan, s, k, i)) <==> s.pods[k][i].reported
    {
      OwnPilotFound(plan, s, k, i);
    }
  }

  lemma DueWrites(plan: Plan, s: State, k: nat, p: nat, health: Option<Health>)
    requires ValidPlan(plan) && TightInv(plan, s) && k < |s.pods| && !Done(plan, SetOf(s, k))
    requires SetOf(s, k).image == plan.spec.image ==> SetOf(s, k).partition == Some(p)
    ensures UpdateVersion(plan.spec, k, health, SetOf(s, k), FreshReads(plan, s, k, p).pilots).Write?
            <==> health.Some? && health.value != Red && Due(plan, SetOf(s, k), s.pods[k])
  {
    var set_, pods := SetOf(s, k), s.pods[k];
    var n := |pods|;
    OwnPilotsUpToDateIff(plan, s, k);
    if set_.image == plan.spec.image {
      RollingCount(set_, pods);
      assert (forall i :: 0 <= i < n ==> pods[i].reported) <==> p == 0 && pods[0].reported;
      assert p > 0 ==> NextPartition(n, set_.updated) == (if set_.updated == n - p then p - 1 else p);
    } else {
      CountSuffix(pods, n);
      assert (forall i :: 0 <= i < n ==> pods[i].reported) <==> n == 0;
    }
  }

  /**
    Exactly when a sync with fresh reads writes: all pools before k being done, pool k gets its next
    write if and only if the health is known and not Red, every replica is posted as ready and, once
    the rollout has begun, the pod at the partition has reported and, unless it is the last one, is
    counted as updated.
   */
  lemma FreshSyncWritesIff(plan: Plan, s: State, k: nat, p: nat, health: Option<Health>)
    requires ValidPlan(plan) && TightInv(plan, s) && k < |s.pods|
    requires (forall j :: 0 <= j < k ==> Done(plan, SetOf(s, j))) && !Done(plan, SetOf(s, k))
    requires SetOf(s, k).image == plan.spec.image ==> SetOf(s, k).partition == Some(p)
    ensures var r := FreshReads(plan, s, k, p).(health := health);
      && Enabled(plan, s, Sync(r))
      && (C.Sync(plan.spec, s.cluster, r).pools != s.cluster.pools
          <==> health.Some? && health.value != Red && Due(plan, SetOf(s, k), s.pods[k]))
  {
    AnyHealth(plan, s, k, p, health);
    DueWrites(plan, s, k, p, health);
    C.UpgradeWritesIff(plan.spec, s.cluster, FreshReads(plan, s, k, p).(health := health), k, SetOf(s, k));
  }

  /** The decision does not depend on the health. */
  lemma AnyHealth(plan: Plan, s: State, k: nat, p: nat, health: Option<Health>)
    requires ValidPlan(plan) && TightInv(plan, s) && k < |s.pods|
    requires (forall j :: 0 <= j < k ==> Done(plan, SetOf(s, j))) && !Done(plan, SetOf(s, k))
    ensures var r := FreshReads(plan, s, k, p).(health := health);
      && Enabled(plan, s, Sync(r))
      && C.NextAction(plan.spec, C.Listed(s.cluster, r), 0) == C.Act(k, C.Upgrade)
  {
    FreshEnabled(plan, s, k, p);
    FreshDecision(plan, s, k, p);
    assert C.Listed(s.cluster, FreshReads(plan, s, k, p).(health := health))
           == C.Listed(s.cluster, FreshReads(plan, s, k, p));
  }

  lemma {:induction false} AllReady(pods: seq<Pod>)
    requires forall i :: 0 <= i < |pods| ==> pods[i].ready
    ensures ReadyPods(pods) == |pods|
  {
    if pods != [] {
      AllReady(pods[1..]);
    }
  }

  /** The upgrade cannot deadlock: some effective step is enabled until every pool is done. */
  lemma NeverStuck(plan: Plan, s: State) returns (step: Step)
    requires ValidPlan(plan) && TightInv(plan, s) && !AllDone(plan, s)
    ensures Enabled(plan, s, step) && Effective(plan, s, step)
  {
    var k := 0;
    while Done(plan, SetOf(s, k))
      invariant 0 <= k < |s.pods|
      invariant forall j :: 0 <= j < k ==> Done(plan, SetOf(s, j))
      decreases |s.pods| - k
    {
      k := k + 1;
    }
    var set_, pods := SetOf(s, k), s.pods[k];
    if i :| 0 <= i < |pods| && !pods[i].ready {
      return BecomeReady(k, i);
    }
    AllReady(pods);
    if Stale(set_, pods) {
      return PostStatus(k, UpgradedPods(pods), ReadyPods(pods));
    }
    if set_.image == plan.spec.image {
      var p := set_.partition.value;
      if !pods[p].upgraded {
        return Replace(k, p);
      }
      if !pods[p].reported {
        return Report(k, p);
      }
      FreshSyncWrites(plan, s, k, p);
      return Sync(FreshReads(plan, s, k, p));
    }
    FreshSyncWrites(plan, s, k, 0);
    return Sync(FreshReads(plan, s, k, 0));
  }

  // ----- Termination -----

  ghost predicate EffectiveRun(plan: Plan, states: seq<State>, steps: seq<Step>) {
    && |states| == |steps| + 1
    && forall i :: 0 <= i < |steps| ==> EffectiveStep(plan, states[i], steps[i], states[i + 1])
  }

  ghost predicate EffectiveStep(plan: Plan, s: State, step: Step, s': State) {
    Enabled(plan, s, step) && Effective(plan, s, step) && s' == Next(plan, s, step)
  }

  lemma Prepend(plan: Plan, s: State, step: Step, states: seq<State>, steps: seq<Step>)
    requires EffectiveRun(plan, states, steps) && EffectiveStep(plan, s, step, states[0])
    ensures EffectiveRun(plan, [s] + states, [step] + steps)
  {
    var all, taken := [s] + states, [step] + steps;
    forall i | 0 <= i < |taken| ensures EffectiveStep(plan, all[i], taken[i], all[i + 1]) {
      if i > 0 {
        assert all[i] == states[i - 1] && taken[i] == steps[i - 1] && all[i + 1] == states[i];
      }
    }
  }

  /** Every sequence of effective steps is finite, with the potential as an explicit bound. */
  lemma {:induction false} EffectiveRunsEnd(plan: Plan, states: seq<State>, steps: seq<Step>)
    requires ValidPlan(plan) && EffectiveRun(plan, states, steps) && TightInv(plan, states[0])
    ensures TightInv(plan, states[|steps|])
    ensures |steps| + Potential(plan, states[|steps|]) <= Potential(plan, states[0])
    decreases |steps|
  {
    if steps != [] {
      var n := |steps| - 1;
      EffectiveRunsEnd(plan, states[..n + 1], steps[..n]);
      assert EffectiveStep(plan, states[n], steps[n], states[n + 1]);
      EffectiveDecreases(plan, states[n], steps[n]);
    }
  }

  function PoolBudgets(plan: Plan): seq<nat>
    requires ValidPlan(plan)
  {
    seq(|plan.spec.pools|, k requires 0 <= k < |plan.spec.pools| => 8 * plan.spec.pools[k].replicas + 2)
  }

  lemma {:induction false} WeightsBound(pods: seq<Pod>)
    ensures Sum(Weights(pods)) <= 7 * |pods|
  {
    if pods != [] {
      assert Weights(pods)[1..] == Weights(pods[1..]);
      WeightsBound(pods[1..]);
    }
  }

  lemma StartInv(plan: Plan, s: State)
    requires ValidPlan(plan) && Start(plan, s) && CountsZero(s)
    ensures TightInv(plan, s)
    ensures Potential(plan, s) <= Sum(PoolBudgets(plan))
  {
    RunTight(plan, [s], [], 0);
    forall k | 0 <= k < |s.pods| ensures Potentials(plan, s)[k] <= PoolBudgets(plan)[k] {
      WeightsBound(s.pods[k]);
    }
    SumMonotone(Potentials(plan, s), PoolBudgets(plan));
  }

  // ----- Termination with failures -----

  /** What a step that is not effective may add to the potential: an unready pod, or an idle status. */
  ghost function Slack(plan: Plan, s: State, step: Step): nat
    requires Enabled(plan, s, step)
  {
    if step.BecomeUnready? then 3
    else if step.PostStatus? && !Effective(plan, s, step) then 1
    else 0
  }

  lemma StepPotential(plan: Plan, s: State, step: Step)
    requires ValidPlan(plan) && TightInv(plan, s) && Enabled(plan, s, step) && Steady(s, step)
    ensures TightInv(plan, Next(plan, s, step))
    ensures Potential(plan, Next(plan, s, step)) + (if Effective(plan, s, step) then 1 else 0)
            <= Potential(plan, s) + Slack(plan, s, step)
  {
    if Effective(plan, s, step) {
      EffectiveDecreases(plan, s, step);
    } else {
      StepKeepsTight(plan, s, step);
      match step
      case Sync(r) => assert Potentials(plan, Next(plan, s, step)) == Potentials(plan, s);
      case BecomeReady(k, i) => SamePod(s, k, i);
      case Report(k, i) => SamePod(s, k, i);
      case BecomeUnready(k, i) => UnreadyPotential(plan, s, k, i);
      case PostStatus(k, _, _) => OnePoolChanges(plan, s, Next(plan, s, step), k);
    }
  }

  lemma UnreadyPotential(plan: Plan, s: State, k: nat, i: nat)
    requires TightInv(plan, s) && HasPod(s, k, i)
    requires TightInv(plan, WithPod(s, k, i, s.pods[k][i].(ready := false)))
    ensures Potential(plan, WithPod(s, k, i, s.pods[k][i].(ready := false))) <= Potential(plan, s) + 3
  {
    var p := s.pods[k][i].(ready := false);
    WeightUpdate(s.pods[k], i, p);
    OnePoolChanges(plan, s, WithPod(s, k, i, p), k);
  }

  lemma SamePod(s: State, k: nat, i: nat)
    requires HasPod(s, k, i)
    ensures WithPod(s, k, i, s.pods[k][i]) == s
  {
    assert s.pods[k][i := s.pods[k][i]] == s.pods[k];
  }

  ghost function EffectiveCount(plan: Plan, states: seq<State>, steps: seq<Step>, n: nat): nat
    requires IsRun(plan, states, steps) && n <= |steps|
  {
    if n == 0 then 0
    else EffectiveCount(plan, states, steps, n - 1) + if Effective(plan, states[n - 1], steps[n - 1]) then 1 else 0
  }

  ghost function TotalSlack(plan: Plan, states: seq<State>, steps: seq<Step>, n: nat): nat
    requires IsRun(plan, states, steps) && n <= |steps|
  {
    if n == 0 then 0 else TotalSlack(plan, states, steps, n - 1) + Slack(plan, states[n - 1], steps[n - 1])
  }

  /**
    In every steady run, syncs that do nothing and failing pods included, the effective steps are
    at most 8n + 2 per pool of n replicas, 3 for each time a pod became unready and 1 for each
    status that was no accurate news. So with finitely many failures they end.
   */
  lemma {:induction false} EffectiveStepsBounded(plan: Plan, states: seq<State>, steps: seq<Step>, n: nat)
    requires ValidPlan(plan) && IsRun(plan, states, steps) && SteadyRun(states, steps) && n <= |steps|
    ensures TightInv(plan, states[n])
    ensures EffectiveCount(plan, states, steps, n) + Potential(plan, states[n])
            <= Sum(PoolBudgets(plan)) + TotalSlack(plan, states, steps, n)
  {
    if n > 0 {
      EffectiveStepsBounded(plan, states, steps, n - 1);
      assert Enabled(plan, states[n - 1], steps[n - 1]) && Steady(states[n - 1], steps[n - 1]);
      StepPotential(plan, states[n - 1], steps[n - 1]);
    } else {
      StartInv(plan, states[0]);
    }
  }

  /** A run from the start made of effective steps has at most 8n + 2 of them per pool of n replicas. */
  lemma UpgradeBound(plan: Plan, states: seq<State>, steps: seq<Step>)
    requires ValidPlan(plan) && EffectiveRun(plan, states, steps) && Start(plan, states[0])
    requires CountsZero(states[0])
    ensures |steps| <= Sum(PoolBudgets(plan))
  {
    StartInv(plan, states[0]);
    EffectiveRunsEnd(plan, states, steps);
  }

  /** From every reachable state the upgrade can be completed, within the potential of that state. */
  lemma {:induction false} UpgradeCompletes(plan: Plan, s: State) returns (states: seq<State>, steps: seq<Step>)
    requires ValidPlan(plan) && TightInv(plan, s)
    ensures EffectiveRun(plan, states, steps) && states[0] == s && |steps| <= Potential(plan, s)
    ensures TightInv(plan, states[|steps|]) && AllDone(plan, states[|steps|])
    decreases Potential(plan, s)
  {
    if AllDone(plan, s) {
      return [s], [];
    }
    var step := NeverStuck(plan, s);
    EffectiveDecreases(plan, s, step);
    var rest, more := UpgradeCompletes(plan, Next(plan, s, step));
    Prepend(plan, s, step, rest, more);
    states, steps := [s] + rest, [step] + more;
  }

  /** A run of effective steps that cannot be extended has upgraded every pool. */
  lemma MaximalRunsComplete(plan: Plan, states: seq<State>, steps: seq<Step>)
    requires ValidPlan(plan) && EffectiveRun(plan, states, steps) && Start(plan, states[0])
    requires CountsZero(states[0])
    requires forall step :: Enabled(plan, states[|steps|], step) ==> !Effective(plan, states[|steps|], step)
    ensures TightInv(plan, states[|steps|]) && AllDone(plan, states[|steps|])
  {
    StartInv(plan, states[0]);
    EffectiveRunsEnd(plan, states, steps);
    if !AllDone(plan, states[|steps|]) {
      var step := NeverStuck(plan, states[|steps|]);
    }
  }

  // ----- Exactly when an upgrade can complete -----

  predicate Complete(plan: Plan, s: State) {
    forall k :: 0 <= k < |plan.spec.pools| ==> HasSet(s, k) && Done(plan, SetOf(s, k))
  }

  ghost predicate CompletingRun(plan: Plan, s: State, states: seq<State>, steps: seq<Step>) {
    IsRun(plan, states, steps) && states[0] == s && Complete(plan, states[|steps|])
  }

  /**
    The versions are the same text; or they differ as versions, an image is known, and it is a new
    one unless there are no pods to replace.
   */
  predicate CanComplete(plan: Plan) {
    || plan.spec.pools == []
    || plan.spec.version == plan.oldVersion
    || (!VersionEqual(plan.spec.version, plan.oldVersion) && plan.spec.image.Some?
        && (plan.spec.image.value != plan.oldImage
            || forall k :: 0 <= k < |plan.spec.pools| ==> plan.spec.pools[k].replicas == 0))
  }

  /** Why pool k never gets the annotation of the new version. */
  predicate Blocked(plan: Plan, k: nat)
    requires k < |plan.spec.pools|
  {
    && plan.spec.version != plan.oldVersion
    && (|| VersionEqual(plan.spec.version, plan.oldVersion)
        || plan.spec.image.None?
        || (plan.spec.image.value == plan.oldImage && plan.spec.pools[k].replicas > 0))
  }

  predicate Unannotated(plan: Plan, k: nat, h: C.History, pods: seq<Pod>)
    requires k < |plan.spec.pools|
  {
    && h != [] && |pods| == plan.spec.pools[k].replicas
    && (forall v :: 0 <= v < |h| ==>
          h[v].Some? && h[v].value.annotation == Some(Rendered(plan.oldVersion)) && h[v].value.replicas == Some(|pods|))
    && (plan.spec.image == Some(plan.oldImage) ==>
          forall i :: 0 <= i < |pods| ==> !pods[i].upgraded && !pods[i].reported)
  }

  lemma BlockedSync(plan: Plan, s: State, r: C.Reads, k: nat)
    requires Enabled(plan, s, Sync(r)) && k < |plan.spec.pools| && k < |s.pods| && Blocked(plan, k)
    requires Unannotated(plan, k, s.cluster.pools[k], s.pods[k])
    ensures |C.Sync(plan.spec, s.cluster, r).pools| == |plan.spec.pools|
    ensures Unannotated(plan, k, C.Sync(plan.spec, s.cluster, r).pools[k], s.pods[k])
  {
    var h, listed := s.cluster.pools[k], C.Listed(s.cluster, r);
    assert listed[k] == h[r.listed[k]];
    assert !C.Settled(plan.spec, k, listed[k]);
    var d := C.NextAction(plan.spec, listed, 0);
    if d.Act? && d.pool == k {
      HonestReports(plan, s, r.pilots, k);
      var fetched := h[r.fetched[k]].value;
      assert plan.spec.image == Some(plan.oldImage) && s.pods[k] != [] ==> !s.pods[k][0].reported;
      var outcome := UpdateVersion(plan.spec, k, r.health, fetched, r.pilots);
      assert outcome.Write? ==>
        outcome.set_.annotation == fetched.annotation && outcome.set_.replicas == fetched.replicas;
    }
  }

  lemma {:induction false} BlockedRun(plan: Plan, states: seq<State>, steps: seq<Step>, t: nat, k: nat)
    requires IsRun(plan, states, steps) && t < |states| && k < |plan.spec.pools| && Blocked(plan, k)
    ensures |states[t].cluster.pools| == |states[t].pods| == |plan.spec.pools|
    ensures Unannotated(plan, k, states[t].cluster.pools[k], states[t].pods[k])
  {
    if t > 0 {
      BlockedRun(plan, states, steps, t - 1, k);
      var s, step := states[t - 1], steps[t - 1];
      assert Enabled(plan, s, step);
      BlockedStep(plan, s, step, k);
    } else {
      assert StartPool(plan, k, states[0].cluster.pools[k], states[0].pods[k]);
    }
  }

  /** No step but a sync changes annotation or replicas, and none replaces pods while the image is the old one. */
  lemma BlockedStep(plan: Plan, s: State, step: Step, k: nat)
    requires Enabled(plan, s, step) && k < |plan.spec.pools| && Blocked(plan, k)
    requires |s.cluster.pools| == |s.pods| == |plan.spec.pools|
    requires Unannotated(plan, k, s.cluster.pools[k], s.pods[k])
    ensures var s' := Next(plan, s, step);
      && |s'.cluster.pools| == |s'.pods| == |plan.spec.pools|
      && Unannotated(plan, k, s'.cluster.pools[k], s'.pods[k])
  {
    if step.Sync? {
      BlockedSync(plan, s, step.seen, k);
    }
  }

  // ----- Completing runs -----

  ghost predicate RunFrom(plan: Plan, states: seq<State>, steps: seq<Step>) {
    && |states| == |steps| + 1
    && forall i :: 0 <= i < |steps| ==> StepOf(plan, states[i], steps[i], states[i + 1])
  }

  ghost predicate StepOf(plan: Plan, s: State, step: Step, s': State) {
    Enabled(plan, s, step) && s' == Next(plan, s, step)
  }

  lemma Join(plan: Plan, states: seq<State>, steps: seq<Step>, states': seq<State>, steps': seq<Step>)
    requires RunFrom(plan, states, steps) && RunFrom(plan, states', steps') && states[|steps|] == states'[0]
    ensures RunFrom(plan, states + states'[1..], steps + steps')
    ensures (states + states'[1..])[|steps + steps'|] == states'[|steps'|]
  {
    var all, taken := states + states'[1..], steps + steps';
    forall i | 0 <= i < |taken| ensures StepOf(plan, all[i], taken[i], all[i + 1]) {
      if i >= |steps| {
        assert StepOf(plan, states'[i - |steps|], steps'[i - |steps|], states'[i - |steps| + 1]);
      }
    }
  }

  /** No rollout has begun, whatever the posted counts say. */
  predicate Untouched(plan: Plan, s: State) {
    Inv(plan, s)
    && forall k :: 0 <= k < |s.pods| ==>
         !Started(plan, SetOf(s, k))
         && forall v :: 0 <= v < |s.cluster.pools[k]| ==> s.cluster.pools[k][v].value.image == Some(plan.oldImage)
  }

  /** Posting the true counts, which are zero, leads to a state in which counts are steady. */
  lemma {:induction false} PostZeros(plan: Plan, s: State, j: nat) returns (states: seq<State>, steps: seq<Step>)
    requires ValidPlan(plan) && Untouched(plan, s) && j <= |s.pods|
    requires forall k :: 0 <= k < j ==> SetOf(s, k).updated == 0
    ensures RunFrom(plan, states, steps) && states[0] == s && TightInv(plan, states[|steps|])
    decreases |s.pods| - j
  {
    if j == |s.pods| {
      return [s], [];
    }
    var step := PostStatus(j, 0, SetOf(s, j).ready);
    PostStatusPreserves(plan, s, j, 0, SetOf(s, j).ready);
    var s' := Next(plan, s, step);
    assert RunFrom(plan, [s, s'], [step]);
    states, steps := PostZeros(plan, s', j + 1);
    Join(plan, [s, s'], [step], states, steps);
    states, steps := [s, s'] + states[1..], [step] + steps;
  }

  /** Pools without pods, of which the first j are annotated with the new version. */
  predicate Emptied(plan: Plan, s: State, j: nat) {
    && |s.cluster.pools| == |s.pods| == |plan.spec.pools| && j <= |s.pods|
    && forall k :: 0 <= k < |s.pods| ==>
         && s.pods[k] == [] && plan.spec.pools[k].replicas == 0 && HasSet(s, k)
         && SetOf(s, k).image.Some? && SetOf(s, k).replicas == Some(0)
         && SetOf(s, k).annotation == Some(Rendered(if k < j then plan.spec.version else plan.oldVersion))
  }

  /** Fresh versions of all sets, and no pilots. */
  function NoPilots(s: State): C.Reads {
    var newest := seq(|s.cluster.pools|, k requires 0 <= k < |s.cluster.pools| => Last(s.cluster.pools[k]));
    C.Reads(newest, newest, PilotLister([], map[]), Some(Green), [], {})
  }

  function Last(h: C.History): nat {
    if h == [] then 0 else |h| - 1
  }

  lemma NoPilotsRead(plan: Plan, s: State, j: nat)
    requires Emptied(plan, s, j)
    ensures C.ValidReads(plan.spec, s.cluster, NoPilots(s))
    ensures forall k :: 0 <= k < |s.pods| ==> C.Listed(s.cluster, NoPilots(s))[k] == Some(SetOf(s, k))
    ensures forall k :: 0 <= k < |s.pods| ==> NoPilots(s).fetched[k] == |s.cluster.pools[k]| - 1
  {
    forall k | 0 <= k < |s.pods| ensures s.cluster.pools[k] != [] && NoPilots(s).listed[k] == |s.cluster.pools[k]| - 1 {
      assert HasSet(s, k);
    }
  }

  lemma NextIsEmpty(plan: Plan, s: State, j: nat)
    requires Emptied(plan, s, j) && j < |s.pods| && plan.spec.version != plan.oldVersion
    ensures C.ValidReads(plan.spec, s.cluster, NoPilots(s))
    ensures C.NextAction(plan.spec, C.Listed(s.cluster, NoPilots(s)), 0) == C.Act(j, C.Upgrade)
  {
    NoPilotsRead(plan, s, j);
    C.FirstUnsettled(plan.spec, C.Listed(s.cluster, NoPilots(s)), 0, j);
  }

  lemma EmptyOutcome(plan: Plan, s: State, j: nat)
    requires Emptied(plan, s, j) && j < |s.pods| && SetOf(s, j).ready == 0
    requires !VersionEqual(plan.spec.version, plan.oldVersion) && plan.spec.image.Some?
    ensures UpdateVersion(plan.spec, j, Some(Green), SetOf(s, j), PilotLister([], map[]))
            == Write(SetOf(s, j).(annotation := Some(Rendered(plan.spec.version))))
  {
    assert PilotsUpToDate(plan.spec.version, [], SetName(plan.spec, j), 0);
  }

  lemma AnnotateNext(plan: Plan, s: State, j: nat)
    requires Emptied(plan, s, j) && j < |s.pods| && SetOf(s, j).ready == 0
    requires !VersionEqual(plan.spec.version, plan.oldVersion) && plan.spec.image.Some?
    ensures Enabled(plan, s, Sync(NoPilots(s)))
    ensures Emptied(plan, Next(plan, s, Sync(NoPilots(s))), j + 1)
  {
    var r := NoPilots(s);
    NoPilotsRead(plan, s, j);
    NextIsEmpty(plan, s, j);
    EmptyOutcome(plan, s, j);
    C.UpgradeAccepted(plan.spec, s.cluster, r, j, SetOf(s, j));
    var s' := Next(plan, s, Sync(r));
    assert forall k :: 0 <= k < |s.pods| && k != j ==> s'.cluster.pools[k] == s.cluster.pools[k];
  }

  lemma {:induction false} AnnotateAll(plan: Plan, s: State, j: nat) returns (states: seq<State>, steps: seq<Step>)
    requires Emptied(plan, s, j)
    requires !VersionEqual(plan.spec.version, plan.oldVersion) && plan.spec.image.Some?
    ensures RunFrom(plan, states, steps) && states[0] == s && Complete(plan, states[|steps|])
    decreases |s.pods| - j
  {
    if j == |s.pods| {
      return [s], [];
    }
    var post := PostStatus(j, 0, 0);
    var s1 := Next(plan, s, post);
    assert Emptied(plan, s1, j) && SetOf(s1, j).ready == 0;
    AnnotateNext(plan, s1, j);
    var sync := Sync(NoPilots(s1));
    var s2 := Next(plan, s1, sync);
    assert RunFrom(plan, [s, s1, s2], [post, sync]);
    states, steps := AnnotateAll(plan, s2, j + 1);
    Join(plan, [s, s1, s2], [post, sync], states, steps);
    states, steps := [s, s1, s2] + states[1..], [post, sync] + steps;
  }

  lemma CompletesFrom(plan: Plan, s: State) returns (states: seq<State>, steps: seq<Step>)
    requires ShapedPlan(plan) && Start(plan, s) && CanComplete(plan)
    ensures CompletingRun(plan, s, states, steps)
  {
    assert forall k :: 0 <= k < |s.pods| ==> StartPool(plan, k, s.cluster.pools[k], s.pods[k]);
    if plan.spec.pools == [] || plan.spec.version == plan.oldVersion {
      return [s], [];
    }
    if plan.spec.image.value == plan.oldImage {
      states, steps := AnnotateAll(plan, s, 0);
    } else {
      states, steps := UpgradeFrom(plan, s);
    }
    forall i | 0 <= i < |steps|
      ensures Enabled(plan, states[i], steps[i]) && states[i + 1] == Next(plan, states[i], steps[i])
    {
      assert StepOf(plan, states[i], steps[i], states[i + 1]);
    }
  }

  lemma UpgradeFrom(plan: Plan, s: State) returns (states: seq<State>, steps: seq<Step>)
    requires ValidPlan(plan) && Start(plan, s)
    ensures RunFrom(plan, states, steps) && states[0] == s && Complete(plan, states[|steps|])
  {
    RollingUpgrade.RunInv(plan, [s], [], 0);
    assert forall k :: 0 <= k < |s.pods| ==> StartPool(plan, k, s.cluster.pools[k], s.pods[k]);
    states, steps := PostZeros(plan, s, 0);
    var states', steps' := UpgradeCompletes(plan, states[|steps|]);
    forall i | 0 <= i < |steps'| ensures StepOf(plan, states'[i], steps'[i], states'[i + 1]) {
      assert EffectiveStep(plan, states'[i], steps'[i], states'[i + 1]);
    }
    Join(plan, states, steps, states', steps');
    states, steps := states + states'[1..], steps + steps';
  }

  lemma NeverCompletes(plan: Plan, s: State, states: seq<State>, steps: seq<Step>, k: nat)
    requires k < |plan.spec.pools| && Blocked(plan, k)
    ensures !CompletingRun(plan, s, states, steps)
  {
    if IsRun(plan, states, steps) {
      BlockedRun(plan, states, steps, |steps|, k);
      assert HasSet(states[|steps|], k) ==> !Done(plan, SetOf(states[|steps|], k));
    }
  }

  lemma BlockedPool(plan: Plan) returns (k: nat)
    requires ShapedPlan(plan) && !CanComplete(plan)
    ensures k < |plan.spec.pools| && Blocked(plan, k)
  {
    k := 0;
    if !VersionEqual(plan.spec.version, plan.oldVersion) && plan.spec.image.Some? {
      k :| 0 <= k < |plan.spec.pools| && plan.spec.pools[k].replicas != 0;
    }
  }

  /** From any start and any posted counts, some run completes the upgrade if and only if `CanComplete`. */
  lemma CompletesIff(plan: Plan, s: State)
    requires ShapedPlan(plan) && Start(plan, s)
    ensures (exists states, steps :: CompletingRun(plan, s, states, steps)) <==> CanComplete(plan)
  {
    if CanComplete(plan) {
      var states, steps := CompletesFrom(plan, s);
    } else {
      var k := BlockedPool(plan);
      forall states, steps ensures !CompletingRun(plan, s, states, steps) {
        NeverCompletes(plan, s, states, steps, k);
      }
    }
  }

  /** One pool of three replicas at 6.1.1+a with image es:1. */
  function ExamplePlan(version: Version, image: Option<string>): Plan {
    Plan(ClusterSpec("c", "n", "u", version, image, [PoolSpec("p", 3, [Data])]), Version("6.1.1", "a"), "es:1")
  }

  /** A bump of the build metadata, a new version with the old image pinned, and one without any image. */
  lemma ExampleUpgradesFail(s: State, states: seq<State>, steps: seq<Step>)
    ensures !CompletingRun(ExamplePlan(Version("6.1.1", "b"), Some("es:2")), s, states, steps)
    ensures !CompletingRun(ExamplePlan(Version("6.1.2", ""), Some("es:1")), s, states, steps)
    ensures !CompletingRun(ExamplePlan(Version("6.1.2", ""), None), s, states, steps)
  {
    NeverCompletes(ExamplePlan(Version("6.1.1", "b"), Some("es:2")), s, states, steps, 0);
    NeverCompletes(ExamplePlan(Version("6.1.2", ""), Some("es:1")), s, states, steps, 0);
    NeverCompletes(ExamplePlan(Version("6.1.2", ""), None), s, states, steps, 0);
  }
}
