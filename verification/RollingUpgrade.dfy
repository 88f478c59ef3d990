/**
  The rolling upgrade of an Elasticsearch cluster as a state machine: the controller of
  ElasticsearchControl, interleaved with the StatefulSet controller that replaces pods,
  posts statuses and sees pods become ready, and with pilots that report their version.

  Assumptions about the environment, all visible in `Enabled`: a pod is only ever replaced
  by the rollout, at an ordinal not below the partition and once the template has the new
  image, if that is a different one; a pilot reports the new version only from a pod running
  it; and no idle sync lists sets in a way that exposes a pool's own set to deletion. The
  posted counts of updated and ready replicas are arbitrary. No pod replacement order, no
  fairness and no cache freshness is assumed. Only what is said about the movement of the
  partition is for runs in which the count of updated replicas counts pods on the new
  template and does not fall, though it may lag (`SteadyRun`).
 */
module RollingUpgrade {
  import opened Common
  import opened PodNames
  import opened ElasticsearchActions
  import C = ElasticsearchControl

  /** An upgrade of all pools from one version and image to those of the spec. */
  datatype Plan = Plan(spec: ClusterSpec, oldVersion: Version, oldImage: string)

  /** A new version, as versions go, with a new image; `UpgradeProgress.CompletesIff` is about all others too. */
  predicate ValidPlan(plan: Plan) {
    ShapedPlan(plan) && !VersionEqual(plan.spec.version, plan.oldVersion)
    && plan.spec.image.Some? && plan.spec.image.value != plan.oldImage
  }

  /** What admission ensures of a spec. */
  predicate ShapedPlan(plan: Plan) {
    && (forall k :: 0 <= k < |plan.spec.pools| ==> plan.spec.pools[k].replicas >= 0)
    && (forall j, k :: 0 <= j < k < |plan.spec.pools| ==> plan.spec.pools[j].name != plan.spec.pools[k].name)
  }

  /** `upgraded`: runs the new image; `reported`: its pilot resource carries the new version. */
  datatype Pod = Pod(upgraded: bool, ready: bool, reported: bool)

  datatype State = State(cluster: C.Cluster, pods: seq<seq<Pod>>)

  datatype Step =
    | Sync(seen: C.Reads)
    | Replace(pool: nat, ordinal: nat)
    | BecomeReady(pool: nat, ordinal: nat)
    | BecomeUnready(pool: nat, ordinal: nat)
    | Report(pool: nat, ordinal: nat)
    | PostStatus(pool: nat, updated: int, ready: int)

  function UpgradedPods(pods: seq<Pod>): (n: nat)
    ensures n <= |pods|
  {
    if pods == [] then 0 else (if pods[0].upgraded then 1 else 0) + UpgradedPods(pods[1..])
  }

  function ReadyPods(pods: seq<Pod>): nat {
    if pods == [] then 0 else (if pods[0].ready then 1 else 0) + ReadyPods(pods[1..])
  }

  predicate HasPod(s: State, k: nat, i: nat) {
    k < |s.pods| && i < |s.pods[k]|
  }

  /** A pilot of the cache is not ahead of the pilot resource it is a copy of. */
  ghost predicate HonestPilot(plan: Plan, s: State, p: Pilot) {
    PilotUpToDate(plan.spec.version, p) ==>
      forall k: nat, i: nat |
        k < |plan.spec.pools| && HasPod(s, k, i) && p.name == PilotName(SetName(plan.spec, k), i) ::
        s.pods[k][i].reported
  }

  ghost predicate Honest(plan: Plan, s: State, pilots: PilotLister) {
    && (forall p :: p in pilots.labelled ==> HonestPilot(plan, s, p))
    && (forall n :: n in pilots.byName ==> pilots.byName[n].name == n && HonestPilot(plan, s, pilots.byName[n]))
  }

  /** The newest version of an existing set. */
  predicate HasSet(s: State, k: nat) {
    k < |s.cluster.pools| && s.cluster.pools[k] != [] && C.Newest(s.cluster.pools[k]).Some?
  }

  function SetOf(s: State, k: nat): StatefulSet
    requires HasSet(s, k)
  {
    C.Newest(s.cluster.pools[k]).value
  }

  ghost predicate Enabled(plan: Plan, s: State, step: Step) {
    match step
    case Sync(r) => C.ValidReads(plan.spec, s.cluster, r) && Honest(plan, s, r.pilots)
                    && C.Careful(plan.spec, s.cluster, C.SyncStep(r))
    case Replace(k, i) => HasPod(s, k, i) && HasSet(s, k) && !s.pods[k][i].upgraded
                          && SetOf(s, k).image == plan.spec.image != Some(plan.oldImage)
                          && i >= CurrentPartition(SetOf(s, k))
    case BecomeReady(k, i) => HasPod(s, k, i)
    case BecomeUnready(k, i) => HasPod(s, k, i)
    case Report(k, i) => HasPod(s, k, i) && s.pods[k][i].upgraded
    case PostStatus(k, u, _) => HasSet(s, k) && k < |s.pods| && 0 <= u <= |s.pods[k]|
  }

  /** The step posts a count of pods on the new image, no smaller than the last one. */
  predicate Steady(s: State, step: Step) {
    step.PostStatus? && HasSet(s, step.pool) && step.pool < |s.pods| ==>
      SetOf(s, step.pool).updated <= step.updated <= UpgradedPods(s.pods[step.pool])
  }

  function WithPod(s: State, k: nat, i: nat, p: Pod): State
    requires HasPod(s, k, i)
  {
    s.(pods := s.pods[k := s.pods[k][i := p]])
  }

  ghost function Next(plan: Plan, s: State, step: Step): State
    requires Enabled(plan, s, step)
  {
    match step
    case Sync(r) => s.(cluster := C.Sync(plan.spec, s.cluster, r))
    case Replace(k, i) => WithPod(s, k, i, Pod(true, false, false))
    case BecomeReady(k, i) => WithPod(s, k, i, s.pods[k][i].(ready := true))
    case BecomeUnready(k, i) => WithPod(s, k, i, s.pods[k][i].(ready := false))
    case Report(k, i) => WithPod(s, k, i, s.pods[k][i].(reported := true))
    case PostStatus(k, u, n) =>
      s.(cluster := s.cluster.(pools := s.cluster.pools[k := C.PostStatus(s.cluster.pools[k], u, n)]))
  }

  /**
    Every pool exists with all its pods at the old version, and no rollout has begun in any
    version of its set that a cache may still hold.
   */
  predicate Start(plan: Plan, s: State) {
    && |s.cluster.pools| == |s.pods| == |plan.spec.pools|
    && forall k :: 0 <= k < |s.pods| ==> StartPool(plan, k, s.cluster.pools[k], s.pods[k])
  }

  predicate StartPool(plan: Plan, k: nat, h: C.History, pods: seq<Pod>)
    requires k < |plan.spec.pools|
  {
    && h != [] && |pods| == plan.spec.pools[k].replicas
    && (forall v :: 0 <= v < |h| ==>
          && h[v].Some?
          && h[v].value.image == Some(plan.oldImage)
          && h[v].value.annotation == Some(Rendered(plan.oldVersion))
          && h[v].value.replicas == Some(plan.spec.pools[k].replicas))
    && 0 <= C.Newest(h).value.updated <= |pods|
    && forall i :: 0 <= i < |pods| ==> !pods[i].upgraded && !pods[i].reported
  }

  ghost predicate IsRun(plan: Plan, states: seq<State>, steps: seq<Step>) {
    && |states| == |steps| + 1
    && Start(plan, states[0])
    && forall i :: 0 <= i < |steps| ==>
         Enabled(plan, states[i], steps[i]) && states[i + 1] == Next(plan, states[i], steps[i])
  }

  // ----- The invariant -----

  predicate WellFormed(plan: Plan, k: nat, s: Option<StatefulSet>)
    requires k < |plan.spec.pools|
  {
    && s.Some?
    && (s.value.image == Some(plan.oldImage) || s.value.image == plan.spec.image)
    && (s.value.annotation == Some(Rendered(plan.oldVersion))
        || s.value.annotation == Some(Rendered(plan.spec.version)))
    && s.value.replicas == Some(plan.spec.pools[k].replicas)
  }

  predicate Done(plan: Plan, s: StatefulSet) {
    s.annotation == Some(Rendered(plan.spec.version))
  }

  predicate Started(plan: Plan, s: StatefulSet) {
    Done(plan, s) || s.image == plan.spec.image
  }

  /** No pod is replaced before all those above it have reported. */
  predicate InOrder(pods: seq<Pod>) {
    forall i, j :: 0 <= i < j < |pods| && pods[i].upgraded ==> pods[j].upgraded && pods[j].reported
  }

  predicate Rolling(s: StatefulSet, pods: seq<Pod>) {
    && s.partition.Some? && 0 <= s.partition.value < |pods|
    && InOrder(pods)
    && (forall i :: s.partition.value < i < |pods| ==> pods[i].reported)
  }

  predicate Phase(plan: Plan, s: StatefulSet, pods: seq<Pod>) {
    if Done(plan, s) then
      (forall i :: 0 <= i < |pods| ==> pods[i].reported)
      && (if pods == [] then s.image == Some(plan.oldImage)
          else s.image == plan.spec.image && s.partition.Some? && s.partition.value >= 0)
    else if s.image == plan.spec.image then Rolling(s, pods)
    else forall i :: 0 <= i < |pods| ==> !pods[i].upgraded
  }

  /** One version to the next: the new image stays, and it comes with the partition at the last ordinal. */
  predicate ImageMove(plan: Plan, n: int, a: StatefulSet, b: StatefulSet) {
    b.image == a.image || (b.image == plan.spec.image && b.partition == Some(n - 1))
  }

  predicate PoolInv(plan: Plan, k: nat, h: C.History, pods: seq<Pod>)
    requires k < |plan.spec.pools|
  {
    && h != [] && |pods| == plan.spec.pools[k].replicas
    && (forall v :: 0 <= v < |h| ==> WellFormed(plan, k, h[v]))
    && (forall v :: 0 <= v < |h| - 1 ==> ImageMove(plan, |pods|, h[v].value, h[v + 1].value))
    && (forall v :: 0 <= v < |h| && Done(plan, h[v].value) ==> Done(plan, C.Newest(h).value))
    && (forall i :: 0 <= i < |pods| && pods[i].reported ==> pods[i].upgraded)
    && 0 <= C.Newest(h).value.updated <= |pods|
    && Phase(plan, C.Newest(h).value, pods)
  }

  predicate Inv(plan: Plan, s: State) {
    && |s.cluster.pools| == |s.pods| == |plan.spec.pools|
    && (forall k :: 0 <= k < |s.pods| ==> PoolInv(plan, k, s.cluster.pools[k], s.pods[k]))
    && forall j, k :: 0 <= j < k < |s.pods| && Started(plan, C.Newest(s.cluster.pools[k]).value) ==>
         Done(plan, C.Newest(s.cluster.pools[j]).value)
  }

  /**
    Whatever the posted count, moving to the next partition is safe once the pod just above
    it has reported, since no pod reports before those above it.
   */
  lemma NextPartitionSafe(s: StatefulSet, pods: seq<Pod>)
    requires s.partition.Some? && 0 <= s.partition.value < |pods| && InOrder(pods)
    requires s.partition.value + 1 < |pods| ==> pods[s.partition.value + 1].reported
    requires forall i :: 0 <= i < |pods| && pods[i].reported ==> pods[i].upgraded
    ensures Rolling(s, pods)
  {
    assert s.partition.value + 1 < |pods| ==> pods[s.partition.value + 1].upgraded;
  }

  /** What the cache lets the controller conclude about the pods of pool k. */
  lemma HonestReports(plan: Plan, s: State, pilots: PilotLister, k: nat)
    requires Honest(plan, s, pilots) && k < |plan.spec.pools| && k < |s.pods|
    ensures PilotsUpToDate(plan.spec.version, pilots.labelled, SetName(plan.spec, k), |s.pods[k]|) ==>
      forall i :: 0 <= i < |s.pods[k]| ==> s.pods[k][i].reported
    ensures forall i |
              0 <= i < |s.pods[k]| && PilotName(SetName(plan.spec, k), i) in pilots.byName
              && PilotUpToDate(plan.spec.version, pilots.byName[PilotName(SetName(plan.spec, k), i)]) ::
              s.pods[k][i].reported
  {
    if PilotsUpToDate(plan.spec.version, pilots.labelled, SetName(plan.spec, k), |s.pods[k]|) {
      forall i | 0 <= i < |s.pods[k]| ensures s.pods[k][i].reported {
        assert HasPod(s, k, i);
        var p := FirstNamed(pilots.labelled, PilotName(SetName(plan.spec, k), i)).value;
        assert HonestPilot(plan, s, p);
      }
    }
    forall i | 0 <= i < |s.pods[k]| && PilotName(SetName(plan.spec, k), i) in pilots.byName
               && PilotUpToDate(plan.spec.version, pilots.byName[PilotName(SetName(plan.spec, k), i)])
      ensures s.pods[k][i].reported
    {
      assert HasPod(s, k, i);
      assert HonestPilot(plan, s, pilots.byName[PilotName(SetName(plan.spec, k), i)]);
    }
  }

  /** The heart of the upgrade: a write computed from the newest version keeps the phase. */
  lemma WriteKeepsPhase(plan: Plan, s: State, k: nat, health: Option<Health>, pilots: PilotLister)
    requires ValidPlan(plan) && Inv(plan, s) && Honest(plan, s, pilots) && k < |s.pods|
    requires UpdateVersion(plan.spec, k, health, SetOf(s, k), pilots).Write?
    ensures !Done(plan, SetOf(s, k))
    ensures var set' := UpdateVersion(plan.spec, k, health, SetOf(s, k), pilots).set_;
      && WellFormed(plan, k, Some(set')) && ImageMove(plan, |s.pods[k]|, SetOf(s, k), set')
      && Started(plan, set') && Phase(plan, set', s.pods[k])
  {
    var set_, pods := SetOf(s, k), s.pods[k];
    HonestReports(plan, s, pilots, k);
    assert pods != [] ==> (pods[0].reported ==> pods[0].upgraded);
    var set' := UpdateVersion(plan.spec, k, health, set_, pilots).set_;
    if !Done(plan, set') {
      NextPartitionSafe(set', pods);
    }
  }

  lemma AppendVersion(plan: Plan, k: nat, h: C.History, pods: seq<Pod>, s: StatefulSet)
    requires k < |plan.spec.pools| && PoolInv(plan, k, h, pods)
    requires WellFormed(plan, k, Some(s)) && ImageMove(plan, |pods|, C.Newest(h).value, s)
    requires 0 <= s.updated <= |pods|
    requires Done(plan, C.Newest(h).value) ==> Done(plan, s)
    requires Phase(plan, s, pods)
    ensures PoolInv(plan, k, h + [Some(s)], pods)
  {
    var h' := h + [Some(s)];
    assert forall v :: 0 <= v < |h| ==> h'[v] == h[v];
  }

  /** A change of one pool keeps the invariant when it keeps that of the pool and the order of the pools. */
  lemma OnePool(plan: Plan, s: State, s': State, k: nat, h: C.History, pods: seq<Pod>)
    requires Inv(plan, s) && k < |s.pods| && PoolInv(plan, k, h, pods)
    requires s'.cluster.pools == s.cluster.pools[k := h] && s'.pods == s.pods[k := pods]
    requires Done(plan, SetOf(s, k)) ==> Done(plan, C.Newest(h).value)
    requires Started(plan, C.Newest(h).value) ==>
      Started(plan, SetOf(s, k)) || forall j :: 0 <= j < k ==> Done(plan, SetOf(s, j))
    ensures Inv(plan, s')
  {
    forall j, m | 0 <= j < m < |s.pods| && Started(plan, C.Newest(s'.cluster.pools[m]).value)
      ensures Done(plan, C.Newest(s'.cluster.pools[j]).value)
    {
      assert Started(plan, C.Newest(s.cluster.pools[m]).value) || Done(plan, SetOf(s, j));
    }
  }

  lemma IdleChangesNothing(plan: Plan, s: State, r: C.Reads)
    requires ShapedPlan(plan) && Enabled(plan, s, Sync(r))
    requires C.NextAction(plan.spec, C.Listed(s.cluster, r), 0).Idle?
    ensures C.Sync(plan.spec, s.cluster, r).pools == s.cluster.pools
  {
    assert forall j :: 0 <= j < |plan.spec.pools| ==> C.PoolNames(plan.spec)[j] == plan.spec.pools[j].name;
    C.IdleKeepsAll(plan.spec, s.cluster, r);
  }

  /** A sync that changes anything goes to upgrade the first pool that is not done. */
  lemma SyncChooses(plan: Plan, s: State, r: C.Reads) returns (k: nat)
    requires ValidPlan(plan) && Inv(plan, s) && Enabled(plan, s, Sync(r))
    requires C.Sync(plan.spec, s.cluster, r).pools != s.cluster.pools
    ensures k < |s.pods| && C.NextAction(plan.spec, C.Listed(s.cluster, r), 0) == C.Act(k, C.Upgrade)
    ensures forall j :: 0 <= j < k ==> Done(plan, SetOf(s, j))
  {
    var c := s.cluster;
    var listed := C.Listed(c, r);
    var d := C.NextAction(plan.spec, listed, 0);
    assert forall j :: 0 <= j < |c.pools| ==> listed[j] == c.pools[j][r.listed[j]];
    if d.Idle? {
      IdleChangesNothing(plan, s, r);
    }
    assert d.Act?;
    k := d.pool;
    assert WellFormed(plan, k, listed[k]);
    forall j | 0 <= j < k ensures Done(plan, SetOf(s, j)) {
      assert C.Settled(plan.spec, j, listed[j]);
    }
  }

  /** A sync that changes anything upgrades one pool from its newest version, all earlier pools being done. */
  lemma SyncIsUpgrade(plan: Plan, s: State, r: C.Reads) returns (k: nat)
    requires ValidPlan(plan) && Inv(plan, s) && Enabled(plan, s, Sync(r))
    requires C.Sync(plan.spec, s.cluster, r).pools != s.cluster.pools
    ensures k < |s.pods|
    ensures forall j :: 0 <= j < k ==> Done(plan, SetOf(s, j))
    ensures UpdateVersion(plan.spec, k, r.health, SetOf(s, k), r.pilots).Write?
    ensures C.Sync(plan.spec, s.cluster, r).pools
            == s.cluster.pools[k := s.cluster.pools[k]
                                    + [Some(UpdateVersion(plan.spec, k, r.health, SetOf(s, k), r.pilots).set_)]]
  {
    k := SyncChooses(plan, s, r);
    assert WellFormed(plan, k, s.cluster.pools[k][r.fetched[k]]);
  }

  lemma SyncPreserves(plan: Plan, s: State, r: C.Reads)
    requires ValidPlan(plan) && Inv(plan, s) && Enabled(plan, s, Sync(r))
    ensures Inv(plan, Next(plan, s, Sync(r)))
  {
    if C.Sync(plan.spec, s.cluster, r).pools != s.cluster.pools {
      var k := SyncIsUpgrade(plan, s, r);
      WriteKeepsPhase(plan, s, k, r.health, r.pilots);
      var set' := UpdateVersion(plan.spec, k, r.health, SetOf(s, k), r.pilots).set_;
      AppendVersion(plan, k, s.cluster.pools[k], s.pods[k], set');
      OnePool(plan, s, Next(plan, s, Sync(r)), k, s.cluster.pools[k] + [Some(set')], s.pods[k]);
    }
  }

  lemma ReplacePreserves(plan: Plan, s: State, k: nat, i: nat)
    requires ValidPlan(plan) && Inv(plan, s) && Enabled(plan, s, Replace(k, i))
    ensures !Done(plan, SetOf(s, k)) && SetOf(s, k).partition == Some(i)
    ensures Inv(plan, Next(plan, s, Replace(k, i)))
  {
    var set_, pods := SetOf(s, k), s.pods[k];
    var pods' := pods[i := Pod(true, false, false)];
    assert forall j :: 0 <= j < i ==> !pods[j].upgraded;
    OnePool(plan, s, Next(plan, s, Replace(k, i)), k, s.cluster.pools[k], pods');
  }

  lemma PodStepPreserves(plan: Plan, s: State, k: nat, i: nat, p: Pod)
    requires Inv(plan, s) && HasPod(s, k, i)
    requires p.upgraded == s.pods[k][i].upgraded
    requires s.pods[k][i].reported ==> p.reported
    requires p.reported ==> p.upgraded
    ensures Inv(plan, WithPod(s, k, i, p))
  {
    OnePool(plan, s, WithPod(s, k, i, p), k, s.cluster.pools[k], s.pods[k][i := p]);
  }

  lemma PostStatusPreserves(plan: Plan, s: State, k: nat, updated: int, ready: int)
    requires ValidPlan(plan) && Inv(plan, s) && Enabled(plan, s, PostStatus(k, updated, ready))
    ensures Inv(plan, Next(plan, s, PostStatus(k, updated, ready)))
  {
    var set' := SetOf(s, k).(updated := updated, ready := ready);
    AppendVersion(plan, k, s.cluster.pools[k], s.pods[k], set');
    OnePool(plan, s, Next(plan, s, PostStatus(k, updated, ready)), k, s.cluster.pools[k] + [Some(set')], s.pods[k]);
  }

  lemma StepPreserves(plan: Plan, s: State, step: Step)
    requires ValidPlan(plan) && Inv(plan, s) && Enabled(plan, s, step)
    ensures Inv(plan, Next(plan, s, step))
  {
    match step
    case Sync(r) => SyncPreserves(plan, s, r);
    case Replace(k, i) => ReplacePreserves(plan, s, k, i);
    case BecomeReady(k, i) => PodStepPreserves(plan, s, k, i, s.pods[k][i].(ready := true));
    case BecomeUnready(k, i) => PodStepPreserves(plan, s, k, i, s.pods[k][i].(ready := false));
    case Report(k, i) => PodStepPreserves(plan, s, k, i, s.pods[k][i].(reported := true));
    case PostStatus(k, u, n) => PostStatusPreserves(plan, s, k, u, n);
  }

  lemma {:induction false} RunInv(plan: Plan, states: seq<State>, steps: seq<Step>, t: nat)
    requires ValidPlan(plan) && IsRun(plan, states, steps) && t < |states|
    ensures Inv(plan, states[t])
  {
    if t > 0 {
      RunInv(plan, states, steps, t - 1);
      assert Enabled(plan, states[t - 1], steps[t - 1]);
      StepPreserves(plan, states[t - 1], steps[t - 1]);
    } else {
      StartHolds(plan, states[0]);
    }
  }

  lemma StartHolds(plan: Plan, s: State)
    requires ValidPlan(plan) && Start(plan, s)
    ensures Inv(plan, s)
  {
    forall k | 0 <= k < |s.pods|
      ensures PoolInv(plan, k, s.cluster.pools[k], s.pods[k]) && !Started(plan, C.Newest(s.cluster.pools[k]).value)
    {
      assert StartPool(plan, k, s.cluster.pools[k], s.pods[k]);
    }
  }

  // ----- Safety over every run -----

  /** A pod that runs the new image while its pilot has not reported the new version. */
  predicate Pending(s: State, k: nat, i: nat) {
    HasPod(s, k, i) && s.pods[k][i].upgraded && !s.pods[k][i].reported
  }

  lemma PendingIsRolling(plan: Plan, s: State, k: nat, i: nat)
    requires ValidPlan(plan) && Inv(plan, s) && Pending(s, k, i)
    ensures !Done(plan, SetOf(s, k)) && SetOf(s, k).image == plan.spec.image && Rolling(SetOf(s, k), s.pods[k])
  {
  }

  /** At most one pod of the whole cluster is in the middle of its upgrade. */
  lemma AtMostOnePending(plan: Plan, states: seq<State>, steps: seq<Step>, t: nat, k: nat, i: nat, m: nat, j: nat)
    requires ValidPlan(plan) && IsRun(plan, states, steps) && t < |states|
    requires Pending(states[t], k, i) && Pending(states[t], m, j)
    ensures k == m && i == j
  {
    var s := states[t];
    RunInv(plan, states, steps, t);
    PendingIsRolling(plan, s, k, i);
    PendingIsRolling(plan, s, m, j);
  }

  /**
    The pods on the new image are a suffix of the ordinals, and of these all but the lowest
    have reported. While the image is the old one there are none; later, every pod above
    the partition is among those that have reported.
   */
  lemma UpgradedPodsAreSuffix(plan: Plan, states: seq<State>, steps: seq<Step>, t: nat, k: nat, i: nat, j: nat)
    requires ValidPlan(plan) && IsRun(plan, states, steps) && t < |states|
    requires HasPod(states[t], k, i) && HasPod(states[t], k, j) && i < j
    ensures states[t].pods[k][i].upgraded ==> states[t].pods[k][j].upgraded && states[t].pods[k][j].reported
    ensures HasSet(states[t], k)
    ensures SetOf(states[t], k).image != plan.spec.image ==> !states[t].pods[k][i].upgraded
    ensures SetOf(states[t], k).image == plan.spec.image ==>
      SetOf(states[t], k).partition.Some?
      && (j > SetOf(states[t], k).partition.value ==> states[t].pods[k][j].reported)
  {
    RunInv(plan, states, steps, t);
  }

  /** The first version with the new image has the partition at the last ordinal. */
  lemma FirstPartition(plan: Plan, states: seq<State>, steps: seq<Step>, t: nat, k: nat, v: nat)
    requires ValidPlan(plan) && IsRun(plan, states, steps)
    requires t < |states| && k < |plan.spec.pools|
    requires |states[t].cluster.pools| == |plan.spec.pools| && v + 1 < |states[t].cluster.pools[k]|
    requires states[t].cluster.pools[k][v].Some? && states[t].cluster.pools[k][v + 1].Some?
    requires states[t].cluster.pools[k][v].value.image != plan.spec.image
    requires states[t].cluster.pools[k][v + 1].value.image == plan.spec.image
    ensures states[t].cluster.pools[k][v + 1].value.partition == Some(plan.spec.pools[k].replicas - 1)
  {
    RunInv(plan, states, steps, t);
    var h := states[t].cluster.pools[k];
    assert ImageMove(plan, |states[t].pods[k]|, h[v].value, h[v + 1].value);
  }

  /**
    An annotated pool is fully upgraded: every pod runs the new image and has reported it.
    Its template has the new image exactly when it has pods: a pool scaled to zero is
    annotated with the new version and keeps the old image.
   */
  lemma AnnotatedMeansUpgraded(plan: Plan, states: seq<State>, steps: seq<Step>, t: nat, k: nat)
    requires ValidPlan(plan) && IsRun(plan, states, steps) && t < |states| && k < |plan.spec.pools|
    requires HasSet(states[t], k) && Done(plan, SetOf(states[t], k))
    ensures |states[t].pods| == |plan.spec.pools| && |states[t].pods[k]| == plan.spec.pools[k].replicas
    ensures forall i :: 0 <= i < |states[t].pods[k]| ==>
      states[t].pods[k][i].upgraded && states[t].pods[k][i].reported
    ensures SetOf(states[t], k).image == plan.spec.image <==> plan.spec.pools[k].replicas > 0
  {
    RunInv(plan, states, steps, t);
  }

  // ----- The partition, when posted counts are steady -----

  /** One version to the next during a rollout: the partition falls by at most one. */
  predicate PartitionMove(plan: Plan, a: StatefulSet, b: StatefulSet) {
    a.image == plan.spec.image ==>
      && a.partition.Some?
      && (b.partition == a.partition || (a.partition.value > 0 && b.partition == Some(a.partition.value - 1)))
  }

  /** Pods below the partition are untouched, and the posted count lags by at most one. */
  predicate Exact(s: StatefulSet, pods: seq<Pod>)
    requires s.partition.Some?
  {
    |pods| - 1 - s.partition.value <= s.updated
    && forall i :: 0 <= i < s.partition.value && i < |pods| ==> !pods[i].upgraded
  }

  predicate Tight(plan: Plan, s: StatefulSet, pods: seq<Pod>)
    requires Phase(plan, s, pods)
  {
    && s.updated <= UpgradedPods(pods)
    && if Done(plan, s) then pods != [] ==> s.partition == Some(0)
       else s.image == plan.spec.image ==> Exact(s, pods)
  }

  predicate PoolTight(plan: Plan, k: nat, h: C.History, pods: seq<Pod>)
    requires k < |plan.spec.pools| && PoolInv(plan, k, h, pods)
  {
    && (forall v :: 0 <= v < |h| - 1 ==> PartitionMove(plan, h[v].value, h[v + 1].value))
    && Tight(plan, C.Newest(h).value, pods)
  }

  predicate TightInv(plan: Plan, s: State) {
    Inv(plan, s) && forall k :: 0 <= k < |s.pods| ==> PoolTight(plan, k, s.cluster.pools[k], s.pods[k])
  }

  lemma {:induction false} CountSuffix(pods: seq<Pod>, m: nat)
    requires m <= |pods|
    requires forall i :: 0 <= i < m ==> !pods[i].upgraded
    requires forall i :: m <= i < |pods| ==> pods[i].upgraded
    ensures UpgradedPods(pods) == |pods| - m
  {
    if pods != [] {
      CountSuffix(pods[1..], if m == 0 then 0 else m - 1);
    }
  }

  /** During a rollout the posted count pins the next partition down to two candidates. */
  lemma RollingCount(s: StatefulSet, pods: seq<Pod>)
    requires Rolling(s, pods) && Exact(s, pods)
    requires forall i :: 0 <= i < |pods| && pods[i].reported ==> pods[i].upgraded
    ensures UpgradedPods(pods) == |pods| - s.partition.value - (if pods[s.partition.value].upgraded then 0 else 1)
  {
    var p := s.partition.value;
    CountSuffix(pods, if pods[p].upgraded then p else p + 1);
  }

  /** The writes the controller still has to make for one pool. */
  function WritesLeft(plan: Plan, set_: StatefulSet, pods: seq<Pod>): nat {
    if Done(plan, set_) then 0
    else if set_.image == plan.spec.image && set_.partition.Some? && set_.partition.value >= 0
    then set_.partition.value + 1
    else |pods| + 1
  }

  lemma WriteKeepsTight(plan: Plan, s: State, k: nat, health: Option<Health>, pilots: PilotLister)
    requires ValidPlan(plan) && TightInv(plan, s) && Honest(plan, s, pilots) && k < |s.pods|
    requires UpdateVersion(plan.spec, k, health, SetOf(s, k), pilots).Write?
    ensures var set' := UpdateVersion(plan.spec, k, health, SetOf(s, k), pilots).set_;
      PartitionMove(plan, SetOf(s, k), set') && Phase(plan, set', s.pods[k])
      && Tight(plan, set', s.pods[k])
      && WritesLeft(plan, set', s.pods[k]) + 1 == WritesLeft(plan, SetOf(s, k), s.pods[k])
  {
    var set_, pods := SetOf(s, k), s.pods[k];
    WriteKeepsPhase(plan, s, k, health, pilots);
    HonestReports(plan, s, pilots, k);
    assert pods != [] ==> (pods[0].reported ==> pods[0].upgraded);
    var set' := UpdateVersion(plan.spec, k, health, set_, pilots).set_;
    if set_.image == plan.spec.image {
      RollingCount(set_, pods);
      assert Done(plan, set') || set'.partition == Some(set_.partition.value - 1);
    } else {
      assert Done(plan, set') || set'.partition == Some(|pods| - 1);
    }
  }

  lemma AppendTight(plan: Plan, k: nat, h: C.History, pods: seq<Pod>, s: StatefulSet)
    requires k < |plan.spec.pools| && PoolInv(plan, k, h, pods) && PoolTight(plan, k, h, pods)
    requires PoolInv(plan, k, h + [Some(s)], pods)
    requires PartitionMove(plan, C.Newest(h).value, s) && Tight(plan, s, pods)
    ensures PoolTight(plan, k, h + [Some(s)], pods)
  {
    var h' := h + [Some(s)];
    assert forall v :: 0 <= v < |h| ==> h'[v] == h[v];
  }

  lemma SyncKeepsTight(plan: Plan, s: State, r: C.Reads)
    requires ValidPlan(plan) && TightInv(plan, s) && Enabled(plan, s, Sync(r))
    ensures TightInv(plan, Next(plan, s, Sync(r)))
  {
    SyncPreserves(plan, s, r);
    if C.Sync(plan.spec, s.cluster, r).pools != s.cluster.pools {
      var k := SyncIsUpgrade(plan, s, r);
      WriteKeepsTight(plan, s, k, r.health, r.pilots);
      var set' := UpdateVersion(plan.spec, k, r.health, SetOf(s, k), r.pilots).set_;
      AppendTight(plan, k, s.cluster.pools[k], s.pods[k], set');
    }
  }

  lemma StatusKeepsTight(plan: Plan, s: State, k: nat, updated: int, ready: int)
    requires ValidPlan(plan) && TightInv(plan, s) && Enabled(plan, s, PostStatus(k, updated, ready))
    requires SetOf(s, k).updated <= updated <= UpgradedPods(s.pods[k])
    ensures TightInv(plan, Next(plan, s, PostStatus(k, updated, ready)))
  {
    PostStatusPreserves(plan, s, k, updated, ready);
    AppendTight(plan, k, s.cluster.pools[k], s.pods[k], SetOf(s, k).(updated := updated, ready := ready));
  }

  lemma {:induction false} CountUpdate(pods: seq<Pod>, i: nat, p: Pod)
    requires i < |pods| && (pods[i].upgraded ==> p.upgraded)
    ensures UpgradedPods(pods[i := p]) == UpgradedPods(pods) + (if p.upgraded && !pods[i].upgraded then 1 else 0)
  {
    if i == 0 {
      assert pods[i := p][1..] == pods[1..];
    } else {
      assert pods[i := p][1..] == pods[1..][i - 1 := p];
      CountUpdate(pods[1..], i - 1, p);
    }
  }

  lemma PodKeepsTight(plan: Plan, s: State, k: nat, i: nat, p: Pod)
    requires TightInv(plan, s) && HasPod(s, k, i) && Inv(plan, WithPod(s, k, i, p))
    requires s.pods[k][i].upgraded ==> p.upgraded
    requires p.upgraded ==> s.pods[k][i].upgraded || SetOf(s, k).partition == Some(i)
    ensures TightInv(plan, WithPod(s, k, i, p))
  {
    var pods' := s.pods[k][i := p];
    CountUpdate(s.pods[k], i, p);
    assert PoolInv(plan, k, s.cluster.pools[k], pods') && PoolTight(plan, k, s.cluster.pools[k], s.pods[k]);
    assert PoolTight(plan, k, s.cluster.pools[k], pods');
  }

  lemma StepKeepsTight(plan: Plan, s: State, step: Step)
    requires ValidPlan(plan) && TightInv(plan, s) && Enabled(plan, s, step) && Steady(s, step)
    ensures TightInv(plan, Next(plan, s, step))
  {
    StepPreserves(plan, s, step);
    match step
    case Sync(r) => SyncKeepsTight(plan, s, r);
    case PostStatus(k, u, n) => StatusKeepsTight(plan, s, k, u, n);
    case Replace(k, i) =>
      ReplacePreserves(plan, s, k, i);
      PodKeepsTight(plan, s, k, i, Pod(true, false, false));
    case BecomeReady(k, i) => PodKeepsTight(plan, s, k, i, s.pods[k][i].(ready := true));
    case BecomeUnready(k, i) => PodKeepsTight(plan, s, k, i, s.pods[k][i].(ready := false));
    case Report(k, i) => PodKeepsTight(plan, s, k, i, s.pods[k][i].(reported := true));
  }

  /** Before a rollout the count of updated replicas is zero. */
  predicate CountsZero(s: State) {
    forall k :: 0 <= k < |s.cluster.pools| && HasSet(s, k) ==> SetOf(s, k).updated == 0
  }

  predicate SteadyRun(states: seq<State>, steps: seq<Step>) {
    && |states| == |steps| + 1 && CountsZero(states[0])
    && forall i :: 0 <= i < |steps| ==> Steady(states[i], steps[i])
  }

  lemma {:induction false} RunTight(plan: Plan, states: seq<State>, steps: seq<Step>, t: nat)
    requires ValidPlan(plan) && IsRun(plan, states, steps) && SteadyRun(states, steps) && t < |states|
    ensures TightInv(plan, states[t])
  {
    if t > 0 {
      RunTight(plan, states, steps, t - 1);
      assert Enabled(plan, states[t - 1], steps[t - 1]) && Steady(states[t - 1], steps[t - 1]);
      StepKeepsTight(plan, states[t - 1], steps[t - 1]);
    } else {
      RunInv(plan, states, steps, 0);
      var s := states[0];
      forall k | 0 <= k < |s.pods| ensures PoolTight(plan, k, s.cluster.pools[k], s.pods[k]) {
        assert StartPool(plan, k, s.cluster.pools[k], s.pods[k]) && HasSet(s, k);
      }
    }
  }

  /**
    During a rollout to partition p of n replicas the upgraded pods are exactly [p, n) or exactly
    (p, n), and those above p have reported.
   */
  lemma RolloutShape(plan: Plan, states: seq<State>, steps: seq<Step>, t: nat, k: nat)
    requires ValidPlan(plan) && IsRun(plan, states, steps) && SteadyRun(states, steps) && t < |states|
    requires HasSet(states[t], k) && SetOf(states[t], k).image == plan.spec.image
    ensures k < |states[t].pods| && SetOf(states[t], k).partition.Some?
    ensures var p, pods := SetOf(states[t], k).partition.value, states[t].pods[k];
      && 0 <= p < |pods|
      && (forall i :: p < i < |pods| ==> pods[i].reported)
      && ((forall i :: 0 <= i < |pods| ==> (pods[i].upgraded <==> p <= i))
          || (forall i :: 0 <= i < |pods| ==> (pods[i].upgraded <==> p < i)))
  {
    RunTight(plan, states, steps, t);
    var p, pods := SetOf(states[t], k).partition.value, states[t].pods[k];
    assert PoolInv(plan, k, states[t].cluster.pools[k], pods) && PoolTight(plan, k, states[t].cluster.pools[k], pods);
    if pods[p].upgraded {
      assert forall i :: 0 <= i < |pods| ==> (pods[i].upgraded <==> p <= i);
    }
  }

  /**
    Each update of a pool that is rolling moves its partition down by exactly one, until it is
    zero; the next update sets the annotation and leaves the partition alone.
   */
  lemma EachUpdateMovesByOne(plan: Plan, states: seq<State>, steps: seq<Step>, t: nat, k: nat)
    requires ValidPlan(plan) && IsRun(plan, states, steps) && SteadyRun(states, steps) && t < |steps|
    requires steps[t].Sync? && HasSet(states[t], k) && HasSet(states[t + 1], k)
    requires states[t + 1].cluster.pools[k] != states[t].cluster.pools[k]
    requires SetOf(states[t], k).image == plan.spec.image
    ensures var a, b := SetOf(states[t], k), SetOf(states[t + 1], k);
      && a.partition.Some? && b.partition.Some? && b.image == a.image && !Done(plan, a)
      && (if a.partition.value == 0 then b.partition.value == 0 && Done(plan, b)
          else b.partition.value == a.partition.value - 1 && !Done(plan, b))
  {
    RunTight(plan, states, steps, t);
    assert Enabled(plan, states[t], steps[t]);
    var r := steps[t].seen;
    var m := SyncIsUpgrade(plan, states[t], r);
    WriteKeepsTight(plan, states[t], m, r.health, r.pilots);
  }

  lemma {:induction false} PartitionFalls(plan: Plan, k: nat, h: C.History, pods: seq<Pod>, v: nat, w: nat)
    requires k < |plan.spec.pools| && PoolInv(plan, k, h, pods) && PoolTight(plan, k, h, pods) && v <= w < |h|
    requires h[v].value.image == plan.spec.image && v < w
    ensures h[w].value.image == plan.spec.image && h[v].value.partition.Some? && h[w].value.partition.Some?
    ensures 0 <= h[v].value.partition.value - h[w].value.partition.value <= w - v
    decreases w
  {
    if v + 1 < w {
      PartitionFalls(plan, k, h, pods, v, w - 1);
    }
    assert PartitionMove(plan, h[w - 1].value, h[w].value);
  }

  /**
    Once the image is written the partition only falls, by at most one per version of the
    set, and never below zero; nothing ever takes the old image back.
   */
  lemma PartitionOnlyFalls(plan: Plan, states: seq<State>, steps: seq<Step>, t: nat, k: nat, v: nat, w: nat)
    requires ValidPlan(plan) && IsRun(plan, states, steps) && SteadyRun(states, steps)
    requires t < |states| && k < |plan.spec.pools|
    requires |states[t].cluster.pools| == |plan.spec.pools| && v < w < |states[t].cluster.pools[k]|
    requires states[t].cluster.pools[k][v].Some? && states[t].cluster.pools[k][v].value.image == plan.spec.image
    ensures var a, b := states[t].cluster.pools[k][v], states[t].cluster.pools[k][w];
      && b.Some? && b.value.image == plan.spec.image
      && a.value.partition.Some? && b.value.partition.Some?
      && 0 <= b.value.partition.value <= a.value.partition.value <= b.value.partition.value + (w - v)
  {
    RunTight(plan, states, steps, t);
    var h, pods := states[t].cluster.pools[k], states[t].pods[k];
    PartitionFalls(plan, k, h, pods, v, w);
    if w < |h| - 1 {
      PartitionFalls(plan, k, h, pods, w, |h| - 1);
    }
  }

  // ----- How many writes an upgrade takes -----

  function AllWritesLeft(plan: Plan, s: State): seq<nat>
    requires Inv(plan, s)
  {
    seq(|s.pods|, k requires 0 <= k < |s.pods| => WritesLeft(plan, SetOf(s, k), s.pods[k]))
  }

  /** A sync that writes. */
  ghost predicate Writes(plan: Plan, s: State, step: Step)
    requires Enabled(plan, s, step)
  {
    step.Sync? && Next(plan, s, step).cluster.pools != s.cluster.pools
  }

  /** A write takes exactly one off what is left, and no other step changes it. */
  lemma StepTakes(plan: Plan, s: State, step: Step)
    requires ValidPlan(plan) && TightInv(plan, s) && Enabled(plan, s, step) && Steady(s, step)
    ensures TightInv(plan, Next(plan, s, step))
    ensures Sum(AllWritesLeft(plan, Next(plan, s, step))) + (if Writes(plan, s, step) then 1 else 0)
            == Sum(AllWritesLeft(plan, s))
  {
    StepKeepsTight(plan, s, step);
    var s' := Next(plan, s, step);
    if Writes(plan, s, step) {
      WriteTakesOne(plan, s, step.seen);
    } else {
      OtherStepsTakeNone(plan, s, step);
    }
  }

  lemma OnePoolTakes(plan: Plan, s: State, s': State, k: nat)
    requires Inv(plan, s) && Inv(plan, s') && k < |s.pods|
    requires forall j :: 0 <= j < |s.pods| && j != k ==> SetOf(s', j) == SetOf(s, j) && s'.pods[j] == s.pods[j]
    requires WritesLeft(plan, SetOf(s', k), s'.pods[k]) + 1 == WritesLeft(plan, SetOf(s, k), s.pods[k])
    ensures Sum(AllWritesLeft(plan, s')) + 1 == Sum(AllWritesLeft(plan, s))
  {
    var v := WritesLeft(plan, SetOf(s', k), s'.pods[k]);
    assert AllWritesLeft(plan, s') == AllWritesLeft(plan, s)[k := v];
    SumUpdate(AllWritesLeft(plan, s), k, v);
  }

  lemma WriteTakesOne(plan: Plan, s: State, r: C.Reads)
    requires ValidPlan(plan) && TightInv(plan, s) && Enabled(plan, s, Sync(r)) && Writes(plan, s, Sync(r))
    requires Inv(plan, Next(plan, s, Sync(r)))
    ensures Sum(AllWritesLeft(plan, Next(plan, s, Sync(r)))) + 1 == Sum(AllWritesLeft(plan, s))
  {
    var s' := Next(plan, s, Sync(r));
    var k := SyncIsUpgrade(plan, s, r);
    WriteKeepsTight(plan, s, k, r.health, r.pilots);
    OnePoolTakes(plan, s, s', k);
  }

  lemma OtherStepsTakeNone(plan: Plan, s: State, step: Step)
    requires Inv(plan, s) && Enabled(plan, s, step) && !Writes(plan, s, step) && Inv(plan, Next(plan, s, step))
    ensures AllWritesLeft(plan, Next(plan, s, step)) == AllWritesLeft(plan, s)
  {
    var s' := Next(plan, s, step);
    forall k | 0 <= k < |s.pods|
      ensures WritesLeft(plan, SetOf(s', k), s'.pods[k]) == WritesLeft(plan, SetOf(s, k), s.pods[k])
    {
    }
  }

  /** How many of the first n steps of a run are syncs that write. */
  ghost function WriteCount(plan: Plan, states: seq<State>, steps: seq<Step>, n: nat): nat
    requires IsRun(plan, states, steps) && n <= |steps|
  {
    if n == 0 then 0
    else WriteCount(plan, states, steps, n - 1) + if Writes(plan, states[n - 1], steps[n - 1]) then 1 else 0
  }

  /** A pool of n replicas takes n writes of the partition and one of the annotation. */
  function WritesNeeded(plan: Plan): seq<nat>
    requires ShapedPlan(plan)
  {
    seq(|plan.spec.pools|, k requires 0 <= k < |plan.spec.pools| => plan.spec.pools[k].replicas + 1)
  }

  /**
    In every steady run, with pods failing, statuses lagging and reads stale, the writes made and
    the writes left add up to n + 1 for each pool of n replicas.
   */
  lemma {:induction false} WritesAddUp(plan: Plan, states: seq<State>, steps: seq<Step>, n: nat)
    requires ValidPlan(plan) && IsRun(plan, states, steps) && SteadyRun(states, steps) && n <= |steps|
    ensures TightInv(plan, states[n])
    ensures WriteCount(plan, states, steps, n) + Sum(AllWritesLeft(plan, states[n])) == Sum(WritesNeeded(plan))
  {
    if n > 0 {
      WritesAddUp(plan, states, steps, n - 1);
      assert Enabled(plan, states[n - 1], steps[n - 1]) && Steady(states[n - 1], steps[n - 1]);
      StepTakes(plan, states[n - 1], steps[n - 1]);
    } else {
      RunTight(plan, states, steps, 0);
      var s := states[0];
      forall k | 0 <= k < |s.pods| ensures AllWritesLeft(plan, s)[k] == WritesNeeded(plan)[k] {
        assert StartPool(plan, k, s.cluster.pools[k], s.pods[k]);
      }
      assert AllWritesLeft(plan, s) == WritesNeeded(plan);
    }
  }
}
