/**
  One sync of the Elasticsearch controller, over caches that may be stale.

  The API server keeps, per node pool of the spec, the history of its StatefulSet: entry i
  is the object at resource version i, None meaning that it does not exist yet. A lister
  read returns any entry, so nothing is assumed about how far a cache lags, nor that two
  reads of one sync agree. An update carries the resource version it was computed from, and
  the API server rejects it when that is not the newest one. A deletion goes by name alone, so
  a pool's own set can be deleted by the reconciliation of an idle sync; the histories of pools
  then end in None.
 */
module ElasticsearchControl {
  import opened Common
  import opened ElasticsearchActions
  import opened PodNames
  import R = ReconcileNodePools

  type History = seq<Option<StatefulSet>>

  /** `others` are the names of the sets of the namespace that are no pool's own. */
  datatype Cluster = Cluster(pools: seq<History>, others: set<string>)

  datatype PoolAction = Create | Upgrade | Rescale

  datatype Decision = Idle | Stuck | Act(pool: nat, action: PoolAction)

  function Newest(h: History): Option<StatefulSet>
    requires h != []
  {
    h[|h| - 1]
  }

  /** nextActionForNodePool, as at most one decision for pool k. */
  function NextActionForPool(spec: ClusterSpec, k: nat, listed: Option<StatefulSet>): Decision
    requires k < |spec.pools|
  {
    if listed.None? then Act(k, Create)
    else if listed.value.annotation.None? then Stuck
    else if listed.value.annotation.value != Rendered(spec.version) then Act(k, Upgrade)
    else if listed.value.replicas.None? then Stuck
    else if listed.value.replicas.value != spec.pools[k].replicas then Act(k, Rescale)
    else Idle
  }

  /** nextAction from pool k on: the first pool that is not idle decides. */
  function NextAction(spec: ClusterSpec, listed: seq<Option<StatefulSet>>, k: nat): (d: Decision)
    requires |listed| == |spec.pools| && k <= |listed|
    ensures d.Act? ==> k <= d.pool < |listed| && d == NextActionForPool(spec, d.pool, listed[d.pool])
    ensures d.Act? ==> forall j :: k <= j < d.pool ==> Settled(spec, j, listed[j])
    ensures d.Idle? <==> forall j :: k <= j < |listed| ==> Settled(spec, j, listed[j])
    decreases |listed| - k
  {
    if k == |listed| then Idle
    else
      var d := NextActionForPool(spec, k, listed[k]);
      if d.Idle? then NextAction(spec, listed, k + 1) else d
  }

  /** Behind settled pools, the first unsettled one decides. */
  lemma {:induction false} FirstUnsettled(spec: ClusterSpec, listed: seq<Option<StatefulSet>>, from: nat, k: nat)
    requires |listed| == |spec.pools| && from <= k < |listed|
    requires forall j :: from <= j < k ==> Settled(spec, j, listed[j])
    requires !Settled(spec, k, listed[k])
    ensures NextAction(spec, listed, from) == NextActionForPool(spec, k, listed[k])
    decreases k - from
  {
    if from < k {
      FirstUnsettled(spec, listed, from + 1, k);
    }
  }

  /** The pool needs nothing: the set exists, at the version and the replicas of the spec. */
  predicate Settled(spec: ClusterSpec, k: nat, s: Option<StatefulSet>)
    requires k < |spec.pools|
  {
    Upgraded(spec, s) && s.value.replicas == Some(spec.pools[k].replicas)
  }

  predicate Upgraded(spec: ClusterSpec, s: Option<StatefulSet>) {
    s.Some? && s.value.annotation == Some(Rendered(spec.version))
  }

  /**
    What one sync reads: a resource version per pool, twice, the pilots and the reported health;
    and, if it is idle, all sets of the cluster as listed, with any labels and controllers, and
    the names whose deletion the API server refuses.
   */
  datatype Reads = Reads(listed: seq<nat>, fetched: seq<nat>, pilots: PilotLister, health: Option<Health>,
                         sets: seq<R.ListedSet>, refused: set<string>)

  predicate ValidReads(spec: ClusterSpec, c: Cluster, r: Reads) {
    && R.DistinctSets(r.sets)
    && |r.listed| == |r.fetched| == |c.pools| == |spec.pools|
    && forall k :: 0 <= k < |c.pools| ==> r.listed[k] < |c.pools[k]| && r.fetched[k] < |c.pools[k]|
  }

  function Listed(c: Cluster, r: Reads): (l: seq<Option<StatefulSet>>)
    requires |r.listed| == |c.pools|
    requires forall k :: 0 <= k < |c.pools| ==> r.listed[k] < |c.pools[k]|
  {
    seq(|c.pools|, k requires 0 <= k < |c.pools| => c.pools[k][r.listed[k]])
  }

  /** The set that createNodePool asks for. */
  function NewSet(spec: ClusterSpec, k: nat): StatefulSet
    requires k < |spec.pools|
  {
    StatefulSet(spec.image, None, Some(Rendered(spec.version)), Some(spec.pools[k].replicas), 0, 0)
  }

  /** What executing an action on the fetched copy asks of the API server. */
  function Execute(spec: ClusterSpec, k: nat, action: PoolAction, fetched: Option<StatefulSet>, r: Reads): Outcome
    requires k < |spec.pools|
  {
    match action
    case Create => if spec.image.None? then Failed(UnknownImage) else Write(NewSet(spec, k))
    case Upgrade => if fetched.None? then Failed(NotFound)
                    else UpdateVersion(spec, k, r.health, fetched.value, r.pilots)
    case Rescale => if fetched.None? then Unchanged else Scale(spec, k, fetched.value, r.pilots)
  }

  /** A create succeeds when there is no such set, an update when it was computed from the newest version. */
  predicate Accepted(h: History, action: PoolAction, version: nat)
    requires h != []
  {
    if action.Create? then Newest(h).None? else version == |h| - 1
  }

  // ----- Reconciliation -----

  predicate Shaped(spec: ClusterSpec, c: Cluster) {
    |c.pools| == |spec.pools| && forall k :: 0 <= k < |c.pools| ==> c.pools[k] != []
  }

  function PoolNames(spec: ClusterSpec): seq<string> {
    seq(|spec.pools|, k requires 0 <= k < |spec.pools| => spec.pools[k].name)
  }

  predicate Exists(spec: ClusterSpec, c: Cluster, name: string)
    requires Shaped(spec, c)
  {
    name in c.others || exists k :: 0 <= k < |c.pools| && SetName(spec, k) == name && Newest(c.pools[k]).Some?
  }

  /** The listed names whose deletion fails: refused, or not there any more. */
  function Failing(spec: ClusterSpec, c: Cluster, r: Reads): set<string>
    requires Shaped(spec, c)
  {
    set s | s in r.sets && (s.name in r.refused || !Exists(spec, c, s.name)) :: s.name
  }

  function Deleted(spec: ClusterSpec, c: Cluster, r: Reads): seq<R.ListedSet>
    requires Shaped(spec, c)
  {
    R.UpToRefusal(R.ToDelete(r.sets, PoolNames(spec), spec.uid), Failing(spec, c, r))
  }

  function SetNames(sets: seq<R.ListedSet>): set<string> {
    set s | s in sets :: s.name
  }

  function WithoutPool(h: History, gone: bool): History
    requires h != []
  {
    if gone && Newest(h).Some? then h + [None] else h
  }

  /** The cluster once the sets with the given names are deleted. */
  function Without(spec: ClusterSpec, c: Cluster, names: set<string>): (c': Cluster)
    requires Shaped(spec, c)
    ensures Shaped(spec, c')
  {
    Cluster(seq(|c.pools|, k requires 0 <= k < |c.pools| => WithoutPool(c.pools[k], SetName(spec, k) in names)),
            c.others - names)
  }

  lemma WithoutTwice(spec: ClusterSpec, c: Cluster, a: set<string>, b: set<string>)
    requires Shaped(spec, c)
    ensures Without(spec, Without(spec, c, a), b) == Without(spec, c, a + b)
  {
    var twice, once := Without(spec, Without(spec, c, a), b), Without(spec, c, a + b);
    assert twice.pools == once.pools;
    assert twice.others == once.others;
  }

  /** One whole sync. */
  function Sync(spec: ClusterSpec, c: Cluster, r: Reads): (c': Cluster)
    requires ValidReads(spec, c, r)
  {
    var d := NextAction(spec, Listed(c, r), 0);
    if d.Stuck? then c
    else if d.Idle? then Without(spec, c, SetNames(Deleted(spec, c, r)))
    else
      var h := c.pools[d.pool];
      var outcome := Execute(spec, d.pool, d.action, h[r.fetched[d.pool]], r);
      if outcome.Write? && Accepted(h, d.action, r.fetched[d.pool])
      then c.(pools := c.pools[d.pool := h + [Some(outcome.set_)]])
      else c
  }

  /** Whether the sync returns without an error, so that it is not retried at once; see `FailedSyncKeepsPools`. */
  predicate SyncOk(spec: ClusterSpec, c: Cluster, r: Reads)
    requires ValidReads(spec, c, r)
  {
    var d := NextAction(spec, Listed(c, r), 0);
    if d.Stuck? then false
    else if d.Idle? then Deleted(spec, c, r) == R.ToDelete(r.sets, PoolNames(spec), spec.uid)
    else
      var h := c.pools[d.pool];
      var outcome := Execute(spec, d.pool, d.action, h[r.fetched[d.pool]], r);
      outcome.Unchanged? || (outcome.Write? && Accepted(h, d.action, r.fetched[d.pool]))
  }

  /** An upgrade that writes and was computed from the newest version is accepted. */
  lemma UpgradeAccepted(spec: ClusterSpec, c: Cluster, r: Reads, k: nat, s: StatefulSet)
    requires ValidReads(spec, c, r) && k < |c.pools|
    requires NextAction(spec, Listed(c, r), 0) == Act(k, Upgrade)
    requires r.fetched[k] == |c.pools[k]| - 1 && Newest(c.pools[k]) == Some(s)
    requires UpdateVersion(spec, k, r.health, s, r.pilots).Write?
    ensures Sync(spec, c, r).pools[k] == c.pools[k] + [Some(UpdateVersion(spec, k, r.health, s, r.pilots).set_)]
  {
  }

  /** Such an upgrade changes the pools exactly when it writes. */
  lemma UpgradeWritesIff(spec: ClusterSpec, c: Cluster, r: Reads, k: nat, s: StatefulSet)
    requires ValidReads(spec, c, r) && k < |c.pools|
    requires NextAction(spec, Listed(c, r), 0) == Act(k, Upgrade)
    requires r.fetched[k] == |c.pools[k]| - 1 && Newest(c.pools[k]) == Some(s)
    ensures Sync(spec, c, r).pools != c.pools <==> UpdateVersion(spec, k, r.health, s, r.pilots).Write?
  {
    if UpdateVersion(spec, k, r.health, s, r.pilots).Write? {
      UpgradeAccepted(spec, c, r, k, s);
      assert |Sync(spec, c, r).pools[k]| != |c.pools[k]|;
    }
  }

  /** The API server as the object the sync updates. */
  class ApiServer {
    var cluster: Cluster

    constructor (c: Cluster)
      ensures cluster == c
    {
      cluster := c;
    }

    method CreateSet(k: nat, s: StatefulSet) returns (ok: bool)
      requires k < |cluster.pools| && cluster.pools[k] != []
      modifies this
      ensures ok == Newest(old(cluster.pools[k])).None?
      ensures cluster.others == old(cluster.others)
      ensures cluster.pools == if ok then old(cluster.pools)[k := old(cluster.pools[k]) + [Some(s)]]
                               else old(cluster.pools)
    {
      ok := Newest(cluster.pools[k]).None?;
      if ok {
        cluster := cluster.(pools := cluster.pools[k := cluster.pools[k] + [Some(s)]]);
      }
    }

    method UpdateSet(k: nat, version: nat, s: StatefulSet) returns (ok: bool)
      requires k < |cluster.pools| && cluster.pools[k] != []
      modifies this
      ensures ok == (version == old(|cluster.pools[k]|) - 1)
      ensures cluster.others == old(cluster.others)
      ensures cluster.pools == if ok then old(cluster.pools)[k := old(cluster.pools[k]) + [Some(s)]]
                               else old(cluster.pools)
    {
      ok := version == |cluster.pools[k]| - 1;
      if ok {
        cluster := cluster.(pools := cluster.pools[k := cluster.pools[k] + [Some(s)]]);
      }
    }

    method DeleteSet(spec: ClusterSpec, name: string)
      requires Shaped(spec, cluster)
      modifies this
      ensures cluster == Without(spec, old(cluster), {name})
    {
      var pools := cluster.pools;
      for k := 0 to |pools|
        invariant |pools| == |cluster.pools| && cluster == old(cluster)
        invariant forall j :: 0 <= j < k ==> pools[j] == WithoutPool(cluster.pools[j], SetName(spec, j) == name)
        invariant forall j :: k <= j < |pools| ==> pools[j] == cluster.pools[j]
      {
        if SetName(spec, k) == name && Newest(pools[k]).Some? {
          pools := pools[k := pools[k] + [None]];
        }
      }
      cluster := Cluster(pools, cluster.others - {name});
    }

    /** The deletions of a reconciliation reach the server one by one. */
    method DeleteAll(spec: ClusterSpec, sets: seq<R.ListedSet>)
      requires Shaped(spec, cluster)
      modifies this
      ensures cluster == Without(spec, old(cluster), SetNames(sets))
    {
      ghost var before := cluster;
      assert Without(spec, before, {}).pools == before.pools;
      for i := 0 to |sets|
        invariant Shaped(spec, before) && Shaped(spec, cluster)
        invariant cluster == Without(spec, before, SetNames(sets[..i]))
      {
        WithoutTwice(spec, before, SetNames(sets[..i]), {sets[i].name});
        assert SetNames(sets[..i + 1]) == SetNames(sets[..i]) + {sets[i].name};
        DeleteSet(spec, sets[i].name);
      }
      assert sets[..|sets|] == sets;
    }

    /** reconcileNodePools against this server. */
    method RunReconcile(spec: ClusterSpec, r: Reads) returns (ok: bool)
      requires Shaped(spec, cluster)
      modifies this
      ensures cluster == Without(spec, old(cluster), SetNames(Deleted(spec, old(cluster), r)))
      ensures ok <==> Deleted(spec, old(cluster), r) == R.ToDelete(r.sets, PoolNames(spec), spec.uid)
    {
      var sets := new R.ListedSet[|r.sets|](i requires 0 <= i < |r.sets| => r.sets[i]);
      assert sets[..] == r.sets;
      var deleted;
      deleted, ok := R.Reconcile(sets, PoolNames(spec), spec.uid, Failing(spec, cluster, r));
      DeleteAll(spec, deleted);
    }

    /** Sync: decide on the listed sets, then execute the action on a freshly fetched one. */
    method RunSync(spec: ClusterSpec, r: Reads) returns (ok: bool)
      requires ValidReads(spec, cluster, r) && ListerOf(spec, r.pilots)
      modifies this
      ensures cluster == Sync(spec, old(cluster), r) && ok == SyncOk(spec, old(cluster), r)
    {
      var listed := Listed(cluster, r);
      var k := 0;
      while k < |listed| && NextActionForPool(spec, k, listed[k]).Idle?
        invariant 0 <= k <= |listed|
        invariant NextAction(spec, listed, 0) == NextAction(spec, listed, k)
        invariant cluster == old(cluster)
      {
        k := k + 1;
      }
      if k == |listed| {
        ok := RunReconcile(spec, r);
        return;
      }
      var d := NextActionForPool(spec, k, listed[k]);
      if d.Stuck? {
        return false;
      }
      var version := r.fetched[k];
      var fetched := cluster.pools[k][version];
      if d.action == Create {
        if spec.image.None? {
          return false;
        }
        ok := CreateSet(k, NewSet(spec, k));
      } else if fetched.None? {
        return d.action == Rescale;
      } else {
        var outcome;
        if d.action == Upgrade {
          outcome := ExecuteUpdateVersion(spec, k, r.health, fetched.value, r.pilots);
        } else {
          outcome := ExecuteScale(spec, k, fetched.value, r.pilots);
        }
        if outcome.Write? {
          ok := UpdateSet(k, version, outcome.set_);
        } else {
          return outcome.Unchanged?;
        }
      }
    }
  }

  // ----- What a sync writes -----

  /** The sync reads the newest version of every set, both times. */
  predicate Fresh(spec: ClusterSpec, c: Cluster, r: Reads) {
    ValidReads(spec, c, r)
    && forall k :: 0 <= k < |c.pools| ==> r.listed[k] == r.fetched[k] == |c.pools[k]| - 1
  }

  predicate EarlierSettled(spec: ClusterSpec, c: Cluster, k: nat)
    requires Shaped(spec, c) && k <= |c.pools|
  {
    forall j :: 0 <= j < k ==> Settled(spec, j, Newest(c.pools[j]))
  }

  /** With fresh reads, and all earlier pools settled, the first unsettled pool is the one acted on. */
  lemma FreshChooses(spec: ClusterSpec, c: Cluster, r: Reads, k: nat)
    requires Fresh(spec, c, r) && k < |c.pools| && EarlierSettled(spec, c, k) && !Settled(spec, k, Newest(c.pools[k]))
    ensures NextAction(spec, Listed(c, r), 0) == NextActionForPool(spec, k, Newest(c.pools[k]))
  {
    assert forall j :: 0 <= j < |c.pools| ==> Listed(c, r)[j] == Newest(c.pools[j]);
    FirstUnsettled(spec, Listed(c, r), 0, k);
  }

  /**
    One fresh sync creates the first pool that is missing, settled from the start and with the image
    of the spec, and touches no other; without a known image it changes nothing.
   */
  lemma CreateSettles(spec: ClusterSpec, c: Cluster, r: Reads, k: nat)
    requires Fresh(spec, c, r) && k < |c.pools| && EarlierSettled(spec, c, k) && Newest(c.pools[k]).None?
    ensures var c' := Sync(spec, c, r);
      && c'.others == c.others && |c'.pools| == |c.pools|
      && (spec.image.None? ==> c' == c)
      && (spec.image.Some? ==>
            && c'.pools == c.pools[k := c'.pools[k]] && |c'.pools[k]| == |c.pools[k]| + 1
            && c'.pools[k][..|c.pools[k]|] == c.pools[k] && Settled(spec, k, Newest(c'.pools[k]))
            && Newest(c'.pools[k]).value.image == spec.image && Newest(c'.pools[k]).value.partition == None)
  {
    FreshChooses(spec, c, r, k);
  }

  /**
    One fresh sync settles an upgraded pool of n replicas that wants m if and only if it grows, or
    holds no data, or every ordinal below n has a labelled pilot and the first one of each ordinal
    in [m, n) is known to be empty. Replicas are all it changes, and otherwise it changes nothing.
   */
  lemma ScaleSettlesIff(spec: ClusterSpec, c: Cluster, r: Reads, k: nat, n: int)
    requires Fresh(spec, c, r) && k < |c.pools| && EarlierSettled(spec, c, k)
    requires Upgraded(spec, Newest(c.pools[k])) && Newest(c.pools[k]).value.replicas == Some(n)
    requires n != spec.pools[k].replicas
    ensures var m, c' := spec.pools[k].replicas, Sync(spec, c, r);
      && |c'.pools| == |c.pools| && c'.pools[k] != []
      && (Settled(spec, k, Newest(c'.pools[k])) <==>
          || m > n || Data !in spec.pools[k].roles
          || forall i :: 0 <= i < n ==>
               var p := FirstNamed(r.pilots.labelled, PilotName(SetName(spec, k), i));
               && p.Some?
               && (i >= m ==>
                     && p.value.elasticsearch.Some? && p.value.elasticsearch.value.documents.Some?
                     && p.value.elasticsearch.value.documents.value <= 0))
      && (Settled(spec, k, Newest(c'.pools[k])) ==>
            c' == c.(pools := c.pools[k := c.pools[k] + [Some(Newest(c.pools[k]).value.(replicas := Some(m)))]]))
      && (!Settled(spec, k, Newest(c'.pools[k])) ==> c' == c)
  {
    FreshChooses(spec, c, r, k);
    assert c.pools[k][r.fetched[k]] == Newest(c.pools[k]);
  }

  /** A sync that fails changes no pool, unless it is a reconciliation that was refused half-way. */
  lemma FailedSyncKeepsPools(spec: ClusterSpec, c: Cluster, r: Reads)
    requires ValidReads(spec, c, r) && !SyncOk(spec, c, r)
    ensures NextAction(spec, Listed(c, r), 0).Idle? || Sync(spec, c, r) == c
    ensures NextAction(spec, Listed(c, r), 0).Idle? ==>
      exists s :: s in R.ToDelete(r.sets, PoolNames(spec), spec.uid)
                  && (s.name in r.refused || !Exists(spec, c, s.name))
  {
    if NextAction(spec, Listed(c, r), 0).Idle? {
      var todo, done := R.ToDelete(r.sets, PoolNames(spec), spec.uid), Deleted(spec, c, r);
      assert |done| < |todo|;
      assert todo[|done|] in todo && todo[|done|].name in Failing(spec, c, r);
    }
  }

  // ----- Which sets an idle sync deletes -----

  predicate DistinctPools(spec: ClusterSpec) {
    R.Distinct(PoolNames(spec))
  }

  /**
    The listing exposes the own set of pool k: the cluster controls it, and its label names no pool
    of the spec or is also that of a set listed before it.
   */
  predicate Exposed(spec: ClusterSpec, sets: seq<R.ListedSet>, k: nat)
    requires k < |spec.pools|
  {
    exists j :: 0 <= j < |sets| && sets[j].name == SetName(spec, k) && R.Controlled(sets[j], spec.uid)
                && (!R.LabelIn(sets[j], R.Names(PoolNames(spec))) || R.Shadowed(sets, j))
  }

  predicate SafeListing(spec: ClusterSpec, sets: seq<R.ListedSet>) {
    forall k :: 0 <= k < |spec.pools| ==> !Exposed(spec, sets, k)
  }

  /** Sets that carry the label of their own pool are safe when no label is listed twice. */
  lemma LabelledIsSafe(spec: ClusterSpec, sets: seq<R.ListedSet>)
    requires R.NoShadowing(sets, R.Names(PoolNames(spec)), spec.uid)
    requires forall j, k :: 0 <= j < |sets| && 0 <= k < |spec.pools| && sets[j].name == SetName(spec, k) ==>
      R.PoolLabel(sets[j]) == Some(spec.pools[k].name)
    ensures SafeListing(spec, sets)
  {
    forall k | 0 <= k < |spec.pools| ensures !Exposed(spec, sets, k) {
      assert PoolNames(spec)[k] in R.Names(PoolNames(spec));
    }
  }

  lemma ExposedIsDeleted(spec: ClusterSpec, sets: seq<R.ListedSet>, k: nat)
    requires DistinctPools(spec) && R.DistinctSets(sets) && k < |spec.pools|
    ensures SetName(spec, k) in SetNames(R.ToDelete(sets, PoolNames(spec), spec.uid)) <==> Exposed(spec, sets, k)
  {
    var todo := R.ToDelete(sets, PoolNames(spec), spec.uid);
    forall j | 0 <= j < |sets|
      ensures sets[j] in todo <==>
        R.Controlled(sets[j], spec.uid) && (!R.LabelIn(sets[j], R.Names(PoolNames(spec))) || R.Shadowed(sets, j))
    {
      R.ToDeleteIff(sets, PoolNames(spec), spec.uid, j);
    }
    if s :| s in todo && s.name == SetName(spec, k) {
      R.ToDeleteAreListed(sets, PoolNames(spec), spec.uid, s);
      var j :| 0 <= j < |sets| && sets[j] == s;
      assert sets[j] in todo;
    }
  }

  /** An idle sync whose listing does not expose pool k leaves it alone. */
  lemma IdleKeeps(spec: ClusterSpec, c: Cluster, r: Reads, k: nat)
    requires DistinctPools(spec) && ValidReads(spec, c, r) && k < |c.pools|
    requires NextAction(spec, Listed(c, r), 0).Idle? && !Exposed(spec, r.sets, k)
    ensures Sync(spec, c, r).pools[k] == c.pools[k]
  {
    ExposedIsDeleted(spec, r.sets, k);
    var todo := R.ToDelete(r.sets, PoolNames(spec), spec.uid);
    assert forall s :: s in Deleted(spec, c, r) ==> s in todo;
  }

  lemma IdleKeepsAll(spec: ClusterSpec, c: Cluster, r: Reads)
    requires DistinctPools(spec) && ValidReads(spec, c, r)
    requires NextAction(spec, Listed(c, r), 0).Idle? && SafeListing(spec, r.sets)
    ensures Sync(spec, c, r).pools == c.pools
  {
    forall k | 0 <= k < |c.pools| ensures Sync(spec, c, r).pools[k] == c.pools[k] {
      IdleKeeps(spec, c, r, k);
    }
  }

  /**
    An idle sync keeps the set of pool k, whichever deletions are refused, if and only if its
    listing does not expose it. The listing is not behind: every set in it still exists.
   */
  lemma IdleKeepsIff(spec: ClusterSpec, c: Cluster, r: Reads, k: nat)
    requires DistinctPools(spec) && ValidReads(spec, c, r) && k < |c.pools|
    requires NextAction(spec, Listed(c, r), 0).Idle? && Newest(c.pools[k]).Some?
    requires forall s :: s in r.sets ==> Exists(spec, c, s.name)
    ensures (forall refused :: Newest(Sync(spec, c, r.(refused := refused)).pools[k]).Some?)
            <==> !Exposed(spec, r.sets, k)
  {
    forall refused
      ensures NextAction(spec, Listed(c, r.(refused := refused)), 0) == NextAction(spec, Listed(c, r), 0)
      ensures !Exposed(spec, r.sets, k) ==> Newest(Sync(spec, c, r.(refused := refused)).pools[k]).Some?
    {
      var r' := r.(refused := refused);
      assert Listed(c, r') == Listed(c, r);
      if !Exposed(spec, r.sets, k) {
        IdleKeeps(spec, c, r', k);
      }
    }
    if Exposed(spec, r.sets, k) {
      var r' := r.(refused := {});
      ExposedIsDeleted(spec, r.sets, k);
      assert Failing(spec, c, r') == {};
      var todo := R.ToDelete(r.sets, PoolNames(spec), spec.uid);
      R.UpToRefusalUnique(todo, {}, todo);
      assert Newest(Sync(spec, c, r').pools[k]).None?;
    }
  }

  /** A settled pool whose set is listed after another one with its label: the set is deleted. */
  lemma SettledPoolLost(s: StatefulSet, r: Reads, labels: map<string, string>)
    requires R.NODE_POOL_LABEL in labels && labels[R.NODE_POOL_LABEL] == "data"
    requires s.annotation == Some(Rendered(Version("6.1.1", ""))) && s.replicas == Some(1)
    requires r.listed == [0] && r.fetched == [0] && r.refused == {}
    requires r.sets == [R.ListedSet("a", Some(labels), None), R.ListedSet("es-c-data", Some(labels), Some("u"))]
    ensures var spec := ClusterSpec("c", "n", "u", Version("6.1.1", ""), None, [PoolSpec("data", 1, [Data])]);
      var c := Cluster([[Some(s)]], {"a"});
      ValidReads(spec, c, r) && Settled(spec, 0, Newest(c.pools[0])) && Sync(spec, c, r).pools[0] == [Some(s), None]
  {
    var spec := ClusterSpec("c", "n", "u", Version("6.1.1", ""), None, [PoolSpec("data", 1, [Data])]);
    var c := Cluster([[Some(s)]], {"a"});
    assert Listed(c, r)[0] == Some(s);
    var d := NextAction(spec, Listed(c, r), 0);
    assert forall j :: 0 <= j < 1 ==> Settled(spec, j, Listed(c, r)[j]);
    assert SetName(spec, 0) == "es-c-data";
    assert PoolNames(spec) == ["data"];
    assert R.PoolLabel(r.sets[0]) == R.PoolLabel(r.sets[1]) && R.Shadowed(r.sets, 1);
    ExposedIsDeleted(spec, r.sets, 0);
    assert Failing(spec, c, r) == {};
    var todo := R.ToDelete(r.sets, PoolNames(spec), spec.uid);
    R.UpToRefusalUnique(todo, {}, todo);
    assert c.pools[0] + [None] == [Some(s), None];
  }

  // ----- Runs -----

  /**
    A step of the system: a sync with some reads, a posted status of some set, with arbitrary
    counts, or other sets that come and go.
   */
  datatype Step =
    | SyncStep(seen: Reads)
    | StatusStep(pool: nat, updated: int, ready: int)
    | OthersStep(now: set<string>)

  predicate Enabled(spec: ClusterSpec, c: Cluster, step: Step) {
    match step
    case SyncStep(r) => ValidReads(spec, c, r)
    case StatusStep(k, _, _) => k < |c.pools| && c.pools[k] != [] && Newest(c.pools[k]).Some?
    case OthersStep(_) => true
  }

  function PostStatus(h: History, updated: int, ready: int): History
    requires h != [] && Newest(h).Some?
  {
    h + [Some(Newest(h).value.(updated := updated, ready := ready))]
  }

  function Next(spec: ClusterSpec, c: Cluster, step: Step): Cluster
    requires Enabled(spec, c, step)
  {
    match step
    case SyncStep(r) => Sync(spec, c, r)
    case StatusStep(k, u, n) => c.(pools := c.pools[k := PostStatus(c.pools[k], u, n)])
    case OthersStep(now) => c.(others := now)
  }

  /**
    A run starts from sets in any condition and caches as stale as they like, as long as nothing
    they hold of a pool, as far as the spec is concerned, has been undone since.
   */
  predicate Start(spec: ClusterSpec, c: Cluster) {
    && DistinctPools(spec)
    && |c.pools| == |spec.pools| && forall k :: 0 <= k < |c.pools| ==> Lasting(spec, k, c.pools[k])
  }

  predicate IsRun(spec: ClusterSpec, states: seq<Cluster>, steps: seq<Step>) {
    && |states| == |steps| + 1
    && Start(spec, states[0])
    && forall i :: 0 <= i < |steps| ==>
         Enabled(spec, states[i], steps[i]) && states[i + 1] == Next(spec, states[i], steps[i])
  }

  /** Not an idle sync whose listing exposes the set of a pool. */
  predicate Careful(spec: ClusterSpec, c: Cluster, step: Step)
    requires Enabled(spec, c, step)
  {
    step.SyncStep? && NextAction(spec, Listed(c, step.seen), 0).Idle? ==> SafeListing(spec, step.seen.sets)
  }

  /** The first n steps of the run are careful. */
  predicate CarefulFor(spec: ClusterSpec, states: seq<Cluster>, steps: seq<Step>, n: nat)
    requires IsRun(spec, states, steps) && n <= |steps|
  {
    forall i :: 0 <= i < n ==> Careful(spec, states[i], steps[i])
  }

  /** What was once true of a set, as far as the spec is concerned, is true of its newest version. */
  predicate Lasting(spec: ClusterSpec, k: nat, h: History)
    requires k < |spec.pools|
  {
    && h != []
    && (forall i :: 0 <= i < |h| && h[i].Some? ==> Newest(h).Some?)
    && (forall i :: 0 <= i < |h| && Upgraded(spec, h[i]) ==> Upgraded(spec, Newest(h)))
    && (forall i :: 0 <= i < |h| && Settled(spec, k, h[i]) ==> Settled(spec, k, Newest(h)))
  }

  predicate Inv(spec: ClusterSpec, c: Cluster) {
    DistinctPools(spec) && |c.pools| == |spec.pools| && forall k :: 0 <= k < |c.pools| ==> Lasting(spec, k, c.pools[k])
  }

  /** Appending a version keeps `Lasting` when it undoes nothing of the newest one. */
  lemma Append(spec: ClusterSpec, k: nat, h: History, s: StatefulSet)
    requires k < |spec.pools| && Lasting(spec, k, h)
    requires Upgraded(spec, Newest(h)) ==> Upgraded(spec, Some(s))
    requires Settled(spec, k, Newest(h)) ==> Settled(spec, k, Some(s))
    ensures Lasting(spec, k, h + [Some(s)])
  {
    var h' := h + [Some(s)];
    assert forall i :: 0 <= i < |h| ==> h'[i] == h[i];
  }

  /**
    The only thing a careful sync does to a pool: it appends one version, which keeps the replicas
    unless the set is at the version of the spec, and never touches a settled set.
   */
  lemma SyncEffect(spec: ClusterSpec, c: Cluster, r: Reads, k: nat) returns (s: StatefulSet)
    requires Inv(spec, c) && ValidReads(spec, c, r) && Careful(spec, c, SyncStep(r)) && k < |c.pools|
    requires Sync(spec, c, r).pools[k] != c.pools[k]
    ensures forall j :: 0 <= j < k ==> Settled(spec, j, Newest(c.pools[j]))
    ensures forall j :: 0 <= j < |c.pools| && j != k ==> Sync(spec, c, r).pools[j] == c.pools[j]
    ensures !Settled(spec, k, Newest(c.pools[k]))
    ensures Sync(spec, c, r).pools[k] == c.pools[k] + [Some(s)]
    ensures Upgraded(spec, Newest(c.pools[k])) ==> Upgraded(spec, Some(s))
    ensures Newest(c.pools[k]).Some? && !Upgraded(spec, Newest(c.pools[k])) ==>
      s.replicas == Newest(c.pools[k]).value.replicas
  {
    var listed := Listed(c, r);
    var d := NextAction(spec, listed, 0);
    var h := c.pools[k];
    if d.Idle? {
      IdleKeeps(spec, c, r, k);
    }
    assert d.Act? && d.pool == k;
    assert forall j :: 0 <= j < k ==> listed[j] == c.pools[j][r.listed[j]];
    assert listed[k] == h[r.listed[k]];
    var outcome := Execute(spec, k, d.action, h[r.fetched[k]], r);
    s := outcome.set_;
  }

  lemma StepPreserves(spec: ClusterSpec, c: Cluster, step: Step)
    requires Inv(spec, c) && Enabled(spec, c, step) && Careful(spec, c, step)
    ensures Inv(spec, Next(spec, c, step))
    ensures forall k :: 0 <= k < |c.pools| && Settled(spec, k, Newest(c.pools[k])) ==>
      Settled(spec, k, Newest(Next(spec, c, step).pools[k]))
  {
    var c' := Next(spec, c, step);
    forall k | 0 <= k < |c.pools|
      ensures Lasting(spec, k, c'.pools[k])
      ensures Settled(spec, k, Newest(c.pools[k])) ==> Settled(spec, k, Newest(c'.pools[k]))
    {
      if c'.pools[k] != c.pools[k] {
        match step
        case SyncStep(r) =>
          var s := SyncEffect(spec, c, r, k);
          Append(spec, k, c.pools[k], s);
        case StatusStep(_, u, n) =>
          Append(spec, k, c.pools[k], Newest(c.pools[k]).value.(updated := u, ready := n));
      }
    }
  }

  lemma {:induction false} RunInv(spec: ClusterSpec, states: seq<Cluster>, steps: seq<Step>, i: nat)
    requires IsRun(spec, states, steps) && i < |states| && CarefulFor(spec, states, steps, i)
    ensures Inv(spec, states[i])
  {
    if i > 0 {
      RunInv(spec, states, steps, i - 1);
      assert Enabled(spec, states[i - 1], steps[i - 1]) && Careful(spec, states[i - 1], steps[i - 1]);
      StepPreserves(spec, states[i - 1], steps[i - 1]);
    }
  }

  /**
    The settled pools never become unsettled again as long as the steps are careful, however stale
    the caches are; `IdleKeepsIff` and `SettledPoolLost` show that care is needed.
   */
  lemma {:induction false} SettledForever(spec: ClusterSpec, states: seq<Cluster>, steps: seq<Step>, i: nat, j: nat,
                                          k: nat)
    requires IsRun(spec, states, steps) && i <= j < |states| && CarefulFor(spec, states, steps, j)
    requires k < |spec.pools|
    ensures |states[i].pools| == |states[j].pools| == |spec.pools|
    ensures states[i].pools[k] != [] && states[j].pools[k] != []
    ensures Settled(spec, k, Newest(states[i].pools[k])) ==> Settled(spec, k, Newest(states[j].pools[k]))
    decreases j
  {
    RunInv(spec, states, steps, i);
    RunInv(spec, states, steps, j);
    if i < j {
      SettledForever(spec, states, steps, i, j - 1, k);
      RunInv(spec, states, steps, j - 1);
      assert Enabled(spec, states[j - 1], steps[j - 1]) && Careful(spec, states[j - 1], steps[j - 1]);
      StepPreserves(spec, states[j - 1], steps[j - 1]);
    }
  }

  /**
    Work is serial and in the order of the spec: when a sync of a careful run changes pool k, every
    earlier pool is settled at that moment, no other pool changes, pool k was not settled, and
    the replicas of an existing set stay as they are until its version is that of the spec.
   */
  lemma SerialWork(spec: ClusterSpec, states: seq<Cluster>, steps: seq<Step>, i: nat, k: nat)
    requires IsRun(spec, states, steps) && i < |steps| && CarefulFor(spec, states, steps, i + 1)
    requires steps[i].SyncStep? && k < |spec.pools|
    requires |states[i].pools| == |states[i + 1].pools| == |spec.pools|
    requires states[i + 1].pools[k] != states[i].pools[k]
    ensures forall j :: 0 <= j < k ==> states[i].pools[j] != [] && Settled(spec, j, Newest(states[i].pools[j]))
    ensures forall j :: 0 <= j < |spec.pools| && j != k ==> states[i + 1].pools[j] == states[i].pools[j]
    ensures states[i].pools[k] != [] && !Settled(spec, k, Newest(states[i].pools[k]))
    ensures Newest(states[i].pools[k]).Some? && !Upgraded(spec, Newest(states[i].pools[k])) ==>
      states[i + 1].pools[k] != [] && Newest(states[i + 1].pools[k]).Some?
      && Newest(states[i + 1].pools[k]).value.replicas == Newest(states[i].pools[k]).value.replicas
  {
    RunInv(spec, states, steps, i);
    assert Enabled(spec, states[i], steps[i]) && Careful(spec, states[i], steps[i]);
    var _ := SyncEffect(spec, states[i], steps[i].seen, k);
  }

  /**
    In every run, what a sync appends to the history of pool k is one of these: the new set, with
    version, image and replicas of the spec; the newest set with other replicas, those of the spec;
    or, only while the health is known and not Red and every replica is ready, the newest set with
    the new annotation or with the new image and a partition. Or the set is deleted.
   */
  lemma WhatSyncsWrite(spec: ClusterSpec, states: seq<Cluster>, steps: seq<Step>, i: nat, k: nat)
    requires IsRun(spec, states, steps) && i < |steps| && steps[i].SyncStep?
    requires k < |states[i].pools| == |states[i + 1].pools| == |spec.pools|
    requires states[i + 1].pools[k] != states[i].pools[k]
    ensures var h, h', r := states[i].pools[k], states[i + 1].pools[k], steps[i].seen;
      && h != [] && |h'| == |h| + 1 && h'[..|h|] == h
      && (Newest(h).None? ==>
            spec.image.Some?
            && Newest(h') == Some(StatefulSet(spec.image, None, Some(Rendered(spec.version)),
                                              Some(spec.pools[k].replicas), 0, 0)))
      && (Newest(h).Some? && Newest(h').Some? ==>
            var a, b := Newest(h).value, Newest(h').value;
            || b == a.(replicas := Some(spec.pools[k].replicas))
            || (&& r.health.Some? && r.health.value != Red && a.replicas == Some(a.ready)
                && (|| b == a.(annotation := Some(Rendered(spec.version)))
                    || (b.partition.Some? && b == a.(partition := b.partition, image := spec.image)))))
  {
    assert Enabled(spec, states[i], steps[i]);
  }

  /**
    From an empty cluster, each fresh sync creates one pool, in the order of the spec, and as many
    syncs as there are pools settle all of them.
   */
  lemma {:induction false} FreshSyncsCreateAll(spec: ClusterSpec, states: seq<Cluster>, steps: seq<Step>, j: nat)
    requires IsRun(spec, states, steps) && spec.image.Some? && j <= |steps| && j <= |spec.pools|
    requires forall k :: 0 <= k < |states[0].pools| ==> states[0].pools[k] == [None]
    requires forall i :: 0 <= i < j ==> steps[i].SyncStep? && Fresh(spec, states[i], steps[i].seen)
    ensures Shaped(spec, states[j]) && states[j].others == states[0].others && EarlierSettled(spec, states[j], j)
    ensures forall k :: 0 <= k < j ==> Newest(states[j].pools[k]).value.image == spec.image
    ensures forall k :: j <= k < |spec.pools| ==> states[j].pools[k] == [None]
  {
    if j > 0 {
      FreshSyncsCreateAll(spec, states, steps, j - 1);
      assert Enabled(spec, states[j - 1], steps[j - 1]);
      CreateSettles(spec, states[j - 1], steps[j - 1].seen, j - 1);
    }
  }

  /**
    No data is lost by scaling down, in any run: when a sync lowers the newest replicas of a data
    pool from n to m, the pilots it read hold a drained one for every ordinal in [m, n).
   */
  lemma ScaleDownDrained(spec: ClusterSpec, states: seq<Cluster>, steps: seq<Step>, i: nat, k: nat, ordinal: nat)
    requires IsRun(spec, states, steps) && i < |steps| && steps[i].SyncStep?
    requires |states[i].pools| == |states[i + 1].pools| == |spec.pools| && k < |spec.pools|
    requires Data in spec.pools[k].roles && Replicas(states[i], k).Some? && Replicas(states[i + 1], k).Some?
    requires Replicas(states[i + 1], k).value <= ordinal < Replicas(states[i], k).value
    ensures exists p ::
      && p in steps[i].seen.pilots.labelled && p.name == PilotName(SetName(spec, k), ordinal)
      && p.elasticsearch.Some? && p.elasticsearch.value.documents.Some? && p.elasticsearch.value.documents.value <= 0
  {
    assert Enabled(spec, states[i], steps[i]);
    var c, r := states[i], steps[i].seen;
    var d := NextAction(spec, Listed(c, r), 0);
    assert d == Act(k, Rescale);
    ScaleDownOnlyDrained(spec, k, Newest(c.pools[k]).value, r.pilots, ordinal);
  }

  /** The replicas that the newest version of a set asks for. */
  function Replicas(c: Cluster, k: nat): Option<int> {
    if k < |c.pools| && c.pools[k] != [] && Newest(c.pools[k]).Some? then Newest(c.pools[k]).value.replicas else None
  }

  /** The sync deletes a set, of a pool or another one. */
  predicate Deletes(c: Cluster, c': Cluster) {
    c'.others != c.others
    || (|c'.pools| == |c.pools|
        && exists k :: 0 <= k < |c.pools| && c.pools[k] != [] && c'.pools[k] == c.pools[k] + [None])
  }

  lemma ActionsNeverDelete(spec: ClusterSpec, c: Cluster, r: Reads)
    requires ValidReads(spec, c, r) && !NextAction(spec, Listed(c, r), 0).Idle?
    ensures !Deletes(c, Sync(spec, c, r))
  {
    var c' := Sync(spec, c, r);
    forall k | 0 <= k < |c.pools| ensures c'.pools[k] != c.pools[k] + [None] {
      if c'.pools[k] != c.pools[k] {
        assert c'.pools[k][|c.pools[k]|].Some?;
      }
    }
  }

  /** The first deletion that is not careful included, no set is deleted before every pool is settled. */
  lemma DeleteOnlyWhenSettled(spec: ClusterSpec, states: seq<Cluster>, steps: seq<Step>, i: nat)
    requires IsRun(spec, states, steps) && i < |steps| && CarefulFor(spec, states, steps, i)
    requires steps[i].SyncStep? && Deletes(states[i], states[i + 1])
    ensures |states[i].pools| == |spec.pools|
    ensures forall j :: 0 <= j < |spec.pools| ==>
      states[i].pools[j] != [] && Settled(spec, j, Newest(states[i].pools[j]))
  {
    RunInv(spec, states, steps, i);
    assert Enabled(spec, states[i], steps[i]);
    var c, r := states[i], steps[i].seen;
    assert forall j :: 0 <= j < |c.pools| ==> Listed(c, r)[j] == c.pools[j][r.listed[j]];
    if !NextAction(spec, Listed(c, r), 0).Idle? {
      ActionsNeverDelete(spec, c, r);
    }
  }

  // ----- Versions that differ in build metadata only -----

  /** The versions compare equal, yet the annotation does not read like the version of the spec. */
  predicate MetadataOnly(spec: ClusterSpec, s: Option<StatefulSet>) {
    s.Some? && s.value.annotation.Some? && s.value.annotation.value.Rendered?
    && VersionEqual(spec.version, s.value.annotation.value.version)
    && s.value.annotation.value.version != spec.version
  }

  predicate Stalled(spec: ClusterSpec, h: History) {
    h != [] && forall v :: 0 <= v < |h| ==> MetadataOnly(spec, h[v])
  }

  /**
    A version change that touches only the build metadata stalls the cluster for ever: the
    text differs, so the pool is always the next to upgrade, but the versions compare equal,
    so the upgrade never writes. The pool is never settled and no later pool is ever worked on.
   */
  lemma {:induction false} MetadataOnlyStalls(spec: ClusterSpec, states: seq<Cluster>, steps: seq<Step>, k: nat, t: nat)
    requires IsRun(spec, states, steps) && k < |spec.pools| && t < |states|
    requires Stalled(spec, states[0].pools[k])
    ensures |states[t].pools| == |spec.pools| && Stalled(spec, states[t].pools[k])
    ensures !Settled(spec, k, Newest(states[t].pools[k]))
    ensures t < |steps| && steps[t].SyncStep? ==>
      |states[t + 1].pools| == |spec.pools|
      && forall j :: k <= j < |spec.pools| ==> states[t + 1].pools[j] == states[t].pools[j]
  {
    if t > 0 {
      MetadataOnlyStalls(spec, states, steps, k, t - 1);
      assert Enabled(spec, states[t - 1], steps[t - 1]);
    }
    if t < |steps| && steps[t].SyncStep? {
      assert Enabled(spec, states[t], steps[t]);
      StalledSync(spec, states[t], steps[t].seen, k);
    }
  }

  /** From 6.1.1+a to 6.1.1+b: the pool is the next to upgrade, and the upgrade does nothing. */
  lemma MetadataBump(s: StatefulSet, health: Option<Health>, pilots: PilotLister)
    requires s.annotation == Some(Rendered(Version("6.1.1", "a")))
    ensures var spec := ClusterSpec("c", "n", "u", Version("6.1.1", "b"), Some("es:6.1.1"), [PoolSpec("p", 3, [Data])]);
      && MetadataOnly(spec, Some(s)) && NextActionForPool(spec, 0, Some(s)) == Act(0, Upgrade)
      && !UpdateVersion(spec, 0, health, s, pilots).Write?
  {
  }

  lemma StalledSync(spec: ClusterSpec, c: Cluster, r: Reads, k: nat)
    requires ValidReads(spec, c, r) && k < |c.pools| && Stalled(spec, c.pools[k])
    ensures |Sync(spec, c, r).pools| == |c.pools|
    ensures forall j :: k <= j < |c.pools| ==> Sync(spec, c, r).pools[j] == c.pools[j]
  {
    var listed := Listed(c, r);
    assert listed[k] == c.pools[k][r.listed[k]];
    assert !Settled(spec, k, listed[k]);
    var d := NextAction(spec, listed, 0);
    if d.Act? && d.pool == k {
      assert MetadataOnly(spec, c.pools[k][r.fetched[k]]);
    }
  }
}
