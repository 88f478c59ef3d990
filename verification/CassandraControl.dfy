/**
  Creation and scale-out of a Cassandra cluster. Each sync rebuilds the status of the
  cluster from the listed StatefulSets, picks one action from spec and status, and executes
  it on a set fetched again from a cache. As for Elasticsearch, the API server keeps the
  history of each set, a cache read returns any version of it, and an update is accepted
  only when computed from the newest version.
 */
module CassandraControl {
  import opened Common

  datatype NodePool = NodePool(name: string, replicas: int)

  /** `ready` is the count of the last posted status. */
  datatype PoolSet = PoolSet(replicas: int, ready: int)

  type History = seq<Option<PoolSet>>

  datatype Action = Idle | CreateNodePool(pool: nat) | ScaleOut(pool: nat)

  function Newest(h: History): Option<PoolSet>
    requires h != []
  {
    h[|h| - 1]
  }

  // ----- The status of the cluster -----

  /** A StatefulSet as the lister returns it: its controller's UID and the pool it is labelled with. */
  datatype ListedSet = ListedSet(name: string, controller: Option<string>, pool: string, ready: int)

  predicate Owned(s: ListedSet, uid: string) {
    s.controller == Some(uid)
  }

  /** The ready count the status holds for each pool of the spec. */
  function Lookup(pools: seq<NodePool>, status: map<string, int>): seq<Option<int>> {
    seq(|pools|, k requires 0 <= k < |pools| =>
      if pools[k].name in status then Some(status[pools[k].name]) else None)
  }

  /** NextAction: create the first pool without a status, else scale the first pool that is short of ready nodes. */
  function NextAction(pools: seq<NodePool>, seen: seq<Option<int>>): (a: Action)
    requires |seen| == |pools|
    ensures a.CreateNodePool? ==> a.pool < |pools| && seen[a.pool].None?
    ensures a.CreateNodePool? ==> forall j :: 0 <= j < a.pool ==> seen[j].Some?
    ensures !a.CreateNodePool? ==> forall j :: 0 <= j < |pools| ==> seen[j].Some?
    ensures a.ScaleOut? ==> a.pool < |pools| && seen[a.pool].value < pools[a.pool].replicas
    ensures a.ScaleOut? ==> forall j :: 0 <= j < a.pool ==> seen[j].value >= pools[j].replicas
    ensures a.Idle? <==> forall j :: 0 <= j < |pools| ==> seen[j].Some? && seen[j].value >= pools[j].replicas
  {
    var missing := FirstMissing(seen, 0);
    if missing < |pools| then CreateNodePool(missing)
    else
      var short := FirstShort(pools, seen, 0);
      if short < |pools| then ScaleOut(short) else Idle
  }

  function FirstMissing(seen: seq<Option<int>>, k: nat): (m: nat)
    requires k <= |seen|
    ensures k <= m <= |seen| && (m < |seen| ==> seen[m].None?)
    ensures forall j :: k <= j < m ==> seen[j].Some?
    decreases |seen| - k
  {
    if k < |seen| && seen[k].Some? then FirstMissing(seen, k + 1) else k
  }

  function FirstShort(pools: seq<NodePool>, seen: seq<Option<int>>, k: nat): (m: nat)
    requires |seen| == |pools| && k <= |seen|
    requires forall j :: 0 <= j < |seen| ==> seen[j].Some?
    ensures k <= m <= |seen| && (m < |seen| ==> seen[m].value < pools[m].replicas)
    ensures forall j :: k <= j < m ==> seen[j].value >= pools[j].replicas
    decreases |seen| - k
  {
    if k < |seen| && seen[k].value >= pools[k].replicas then FirstShort(pools, seen, k + 1) else k
  }

  // ----- One sync -----

  datatype Reads = Reads(listed: seq<nat>, fetched: seq<nat>)

  predicate ValidReads(store: seq<History>, r: Reads) {
    && |r.listed| == |r.fetched| == |store|
    && forall k :: 0 <= k < |store| ==> r.listed[k] < |store[k]| && r.fetched[k] < |store[k]|
  }

  /** The status a sync computes: the posted ready count of every listed set. */
  function Seen(store: seq<History>, r: Reads): (seen: seq<Option<int>>)
    requires ValidReads(store, r)
    ensures |seen| == |store|
    ensures forall k :: 0 <= k < |store| ==>
      seen[k] == if store[k][r.listed[k]].Some? then Some(store[k][r.listed[k]].value.ready) else None
  {
    seq(|store|, k requires 0 <= k < |store| =>
      if store[k][r.listed[k]].Some? then Some(store[k][r.listed[k]].value.ready) else None)
  }

  /** ScaleOut.Execute: one more replica, for a set below the desired count whose replicas are all ready. */
  function Scaled(s: PoolSet, desired: int): Option<PoolSet> {
    if s.replicas < desired && s.ready == s.replicas then Some(s.(replicas := s.replicas + 1)) else None
  }

  /** The accepted effect of an action on the store. */
  function Execute(pools: seq<NodePool>, store: seq<History>, action: Action, r: Reads): (store': seq<History>)
    requires |pools| == |store| && ValidReads(store, r)
    requires !action.Idle? ==> action.pool < |pools|
    ensures |store'| == |store|
  {
    match action
    case Idle => store
    case CreateNodePool(k) =>
      if Newest(store[k]).None? then store[k := store[k] + [Some(PoolSet(0, 0))]] else store
    case ScaleOut(k) =>
      var h := store[k];
      var fetched := h[r.fetched[k]];
      if fetched.Some? && r.fetched[k] == |h| - 1 && Scaled(fetched.value, pools[k].replicas).Some?
      then store[k := h + [Scaled(fetched.value, pools[k].replicas)]]
      else store
  }

  function Sync(pools: seq<NodePool>, store: seq<History>, r: Reads): (store': seq<History>)
    requires |pools| == |store| && ValidReads(store, r)
  {
    Execute(pools, store, NextAction(pools, Seen(store, r)), r)
  }

  /** The controller: it owns the status it writes and shares the store with everybody else. */
  class Controller {
    const pools: seq<NodePool>
    const uid: string
    var status: map<string, int>
    var store: seq<History>

    ghost predicate Valid()
      reads this
    {
      |store| == |pools| && forall i, j :: 0 <= i < j < |pools| ==> pools[i].name != pools[j].name
    }

    constructor (pools: seq<NodePool>, uid: string, store: seq<History>)
      requires |store| == |pools|
      requires forall i, j :: 0 <= i < j < |pools| ==> pools[i].name != pools[j].name
      ensures Valid() && this.pools == pools && this.uid == uid && this.store == store && status == map[]
    {
      this.pools := pools;
      this.uid := uid;
      this.store := store;
      this.status := map[];
    }

    /** StatefulSetsForCluster: the listed sets by name, without the foreign ones. */
    method StatefulSetsForCluster(existing: seq<ListedSet>) returns (results: map<string, ListedSet>)
      ensures forall n :: n in results ==> results[n] in existing && results[n].name == n && Owned(results[n], uid)
      ensures forall s :: s in existing && Owned(s, uid) ==> s.name in results
    {
      results := map[];
      for i := 0 to |existing|
        invariant forall n :: n in results ==>
          results[n] in existing && results[n].name == n && Owned(results[n], uid)
        invariant forall s :: s in existing[..i] && Owned(s, uid) ==> s.name in results
      {
        if Owned(existing[i], uid) {
          results := results[existing[i].name := existing[i]];
        }
      }
      assert existing[..|existing|] == existing;
    }

    /**
      updateStatus: the status is rebuilt from nothing, and whatever the iteration order of
      the map, it holds for the label of each owned set the ready count of such a set.
     */
    method UpdateStatus(existing: seq<ListedSet>)
      requires forall s, t :: s in existing && t in existing && s.name == t.name ==> s == t
      modifies this`status
      ensures forall n :: n in status ==>
        exists s :: s in existing && Owned(s, uid) && s.pool == n && s.ready == status[n]
      ensures forall s :: s in existing && Owned(s, uid) ==> s.pool in status
    {
      status := map[];
      var sets := StatefulSetsForCluster(existing);
      var todo := sets.Keys;
      while todo != {}
        invariant todo <= sets.Keys
        invariant forall n :: n in status ==>
          exists s :: s in existing && Owned(s, uid) && s.pool == n && s.ready == status[n]
        invariant forall n :: n in sets && n !in todo ==> sets[n].pool in status
        decreases todo
      {
        var n :| n in todo;
        status := status[sets[n].pool := sets[n].ready];
        todo := todo - {n};
      }
      forall s | s in existing && Owned(s, uid) ensures s.pool in status {
        assert sets[s.name] == s;
      }
    }

    /** A set left over from a pool that has been removed from the spec. */
    predicate NamesNoPool(s: ListedSet) {
      forall k :: 0 <= k < |pools| ==> s.pool != pools[k].name
    }

    /** With one owned set per listed pool, the rebuilt status says exactly what was listed. */
    method SyncStatus(r: Reads, foreign: seq<ListedSet>)
      requires Valid() && ValidReads(store, r)
      requires forall s :: s in foreign ==> !Owned(s, uid) || NamesNoPool(s)
      requires forall i, j :: 0 <= i < j < |foreign| ==> foreign[i].name != foreign[j].name
      requires forall s, k :: s in foreign && 0 <= k < |pools| ==> s.name != pools[k].name
      modifies this`status
      ensures Lookup(pools, status) == Seen(store, r)
    {
      var existing := foreign;
      for k := 0 to |pools|
        invariant forall s :: s in existing ==> s in foreign || IsAnyListing(s, k, r)
        invariant forall j :: 0 <= j < k && store[j][r.listed[j]].Some? ==> Listing(j, r) in existing
      {
        if store[k][r.listed[k]].Some? {
          assert IsListing(Listing(k, r), k, r);
          existing := existing + [Listing(k, r)];
        }
      }
      UpdateStatus(existing);
      forall k | 0 <= k < |pools| ensures Lookup(pools, status)[k] == Seen(store, r)[k] {
        if store[k][r.listed[k]].Some? {
          assert Listing(k, r) in existing;
        }
      }
    }

    function Listing(k: nat, r: Reads): ListedSet
      reads this
      requires |store| == |pools| && ValidReads(store, r) && k < |pools| && store[k][r.listed[k]].Some?
    {
      ListedSet(pools[k].name, Some(uid), pools[k].name, store[k][r.listed[k]].value.ready)
    }

    ghost predicate IsListing(s: ListedSet, k: nat, r: Reads)
      reads this
      requires |store| == |pools| && ValidReads(store, r) && k < |pools|
    {
      store[k][r.listed[k]].Some? && s == Listing(k, r)
    }

    ghost predicate IsAnyListing(s: ListedSet, k: nat, r: Reads)
      reads this
      requires |store| == |pools| && ValidReads(store, r) && k <= |pools|
    {
      exists j :: 0 <= j < k && IsListing(s, j, r)
    }

    /** One sync from the listed sets to the accepted or rejected write. */
    method RunSync(r: Reads, foreign: seq<ListedSet>)
      requires Valid() && ValidReads(store, r)
      requires forall s :: s in foreign ==> !Owned(s, uid) || NamesNoPool(s)
      requires forall i, j :: 0 <= i < j < |foreign| ==> foreign[i].name != foreign[j].name
      requires forall s, k :: s in foreign && 0 <= k < |pools| ==> s.name != pools[k].name
      modifies this
      ensures Valid() && store == Sync(pools, old(store), r)
    {
      SyncStatus(r, foreign);
      ExecuteAction(NextAction(pools, Lookup(pools, status)), r);
    }

    method ExecuteAction(action: Action, r: Reads)
      requires Valid() && ValidReads(store, r)
      requires !action.Idle? ==> action.pool < |pools|
      modifies this`store
      ensures store == Execute(pools, old(store), action, r)
    {
      match action
      case Idle =>
      case CreateNodePool(k) =>
        if Newest(store[k]).None? {
          store := store[k := store[k] + [Some(PoolSet(0, 0))]];
        }
      case ScaleOut(k) =>
        var existingSet := store[k][r.fetched[k]];
        if existingSet.None? || existingSet.value.replicas == pools[k].replicas {
          return;
        }
        if existingSet.value.replicas > pools[k].replicas || existingSet.value.ready != existingSet.value.replicas {
          return;
        }
        var newSet := existingSet.value;
        newSet := newSet.(replicas := newSet.replicas + 1);
        if r.fetched[k] == |store[k]| - 1 {
          store := store[k := store[k] + [Some(newSet)]];
        }
    }
  }
}
