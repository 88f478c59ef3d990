/**
  Validation of updates to an existing cluster, and what it amounts to over a whole chain of
  accepted updates. The Elasticsearch and the Cassandra validators run the same nested loop
  over the node pools; the Cassandra one also freezes the version.
 */
module UpdateValidation {
  import opened Common

  /** `rest` are the fields of a node pool other than its name, replicas and persistence. */
  datatype NodePool<R> = NodePool(name: string, replicas: int, persistence: Option<string>, rest: R)

  /** `metadata` are the errors of the object metadata, `config` those of images and security context. */
  datatype Cluster<R> = Cluster(version: Version, pools: seq<NodePool<R>>, metadata: seq<UpdateError>,
                                config: seq<UpdateError>)

  datatype UpdateError = PersistenceChanged(pool: nat) | FieldChanged | VersionChanged | Duplicate(pool: nat)
                       | UnsupportedVersion | MetadataError(message: string) | ConfigError(message: string)

  /** The first pool of the list with the given name. */
  function Find<R>(pools: seq<NodePool<R>>, name: string): (r: Option<NodePool<R>>)
    ensures r.Some? ==> r.value in pools && r.value.name == name
    ensures r.None? ==> forall p :: p in pools ==> p.name != name
  {
    if pools == [] then None
    else if pools[0].name == name then Some(pools[0])
    else Find(pools[1..], name)
  }

  /** What an update may do to one pool: change replicas, and set a persistence that was not set. */
  predicate Updatable<R(==)>(before: NodePool<R>, after: NodePool<R>) {
    after.name == before.name && after.rest == before.rest
    && (before.persistence.Some? ==> after.persistence == before.persistence)
  }

  predicate PoolsUpdatable<R(==)>(before: seq<NodePool<R>>, after: seq<NodePool<R>>) {
    forall i :: 0 <= i < |after| ==>
      Find(before, after[i].name).Some? ==> Updatable(Find(before, after[i].name).value, after[i])
  }

  /** One pool of the new spec against the old ones; the copy is overwritten, compared and restored. */
  method CheckPool<R(==)>(before: seq<NodePool<R>>, after: NodePool<R>, index: nat) returns (errs: seq<UpdateError>)
    ensures errs == [] <==> (Find(before, after.name).Some? ==> Updatable(Find(before, after.name).value, after))
  {
    errs := [];
    var newNp := after;
    var j := 0;
    while j < |before|
      invariant 0 <= j <= |before| && errs == [] && newNp == after
      invariant Find(before, after.name) == Find(before[j..], after.name)
    {
      var oldNp := before[j];
      if newNp.name == oldNp.name {
        if newNp.persistence != oldNp.persistence {
          if oldNp.persistence.Some? {
            errs := errs + [PersistenceChanged(index)];
          }
        }
        newNp := newNp.(replicas := oldNp.replicas);
        newNp := newNp.(persistence := oldNp.persistence);
        if newNp != oldNp {
          errs := errs + [FieldChanged];
        }
        newNp := newNp.(replicas := after.replicas, persistence := after.persistence);
        return;
      }
      assert before[j..][1..] == before[j + 1..];
      j := j + 1;
    }
  }

  method CheckPools<R(==)>(before: seq<NodePool<R>>, after: seq<NodePool<R>>) returns (errs: seq<UpdateError>)
    ensures errs == [] <==> PoolsUpdatable(before, after)
  {
    errs := [];
    for i := 0 to |after|
      invariant errs == [] <==> PoolsUpdatable(before, after[..i])
    {
      var more := CheckPool(before, after[i], i);
      errs := errs + more;
      assert after[..i + 1][i] == after[i];
      assert forall q :: 0 <= q < i ==> after[..i + 1][q] == after[..i][q];
    }
    assert after[..|after|] == after;
  }

  predicate DistinctNames<R>(pools: seq<NodePool<R>>) {
    forall i, j :: 0 <= i < j < |pools| ==> pools[i].name != pools[j].name
  }

  /** A Cassandra spec on its own. Pool persistence errors are computed by the source and dropped. */
  predicate CassandraAdmitted<R>(c: Cluster<R>, supported: Version -> bool) {
    c.config == [] && supported(c.version) && DistinctNames(c.pools)
  }

  method ValidateCassandraSpec<R>(c: Cluster<R>, supported: Version -> bool) returns (errs: seq<UpdateError>)
    ensures errs == [] <==> CassandraAdmitted(c, supported)
  {
    errs := c.config;
    if !supported(c.version) {
      errs := errs + [UnsupportedVersion];
    }
    var allNames: set<string> := {};
    for i := 0 to |c.pools|
      invariant allNames == set j | 0 <= j < i :: c.pools[j].name
      invariant errs == [] <==>
        c.config == [] && supported(c.version)
        && forall p, q :: 0 <= p < q < i ==> c.pools[p].name != c.pools[q].name
    {
      if c.pools[i].name in allNames {
        errs := errs + [Duplicate(i)];
      } else {
        allNames := allNames + {c.pools[i].name};
      }
    }
  }

  predicate CassandraAccepts<R(==)>(before: Cluster<R>, after: Cluster<R>, supported: Version -> bool) {
    after.metadata == [] && CassandraAdmitted(after, supported) && VersionEqual(after.version, before.version)
    && PoolsUpdatable(before.pools, after.pools)
  }

  method ValidateCassandraUpdate<R(==)>(before: Cluster<R>, after: Cluster<R>, supported: Version -> bool)
    returns (errs: seq<UpdateError>)
    ensures errs == [] <==> CassandraAccepts(before, after, supported)
  {
    errs := after.metadata;
    var specErrs := ValidateCassandraSpec(after, supported);
    errs := errs + specErrs;
    if !VersionEqual(after.version, before.version) {
      errs := errs + [VersionChanged];
    }
    var more := CheckPools(before.pools, after.pools);
    errs := errs + more;
  }

  // ----- Chains of accepted updates -----

  /** The pools of each spec of the chain are an accepted update of those of the one before. */
  predicate Chain<R(==)>(specs: seq<Cluster<R>>) {
    forall i :: 0 < i < |specs| ==> PoolsUpdatable(specs[i - 1].pools, specs[i].pools)
  }

  predicate Present<R>(specs: seq<Cluster<R>>, name: string, i: nat, j: nat)
    requires i <= j < |specs|
  {
    forall t :: i <= t <= j ==> Find(specs[t].pools, name).Some?
  }

  /**
    A pool that is in every spec from i to j keeps every field except replicas and persistence,
    and its persistence from the first time it is set.
   */
  lemma {:induction false} PoolFrozen<R>(specs: seq<Cluster<R>>, i: nat, j: nat, name: string)
    requires Chain(specs) && i <= j < |specs| && Present(specs, name, i, j)
    ensures var before, after := Find(specs[i].pools, name).value, Find(specs[j].pools, name).value;
      && after.name == before.name && after.rest == before.rest
      && (before.persistence.Some? ==> after.persistence == before.persistence)
    decreases j
  {
    if i < j {
      PoolFrozen(specs, i, j - 1, name);
      var p := Find(specs[j].pools, name).value;
      assert PoolsUpdatable(specs[j - 1].pools, specs[j].pools);
      var q :| 0 <= q < |specs[j].pools| && specs[j].pools[q] == p;
      assert Updatable(Find(specs[j - 1].pools, specs[j].pools[q].name).value, specs[j].pools[q]);
    }
  }

  /** The version of a Cassandra cluster stays equal to the first one over every chain of accepted updates. */
  lemma {:induction false} CassandraVersionFrozen<R>(specs: seq<Cluster<R>>, supported: Version -> bool, j: nat)
    requires j < |specs|
    requires forall i :: 0 < i < |specs| ==> CassandraAccepts(specs[i - 1], specs[i], supported)
    ensures specs[j].version.release == specs[0].version.release
  {
    if j > 0 {
      CassandraVersionFrozen(specs, supported, j - 1);
      assert CassandraAccepts(specs[j - 1], specs[j], supported);
    }
  }

  /** Presence throughout is needed: a pool removed by one update returns with any fields in the next. */
  lemma RemovedPoolIsForgotten<R>(version: Version, p: NodePool<R>, q: NodePool<R>)
    requires p.name == q.name
    ensures Chain([Cluster(version, [p], [], []), Cluster(version, [], [], []), Cluster(version, [q], [], [])])
  {
    var specs := [Cluster(version, [p], [], []), Cluster(version, [], [], []), Cluster(version, [q], [], [])];
    assert PoolsUpdatable(specs[0].pools, specs[1].pools);
    assert Find(specs[1].pools, q.name) == None;
    assert PoolsUpdatable(specs[1].pools, specs[2].pools);
  }
}
