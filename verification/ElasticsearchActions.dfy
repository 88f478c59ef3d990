/**
  The actions the Elasticsearch controller can execute on the StatefulSet of one node
  pool. Every action reads a listed copy of the set, and either asks for one update of
  that copy or leaves the store alone. The loops of the source are methods; each is
  proved against the declarative function or predicate beside it.
 */
module ElasticsearchActions {
  import opened Common
  import opened PodNames

  /** The value of the version annotation: the rendering of a version, or text that does not parse. */
  datatype VersionText = Rendered(version: Version) | Malformed(text: string)

  datatype Health = Red | Yellow | Green

  datatype Role = Data | Ingest | Master | Unsupported(name: string)

  datatype PoolSpec = PoolSpec(name: string, replicas: int, roles: seq<Role>)

  /** `image` is the image of the spec or the default one for the version; None when neither is known. */
  datatype ClusterSpec = ClusterSpec(name: string, namespace: string, uid: string, version: Version,
                                     image: Option<string>, pools: seq<PoolSpec>)

  /**
    What the actions read and write of a StatefulSet. `image` is None when the template has
    no container; `updated` and `ready` are the counts of the last posted status.
   */
  datatype StatefulSet = StatefulSet(image: Option<string>, partition: Option<int>, annotation: Option<VersionText>,
                                     replicas: Option<int>, updated: int, ready: int)

  datatype PilotStatus = PilotStatus(documents: Option<int>, version: Option<Version>)

  datatype Pilot = Pilot(name: string, namespace: string, elasticsearch: Option<PilotStatus>)

  /** The pilot cache: the pilots carrying the labels of the node pool, and all pilots of the namespace by name. */
  datatype PilotLister = PilotLister(labelled: seq<Pilot>, byName: map<string, Pilot>)

  datatype Error = NotFound | NilReplicas | UnknownHealth | UnknownImage

  datatype Result<+T> = Ok(value: T) | Err(error: Error)

  /** What executing an action amounts to; `Crashed` is a nil dereference. */
  datatype Outcome = Failed(error: Error) | Crashed | Unchanged | Write(set_: StatefulSet)

  function SetName(spec: ClusterSpec, k: nat): string
    requires k < |spec.pools|
  {
    "es-" + spec.name + "-" + spec.pools[k].name
  }

  function Max(a: int, b: int): int {
    if a < b then b else a
  }

  /** The first pilot of the list with the given name. */
  function FirstNamed(pilots: seq<Pilot>, name: string): (r: Option<Pilot>)
    ensures r.Some? ==> r.value in pilots && r.value.name == name
  {
    if pilots == [] then None
    else if pilots[0].name == name then Some(pilots[0])
    else FirstNamed(pilots[1..], name)
  }

  lemma {:induction false} FirstNamedAt(pilots: seq<Pilot>, i: nat)
    requires i < |pilots|
    requires forall j :: 0 <= j < i ==> pilots[j].name != pilots[i].name
    ensures FirstNamed(pilots, pilots[i].name) == Some(pilots[i])
  {
    if i > 0 {
      assert pilots[1..][i - 1] == pilots[i];
      FirstNamedAt(pilots[1..], i - 1);
    }
  }

  lemma {:induction false} FirstNamedNone(pilots: seq<Pilot>, name: string)
    requires forall j :: 0 <= j < |pilots| ==> pilots[j].name != name
    ensures FirstNamed(pilots, name) == None
  {
  }

  /** The inner loop of pilotsForStatefulSet. */
  method FindNamed(pilots: seq<Pilot>, name: string) returns (r: Option<Pilot>)
    ensures r == FirstNamed(pilots, name)
  {
    var j := 0;
    while j < |pilots| && pilots[j].name != name
      invariant 0 <= j <= |pilots|
      invariant FirstNamed(pilots, name) == FirstNamed(pilots[j..], name)
    {
      assert pilots[j..][1..] == pilots[j + 1..];
      j := j + 1;
    }
    return if j < |pilots| then Some(pilots[j]) else None;
  }

  /** Every ordinal of the set has a labelled pilot of its name. */
  predicate AllListed(pilots: seq<Pilot>, setName: string, replicas: int) {
    forall i :: 0 <= i < replicas ==> FirstNamed(pilots, PilotName(setName, i)).Some?
  }

  /** `found` holds the first pilot named after each ordinal, in order. */
  predicate OnePerOrdinal(pilots: seq<Pilot>, setName: string, replicas: int, found: seq<Pilot>) {
    |found| == Max(replicas, 0)
    && forall i :: 0 <= i < |found| ==> FirstNamed(pilots, PilotName(setName, i)) == Some(found[i])
  }

  /**
    The labelled nested loop: one pilot per ordinal, or an error. An ordinal without a
    pilot cannot be skipped, and the i-th result is the first pilot named after ordinal i.
   */
  method PilotsForStatefulSet(pilots: seq<Pilot>, setName: string, replicas: Option<int>)
    returns (r: Result<seq<Pilot>>)
    ensures replicas.None? ==> r == Err(NilReplicas)
    ensures replicas.Some? ==> (r.Ok? <==> AllListed(pilots, setName, replicas.value))
    ensures replicas.Some? && r.Err? ==> r.error == NotFound
    ensures r.Ok? ==> OnePerOrdinal(pilots, setName, replicas.value, r.value)
  {
    if replicas.None? {
      return Err(NilReplicas);
    }
    var output: seq<Pilot> := [];
    var missing: seq<string> := [];
    var i := 0;
    while i < replicas.value
      invariant 0 <= i <= Max(replicas.value, 0)
      invariant missing == [] <==> AllListed(pilots, setName, i)
      invariant missing == [] ==> |output| == i
      invariant missing == [] ==>
        forall q :: 0 <= q < i ==> FirstNamed(pilots, PilotName(setName, q)) == Some(output[q])
    {
      var name := PilotName(setName, i);
      var found := FindNamed(pilots, name);
      if found.Some? {
        output := output + [found.value];
      } else {
        missing := missing + [name];
      }
      i := i + 1;
    }
    return if missing == [] then Ok(output) else Err(NotFound);
  }

  // ----- Scale -----

  /** A pilot known to hold no documents. */
  predicate Drained(p: Pilot) {
    p.elasticsearch.Some? && p.elasticsearch.value.documents.Some? && p.elasticsearch.value.documents.value <= 0
  }

  predicate EveryDrained(pilots: seq<Pilot>) {
    forall p :: p in pilots ==> Drained(p)
  }

  /**
    When a set may go from `current` to `target` replicas: always upwards, always for a
    pool without data, and otherwise when each ordinal that disappears has a pilot that
    reported an empty node, all other ordinals being accounted for.
   */
  predicate ScaleAllowed(roles: seq<Role>, setName: string, pilots: seq<Pilot>, current: int, target: int) {
    target >= current
    || Data !in roles
    || (AllListed(pilots, setName, current)
        && forall i :: 0 <= i < current && target <= i ==>
             FirstNamed(pilots, PilotName(setName, i)).Some?
             && Drained(FirstNamed(pilots, PilotName(setName, i)).value))
  }

  method ContainsRole(roles: seq<Role>, role: Role) returns (found: bool)
    ensures found <==> role in roles
  {
    for i := 0 to |roles|
      invariant role !in roles[..i]
    {
      if roles[i] == role {
        return true;
      }
    }
    return false;
  }

  /** The first pilot of the list with the given name and namespace. */
  function FirstIn(pilots: seq<Pilot>, namespace: string, name: string): (r: Option<Pilot>)
    ensures r.Some? ==> r.value in pilots && r.value.name == name && r.value.namespace == namespace
  {
    if pilots == [] then None
    else if pilots[0].name == name && pilots[0].namespace == namespace then Some(pilots[0])
    else FirstIn(pilots[1..], namespace, name)
  }

  lemma {:induction false} FirstInOneNamespace(pilots: seq<Pilot>, namespace: string, name: string)
    requires forall p :: p in pilots ==> p.namespace == namespace
    ensures FirstIn(pilots, namespace, name) == FirstNamed(pilots, name)
  {
    if pilots != [] {
      assert pilots[0] in pilots;
      FirstInOneNamespace(pilots[1..], namespace, name);
    }
  }

  /** The inner loop of determinePilotsToBeRemoved, as the list of at most one pilot it appends. */
  method FindPilot(pilots: seq<Pilot>, namespace: string, name: string) returns (r: Option<Pilot>)
    ensures r == FirstIn(pilots, namespace, name)
  {
    var j := 0;
    while j < |pilots| && !(pilots[j].name == name && pilots[j].namespace == namespace)
      invariant 0 <= j <= |pilots|
      invariant FirstIn(pilots, namespace, name) == FirstIn(pilots[j..], namespace, name)
    {
      assert pilots[j..][1..] == pilots[j + 1..];
      j := j + 1;
    }
    return if j < |pilots| then Some(pilots[j]) else None;
  }

  /** `gone` holds exactly the pilots of ordinals [target, m), highest first. */
  predicate Descending(gone: seq<Pilot>, pilots: seq<Pilot>, m: int, target: int)
    requires m <= |pilots|
  {
    |gone| == Max(m - Max(target, 0), 0)
    && forall q :: 0 <= q < |gone| ==> gone[q] == pilots[m - 1 - q]
  }

  /** One pilot per ordinal, in order, all of one namespace: what PilotsForStatefulSet returns. */
  predicate ByOrdinal(pilots: seq<Pilot>, setName: string, namespace: string) {
    (forall p :: p in pilots ==> p.namespace == namespace)
    && forall i :: 0 <= i < |pilots| ==> pilots[i].name == PilotName(setName, i)
  }

  lemma ScanFinds(pilots: seq<Pilot>, setName: string, namespace: string, i: int)
    requires ByOrdinal(pilots, setName, namespace)
    ensures FirstIn(pilots, namespace, PilotName(setName, i))
            == if 0 <= i < |pilots| then Some(pilots[i]) else None
  {
    FirstInOneNamespace(pilots, namespace, PilotName(setName, i));
    forall j | 0 <= j < |pilots| && j != i ensures pilots[j].name != PilotName(setName, i) {
      if pilots[j].name == PilotName(setName, i) {
        ReplicaInjective(setName, j, i);
      }
    }
    if 0 <= i < |pilots| {
      FirstNamedAt(pilots, i);
    } else {
      FirstNamedNone(pilots, PilotName(setName, i));
    }
  }

  /** The pilots found for the ordinals of [lo, hi), highest first. */
  function FoundBetween(pilots: seq<Pilot>, setName: string, namespace: string, lo: int, hi: int): seq<Pilot>
    decreases hi - lo
  {
    if hi <= lo then []
    else
      var p := FirstIn(pilots, namespace, PilotName(setName, lo));
      FoundBetween(pilots, setName, namespace, lo + 1, hi) + (if p.Some? then [p.value] else [])
  }

  lemma DescendingSnoc(gone: seq<Pilot>, pilots: seq<Pilot>, m: int, target: int)
    requires target < m <= |pilots| && Descending(gone, pilots, m, target + 1)
    ensures Descending(gone + (if 0 <= target then [pilots[target]] else []), pilots, m, target)
  {
  }

  /** In a list with one pilot per ordinal these are exactly the pilots of the range. */
  lemma {:induction false} FoundIsDescending(pilots: seq<Pilot>, setName: string, namespace: string, lo: int, hi: int)
    requires ByOrdinal(pilots, setName, namespace) && hi <= |pilots|
    ensures Descending(FoundBetween(pilots, setName, namespace, lo, hi), pilots, hi, lo)
    decreases hi - lo
  {
    if lo < hi {
      FoundIsDescending(pilots, setName, namespace, lo + 1, hi);
      var rest := FoundBetween(pilots, setName, namespace, lo + 1, hi);
      var p := FirstIn(pilots, namespace, PilotName(setName, lo));
      assert p == if 0 <= lo then Some(pilots[lo]) else None by {
        ScanFinds(pilots, setName, namespace, lo);
      }
      DescendingSnoc(rest, pilots, hi, lo);
    }
  }

  method DeterminePilotsToBeRemoved(pilots: seq<Pilot>, setName: string, namespace: string, replicas: Option<int>,
                                    replicaDiff: int)
    returns (r: Result<seq<Pilot>>)
    ensures replicaDiff >= 0 ==> r == Ok([])
    ensures replicaDiff < 0 && replicas.None? ==> r == Err(NilReplicas)
    ensures replicaDiff < 0 && replicas.Some? ==>
      r == Ok(FoundBetween(pilots, setName, namespace, replicas.value + replicaDiff, replicas.value))
    ensures replicaDiff < 0 && replicas.Some? && replicas.value <= |pilots| && ByOrdinal(pilots, setName, namespace) ==>
      Descending(r.value, pilots, replicas.value, replicas.value + replicaDiff)
  {
    if replicaDiff >= 0 {
      return Ok([]);
    }
    if replicas.None? {
      return Err(NilReplicas);
    }
    var removed: seq<Pilot> := [];
    var desired := replicas.value + replicaDiff;
    var i := replicas.value - 1;
    while i >= desired
      invariant desired - 1 <= i
      invariant removed == FoundBetween(pilots, setName, namespace, i + 1, replicas.value)
      decreases i - desired
    {
      var name := PilotName(setName, i);
      var found := FindPilot(pilots, namespace, name);
      if found.Some? {
        removed := removed + [found.value];
      }
      i := i - 1;
    }
    if replicas.value <= |pilots| && ByOrdinal(pilots, setName, namespace) {
      FoundIsDescending(pilots, setName, namespace, desired, replicas.value);
    }
    return Ok(removed);
  }

  /** Checking the pilots to be removed is checking every ordinal that disappears. */
  lemma RemovalDecides(roles: seq<Role>, setName: string, pilots: seq<Pilot>, all: seq<Pilot>, gone: seq<Pilot>,
                       current: int, target: int)
    requires target < current && Data in roles
    requires OnePerOrdinal(pilots, setName, current, all)
    requires current <= |all| && Descending(gone, all, current, target)
    ensures ScaleAllowed(roles, setName, pilots, current, target) == EveryDrained(gone)
  {
    assert forall i :: 0 <= i < current && target <= i ==> all[i] == gone[current - 1 - i];
    if q :| 0 <= q < |gone| && !Drained(gone[q]) {
      assert FirstNamed(pilots, PilotName(setName, current - 1 - q)) == Some(all[current - 1 - q]);
    }
  }

  /** The document check of canScaleNodePool. */
  method AllDrained(pilots: seq<Pilot>) returns (ok: bool)
    ensures ok == EveryDrained(pilots)
  {
    for q := 0 to |pilots|
      invariant forall p :: p in pilots[..q] ==> Drained(p)
    {
      var p := pilots[q];
      if p.elasticsearch.None? || p.elasticsearch.value.documents.None?
         || p.elasticsearch.value.documents.value > 0 {
        assert p in pilots && !Drained(p);
        return false;
      }
    }
    return true;
  }

  /** canScaleNodePool; the not-found error of the pilot listing is reported as a refusal. */
  method CanScaleNodePool(pool: PoolSpec, setName: string, namespace: string, pilots: seq<Pilot>, replicas: int,
                          replicaDiff: int)
    returns (ok: bool)
    requires forall p :: p in pilots ==> p.namespace == namespace
    ensures ok <==> ScaleAllowed(pool.roles, setName, pilots, replicas, replicas + replicaDiff)
  {
    if replicaDiff >= 0 {
      return true;
    }
    var data := ContainsRole(pool.roles, Data);
    if !data {
      return true;
    }
    var all := PilotsForStatefulSet(pilots, setName, Some(replicas));
    if all.Err? {
      return false;
    }
    var toRemove := DeterminePilotsToBeRemoved(all.value, setName, namespace, Some(replicas), replicaDiff);
    RemovalDecides(pool.roles, setName, pilots, all.value, toRemove.value, replicas, replicas + replicaDiff);
    ok := AllDrained(toRemove.value);
  }

  /** Scale.Execute on a listed set. */
  function Scale(spec: ClusterSpec, k: nat, set_: StatefulSet, pilots: PilotLister): Outcome
    requires k < |spec.pools|
  {
    if set_.replicas.None? then Failed(NilReplicas)
    else if spec.pools[k].replicas == set_.replicas.value then Unchanged
    else if ScaleAllowed(spec.pools[k].roles, SetName(spec, k), pilots.labelled, set_.replicas.value,
                         spec.pools[k].replicas)
    then Write(set_.(replicas := Some(spec.pools[k].replicas)))
    else Unchanged
  }

  /** The lister of a namespace only ever returns its own objects. */
  predicate ListerOf(spec: ClusterSpec, pilots: PilotLister) {
    forall p :: p in pilots.labelled ==> p.namespace == spec.namespace
  }

  method ExecuteScale(spec: ClusterSpec, k: nat, set_: StatefulSet, pilots: PilotLister) returns (r: Outcome)
    requires k < |spec.pools|
    requires ListerOf(spec, pilots)
    ensures r == Scale(spec, k, set_, pilots)
  {
    if set_.replicas.None? {
      return Failed(NilReplicas);
    }
    var pool := spec.pools[k];
    var replicaDiff := pool.replicas - set_.replicas.value;
    if replicaDiff == 0 {
      return Unchanged;
    }
    var canScale := CanScaleNodePool(pool, SetName(spec, k), spec.namespace, pilots.labelled, set_.replicas.value,
                                     replicaDiff);
    if !canScale {
      return Unchanged;
    }
    var ssCopy := set_;
    ssCopy := ssCopy.(replicas := Some(pool.replicas));
    return Write(ssCopy);
  }

  /**
    No data is lost by scaling down: a write that lowers a data pool from n to m replicas
    implies a pilot for every ordinal below n, and for each ordinal in [m, n) that pilot
    reported a known document count that is not positive.
   */
  lemma ScaleDownOnlyDrained(spec: ClusterSpec, k: nat, set_: StatefulSet, pilots: PilotLister, i: nat)
    requires k < |spec.pools|
    requires Data in spec.pools[k].roles
    requires Scale(spec, k, set_, pilots).Write?
    requires spec.pools[k].replicas <= i < set_.replicas.value
    ensures Scale(spec, k, set_, pilots).set_.replicas == Some(spec.pools[k].replicas)
    ensures exists p ::
      && p in pilots.labelled && p.name == PilotName(SetName(spec, k), i)
      && p.elasticsearch.Some? && p.elasticsearch.value.documents.Some? && p.elasticsearch.value.documents.value <= 0
  {
    var p := FirstNamed(pilots.labelled, PilotName(SetName(spec, k), i));
    assert p.value in pilots.labelled && Drained(p.value);
  }

  // ----- UpdateVersion -----

  predicate PilotUpToDate(version: Version, p: Pilot) {
    p.elasticsearch.Some? && p.elasticsearch.value.version.Some?
    && VersionEqual(p.elasticsearch.value.version.value, version)
  }

  /** Every ordinal of the set has a labelled pilot that reports the version. */
  predicate PilotsUpToDate(version: Version, pilots: seq<Pilot>, setName: string, replicas: int) {
    forall i :: 0 <= i < replicas ==>
      FirstNamed(pilots, PilotName(setName, i)).Some?
      && PilotUpToDate(version, FirstNamed(pilots, PilotName(setName, i)).value)
  }

  method CheckPilotsUpToDate(version: Version, pilots: seq<Pilot>, setName: string, replicas: int) returns (ok: bool)
    ensures ok <==> PilotsUpToDate(version, pilots, setName, replicas)
  {
    var found := PilotsForStatefulSet(pilots, setName, Some(replicas));
    if found.Err? {
      return false;
    }
    for i := 0 to |found.value|
      invariant forall q :: 0 <= q < i ==> PilotUpToDate(version, found.value[q])
    {
      if !PilotUpToDate(version, found.value[i]) {
        assert FirstNamed(pilots, PilotName(setName, i)) == Some(found.value[i]);
        return false;
      }
    }
    return true;
  }

  /** Both operands are non-negative int32 values, so the subtraction does not wrap. */
  function NextPartition(replicas: int, updated: int): int {
    if replicas - updated - 1 == -1 then 0 else replicas - updated - 1
  }

  function CurrentPartition(set_: StatefulSet): int {
    if set_.partition.Some? then set_.partition.value else 0
  }

  /** UpdateVersion.Execute on a listed set. */
  function UpdateVersion(spec: ClusterSpec, k: nat, health: Option<Health>, set_: StatefulSet, pilots: PilotLister)
    : Outcome
    requires k < |spec.pools|
  {
    if health.None? then Failed(UnknownHealth)
    else if health.value.Red? then Unchanged
    else if set_.annotation.None? || set_.annotation.value.Malformed? then Unchanged
    else if VersionEqual(spec.version, set_.annotation.value.version) then Unchanged
    else if spec.image.None? then Unchanged
    else if set_.replicas.None? then Crashed
    else if set_.replicas.value != set_.ready || set_.image.None? then Unchanged
    else if PilotsUpToDate(spec.version, pilots.labelled, SetName(spec, k), set_.replicas.value)
    then Write(set_.(annotation := Some(Rendered(spec.version))))
    else
      var next := NextPartition(set_.replicas.value, set_.updated);
      var last := PilotName(SetName(spec, k), next + 1);
      if CurrentPartition(set_) == next && set_.image == spec.image then Unchanged
      else if next + 1 < set_.replicas.value && last !in pilots.byName then Failed(NotFound)
      else if next + 1 < set_.replicas.value && !PilotUpToDate(spec.version, pilots.byName[last]) then Unchanged
      else Write(set_.(partition := Some(next), image := spec.image))
  }

  method ExecuteUpdateVersion(spec: ClusterSpec, k: nat, health: Option<Health>, set_: StatefulSet,
                              pilots: PilotLister)
    returns (r: Outcome)
    requires k < |spec.pools|
    ensures r == UpdateVersion(spec, k, health, set_, pilots)
  {
    if health.None? {
      return Failed(UnknownHealth);
    }
    if health.value == Red {
      return Unchanged;
    }
    if set_.annotation.None? || set_.annotation.value.Malformed? {
      return Unchanged;
    }
    if VersionEqual(spec.version, set_.annotation.value.version) || spec.image.None? {
      return Unchanged;
    }
    if set_.replicas.None? {
      return Crashed;
    }
    var desiredReplicas := set_.replicas.value;
    var nextPartitionToUse := desiredReplicas - set_.updated - 1;
    if nextPartitionToUse == -1 {
      nextPartitionToUse := 0;
    }
    if desiredReplicas != set_.ready || set_.image.None? {
      return Unchanged;
    }
    var ssCopy := set_;
    var upToDate := CheckPilotsUpToDate(spec.version, pilots.labelled, SetName(spec, k), desiredReplicas);
    if upToDate {
      ssCopy := ssCopy.(annotation := Some(Rendered(spec.version)));
    } else if CurrentPartition(set_) != nextPartitionToUse || set_.image != spec.image {
      var lastReplicaUpdated := nextPartitionToUse + 1;
      if lastReplicaUpdated < desiredReplicas {
        var lastPilot := PilotName(SetName(spec, k), lastReplicaUpdated);
        if lastPilot !in pilots.byName {
          return Failed(NotFound);
        }
        if !PilotUpToDate(spec.version, pilots.byName[lastPilot]) {
          return Unchanged;
        }
      }
      ssCopy := ssCopy.(partition := Some(nextPartitionToUse));
      ssCopy := ssCopy.(image := spec.image);
    } else {
      return Unchanged;
    }
    return Write(ssCopy);
  }

  /** A pool without replicas is annotated with 6.1.2 on the first sync and keeps the image of 6.1.1. */
  lemma EmptyPoolKeepsImage(pilots: PilotLister)
    ensures var spec := ClusterSpec("c", "n", "u", Version("6.1.2", ""), Some("es:6.1.2"), [PoolSpec("p", 0, [Data])]);
      var s := StatefulSet(Some("es:6.1.1"), None, Some(Rendered(Version("6.1.1", ""))), Some(0), 0, 0);
      UpdateVersion(spec, 0, Some(Green), s, pilots)
      == Write(StatefulSet(Some("es:6.1.1"), None, Some(Rendered(Version("6.1.2", ""))), Some(0), 0, 0))
  {
  }

  /**
    The version annotation is truthful: the write that makes it match the spec happens only
    on a set whose status shows every replica ready and with a labelled pilot reporting the
    version at every ordinal; nothing else of the set changes.
   */
  lemma AnnotationTruthful(spec: ClusterSpec, k: nat, health: Option<Health>, set_: StatefulSet, pilots: PilotLister,
                           i: nat)
    requires k < |spec.pools|
    requires set_.annotation != Some(Rendered(spec.version))
    requires UpdateVersion(spec, k, health, set_, pilots).Write?
    requires UpdateVersion(spec, k, health, set_, pilots).set_.annotation == Some(Rendered(spec.version))
    ensures UpdateVersion(spec, k, health, set_, pilots).set_
            == set_.(annotation := Some(Rendered(spec.version)))
    ensures set_.replicas == Some(set_.ready)
    ensures health.Some? && health.value != Red
    ensures i < set_.ready ==>
      exists p ::
        && p in pilots.labelled && p.name == PilotName(SetName(spec, k), i)
        && p.elasticsearch.Some? && p.elasticsearch.value.version.Some?
        && p.elasticsearch.value.version.value.release == spec.version.release
  {
    if i < set_.ready {
      var p := FirstNamed(pilots.labelled, PilotName(SetName(spec, k), i));
      assert p.value in pilots.labelled && PilotUpToDate(spec.version, p.value);
    }
  }
}
