/**
  Deletion of node pools that are no longer in the spec. The controller lists the sets of
  the cluster, removes from the slice, in place, the first set labelled with each pool of
  the spec, and deletes what is left, as far as the cluster controls it.
 */
module ReconcileNodePools {
  import opened Common

  const NODE_POOL_LABEL := "navigator.jetstack.io/elasticsearch-node-pool-name"

  /** `controller` is the UID of the controlling owner, if any. */
  datatype ListedSet = ListedSet(name: string, labels: Option<map<string, string>>, controller: Option<string>)

  /** The node pool a set is labelled with; a missing key of an existing map reads as "". */
  function PoolLabel(s: ListedSet): Option<string> {
    if s.labels.None? then None
    else if NODE_POOL_LABEL in s.labels.value then Some(s.labels.value[NODE_POOL_LABEL])
    else Some("")
  }

  predicate LabelIn(s: ListedSet, pools: set<string>) {
    PoolLabel(s).Some? && PoolLabel(s).value in pools
  }

  predicate Controlled(s: ListedSet, uid: string) {
    s.controller == Some(uid)
  }

  // ----- The loops -----

  /** What one iteration of the outer loop leaves of the slice. */
  function RemoveFirst(sets: seq<ListedSet>, pool: string): seq<ListedSet> {
    if sets == [] then []
    else if PoolLabel(sets[0]) == Some(pool) then sets[1..]
    else [sets[0]] + RemoveFirst(sets[1..], pool)
  }

  function RemoveEach(sets: seq<ListedSet>, pools: seq<string>): seq<ListedSet>
    decreases |pools|
  {
    if pools == [] then sets else RemoveEach(RemoveFirst(sets, pools[0]), pools[1..])
  }

  lemma {:induction false} RemoveFirstAt(sets: seq<ListedSet>, pool: string, i: nat)
    requires i <= |sets|
    requires forall j :: 0 <= j < i ==> PoolLabel(sets[j]) != Some(pool)
    requires i < |sets| ==> PoolLabel(sets[i]) == Some(pool)
    ensures RemoveFirst(sets, pool) == if i < |sets| then sets[..i] + sets[i + 1..] else sets
  {
    if i > 0 {
      RemoveFirstAt(sets[1..], pool, i - 1);
    }
  }

  /** append(sets[:i], sets[i+1:]...): shifts the tail of the shared array one place down. */
  method RemoveAt(a: array<ListedSet>, len: nat, i: nat)
    requires i < len <= a.Length
    modifies a
    ensures a[..len - 1] == old(a[..i]) + old(a[i + 1..len])
  {
    for j := i to len - 1
      invariant a[..j] == old(a[..i]) + old(a[i + 1..j + 1])
      invariant a[j + 1..] == old(a[j + 1..])
    {
      a[j] := a[j + 1];
    }
  }

  /** The inner loop: the first set with the label, or the length of the slice. */
  method FindLabelled(a: array<ListedSet>, len: nat, pool: string) returns (i: nat)
    requires len <= a.Length
    ensures i <= len && (i < len ==> PoolLabel(a[i]) == Some(pool))
    ensures forall j :: 0 <= j < i ==> PoolLabel(a[j]) != Some(pool)
  {
    i := 0;
    while i < len && PoolLabel(a[i]) != Some(pool)
      invariant 0 <= i <= len
      invariant forall j :: 0 <= j < i ==> PoolLabel(a[j]) != Some(pool)
    {
      i := i + 1;
    }
  }

  method RemoveReferenced(a: array<ListedSet>, pools: seq<string>) returns (len: nat)
    modifies a
    ensures len <= a.Length && a[..len] == RemoveEach(old(a[..]), pools)
  {
    len := a.Length;
    assert a[..len] == a[..] && pools[0..] == pools;
    for k := 0 to |pools|
      invariant len <= a.Length
      invariant RemoveEach(old(a[..]), pools) == RemoveEach(a[..len], pools[k..])
    {
      ghost var before := a[..len];
      var i := FindLabelled(a, len, pools[k]);
      RemoveFirstAt(before, pools[k], i);
      if i < len {
        RemoveAt(a, len, i);
        len := len - 1;
      }
      assert a[..len] == RemoveFirst(before, pools[k]);
      assert pools[k..][1..] == pools[k + 1..];
    }
  }

  function OnlyControlled(sets: seq<ListedSet>, uid: string): seq<ListedSet> {
    if sets == [] then []
    else IfControlled(sets[0], uid) + OnlyControlled(sets[1..], uid)
  }

  function IfControlled(s: ListedSet, uid: string): seq<ListedSet> {
    if Controlled(s, uid) then [s] else []
  }

  lemma {:induction false} OnlyControlledSnoc(sets: seq<ListedSet>, uid: string, s: ListedSet)
    ensures OnlyControlled(sets + [s], uid) == OnlyControlled(sets, uid) + IfControlled(s, uid)
  {
    if sets == [] {
      assert (sets + [s])[1..] == [];
    } else {
      assert (sets + [s])[1..] == sets[1..] + [s];
      OnlyControlledSnoc(sets[1..], uid, s);
      assert OnlyControlled(sets + [s], uid)
             == IfControlled(sets[0], uid) + (OnlyControlled(sets[1..], uid) + IfControlled(s, uid));
    }
  }

  /** The sets deleted when the first refusal ends the loop. */
  function UpToRefusal(sets: seq<ListedSet>, refused: set<string>): (r: seq<ListedSet>)
    ensures r <= sets && (forall s :: s in r ==> s.name !in refused)
    ensures |r| < |sets| ==> sets[|r|].name in refused
  {
    if sets == [] || sets[0].name in refused then [] else [sets[0]] + UpToRefusal(sets[1..], refused)
  }

  lemma {:induction false} UpToRefusalUnique(sets: seq<ListedSet>, refused: set<string>, r: seq<ListedSet>)
    requires r <= sets && (forall s :: s in r ==> s.name !in refused)
    requires |r| < |sets| ==> sets[|r|].name in refused
    ensures r == UpToRefusal(sets, refused)
  {
    if r != [] {
      assert r[0] in r && r == [r[0]] + r[1..];
      UpToRefusalUnique(sets[1..], refused, r[1..]);
    }
  }

  /**
    reconcileNodePools on the listed sets; `refused` are the names whose deletion the API
    server rejects, and the first rejection ends the loop.
   */
  method Reconcile(listed: array<ListedSet>, pools: seq<string>, uid: string, refused: set<string>)
    returns (deleted: seq<ListedSet>, ok: bool)
    modifies listed
    ensures deleted == UpToRefusal(ToDelete(old(listed[..]), pools, uid), refused)
    ensures ok <==> deleted == ToDelete(old(listed[..]), pools, uid)
  {
    var len := RemoveReferenced(listed, pools);
    ghost var rest := listed[..len];
    deleted := [];
    for i := 0 to len
      invariant listed[..len] == rest
      invariant deleted == OnlyControlled(rest[..i], uid)
      invariant forall s :: s in deleted ==> s.name !in refused
    {
      assert rest[..i + 1] == rest[..i] + [rest[i]];
      OnlyControlledSnoc(rest[..i], uid, rest[i]);
      if Controlled(listed[i], uid) {
        if listed[i].name in refused {
          OnlyControlledPrefix(rest, uid, i + 1);
          UpToRefusalUnique(OnlyControlled(rest, uid), refused, deleted);
          return deleted, false;
        }
        deleted := deleted + [listed[i]];
      }
    }
    assert rest[..len] == rest;
    UpToRefusalUnique(OnlyControlled(rest, uid), refused, deleted);
    return deleted, true;
  }

  lemma {:induction false} OnlyControlledPrefix(sets: seq<ListedSet>, uid: string, i: nat)
    requires i <= |sets|
    ensures OnlyControlled(sets[..i], uid) <= OnlyControlled(sets, uid)
  {
    if i > 0 {
      assert sets[..i][1..] == sets[1..][..i - 1];
      OnlyControlledPrefix(sets[1..], uid, i - 1);
    }
  }

  function ToDelete(sets: seq<ListedSet>, pools: seq<string>, uid: string): seq<ListedSet> {
    OnlyControlled(RemoveEach(sets, pools), uid)
  }

  // ----- What that amounts to -----

  /** One pass over the sets: each pool of the spec claims the first set with its label. */
  function Unclaimed(sets: seq<ListedSet>, pools: set<string>): seq<ListedSet> {
    if sets == [] then []
    else
      if LabelIn(sets[0], pools) then Unclaimed(sets[1..], pools - {PoolLabel(sets[0]).value})
      else [sets[0]] + Unclaimed(sets[1..], pools)
  }

  function Claimed(sets: seq<ListedSet>, pools: set<string>): seq<ListedSet> {
    if sets == [] then []
    else
      if LabelIn(sets[0], pools) then [sets[0]] + Claimed(sets[1..], pools - {PoolLabel(sets[0]).value})
      else Claimed(sets[1..], pools)
  }

  function NotControlled(sets: seq<ListedSet>, uid: string): seq<ListedSet> {
    if sets == [] then []
    else (if Controlled(sets[0], uid) then [] else [sets[0]]) + NotControlled(sets[1..], uid)
  }

  function Names(pools: seq<string>): set<string> {
    set p | p in pools
  }

  predicate Distinct(pools: seq<string>) {
    forall i, j :: 0 <= i < j < |pools| ==> pools[i] != pools[j]
  }

  lemma {:induction false} RemoveFirstClaims(sets: seq<ListedSet>, pool: string, pools: set<string>)
    requires pool !in pools
    ensures Unclaimed(RemoveFirst(sets, pool), pools) == Unclaimed(sets, pools + {pool})
  {
    if sets == [] {
    } else if PoolLabel(sets[0]) == Some(pool) {
      assert pools + {pool} - {pool} == pools;
    } else {
      if LabelIn(sets[0], pools) {
        var tag := PoolLabel(sets[0]).value;
        RemoveFirstClaims(sets[1..], pool, pools - {tag});
        assert pools + {pool} - {tag} == pools - {tag} + {pool};
      } else {
        RemoveFirstClaims(sets[1..], pool, pools);
      }
    }
  }

  /** The repeated in-place removal is the single pass, whatever the labels are. */
  lemma {:induction false} RemoveEachIsOnePass(sets: seq<ListedSet>, pools: seq<string>)
    requires Distinct(pools)
    ensures RemoveEach(sets, pools) == Unclaimed(sets, Names(pools))
    decreases |pools|
  {
    if pools == [] {
      assert Names(pools) == {};
      UnclaimedNone(sets);
    } else {
      RemoveEachIsOnePass(RemoveFirst(sets, pools[0]), pools[1..]);
      RemoveFirstClaims(sets, pools[0], Names(pools[1..]));
      assert Names(pools) == Names(pools[1..]) + {pools[0]};
    }
  }

  lemma {:induction false} UnclaimedNone(sets: seq<ListedSet>)
    ensures Unclaimed(sets, {}) == sets
  {
    if sets != [] {
      UnclaimedNone(sets[1..]);
    }
  }

  /** Controlled by the cluster, with a label that names no pool of the spec. */
  predicate Unreferenced(s: ListedSet, pools: set<string>, uid: string) {
    Controlled(s, uid) && !LabelIn(s, pools)
  }

  function OnlyUnreferenced(sets: seq<ListedSet>, pools: set<string>, uid: string): seq<ListedSet> {
    if sets == [] then []
    else (if Unreferenced(sets[0], pools, uid) then [sets[0]] else []) + OnlyUnreferenced(sets[1..], pools, uid)
  }

  /** No controlled set shares a label of the spec with a set listed before it. */
  predicate NoShadowing(sets: seq<ListedSet>, pools: set<string>, uid: string) {
    forall i, j | 0 <= i < j < |sets| && Controlled(sets[j], uid) && LabelIn(sets[j], pools) ::
      PoolLabel(sets[i]) != PoolLabel(sets[j])
  }

  /** `left` are the labels nobody has claimed yet. */
  predicate SafeFrom(sets: seq<ListedSet>, left: set<string>, pools: set<string>, uid: string) {
    && (forall j | 0 <= j < |sets| && Controlled(sets[j], uid) && LabelIn(sets[j], pools) :: LabelIn(sets[j], left))
    && NoShadowing(sets, pools, uid)
  }

  /** The labels left after the first set of the list. */
  function LeftAfter(s: ListedSet, left: set<string>): set<string> {
    if LabelIn(s, left) then left - {PoolLabel(s).value} else left
  }

  /** How the two sides grow by the first set of the list. */
  lemma HeadStep(sets: seq<ListedSet>, left: set<string>, pools: set<string>, uid: string)
    requires left <= pools && sets != []
    ensures OnlyControlled(Unclaimed(sets, left), uid)
            == (if !LabelIn(sets[0], left) && Controlled(sets[0], uid) then [sets[0]] else [])
               + OnlyControlled(Unclaimed(sets[1..], LeftAfter(sets[0], left)), uid)
    ensures OnlyUnreferenced(sets, pools, uid)
            == (if !LabelIn(sets[0], pools) && Controlled(sets[0], uid) then [sets[0]] else [])
               + OnlyUnreferenced(sets[1..], pools, uid)
  {
    if !LabelIn(sets[0], left) {
      assert Unclaimed(sets, left)[1..] == Unclaimed(sets[1..], left);
    }
  }

  lemma {:induction false} DeletesMore(sets: seq<ListedSet>, left: set<string>, pools: set<string>, uid: string)
    requires left <= pools
    ensures |OnlyUnreferenced(sets, pools, uid)| <= |OnlyControlled(Unclaimed(sets, left), uid)|
  {
    if sets != [] {
      HeadStep(sets, left, pools, uid);
      DeletesMore(sets[1..], LeftAfter(sets[0], left), pools, uid);
    }
  }

  lemma {:induction false} ExactlyWhenSafe(sets: seq<ListedSet>, left: set<string>, pools: set<string>, uid: string)
    requires left <= pools
    ensures OnlyControlled(Unclaimed(sets, left), uid) == OnlyUnreferenced(sets, pools, uid)
            <==> SafeFrom(sets, left, pools, uid)
  {
    if sets != [] {
      var left' := LeftAfter(sets[0], left);
      HeadStep(sets, left, pools, uid);
      DeletesMore(sets[1..], left', pools, uid);
      ExactlyWhenSafe(sets[1..], left', pools, uid);
      SafeStep(sets, left, pools, uid);
      var a, b := OnlyControlled(Unclaimed(sets[1..], left'), uid), OnlyUnreferenced(sets[1..], pools, uid);
      assert [] + a == a && [] + b == b;
      Cancel([sets[0]], a, b);
    }
  }

  lemma Cancel<T>(x: seq<T>, a: seq<T>, b: seq<T>)
    ensures x + a == x + b <==> a == b
  {
    if x + a == x + b {
      assert a == (x + a)[|x|..] == (x + b)[|x|..] == b;
    }
  }

  lemma SafeStep(sets: seq<ListedSet>, left: set<string>, pools: set<string>, uid: string)
    requires left <= pools && sets != []
    ensures SafeFrom(sets, left, pools, uid)
            <==> SafeFrom(sets[1..], LeftAfter(sets[0], left), pools, uid)
                 && (Controlled(sets[0], uid) && LabelIn(sets[0], pools) ==> LabelIn(sets[0], left))
  {
    var rest := sets[1..];
    assert forall j :: 0 <= j < |rest| ==> rest[j] == sets[j + 1];
    assert forall j :: 0 < j < |sets| ==> sets[j] == rest[j - 1];
  }

  /**
    The sets deleted are exactly the controlled ones whose label names no pool of the spec, if
    and only if no controlled set shares a label of the spec with a set listed before it.
   */
  lemma DeletesExactlyUnreferenced(sets: seq<ListedSet>, pools: seq<string>, uid: string)
    requires Distinct(pools)
    ensures ToDelete(sets, pools, uid) == OnlyUnreferenced(sets, Names(pools), uid)
            <==> NoShadowing(sets, Names(pools), uid)
  {
    var all := Names(pools);
    RemoveEachIsOnePass(sets, pools);
    ExactlyWhenSafe(sets, all, all, uid);
  }

  // ----- What happens to each set -----

  predicate DistinctSets(sets: seq<ListedSet>) {
    forall i, j :: 0 <= i < j < |sets| ==> sets[i].name != sets[j].name
  }

  /** Some set listed before it has the same label. */
  predicate Shadowed(sets: seq<ListedSet>, j: nat)
    requires j < |sets|
  {
    exists i :: 0 <= i < j && PoolLabel(sets[i]) == PoolLabel(sets[j])
  }

  lemma {:induction false} UnclaimedAreListed(sets: seq<ListedSet>, left: set<string>)
    ensures forall s :: s in Unclaimed(sets, left) ==> s in sets
  {
    if sets != [] {
      UnclaimedAreListed(sets[1..], LeftAfter(sets[0], left));
    }
  }

  lemma {:induction false} UnclaimedIff(sets: seq<ListedSet>, left: set<string>, j: nat)
    requires DistinctSets(sets) && j < |sets|
    ensures sets[j] in Unclaimed(sets, left) <==> !LabelIn(sets[j], left) || Shadowed(sets, j)
  {
    var rest, left' := sets[1..], LeftAfter(sets[0], left);
    UnclaimedAreListed(rest, left');
    if j > 0 {
      assert rest[j - 1] == sets[j];
      UnclaimedIff(rest, left', j - 1);
      assert Shadowed(sets, j) <==> PoolLabel(sets[0]) == PoolLabel(sets[j]) || Shadowed(rest, j - 1) by {
        assert forall i :: 0 <= i < |rest| ==> rest[i] == sets[i + 1];
        if i :| 0 < i < j && PoolLabel(sets[i]) == PoolLabel(sets[j]) {
          assert PoolLabel(rest[i - 1]) == PoolLabel(rest[j - 1]);
        }
      }
    }
  }

  lemma {:induction false} OnlyControlledIff(sets: seq<ListedSet>, uid: string, s: ListedSet)
    ensures s in OnlyControlled(sets, uid) <==> s in sets && Controlled(s, uid)
  {
    if sets != [] {
      OnlyControlledIff(sets[1..], uid, s);
    }
  }

  /**
    A listed set is to be deleted if and only if the cluster controls it and either its label names
    no pool of the spec or a set listed before it has the same label.
   */
  lemma ToDeleteIff(sets: seq<ListedSet>, pools: seq<string>, uid: string, j: nat)
    requires Distinct(pools) && DistinctSets(sets) && j < |sets|
    ensures sets[j] in ToDelete(sets, pools, uid)
            <==> Controlled(sets[j], uid) && (!LabelIn(sets[j], Names(pools)) || Shadowed(sets, j))
  {
    RemoveEachIsOnePass(sets, pools);
    UnclaimedIff(sets, Names(pools), j);
    OnlyControlledIff(RemoveEach(sets, pools), uid, sets[j]);
  }

  lemma ToDeleteAreListed(sets: seq<ListedSet>, pools: seq<string>, uid: string, s: ListedSet)
    requires Distinct(pools) && s in ToDelete(sets, pools, uid)
    ensures s in sets
  {
    RemoveEachIsOnePass(sets, pools);
    OnlyControlledIff(RemoveEach(sets, pools), uid, s);
    UnclaimedAreListed(sets, Names(pools));
  }

  /** A second set with the label of a live pool is deleted although the pool is in the spec. */
  lemma DuplicateLabelDeleted(uid: string, labels: map<string, string>)
    requires NODE_POOL_LABEL in labels && labels[NODE_POOL_LABEL] == "data"
    ensures var a, b := ListedSet("a", Some(labels), Some(uid)), ListedSet("b", Some(labels), Some(uid));
      ToDelete([a, b], ["data"], uid) == [b]
  {
    var a, b := ListedSet("a", Some(labels), Some(uid)), ListedSet("b", Some(labels), Some(uid));
    assert RemoveFirst([a, b], "data") == [b];
    assert ["data"][1..] == [];
    assert RemoveEach([a, b], ["data"]) == RemoveEach([b], []) == [b];
    assert OnlyControlled([b], uid) == [b] + OnlyControlled([b][1..], uid);
  }

  lemma {:induction false} ClaimPartition(sets: seq<ListedSet>, pools: set<string>)
    ensures multiset(sets) == multiset(Claimed(sets, pools)) + multiset(Unclaimed(sets, pools))
  {
    if sets != [] {
      ClaimPartition(sets[1..], LeftAfter(sets[0], pools));
      assert sets == [sets[0]] + sets[1..];
    }
  }

  lemma {:induction false} ControlPartition(sets: seq<ListedSet>, uid: string)
    ensures multiset(sets) == multiset(OnlyControlled(sets, uid)) + multiset(NotControlled(sets, uid))
  {
    if sets != [] {
      ControlPartition(sets[1..], uid);
      assert sets == [sets[0]] + sets[1..];
    }
  }

  /** Kept, foreign and deleted sets partition the listed ones. */
  lemma ReconcilePartition(sets: seq<ListedSet>, pools: seq<string>, uid: string)
    requires Distinct(pools)
    ensures multiset(sets) == multiset(Claimed(sets, Names(pools)))
                              + multiset(NotControlled(RemoveEach(sets, pools), uid))
                              + multiset(ToDelete(sets, pools, uid))
  {
    RemoveEachIsOnePass(sets, pools);
    ClaimPartition(sets, Names(pools));
    ControlPartition(RemoveEach(sets, pools), uid);
  }
}
