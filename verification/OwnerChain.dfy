/**
  Resolution of the cluster that owns an object, by following controller references through
  StatefulSets and Pods. The source recurses without a bound; here the number of lookups is
  explicit.
 */
module OwnerChain {
  import opened Common

  datatype Kind = ElasticsearchCluster | CassandraCluster | StatefulSet | Pod | OtherKind(name: string)

  datatype Ref = Ref(kind: Kind, name: string, uid: string, apiVersion: string)

  /** A set or a pod of the namespace, and its own controller reference. */
  datatype Key = Key(kind: Kind, name: string)

  type Store = map<Key, Option<Ref>>

  datatype Answer = Unowned | Root(ref: Ref) | UnsupportedOwner | OwnerMissing | StillLooking

  /** The reference names a set or pod that the store has, so that the search goes on from there. */
  predicate Continues(store: Store, ref: Option<Ref>) {
    ref.Some? && (ref.value.kind.StatefulSet? || ref.value.kind.Pod?) && KeyOf(ref.value) in store
  }

  function KeyOf(ref: Ref): Key {
    Key(ref.kind, ref.name)
  }

  /** RootControllerRef of an object with controller `ref`, after at most `lookups` lookups. */
  function RootControllerRef(store: Store, ref: Option<Ref>, lookups: nat): Answer
    decreases lookups
  {
    if ref.None? then Unowned
    else if ref.value.kind.ElasticsearchCluster? || ref.value.kind.CassandraCluster? then Root(ref.value)
    else if ref.value.kind.OtherKind? then UnsupportedOwner
    else if KeyOf(ref.value) !in store then OwnerMissing
    else if lookups == 0 then StillLooking
    else RootControllerRef(store, store[KeyOf(ref.value)], lookups - 1)
  }

  /** The reference reached after n lookups, while the search goes on. */
  function Reached(store: Store, ref: Option<Ref>, n: nat): Option<Ref> {
    if n == 0 then ref
    else
      var before := Reached(store, ref, n - 1);
      if Continues(store, before) then store[KeyOf(before.value)] else before
  }

  predicate GoesOn(store: Store, ref: Option<Ref>, n: nat) {
    Continues(store, Reached(store, ref, n))
  }

  lemma {:induction false} AnswerFrom(store: Store, ref: Option<Ref>, n: nat, more: nat)
    requires forall i :: 0 <= i < n ==> GoesOn(store, ref, i)
    ensures RootControllerRef(store, ref, n + more) == RootControllerRef(store, Reached(store, ref, n), more)
  {
    if n > 0 {
      AnswerFrom(store, ref, n - 1, more + 1);
      assert GoesOn(store, ref, n - 1);
    }
  }

  /** The search is still going on after n lookups exactly when it could go on from each of the first n + 1 stops. */
  lemma {:induction false} StillLookingIff(store: Store, ref: Option<Ref>, n: nat)
    ensures RootControllerRef(store, ref, n) == StillLooking
            <==> forall i :: 0 <= i <= n ==> GoesOn(store, ref, i)
  {
    assert RootControllerRef(store, Reached(store, ref, n), 0) == StillLooking <==> GoesOn(store, ref, n);
    if n > 0 {
      StillLookingIff(store, ref, n - 1);
      if forall i :: 0 <= i < n ==> GoesOn(store, ref, i) {
        AnswerFrom(store, ref, n, 0);
      } else {
        FinishedStays(store, ref, n - 1, n);
      }
    }
  }

  /** More lookups do not change an answer. */
  lemma {:induction false} FinishedStays(store: Store, ref: Option<Ref>, n: nat, m: nat)
    requires n <= m && RootControllerRef(store, ref, n) != StillLooking
    ensures RootControllerRef(store, ref, m) == RootControllerRef(store, ref, n)
    decreases n
  {
    if Continues(store, ref) {
      FinishedStays(store, store[KeyOf(ref.value)], n - 1, m - 1);
    }
  }

  /**
    The answer is what the last stop says: the very reference to a cluster of either kind, that
    there is no owner, that the owner is of another kind, or that it is missing.
   */
  lemma AnswerAtLastStop(store: Store, ref: Option<Ref>, n: nat, m: nat)
    requires n <= m && (forall i :: 0 <= i < n ==> GoesOn(store, ref, i)) && !GoesOn(store, ref, n)
    ensures var last, answer := Reached(store, ref, n), RootControllerRef(store, ref, m);
      && (answer == Unowned <==> last == None)
      && (forall root ::
            answer == Root(root)
            <==> last == Some(root) && (root.kind == ElasticsearchCluster || root.kind == CassandraCluster))
      && (answer == UnsupportedOwner <==> last.Some? && last.value.kind.OtherKind?)
      && (answer == OwnerMissing <==>
          last.Some? && (last.value.kind == StatefulSet || last.value.kind == Pod)
          && Key(last.value.kind, last.value.name) !in store)
  {
    AnswerFrom(store, ref, n, m - n);
  }

  /** More stops than stored objects: some object is visited twice. */
  lemma {:induction false} Pigeonhole<T>(keys: seq<T>, pool: set<T>) returns (i: nat, j: nat)
    requires |keys| > |pool| && forall k :: 0 <= k < |keys| ==> keys[k] in pool
    ensures i < j < |keys| && keys[i] == keys[j]
  {
    var n := |keys| - 1;
    if k :| 0 <= k < n && keys[k] == keys[n] {
      return k, n;
    }
    i, j := Pigeonhole(keys[..n], pool - {keys[n]});
  }

  /**
    An answer that any number of lookups gives is given within as many lookups as the namespace
    has sets and pods: a longer search visits an object twice, and then the recursion of the
    source never ends.
   */
  lemma EndsWithinStore(store: Store, ref: Option<Ref>, n: nat)
    ensures RootControllerRef(store, ref, n) != StillLooking ==>
      RootControllerRef(store, ref, |store|) == RootControllerRef(store, ref, n)
  {
    if RootControllerRef(store, ref, |store|) == StillLooking {
      Repeats(store, ref);
      TerminatesIff(store, ref);
    } else if n <= |store| {
      if RootControllerRef(store, ref, n) != StillLooking {
        FinishedStays(store, ref, n, |store|);
      }
    } else {
      FinishedStays(store, ref, |store|, n);
    }
  }

  /** The search comes by the same object at stops i and j. */
  predicate SameObject(store: Store, ref: Option<Ref>, i: nat, j: nat) {
    GoesOn(store, ref, i) && GoesOn(store, ref, j)
    && KeyOf(Reached(store, ref, i).value) == KeyOf(Reached(store, ref, j).value)
  }

  predicate VisitsTwice(store: Store, ref: Option<Ref>) {
    exists i, j :: 0 <= i < j <= |store| && SameObject(store, ref, i, j)
  }

  /**
    The recursion of the source ends if and only if no object is visited twice among the first
    stops, one more than there are objects.
   */
  lemma TerminatesIff(store: Store, ref: Option<Ref>)
    ensures (exists n: nat :: RootControllerRef(store, ref, n) != StillLooking) <==> !VisitsTwice(store, ref)
  {
    if VisitsTwice(store, ref) {
      var i, j :| 0 <= i < j <= |store| && SameObject(store, ref, i, j);
      StopsBefore(store, ref, j);
      forall n: nat ensures RootControllerRef(store, ref, n) == StillLooking {
        Cycles(store, ref, i, j, n);
      }
    } else {
      if RootControllerRef(store, ref, |store|) == StillLooking {
        Repeats(store, ref);
      }
      var n := |store|;
      assert RootControllerRef(store, ref, n) != StillLooking;
    }
  }

  /** A search that has used a lookup per object and goes on has visited some object twice. */
  lemma Repeats(store: Store, ref: Option<Ref>)
    requires RootControllerRef(store, ref, |store|) == StillLooking
    ensures VisitsTwice(store, ref)
  {
    StillLookingIff(store, ref, |store|);
    var keys := seq(|store| + 1, i requires 0 <= i <= |store| && GoesOn(store, ref, i) =>
      KeyOf(Reached(store, ref, i).value));
    var i, j := Pigeonhole(keys, store.Keys);
    assert SameObject(store, ref, i, j);
  }

  /** A stop from which the search goes on is only reached from such stops. */
  lemma {:induction false} StopsBefore(store: Store, ref: Option<Ref>, j: nat)
    requires GoesOn(store, ref, j)
    ensures forall k :: 0 <= k <= j ==> GoesOn(store, ref, k)
  {
    if j > 0 {
      StopsBefore(store, ref, j - 1);
    }
  }

  /** A pod and a set that own each other: the search for the owner of either never ends. */
  lemma {:induction false} OwnedByEachOther(n: nat)
    ensures var pod, sts := Ref(Pod, "p", "1", "v1"), Ref(StatefulSet, "s", "2", "apps/v1");
      var store: Store := map[Key(Pod, "p") := Some(sts), Key(StatefulSet, "s") := Some(pod)];
      && RootControllerRef(store, Some(pod), n) == StillLooking
      && RootControllerRef(store, Some(sts), n) == StillLooking
  {
    if n > 0 {
      OwnedByEachOther(n - 1);
    }
  }

  lemma {:induction false} Cycles(store: Store, ref: Option<Ref>, i: nat, j: nat, n: nat)
    requires i < j && forall k :: 0 <= k <= j ==> GoesOn(store, ref, k)
    requires GoesOn(store, ref, i) && GoesOn(store, ref, j)
    requires KeyOf(Reached(store, ref, i).value) == KeyOf(Reached(store, ref, j).value)
    ensures RootControllerRef(store, ref, n) == StillLooking
    decreases n
  {
    if n <= j {
      StillLookingIff(store, ref, n);
    } else {
      AnswerFrom(store, ref, j, n - j);
      AnswerFrom(store, ref, i, n - j);
      Cycles(store, ref, i, j, n - j + i);
    }
  }
}
