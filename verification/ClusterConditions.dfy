/** The Progressing condition of a cluster, kept by every sync of either controller. */
module ClusterConditions {
  import opened Common

  datatype ConditionType = Available | Progressing

  datatype ConditionStatus = True | False | Undetermined

  datatype Condition = Condition(kind: ConditionType, status: ConditionStatus, reason: string, message: string,
                                 time: int)

  const PAUSED := "ClusterPaused"
  const RESUMED := "ClusterResumed"

  /** The first condition of a type. */
  function Get(conditions: seq<Condition>, kind: ConditionType): (r: Option<Condition>)
    ensures r.Some? ==> r.value in conditions && r.value.kind == kind
    ensures r.None? ==> forall c :: c in conditions ==> c.kind != kind
  {
    if conditions == [] then None
    else if conditions[0].kind == kind then Some(conditions[0])
    else Get(conditions[1..], kind)
  }

  /** The new condition in place of one with the same type; the time is kept while the status is. */
  function Stamped(c: Condition, before: Condition): Condition {
    if before.status != c.status then c else c.(time := before.time)
  }

  /** Overwrites the first condition of the type of `c`; leaves the list alone when there is none. */
  function Overwrite(conditions: seq<Condition>, c: Condition): seq<Condition> {
    if conditions == [] then []
    else if conditions[0].kind == c.kind then [Stamped(c, conditions[0])] + conditions[1..]
    else [conditions[0]] + Overwrite(conditions[1..], c)
  }

  lemma {:induction false} OverwriteAt(conditions: seq<Condition>, c: Condition, i: nat)
    requires i <= |conditions| && forall j :: 0 <= j < i ==> conditions[j].kind != c.kind
    requires i < |conditions| ==> conditions[i].kind == c.kind
    ensures Overwrite(conditions, c)
            == if i < |conditions| then conditions[i := Stamped(c, conditions[i])] else conditions
  {
    if i > 0 {
      OverwriteAt(conditions[1..], c, i - 1);
    }
  }

  /** UpdateStatusCondition at the time `c.time`. */
  function Updated(conditions: seq<Condition>, c: Condition): seq<Condition> {
    if conditions == [] then [c] else Overwrite(conditions, c)
  }

  /** syncPausedConditions. */
  function Synced(conditions: seq<Condition>, paused: bool, now: int): seq<Condition> {
    var cond := Get(conditions, Progressing);
    var pausedCondExists := cond.Some? && cond.value.reason == PAUSED;
    if paused && !pausedCondExists then Updated(conditions, PauseCondition(true, now))
    else if !paused && pausedCondExists then Updated(conditions, PauseCondition(false, now))
    else conditions
  }

  /** What the condition says of a paused, or of a resumed, cluster. */
  function PauseCondition(paused: bool, time: int): Condition {
    if paused then Condition(Progressing, False, PAUSED, "Cluster is paused", time)
    else Condition(Progressing, True, RESUMED, "Cluster is resumed", time)
  }

  /** The status that the methods of the source update in place. */
  class ClusterStatus {
    var conditions: seq<Condition>

    constructor (conditions: seq<Condition>)
      ensures this.conditions == conditions
    {
      this.conditions := conditions;
    }

    method GetStatusCondition(kind: ConditionType) returns (r: Option<Condition>)
      ensures r == Get(conditions, kind)
    {
      var i := 0;
      while i < |conditions| && conditions[i].kind != kind
        invariant 0 <= i <= |conditions|
        invariant Get(conditions, kind) == Get(conditions[i..], kind)
      {
        assert conditions[i..][1..] == conditions[i + 1..];
        i := i + 1;
      }
      return if i < |conditions| then Some(conditions[i]) else None;
    }

    method UpdateStatusCondition(kind: ConditionType, status: ConditionStatus, reason: string, message: string,
                                 now: int)
      modifies this
      ensures conditions == Updated(old(conditions), Condition(kind, status, reason, message, now))
    {
      var newCondition := Condition(kind, status, reason, message, now);
      if conditions == [] {
        conditions := [newCondition];
        return;
      }
      var i := 0;
      while i < |conditions|
        invariant 0 <= i <= |conditions| && conditions == old(conditions)
        invariant forall j :: 0 <= j < i ==> conditions[j].kind != kind
      {
        var cond := conditions[i];
        if cond.kind == kind {
          OverwriteAt(conditions, newCondition, i);
          if cond.status == newCondition.status {
            newCondition := newCondition.(time := cond.time);
          }
          conditions := conditions[i := newCondition];
          return;
        }
        i := i + 1;
      }
      OverwriteAt(conditions, newCondition, i);
    }

    method SyncPausedConditions(paused: bool, now: int)
      modifies this
      ensures conditions == Synced(old(conditions), paused, now)
    {
      var cond := GetStatusCondition(Progressing);
      var pausedCondExists := cond.Some? && cond.value.reason == PAUSED;
      if paused && !pausedCondExists {
        UpdateStatusCondition(Progressing, False, PAUSED, "Cluster is paused", now);
      } else if !paused && pausedCondExists {
        UpdateStatusCondition(Progressing, True, RESUMED, "Cluster is resumed", now);
      }
    }
  }

  /**
    An update of a condition takes effect if and only if the list was empty or already had a
    condition of that type; a first condition of a second type is silently dropped.
   */
  lemma {:induction false} UpdateTakesEffectIff(conditions: seq<Condition>, c: Condition)
    ensures Get(Updated(conditions, c), c.kind).Some? <==> conditions == [] || Get(conditions, c.kind).Some?
    ensures conditions == [] ==> Updated(conditions, c) == [c]
    ensures Get(conditions, c.kind).Some? ==>
      Get(Updated(conditions, c), c.kind)
      == Some(c.(time := if Get(conditions, c.kind).value.status == c.status then Get(conditions, c.kind).value.time
                         else c.time))
    ensures forall kind :: kind != c.kind ==> Get(Updated(conditions, c), kind) == Get(conditions, kind)
    ensures conditions != [] && Get(conditions, c.kind).None? ==> Updated(conditions, c) == conditions
    ensures conditions != [] ==> |Updated(conditions, c)| == |conditions|
  {
    if conditions != [] && conditions[0].kind != c.kind {
      UpdateTakesEffectIff(conditions[1..], c);
      assert [conditions[0]] + conditions[1..] == conditions;
      assert Overwrite(conditions, c)[1..] == Overwrite(conditions[1..], c);
    }
  }

  /** A status that holds only an Available condition never gets a Progressing one, paused or not. */
  lemma SecondTypeDropped(available: Condition, paused: bool, now: int)
    requires available.kind == Available
    ensures Updated([available], PauseCondition(paused, now)) == [available]
    ensures Synced([available], paused, now) == [available]
  {
    UpdateTakesEffectIff([available], PauseCondition(paused, now));
    assert [available][1..] == [];
  }

  // ----- Runs of syncs -----

  datatype Observation = Observation(paused: bool, now: int)

  /** The conditions after syncs that saw the given flags at the given times, from an empty status. */
  function After(h: seq<Observation>): seq<Condition> {
    if h == [] then [] else Synced(After(h[..|h| - 1]), h[|h| - 1].paused, h[|h| - 1].now)
  }

  /** The flag differs from the one before; a cluster starts out running. */
  predicate Flip(h: seq<Observation>, i: nat) {
    i < |h| && h[i].paused != (i > 0 && h[i - 1].paused)
  }

  predicate LastFlip(h: seq<Observation>, i: nat) {
    Flip(h, i) && forall j :: i < j < |h| ==> !Flip(h, j)
  }

  /** A sync on the one condition that earlier syncs leave: kept while the flag is, replaced when it flips. */
  lemma SyncedOne(was: bool, time: int, paused: bool, now: int)
    ensures Synced([PauseCondition(was, time)], paused, now)
            == [if paused == was then PauseCondition(was, time) else PauseCondition(paused, now)]
  {
    assert [PauseCondition(was, time)][1..] == [];
  }

  lemma {:induction false} AfterInv(h: seq<Observation>) returns (i: nat)
    ensures (forall j :: 0 <= j < |h| ==> !h[j].paused) ==> After(h) == []
    ensures (exists j :: 0 <= j < |h| && h[j].paused) ==>
      LastFlip(h, i) && After(h) == [PauseCondition(h[|h| - 1].paused, h[i].now)]
  {
    i := 0;
    if h != [] {
      var rest, last := h[..|h| - 1], |h| - 1;
      i := AfterInv(rest);
      assert forall j :: 0 <= j < last ==> rest[j] == h[j];
      assert forall j :: 0 <= j < last ==> (Flip(rest, j) <==> Flip(h, j));
      if Flip(h, last) {
        i := last;
      }
      if After(rest) != [] {
        SyncedOne(rest[last - 1].paused, After(rest)[0].time, h[last].paused, h[last].now);
      }
    }
  }

  /**
    After any syncs with any toggling of the flag there is at most one condition: none if the
    cluster was never paused, otherwise one that tells the latest flag, with the time of the
    last flip as its transition time.
   */
  lemma ConditionTellsLatestFlag(h: seq<Observation>)
    ensures (forall j :: 0 <= j < |h| ==> !h[j].paused) <==> After(h) == []
    ensures After(h) != [] ==>
      && |After(h)| == 1 && After(h)[0].kind == Progressing
      && After(h)[0].status == (if h[|h| - 1].paused then False else True)
      && After(h)[0].reason == (if h[|h| - 1].paused then "ClusterPaused" else "ClusterResumed")
      && exists i: nat :: LastFlip(h, i) && After(h)[0].time == h[i].now
  {
    var i := AfterInv(h);
  }
}
