/**
  The scheduled work queue of the pilot: one timer per key, in a map guarded by a lock. Every
  locked section is one atomic step, and so is the firing of a timer; the callback of a fired
  timer runs the process function and then, deferred, clears the timer under its key.
 */
module Scheduler {

  type Key = string

  /** Armed until it fires (Running, then Finished) or is stopped. */
  datatype Status = Armed | Running | Finished | Stopped

  datatype Timer = Timer(key: Key, status: Status)

  /** Timers are numbered in the order of their creation; `work` maps a key to the number of its timer. */
  datatype Queue = Queue(work: map<Key, nat>, timers: seq<Timer>)

  predicate WellFormed(q: Queue) {
    forall k :: k in q.work ==> q.work[k] < |q.timers|
  }

  /** Stop prevents a timer from firing; it does nothing to one that has fired. */
  function StopTimer(timers: seq<Timer>, id: nat): seq<Timer>
    requires id < |timers|
  {
    if timers[id].status == Armed then timers[id := timers[id].(status := Stopped)] else timers
  }

  /** clearTimer. */
  function Clear(q: Queue, key: Key): Queue
    requires WellFormed(q)
  {
    if key in q.work then Queue(q.work - {key}, StopTimer(q.timers, q.work[key])) else q
  }

  /** The second locked section of AddWithKey. */
  function Store(q: Queue, key: Key): Queue {
    Queue(q.work[key := |q.timers|], q.timers + [Timer(key, Armed)])
  }

  function Fire(q: Queue, id: nat): Queue
    requires id < |q.timers| && q.timers[id].status == Armed
  {
    q.(timers := q.timers[id := q.timers[id].(status := Running)])
  }

  /** The process function has returned: the deferred clearTimer of the callback. */
  function Return(q: Queue, id: nat): Queue
    requires WellFormed(q) && id < |q.timers| && q.timers[id].status == Running
  {
    Clear(q.(timers := q.timers[id := q.timers[id].(status := Finished)]), q.timers[id].key)
  }

  /** The queue as the object the pilot uses. */
  class ScheduledWorkQueue {
    var work: map<Key, nat>
    var timers: seq<Timer>

    ghost function View(): Queue
      reads this
    {
      Queue(work, timers)
    }

    constructor ()
      ensures View() == Queue(map[], [])
    {
      work := map[];
      timers := [];
    }

    method ClearTimer(key: Key)
      requires WellFormed(View())
      modifies this
      ensures View() == Clear(old(View()), key) && WellFormed(View())
    {
      if key in work {
        var id := work[key];
        if timers[id].status == Armed {
          timers := timers[id := timers[id].(status := Stopped)];
        }
        work := work - {key};
      }
    }

    /** AddWithKey while nothing else holds the lock in between. */
    method AddWithKey(key: Key)
      requires WellFormed(View())
      modifies this
      ensures View() == Store(Clear(old(View()), key), key) && WellFormed(View())
    {
      ClearTimer(key);
      work := work[key := |timers|];
      timers := timers + [Timer(key, Armed)];
    }

    method Forget(key: Key)
      requires WellFormed(View())
      modifies this
      ensures View() == Clear(old(View()), key) && WellFormed(View())
    {
      ClearTimer(key);
    }

    /** An armed timer fires; its callback begins to run the process function. */
    method BeginCallback(id: nat)
      requires WellFormed(View()) && id < |timers| && timers[id].status == Armed
      modifies this
      ensures View() == Fire(old(View()), id) && WellFormed(View())
    {
      timers := timers[id := timers[id].(status := Running)];
    }

    /** The process function has returned, after whatever else happened meanwhile: the deferred clear. */
    method EndCallback(id: nat)
      requires WellFormed(View()) && id < |timers| && timers[id].status == Running
      modifies this
      ensures View() == Return(old(View()), id) && WellFormed(View())
    {
      timers := timers[id := timers[id].(status := Finished)];
      ClearTimer(timers[id].key);
    }
  }

  // ----- Runs -----

  /** `adding` are the calls of AddWithKey between their two locked sections. */
  datatype State = State(queue: Queue, adding: multiset<Key>)

  datatype Step =
    | BeginAdd(key: Key) | EndAdd(key: Key) | ForgetKey(key: Key)
    | FireTimer(id: nat) | ReturnTimer(id: nat)

  predicate Enabled(s: State, step: Step) {
    && WellFormed(s.queue)
    && match step
       case BeginAdd(_) => true
       case EndAdd(k) => k in s.adding
       case ForgetKey(_) => true
       case FireTimer(id) => id < |s.queue.timers| && s.queue.timers[id].status == Armed
       case ReturnTimer(id) => id < |s.queue.timers| && s.queue.timers[id].status == Running
  }

  function Next(s: State, step: Step): (s': State)
    requires Enabled(s, step)
    ensures WellFormed(s'.queue)
  {
    match step
    case BeginAdd(k) => State(Clear(s.queue, k), s.adding + multiset{k})
    case EndAdd(k) => State(Store(s.queue, k), s.adding - multiset{k})
    case ForgetKey(k) => s.(queue := Clear(s.queue, k))
    case FireTimer(id) => s.(queue := Fire(s.queue, id))
    case ReturnTimer(id) => s.(queue := Return(s.queue, id))
  }

  const EMPTY := State(Queue(map[], []), multiset{})

  predicate IsRun(states: seq<State>, steps: seq<Step>) {
    && |states| == |steps| + 1 && states[0] == EMPTY
    && forall i :: 0 <= i < |steps| ==> Enabled(states[i], steps[i]) && states[i + 1] == Next(states[i], steps[i])
  }

  /** No two calls of AddWithKey overlap with the same key. */
  ghost predicate SerialState(s: State) {
    forall k :: s.adding[k] <= 1
  }

  ghost predicate Serial(states: seq<State>) {
    forall i :: 0 <= i < |states| ==> SerialState(states[i])
  }

  /** Each armed timer is the entry under its key, and a key being added has no entry that is armed. */
  predicate Inv(s: State) {
    && WellFormed(s.queue)
    && (forall k :: k in s.queue.work ==> s.queue.timers[s.queue.work[k]].key == k)
    && (forall id :: 0 <= id < |s.queue.timers| && s.queue.timers[id].status == Armed ==>
          s.queue.timers[id].key in s.queue.work && s.queue.work[s.queue.timers[id].key] == id
          && s.queue.timers[id].key !in s.adding)
  }

  lemma ClearPreserves(s: State, k: Key)
    requires Inv(s)
    ensures Inv(s.(queue := Clear(s.queue, k)))
    ensures forall id :: 0 <= id < |s.queue.timers| ==>
      Clear(s.queue, k).timers[id].status == Armed ==> s.queue.timers[id].key != k
  {
  }

  lemma StepPreserves(s: State, step: Step)
    requires Inv(s) && Enabled(s, step)
    requires SerialState(s)
    ensures Inv(Next(s, step))
  {
    match step
    case BeginAdd(k) => ClearPreserves(s, k);
    case EndAdd(k) => StorePreserves(s, k);
    case ForgetKey(k) => ClearPreserves(s, k);
    case FireTimer(id) =>
    case ReturnTimer(id) => ReturnPreserves(s, id);
  }

  lemma StorePreserves(s: State, k: Key)
    requires Inv(s) && k in s.adding && SerialState(s)
    ensures Inv(Next(s, EndAdd(k)))
  {
    assert k !in s.adding - multiset{k};
  }

  lemma ReturnPreserves(s: State, id: nat)
    requires Inv(s) && Enabled(s, ReturnTimer(id))
    ensures Inv(Next(s, ReturnTimer(id)))
  {
    var t := s.queue.timers[id];
    ClearPreserves(s.(queue := s.queue.(timers := s.queue.timers[id := t.(status := Finished)])), t.key);
  }

  lemma {:induction false} RunInv(states: seq<State>, steps: seq<Step>, t: nat)
    requires IsRun(states, steps) && Serial(states) && t < |states|
    ensures Inv(states[t])
  {
    if t > 0 {
      RunInv(states, steps, t - 1);
      assert Enabled(states[t - 1], steps[t - 1]);
      assert SerialState(states[t - 1]);
      StepPreserves(states[t - 1], steps[t - 1]);
    }
  }

  /** At most one armed timer per key, and it is the one the map holds. */
  lemma OneTimerPerKey(states: seq<State>, steps: seq<Step>, t: nat, a: nat, b: nat)
    requires IsRun(states, steps) && Serial(states) && t < |states|
    requires a < |states[t].queue.timers| && b < |states[t].queue.timers|
    requires states[t].queue.timers[a].status == Armed && states[t].queue.timers[b].status == Armed
    requires states[t].queue.timers[a].key == states[t].queue.timers[b].key
    ensures a == b
    ensures states[t].queue.timers[a].key in states[t].queue.work
    ensures states[t].queue.work[states[t].queue.timers[a].key] == a
  {
    RunInv(states, steps, t);
  }

  /**
    An add ends with a new armed timer as the entry of its key; other keys keep their entries, and
    all other timers their status.
   */
  lemma AddArms(states: seq<State>, steps: seq<Step>, t: nat)
    requires IsRun(states, steps) && t < |steps| && steps[t].EndAdd?
    ensures var q, q', key := states[t].queue, states[t + 1].queue, steps[t].key;
      && key in q'.work && q'.work[key] == |q.timers| < |q'.timers|
      && q'.timers[|q.timers|].key == key && q'.timers[|q.timers|].status == Armed
      && q'.timers[..|q.timers|] == q.timers
      && (forall other :: other != key ==>
            (other in q'.work <==> other in q.work) && (other in q.work ==> q'.work[other] == q.work[other]))
  {
    assert Enabled(states[t], steps[t]);
  }

  /** After a step that supersedes or forgets a key, it has no entry and none of its timers is armed. */
  lemma ClearedKeyIsQuiet(states: seq<State>, steps: seq<Step>, t: nat, id: nat)
    requires IsRun(states, steps) && Serial(states) && t < |steps|
    requires steps[t].BeginAdd? || steps[t].ForgetKey?
    requires id < |states[t].queue.timers| && states[t].queue.timers[id].key == steps[t].key
    ensures id < |states[t + 1].queue.timers| && states[t + 1].queue.timers[id].status != Armed
    ensures steps[t].key !in states[t + 1].queue.work
  {
    RunInv(states, steps, t);
    assert Enabled(states[t], steps[t]);
    ClearPreserves(states[t], steps[t].key);
  }

  lemma StatusMovesOn(s: State, step: Step, id: nat)
    requires Enabled(s, step) && id < |s.queue.timers|
    ensures id < |Next(s, step).queue.timers|
    ensures var a, b := s.queue.timers[id], Next(s, step).queue.timers[id];
      && b.key == a.key && (a.status != Armed ==> b.status != Armed)
      && (a.status == Stopped || a.status == Finished ==> b.status == a.status)
  {
  }

  /** A timer's status only moves on: what has stopped, fired or finished is never armed or fired again. */
  lemma {:induction false} NeverRearmed(states: seq<State>, steps: seq<Step>, t: nat, u: nat, id: nat)
    requires IsRun(states, steps) && t <= u < |states| && id < |states[t].queue.timers|
    ensures id < |states[u].queue.timers| && states[u].queue.timers[id].key == states[t].queue.timers[id].key
    ensures states[t].queue.timers[id].status != Armed ==> states[u].queue.timers[id].status != Armed
    ensures states[t].queue.timers[id].status == Stopped ==> states[u].queue.timers[id].status == Stopped
    ensures states[t].queue.timers[id].status == Finished ==> states[u].queue.timers[id].status == Finished
    decreases u
  {
    if t < u {
      NeverRearmed(states, steps, t, u - 1, id);
      assert Enabled(states[u - 1], steps[u - 1]);
      StatusMovesOn(states[u - 1], steps[u - 1], id);
    }
  }

  /** Each timer fires at most once, and its callback returns at most once, after it fired. */
  lemma RunsOnce(states: seq<State>, steps: seq<Step>, t: nat, u: nat, id: nat)
    requires IsRun(states, steps) && t < u < |steps|
    ensures steps[t] == FireTimer(id) ==> steps[u] != FireTimer(id)
    ensures steps[t] == ReturnTimer(id) ==> steps[u] != ReturnTimer(id) && steps[u] != FireTimer(id)
  {
    assert Enabled(states[t], steps[t]) && Enabled(states[u], steps[u]);
    if steps[t] == FireTimer(id) || steps[t] == ReturnTimer(id) {
      NeverRearmed(states, steps, t + 1, u, id);
    }
  }

  /**
    A timer superseded or forgotten before it fires never runs the process function: from the
    clearing step on, no step of the run fires it.
   */
  lemma CancelledNeverRuns(states: seq<State>, steps: seq<Step>, t: nat, u: nat, id: nat)
    requires IsRun(states, steps) && Serial(states) && t < u < |steps|
    requires steps[t].BeginAdd? || steps[t].ForgetKey?
    requires id < |states[t].queue.timers| && states[t].queue.timers[id].key == steps[t].key
    ensures steps[u] != FireTimer(id)
  {
    ClearedKeyIsQuiet(states, steps, t, id);
    NeverRearmed(states, steps, t + 1, u, id);
    assert Enabled(states[u], steps[u]);
  }

  /** Two overlapping calls of AddWithKey with one key leave two armed timers, one of them out of reach. */
  lemma OverlappingAddsLeak(key: Key)
    ensures var s := Next(Next(Next(Next(EMPTY, BeginAdd(key)), BeginAdd(key)), EndAdd(key)), EndAdd(key));
      s.queue.timers == [Timer(key, Armed), Timer(key, Armed)] && s.queue.work == map[key := 1]
  {
  }

  // ----- Lost work -----

  /** The timer was armed, and this step stops it without adding to or forgetting its key. */
  predicate LostBy(s: State, step: Step, id: nat)
    requires Enabled(s, step)
  {
    id < |s.queue.timers| && s.queue.timers[id].status == Armed
    && id < |Next(s, step).queue.timers| && Next(s, step).queue.timers[id].status == Stopped
    && step != BeginAdd(s.queue.timers[id].key) && step != ForgetKey(s.queue.timers[id].key)
  }

  /**
    An armed timer is lost, its item neither processed nor superseded nor forgotten, exactly
    when the callback of an earlier timer of the same key returns while it is armed: the
    deferred clear does not tell the two timers apart.
   */
  lemma LostExactlyWhenCallbackReturnsLate(states: seq<State>, steps: seq<Step>, t: nat, id: nat)
    requires IsRun(states, steps) && Serial(states) && t < |steps|
    ensures Enabled(states[t], steps[t])
    ensures LostBy(states[t], steps[t], id)
            <==> steps[t].ReturnTimer? && id < |states[t].queue.timers| && states[t].queue.timers[id].status == Armed
                 && states[t].queue.timers[steps[t].id].key == states[t].queue.timers[id].key
  {
    RunInv(states, steps, t);
  }

  /** The item added second is never processed: added after the first timer fired, cleared by its callback. */
  lemma LateCallbackLosesWork(key: Key)
    ensures var s := Next(Next(Next(EMPTY, BeginAdd(key)), EndAdd(key)), FireTimer(0));
      var s' := Next(Next(s, BeginAdd(key)), EndAdd(key));
      s'.queue.timers[1] == Timer(key, Armed) && LostBy(s', ReturnTimer(0), 1)
  {
  }
}
