/**
  The lifecycle of a pilot: hook phases that are retried until they succeed, the subprocess
  between them, and shutdown. Hooks fail arbitrarily; every sync and every stop is atomic.
 */
module PilotLifecycle {
  import opened Common

  datatype Phase = PreStart | PostStart | PreStop | PostStop

  datatype Config = Config(preStart: seq<string>, postStart: seq<string>, preStop: seq<string>, postStop: seq<string>)

  /** Phases are strings; any other one is an error. */
  function ParsePhase(name: string): Option<Phase> {
    match name
    case "PreStart" => Some(PreStart)
    case "PostStart" => Some(PostStart)
    case "PreStop" => Some(PreStop)
    case "PostStop" => Some(PostStop)
    case _ => None
  }

  function HooksOf(cfg: Config, phase: Phase): seq<string> {
    match phase
    case PreStart => cfg.preStart
    case PostStart => cfg.postStart
    case PreStop => cfg.preStop
    case PostStop => cfg.postStop
  }

  /** A command can be started once: exec.Cmd refuses a second start, also after the process has exited. */
  datatype Process = Absent | Created | Running | Exited

  /**
    What happens, in order: a hook succeeds, the subprocess starts, it exits of itself or is stopped
    by the pilot, the pilot is told to stop.
   */
  datatype Event = Hook(phase: Phase, name: string) | Start | Exit | Stopped | Shutdown

  /** `executed` holds the names of the hooks that succeeded; a phase never entered has no entry. */
  datatype Pilot = Pilot(executed: map<Phase, set<string>>, process: Process, shutdown: bool, log: seq<Event>)

  const INITIAL := Pilot(map[], Absent, false, [])

  function Done(p: Pilot, phase: Phase): set<string> {
    if phase in p.executed then p.executed[phase] else {}
  }

  // ----- Hooks.Transition -----

  /** The position of the first hook that fails, running from position i on; |hooks| when none does. */
  function Reach(hooks: seq<string>, executed: set<string>, ok: nat -> bool, i: nat): (m: nat)
    requires i <= |hooks|
    ensures i <= m <= |hooks|
    decreases |hooks| - i
  {
    if i == |hooks| then i
    else if hooks[i] in executed then Reach(hooks, executed, ok, i + 1)
    else if ok(i) then Reach(hooks, executed + {hooks[i]}, ok, i + 1)
    else i
  }

  /** The names that succeed on the way, in order. */
  function Succeed(hooks: seq<string>, executed: set<string>, ok: nat -> bool, i: nat): seq<string>
    requires i <= |hooks|
    decreases |hooks| - i
  {
    if i == |hooks| then []
    else if hooks[i] in executed then Succeed(hooks, executed, ok, i + 1)
    else if ok(i) then [hooks[i]] + Succeed(hooks, executed + {hooks[i]}, ok, i + 1)
    else []
  }

  function Names(hooks: seq<string>): set<string> {
    set h | h in hooks
  }

  function Events(phase: Phase, names: seq<string>): seq<Event> {
    seq(|names|, i requires 0 <= i < |names| => Hook(phase, names[i]))
  }

  /** The pilot after the named hooks of a phase have succeeded. */
  function WithHooks(p: Pilot, phase: Phase, names: seq<string>): Pilot {
    p.(executed := p.executed[phase := Done(p, phase) + Names(names)], log := p.log + Events(phase, names))
  }

  lemma WithHooksAppend(p: Pilot, phase: Phase, a: seq<string>, b: seq<string>)
    ensures WithHooks(WithHooks(p, phase, a), phase, b) == WithHooks(p, phase, a + b)
  {
    assert Events(phase, a + b) == Events(phase, a) + Events(phase, b);
    assert Names(a + b) == Names(a) + Names(b);
    assert Done(WithHooks(p, phase, a), phase) + Names(b) == Done(p, phase) + Names(a + b);
  }

  /** What a hook that succeeds adds to the transition. */
  lemma HookStep(p: Pilot, phase: Phase, hooks: seq<string>, ok: nat -> bool, i: nat)
    requires i < |hooks| && hooks[i] !in Done(p, phase) && ok(i)
    ensures var q := WithHooks(p, phase, [hooks[i]]);
      && Reach(hooks, Done(p, phase), ok, i) == Reach(hooks, Done(q, phase), ok, i + 1)
      && WithHooks(p, phase, Succeed(hooks, Done(p, phase), ok, i))
         == WithHooks(q, phase, Succeed(hooks, Done(q, phase), ok, i + 1))
  {
    var q := WithHooks(p, phase, [hooks[i]]);
    assert Done(q, phase) == Done(p, phase) + {hooks[i]};
    WithHooksAppend(p, phase, [hooks[i]], Succeed(hooks, Done(q, phase), ok, i + 1));
  }

  lemma NamedOnce(p: Pilot, phase: Phase, name: string)
    ensures WithHooks(p, phase, [name])
            == p.(executed := p.executed[phase := Done(p, phase) + {name}], log := p.log + [Hook(phase, name)])
  {
    assert Events(phase, [name]) == [Hook(phase, name)] && Names([name]) == {name};
  }

  /** Entering a phase without an entry yet makes no difference. */
  lemma Entered(p: Pilot, phase: Phase, names: seq<string>)
    requires phase !in p.executed
    ensures WithHooks(p.(executed := p.executed[phase := {}]), phase, names) == WithHooks(p, phase, names)
  {
  }

  lemma NoHooks(p: Pilot, phase: Phase)
    requires phase in p.executed
    ensures WithHooks(p, phase, []) == p
  {
    assert Done(p, phase) + Names([]) == Done(p, phase) && p.log + Events(phase, []) == p.log;
  }

  /** One transition: `ok(i)` is the outcome of the hook at position i, if it is run. */
  function Transition(cfg: Config, p: Pilot, phase: Phase, ok: nat -> bool): Pilot {
    WithHooks(p, phase, Succeed(HooksOf(cfg, phase), Done(p, phase), ok, 0))
  }

  predicate Completed(cfg: Config, p: Pilot, phase: Phase, ok: nat -> bool) {
    Reach(HooksOf(cfg, phase), Done(p, phase), ok, 0) == |HooksOf(cfg, phase)|
  }

  // ----- syncPilot and stop -----

  /** The outcomes the environment chooses for one sync. */
  datatype SyncOutcomes = SyncOutcomes(isThisPilot: bool, preStart: nat -> bool, command: bool, start: bool,
                                       postStart: nat -> bool)

  function StartProcess(p: Pilot, ok: bool): Pilot {
    if p.process.Created? && ok then p.(process := Running, log := p.log + [Start]) else p
  }

  function SyncPilot(cfg: Config, p: Pilot, o: SyncOutcomes): Pilot {
    if !o.isThisPilot then p
    else
      var q := Transition(cfg, p, PreStart, o.preStart);
      if !Completed(cfg, p, PreStart, o.preStart) then q
      else if q.process.Absent? && !o.command then q
      else
        var c := if q.process.Absent? then q.(process := Created) else q;
        var s := if !c.process.Running? && !c.shutdown then StartProcess(c, o.start) else c;
        if !c.process.Running? && !c.shutdown && !s.process.Running? then s
        else Transition(cfg, s, PostStart, o.postStart)
  }

  /** Whether the sync returns without an error; see `SyncOkIff`. */
  predicate SyncOk(cfg: Config, p: Pilot, o: SyncOutcomes) {
    !o.isThisPilot
    || (&& Completed(cfg, p, PreStart, o.preStart)
        && (p.process.Absent? ==> o.command)
        && (p.process.Running? || p.shutdown || (!p.process.Exited? && o.start))
        && Completed(cfg, p, PostStart, o.postStart))
  }

  /** `signal`: the stop signal was delivered; `exitError`: the subprocess ended with an error. */
  datatype StopOutcomes = StopOutcomes(preStop: nat -> bool, signal: bool, exitError: bool, postStop: nat -> bool)

  function Stop(cfg: Config, p: Pilot, o: StopOutcomes): Pilot {
    var q := p.(shutdown := true, log := p.log + [Shutdown]);
    if !q.process.Running? then q
    else
      var r := Transition(cfg, q, PreStop, o.preStop);
      if !Completed(cfg, q, PreStop, o.preStop) || !o.signal then r
      else
        var s := r.(process := Exited, log := r.log + [Stopped]);
        if o.exitError then s else Transition(cfg, s, PostStop, o.postStop)
  }

  /** Whether the stop returns without an error; see `StopOkIff`. */
  predicate StopOk(cfg: Config, p: Pilot, o: StopOutcomes) {
    !p.process.Running?
    || (Completed(cfg, p, PreStop, o.preStop) && o.signal && !o.exitError && Completed(cfg, p, PostStop, o.postStop))
  }

  /** The pilot as the object that the sync loop and the signal handler update. */
  class GenericPilot {
    const cfg: Config
    var executed: map<Phase, set<string>>
    var process: Process
    var shutdown: bool
    var log: seq<Event>

    ghost function View(): Pilot
      reads this
    {
      Pilot(executed, process, shutdown, log)
    }

    constructor (cfg: Config)
      ensures View() == INITIAL && this.cfg == cfg
    {
      this.cfg := cfg;
      executed := map[];
      process := Absent;
      shutdown := false;
      log := [];
    }

    /** A hook of the phase has succeeded. */
    method RecordHook(phase: Phase, name: string)
      requires phase in executed
      modifies this
      ensures View() == WithHooks(old(View()), phase, [name]) && phase in executed
    {
      NamedOnce(View(), phase, name);
      executed := executed[phase := executed[phase] + {name}];
      log := log + [Hook(phase, name)];
    }

    /** The loop over the hooks of a phase, which has been entered. */
    method RunHooks(phase: Phase, hooks: seq<string>, ok: nat -> bool) returns (done: bool)
      requires phase in executed
      modifies this
      ensures View() == WithHooks(old(View()), phase, Succeed(hooks, old(executed[phase]), ok, 0))
      ensures done == (Reach(hooks, old(executed[phase]), ok, 0) == |hooks|)
    {
      ghost var goal := WithHooks(View(), phase, Succeed(hooks, executed[phase], ok, 0));
      ghost var reach := Reach(hooks, executed[phase], ok, 0);
      for i := 0 to |hooks|
        invariant phase in executed
        invariant goal == WithHooks(View(), phase, Succeed(hooks, executed[phase], ok, i))
        invariant reach == Reach(hooks, executed[phase], ok, i)
      {
        if hooks[i] in executed[phase] {
          continue;
        }
        if !ok(i) {
          NoHooks(View(), phase);
          return false;
        }
        HookStep(View(), phase, hooks, ok, i);
        RecordHook(phase, hooks[i]);
      }
      NoHooks(View(), phase);
      return true;
    }

    /** Runs the hooks of a phase that have not succeeded yet, in order, up to the first failure. */
    method RunTransition(phase: Phase, ok: nat -> bool) returns (done: bool)
      modifies this
      ensures View() == Transition(cfg, old(View()), phase, ok)
      ensures done == Completed(cfg, old(View()), phase, ok)
    {
      if phase !in executed {
        Entered(View(), phase, Succeed(HooksOf(cfg, phase), {}, ok, 0));
        executed := executed[phase := {}];
      }
      done := RunHooks(phase, HooksOf(cfg, phase), ok);
    }

    /** Transition with the checks that precede it: without a pilot, or to no known phase, nothing happens. */
    method TransitionTo(name: string, hasPilot: bool, ok: nat -> bool) returns (done: bool)
      modifies this
      ensures hasPilot && ParsePhase(name).Some? ==>
        View() == Transition(cfg, old(View()), ParsePhase(name).value, ok)
        && done == Completed(cfg, old(View()), ParsePhase(name).value, ok)
      ensures !(hasPilot && ParsePhase(name).Some?) ==> !done && View() == old(View())
    {
      if !hasPilot {
        return false;
      }
      var phase := ParsePhase(name);
      if phase.None? {
        return false;
      }
      done := RunTransition(phase.value, ok);
    }

    method RunSync(o: SyncOutcomes) returns (ok: bool)
      modifies this
      ensures View() == SyncPilot(cfg, old(View()), o) && ok == SyncOk(cfg, old(View()), o)
    {
      if !o.isThisPilot {
        return true;
      }
      ok := RunTransition(PreStart, o.preStart);
      if !ok {
        return;
      }
      if process == Absent {
        if !o.command {
          return false;
        }
        process := Created;
      }
      if process != Running && !shutdown {
        if process != Created || !o.start {
          return false;
        }
        process := Running;
        log := log + [Start];
      }
      ok := RunTransition(PostStart, o.postStart);
    }

    method RunStop(o: StopOutcomes) returns (ok: bool)
      modifies this
      ensures View() == Stop(cfg, old(View()), o) && ok == StopOk(cfg, old(View()), o)
    {
      shutdown := true;
      log := log + [Shutdown];
      if process != Running {
        return true;
      }
      ok := RunTransition(PreStop, o.preStop);
      if !ok || !o.signal {
        return false;
      }
      process := Exited;
      log := log + [Stopped];
      if o.exitError {
        return false;
      }
      ok := RunTransition(PostStop, o.postStop);
    }
  }

  // ----- Runs -----

  datatype Step = SyncStep(sync: SyncOutcomes) | StopStep(stop: StopOutcomes) | ProcessExits

  function Next(cfg: Config, p: Pilot, step: Step): Pilot {
    match step
    case SyncStep(o) => SyncPilot(cfg, p, o)
    case StopStep(o) => Stop(cfg, p, o)
    case ProcessExits => if p.process.Running? then p.(process := Exited, log := p.log + [Exit]) else p
  }

  function Run(cfg: Config, steps: seq<Step>): Pilot {
    if steps == [] then INITIAL else Next(cfg, Run(cfg, steps[..|steps| - 1]), steps[|steps| - 1])
  }

  /** All hooks of the phase before position j have succeeded. */
  predicate UpTo(cfg: Config, log: seq<Event>, phase: Phase, j: nat)
    requires j <= |HooksOf(cfg, phase)|
  {
    forall i :: 0 <= i < j ==> Hook(phase, HooksOf(cfg, phase)[i]) in log
  }

  /** The hook is in the list of its phase and every hook before it has succeeded. */
  predicate InOrder(cfg: Config, log: seq<Event>, phase: Phase, name: string) {
    exists j :: 0 <= j < |HooksOf(cfg, phase)| && HooksOf(cfg, phase)[j] == name && UpTo(cfg, log, phase, j)
  }

  /** When a phase may run: never before its time, with one exception for the hooks after the start. */
  predicate PhaseOpen(log: seq<Event>, phase: Phase) {
    match phase
    case PreStart => true
    case PostStart => Start in log || Shutdown in log
    case PreStop => Start in log && Shutdown in log
    case PostStop => Stopped in log && Shutdown in log
  }

  /** Why an event may follow the events before it. */
  predicate Justified(cfg: Config, log: seq<Event>, e: Event) {
    match e
    case Hook(phase, name) => Hook(phase, name) !in log && InOrder(cfg, log, phase, name) && PhaseOpen(log, phase)
    case Start => Start !in log && Shutdown !in log && UpTo(cfg, log, PreStart, |cfg.preStart|)
    case Exit => Start in log && Exit !in log && Stopped !in log
    case Stopped => Start in log && Exit !in log && Stopped !in log && Shutdown in log
                    && UpTo(cfg, log, PreStop, |cfg.preStop|)
    case Shutdown => true
  }

  predicate AllJustified(cfg: Config, log: seq<Event>) {
    forall i {:trigger Justified(cfg, log[..i], log[i])} :: 0 <= i < |log| ==> Justified(cfg, log[..i], log[i])
  }

  /** The state of the pilot is what the log says. */
  ghost predicate Inv(cfg: Config, p: Pilot) {
    && AllJustified(cfg, p.log)
    && (forall phase, name :: Hook(phase, name) in p.log <==> name in Done(p, phase))
    && (p.shutdown <==> Shutdown in p.log)
    && (Start in p.log <==> p.process.Running? || p.process.Exited?)
    && (Exit in p.log || Stopped in p.log <==> p.process.Exited?)
  }

  lemma Extend(cfg: Config, log: seq<Event>, e: Event)
    requires AllJustified(cfg, log) && Justified(cfg, log, e)
    ensures AllJustified(cfg, log + [e])
  {
    var l := log + [e];
    forall i | 0 <= i < |l| ensures Justified(cfg, l[..i], l[i]) {
      assert l[..i] == log[..i];
      if i == |log| {
        assert log[..i] == log;
      } else {
        assert l[i] == log[i] && Justified(cfg, log[..i], log[i]);
      }
    }
  }

  /** In the middle of a phase, with the hooks before position i behind it. */
  ghost predicate At(cfg: Config, p: Pilot, phase: Phase, i: nat) {
    Inv(cfg, p) && PhaseOpen(p.log, phase) && i <= |HooksOf(cfg, phase)| && UpTo(cfg, p.log, phase, i)
  }

  lemma OneHook(cfg: Config, p: Pilot, phase: Phase, i: nat)
    requires At(cfg, p, phase, i) && i < |HooksOf(cfg, phase)|
    requires HooksOf(cfg, phase)[i] !in Done(p, phase)
    ensures At(cfg, WithHooks(p, phase, [HooksOf(cfg, phase)[i]]), phase, i + 1)
  {
    var name := HooksOf(cfg, phase)[i];
    var q := WithHooks(p, phase, [name]);
    assert q.log == p.log + [Hook(phase, name)];
    assert Justified(cfg, p.log, Hook(phase, name));
    Extend(cfg, p.log, Hook(phase, name));
    assert forall e :: e in q.log <==> e in p.log || e == Hook(phase, name);
    assert forall ph :: Done(q, ph) == if ph == phase then Done(p, ph) + {name} else Done(p, ph);
  }

  lemma WithNoHooks(cfg: Config, p: Pilot, phase: Phase, i: nat)
    requires At(cfg, p, phase, i)
    ensures At(cfg, WithHooks(p, phase, []), phase, i)
  {
    var q := WithHooks(p, phase, []);
    assert q.log == p.log && Done(q, phase) == Done(p, phase);
    assert forall ph :: Done(q, ph) == Done(p, ph);
  }

  /** Running the hooks from position i keeps the log justified and reaches as far as `Reach` says. */
  lemma {:induction false} HooksPreserve(cfg: Config, p: Pilot, phase: Phase, ok: nat -> bool, i: nat)
    requires At(cfg, p, phase, i)
    ensures var hooks := HooksOf(cfg, phase);
      At(cfg, WithHooks(p, phase, Succeed(hooks, Done(p, phase), ok, i)), phase, Reach(hooks, Done(p, phase), ok, i))
    decreases |HooksOf(cfg, phase)| - i
  {
    var hooks := HooksOf(cfg, phase);
    if i == |hooks| {
      WithNoHooks(cfg, p, phase, i);
    } else if hooks[i] in Done(p, phase) {
      HooksPreserve(cfg, p, phase, ok, i + 1);
    } else if ok(i) {
      OneHook(cfg, p, phase, i);
      var q := WithHooks(p, phase, [hooks[i]]);
      HooksPreserve(cfg, q, phase, ok, i + 1);
      HookStep(p, phase, hooks, ok, i);
    } else {
      WithNoHooks(cfg, p, phase, i);
    }
  }

  lemma TransitionPreserves(cfg: Config, p: Pilot, phase: Phase, ok: nat -> bool)
    requires Inv(cfg, p) && PhaseOpen(p.log, phase)
    ensures var q := Transition(cfg, p, phase, ok);
      && Inv(cfg, q) && q.process == p.process && q.shutdown == p.shutdown && p.log <= q.log
      && (Completed(cfg, p, phase, ok) ==> UpTo(cfg, q.log, phase, |HooksOf(cfg, phase)|))
  {
    HooksPreserve(cfg, p, phase, ok, 0);
  }

  lemma Happens(cfg: Config, p: Pilot, e: Event, q: Pilot)
    requires Inv(cfg, p) && !e.Hook? && Justified(cfg, p.log, e)
    requires q.log == p.log + [e] && q.executed == p.executed
    requires q.shutdown == (p.shutdown || e.Shutdown?)
    requires e.Start? ==> q.process == Running
    requires e.Exit? || e.Stopped? ==> q.process == Exited
    requires e.Shutdown? ==> q.process == p.process
    ensures Inv(cfg, q)
  {
    Extend(cfg, p.log, e);
    assert forall ph :: Done(q, ph) == Done(p, ph);
  }

  lemma SyncPreserves(cfg: Config, p: Pilot, o: SyncOutcomes)
    requires Inv(cfg, p)
    ensures Inv(cfg, SyncPilot(cfg, p, o))
  {
    if o.isThisPilot {
      TransitionPreserves(cfg, p, PreStart, o.preStart);
      var q := Transition(cfg, p, PreStart, o.preStart);
      if Completed(cfg, p, PreStart, o.preStart) && !(q.process.Absent? && !o.command) {
        var c := if q.process.Absent? then q.(process := Created) else q;
        assert forall ph :: Done(c, ph) == Done(q, ph);
        assert Inv(cfg, c);
        if c.process.Created? && !c.shutdown && o.start {
          var s := StartProcess(c, o.start);
          Happens(cfg, c, Start, s);
          TransitionPreserves(cfg, s, PostStart, o.postStart);
        } else if c.process.Running? || c.shutdown {
          TransitionPreserves(cfg, c, PostStart, o.postStart);
        }
      }
    }
  }

  lemma StopPreserves(cfg: Config, p: Pilot, o: StopOutcomes)
    requires Inv(cfg, p)
    ensures Inv(cfg, Stop(cfg, p, o))
  {
    var q := p.(shutdown := true, log := p.log + [Shutdown]);
    Happens(cfg, p, Shutdown, q);
    if q.process.Running? {
      TransitionPreserves(cfg, q, PreStop, o.preStop);
      var r := Transition(cfg, q, PreStop, o.preStop);
      if Completed(cfg, q, PreStop, o.preStop) && o.signal {
        var s := r.(process := Exited, log := r.log + [Stopped]);
        Happens(cfg, r, Stopped, s);
        if !o.exitError {
          TransitionPreserves(cfg, s, PostStop, o.postStop);
        }
      }
    }
  }

  lemma {:induction false} RunInv(cfg: Config, steps: seq<Step>)
    ensures Inv(cfg, Run(cfg, steps))
  {
    if steps != [] {
      var p := Run(cfg, steps[..|steps| - 1]);
      RunInv(cfg, steps[..|steps| - 1]);
      match steps[|steps| - 1]
      case SyncStep(o) => SyncPreserves(cfg, p, o);
      case StopStep(o) => StopPreserves(cfg, p, o);
      case ProcessExits =>
        if p.process.Running? {
          Happens(cfg, p, Exit, p.(process := Exited, log := p.log + [Exit]));
        }
    }
  }

  /**
    Every event of every run is justified by the events before it: a hook succeeds at most
    once per phase and only after all hooks before it; the subprocess starts at most once,
    after every PreStart hook and not after a shutdown; the pilot stops it only when told to
    and after every PreStop hook; PostStop hooks run only once it has done so.
   */
  lemma EveryEventJustified(cfg: Config, steps: seq<Step>, i: nat)
    requires i < |Run(cfg, steps).log|
    ensures Justified(cfg, Run(cfg, steps).log[..i], Run(cfg, steps).log[i])
  {
    RunInv(cfg, steps);
  }

  lemma StepGrows(cfg: Config, p: Pilot, step: Step)
    ensures p.log <= Next(cfg, p, step).log
  {
  }

  /** Nothing that happened is ever taken back. */
  lemma {:induction false} LogOnlyGrows(cfg: Config, steps: seq<Step>, n: nat)
    requires n <= |steps|
    ensures Run(cfg, steps[..n]).log <= Run(cfg, steps).log
  {
    if n == |steps| {
      assert steps[..n] == steps;
    } else {
      var shorter := steps[..|steps| - 1];
      LogOnlyGrows(cfg, shorter, n);
      assert shorter[..n] == steps[..n];
      StepGrows(cfg, Run(cfg, shorter), steps[|steps| - 1]);
    }
  }

  /** No event happens twice, apart from being told to stop. */
  lemma EventsHappenOnce(cfg: Config, steps: seq<Step>, i: nat, j: nat)
    requires i < j < |Run(cfg, steps).log|
    requires Run(cfg, steps).log[i] == Run(cfg, steps).log[j]
    ensures Run(cfg, steps).log[i] == Shutdown
  {
    var log := Run(cfg, steps).log;
    EveryEventJustified(cfg, steps, j);
    assert log[..j][i] == log[i];
  }

  /** The names executed in a phase are always those of a prefix of its hook list. */
  lemma ExecutedIsPrefix(cfg: Config, steps: seq<Step>, phase: Phase) returns (n: nat)
    ensures n <= |HooksOf(cfg, phase)|
    ensures Done(Run(cfg, steps), phase) == Names(HooksOf(cfg, phase)[..n])
  {
    RunInv(cfg, steps);
    var done, hooks := Done(Run(cfg, steps), phase), HooksOf(cfg, phase);
    n := 0;
    while n < |hooks| && hooks[n] in done
      invariant 0 <= n <= |hooks| && forall i :: 0 <= i < n ==> hooks[i] in done
    {
      n := n + 1;
    }
    forall name | name in done ensures name in hooks[..n] {
      var j := ExecutedPosition(cfg, Run(cfg, steps), phase, name);
      assert hooks[..n][j] == name;
    }
  }

  lemma ExecutedPosition(cfg: Config, p: Pilot, phase: Phase, name: string) returns (j: nat)
    requires Inv(cfg, p) && name in Done(p, phase)
    ensures j < |HooksOf(cfg, phase)| && HooksOf(cfg, phase)[j] == name
    ensures forall i :: 0 <= i < j ==> HooksOf(cfg, phase)[i] in Done(p, phase)
  {
    assert Hook(phase, name) in p.log;
    var t :| 0 <= t < |p.log| && p.log[t] == Hook(phase, name);
    assert Justified(cfg, p.log[..t], p.log[t]);
    j := Predecessors(cfg, p.log, phase, name, t);
    forall i | 0 <= i < j ensures HooksOf(cfg, phase)[i] in Done(p, phase) {
      assert Hook(phase, HooksOf(cfg, phase)[i]) in p.log;
    }
  }

  lemma Predecessors(cfg: Config, log: seq<Event>, phase: Phase, name: string, t: nat) returns (j: nat)
    requires t < |log| && InOrder(cfg, log[..t], phase, name)
    ensures j < |HooksOf(cfg, phase)| && HooksOf(cfg, phase)[j] == name
    ensures forall i :: 0 <= i < j ==> Hook(phase, HooksOf(cfg, phase)[i]) in log
  {
    j :| 0 <= j < |HooksOf(cfg, phase)| && HooksOf(cfg, phase)[j] == name && UpTo(cfg, log[..t], phase, j);
    assert forall e :: e in log[..t] ==> e in log;
  }

  /** A shutdown before the start makes the next sync run the PostStart hooks although nothing was started. */
  lemma PostStartWithoutStart(hook: string)
    ensures var cfg := Config([], [hook], [], []);
      var stop := StopStep(StopOutcomes(i => true, true, false, i => true));
      var sync := SyncStep(SyncOutcomes(true, i => true, true, true, i => true));
      Run(cfg, [stop, sync]).log == [Shutdown, Hook(PostStart, hook)]
  {
    var cfg := Config([], [hook], [], []);
    var stop := StopStep(StopOutcomes(i => true, true, false, i => true));
    var sync := SyncStep(SyncOutcomes(true, i => true, true, true, i => true));
    assert [stop, sync][..1] == [stop] && [stop][..0] == [];
    var p := Run(cfg, [stop]);
    assert Run(cfg, []) == INITIAL;
    assert p == Next(cfg, INITIAL, stop);
    assert p == Pilot(map[], Absent, true, [Shutdown]);
    assert Succeed([hook], {}, sync.sync.postStart, 0) == [hook];
    assert Run(cfg, [stop, sync]) == SyncPilot(cfg, p, sync.sync);
  }

  lemma {:induction false} SucceedAreNew(hooks: seq<string>, executed: set<string>, ok: nat -> bool, i: nat)
    requires i <= |hooks|
    ensures forall name :: name in Succeed(hooks, executed, ok, i) ==> name !in executed
    decreases |hooks| - i
  {
    if i < |hooks| {
      SucceedAreNew(hooks, executed, ok, i + 1);
      SucceedAreNew(hooks, executed + {hooks[i]}, ok, i + 1);
    }
  }

  /** The transition of a phase logs a new hook of that phase exactly when some hook succeeds, and none of others. */
  lemma TransitionLogs(cfg: Config, p: Pilot, phase: Phase, ok: nat -> bool)
    requires Inv(cfg, p)
    ensures var q := Transition(cfg, p, phase, ok);
      && (forall e :: e in q.log && e !in p.log ==> e.Hook? && e.phase == phase)
      && (forall e :: e in p.log ==> e in q.log)
      && ((exists e :: e in q.log && e !in p.log) <==> Succeed(HooksOf(cfg, phase), Done(p, phase), ok, 0) != [])
  {
    var names := Succeed(HooksOf(cfg, phase), Done(p, phase), ok, 0);
    SucceedAreNew(HooksOf(cfg, phase), Done(p, phase), ok, 0);
    if names != [] {
      assert Events(phase, names)[0] == Hook(phase, names[0]) && names[0] in names;
      assert Hook(phase, names[0]) in Transition(cfg, p, phase, ok).log && Hook(phase, names[0]) !in p.log;
    }
  }

  /** A PostStart hook has succeeded between the two states. */
  ghost predicate NewPostStart(p: Pilot, q: Pilot) {
    exists e: Event :: e in q.log && e !in p.log && e.Hook? && e.phase == PostStart
  }

  /** The sync runs a PostStart hook although no subprocess was ever started. */
  ghost predicate RunsEarly(cfg: Config, p: Pilot, o: SyncOutcomes) {
    Start !in SyncPilot(cfg, p, o).log && NewPostStart(p, SyncPilot(cfg, p, o))
  }

  /** Which outcomes of hooks and command lead there. */
  lemma EarlyOutcomes(cfg: Config, p: Pilot, o: SyncOutcomes)
    requires Inv(cfg, p) && Start !in p.log
    ensures RunsEarly(cfg, p, o)
            <==> p.shutdown && o.isThisPilot && Completed(cfg, p, PreStart, o.preStart)
                 && (p.process.Created? || o.command)
                 && Succeed(cfg.postStart, Done(p, PostStart), o.postStart, 0) != []
  {
    var q := Transition(cfg, p, PreStart, o.preStart);
    TransitionPreserves(cfg, p, PreStart, o.preStart);
    TransitionLogs(cfg, p, PreStart, o.preStart);
    assert Done(q, PostStart) == Done(p, PostStart);
    if o.isThisPilot && Completed(cfg, p, PreStart, o.preStart) && (q.process.Created? || o.command) {
      var c := if q.process.Absent? then q.(process := Created) else q;
      assert forall ph :: Done(c, ph) == Done(q, ph);
      if p.shutdown {
        TransitionLogs(cfg, c, PostStart, o.postStart);
      } else if o.start {
        var s := StartProcess(c, o.start);
        Happens(cfg, c, Start, s);
        TransitionLogs(cfg, s, PostStart, o.postStart);
      }
    }
  }

  lemma {:induction false} AllSucceed(hooks: seq<string>, executed: set<string>, ok: nat -> bool, i: nat)
    requires i <= |hooks| && forall j :: ok(j)
    ensures Reach(hooks, executed, ok, i) == |hooks|
    ensures (exists j :: i <= j < |hooks| && hooks[j] !in executed) ==> Succeed(hooks, executed, ok, i) != []
    decreases |hooks| - i
  {
    if i < |hooks| {
      AllSucceed(hooks, executed, ok, i + 1);
      AllSucceed(hooks, executed + {hooks[i]}, ok, i + 1);
    }
  }

  lemma {:induction false} SucceedAreHooks(hooks: seq<string>, executed: set<string>, ok: nat -> bool, i: nat)
    requires i <= |hooks|
    ensures forall name :: name in Succeed(hooks, executed, ok, i) ==> name in hooks
    decreases |hooks| - i
  {
    if i < |hooks| {
      SucceedAreHooks(hooks, executed, ok, i + 1);
      SucceedAreHooks(hooks, executed + {hooks[i]}, ok, i + 1);
    }
  }

  /**
    Before the start, a sync can run a PostStart hook exactly when the pilot has been told to stop
    and some PostStart hook has not succeeded yet; the outcomes of hooks and command are open.
   */
  lemma PostStartEarlyIff(cfg: Config, p: Pilot)
    requires Inv(cfg, p) && Start !in p.log
    ensures (exists o :: RunsEarly(cfg, p, o)) <==> p.shutdown && !(Names(cfg.postStart) <= Done(p, PostStart))
  {
    var all := SyncOutcomes(true, i => true, true, true, i => true);
    EarlyOutcomes(cfg, p, all);
    AllSucceed(cfg.preStart, Done(p, PreStart), all.preStart, 0);
    AllSucceed(cfg.postStart, Done(p, PostStart), all.postStart, 0);
    forall o | RunsEarly(cfg, p, o) ensures p.shutdown && !(Names(cfg.postStart) <= Done(p, PostStart)) {
      EarlyOutcomes(cfg, p, o);
      SucceedAreNew(cfg.postStart, Done(p, PostStart), o.postStart, 0);
      SucceedAreHooks(cfg.postStart, Done(p, PostStart), o.postStart, 0);
      var name := Succeed(cfg.postStart, Done(p, PostStart), o.postStart, 0)[0];
      assert name in Names(cfg.postStart) && name !in Done(p, PostStart);
    }
  }

  // ----- What a sync and a stop achieve -----

  /** Every hook of the phase has succeeded. */
  predicate AllDone(cfg: Config, p: Pilot, phase: Phase) {
    Names(HooksOf(cfg, phase)) <= Done(p, phase)
  }

  lemma AllDoneIff(cfg: Config, p: Pilot, phase: Phase)
    requires Inv(cfg, p)
    ensures AllDone(cfg, p, phase) <==> UpTo(cfg, p.log, phase, |HooksOf(cfg, phase)|)
  {
    var hooks := HooksOf(cfg, phase);
    assert forall i :: 0 <= i < |hooks| ==> hooks[i] in Names(hooks);
  }

  lemma {:induction false} StopsShort(hooks: seq<string>, executed: set<string>, ok: nat -> bool, i: nat)
    requires i <= |hooks|
    ensures var m := Reach(hooks, executed, ok, i);
      m < |hooks| ==> hooks[m] !in executed && hooks[m] !in Succeed(hooks, executed, ok, i)
    decreases |hooks| - i
  {
    if i < |hooks| {
      StopsShort(hooks, executed, ok, i + 1);
      StopsShort(hooks, executed + {hooks[i]}, ok, i + 1);
    }
  }

  /** A transition tells that it completed exactly when every hook of the phase has succeeded by then. */
  lemma CompletedIff(cfg: Config, p: Pilot, phase: Phase, ok: nat -> bool)
    requires Inv(cfg, p) && PhaseOpen(p.log, phase)
    ensures Completed(cfg, p, phase, ok) <==> AllDone(cfg, Transition(cfg, p, phase, ok), phase)
    ensures (forall j :: ok(j)) ==> Completed(cfg, p, phase, ok)
    ensures forall other :: other != phase ==> Done(Transition(cfg, p, phase, ok), other) == Done(p, other)
  {
    var hooks, q := HooksOf(cfg, phase), Transition(cfg, p, phase, ok);
    TransitionPreserves(cfg, p, phase, ok);
    AllDoneIff(cfg, q, phase);
    StopsShort(hooks, Done(p, phase), ok, 0);
    var m := Reach(hooks, Done(p, phase), ok, 0);
    if m < |hooks| {
      assert hooks[m] in Names(hooks) && hooks[m] !in Done(q, phase);
    }
    if forall j :: ok(j) {
      AllSucceed(hooks, Done(p, phase), ok, 0);
    }
  }

  /** The subprocess is running, or can be started. */
  predicate Startable(p: Pilot, o: SyncOutcomes) {
    p.process.Running? || (!p.shutdown && o.start && (p.process.Created? || (p.process.Absent? && o.command)))
  }

  /**
    A sync of this pilot leaves the subprocess running exactly when it was, or when all PreStart
    hooks have succeeded by then, the pilot was not told to stop, and command and start succeed;
    a sync of another pilot changes nothing.
   */
  lemma SyncRunsIff(cfg: Config, p: Pilot, o: SyncOutcomes)
    requires Inv(cfg, p)
    ensures !o.isThisPilot ==> SyncPilot(cfg, p, o) == p
    ensures o.isThisPilot ==>
      (SyncPilot(cfg, p, o).process.Running?
       <==> p.process.Running? || (AllDone(cfg, SyncPilot(cfg, p, o), PreStart) && Startable(p, o)))
  {
    CompletedIff(cfg, p, PreStart, o.preStart);
    TransitionPreserves(cfg, p, PreStart, o.preStart);
  }

  /** With every outcome good, before any stop, one sync runs the process and all hooks before and after its start. */
  lemma SyncSucceeds(cfg: Config, p: Pilot, o: SyncOutcomes)
    requires Inv(cfg, p) && !p.shutdown && !p.process.Exited?
    requires o.isThisPilot && o.command && o.start && (forall j :: o.preStart(j)) && (forall j :: o.postStart(j))
    ensures var q := SyncPilot(cfg, p, o);
      q.process.Running? && AllDone(cfg, q, PreStart) && AllDone(cfg, q, PostStart)
  {
    CompletedIff(cfg, p, PreStart, o.preStart);
    TransitionPreserves(cfg, p, PreStart, o.preStart);
    var q := Transition(cfg, p, PreStart, o.preStart);
    var c := if q.process.Absent? then q.(process := Created) else q;
    assert forall ph :: Done(c, ph) == Done(q, ph);
    var s := if c.process.Running? then c else StartProcess(c, o.start);
    if !c.process.Running? {
      AllDoneIff(cfg, q, PreStart);
      Happens(cfg, c, Start, s);
    }
    assert forall ph :: Done(s, ph) == Done(q, ph);
    CompletedIff(cfg, s, PostStart, o.postStart);
  }

  /**
    A stop ends a running subprocess exactly when all PreStop hooks have succeeded by then and the
    signal is delivered; then PostStop hooks run, unless the subprocess ended with an error. The
    pilot remembers that it was told to stop, and nothing else happens to one that is not running.
   */
  lemma StopEndsIff(cfg: Config, p: Pilot, o: StopOutcomes)
    requires Inv(cfg, p)
    ensures var q := Stop(cfg, p, o);
      && q.shutdown
      && (!p.process.Running? ==> q.process == p.process && q.executed == p.executed)
      && (p.process.Running? ==> (q.process.Exited? <==> AllDone(cfg, q, PreStop) && o.signal))
      && (p.process.Running? && !q.process.Exited? ==> q.process.Running?)
      && (o.exitError ==> Done(q, PostStop) == Done(p, PostStop))
      && (p.process.Running? && q.process.Exited? && !o.exitError && (forall j :: o.postStop(j)) ==>
            AllDone(cfg, q, PostStop))
      && (p.process.Running? && o.signal && (forall j :: o.preStop(j)) ==> AllDone(cfg, q, PreStop))
  {
    var q := p.(shutdown := true, log := p.log + [Shutdown]);
    Happens(cfg, p, Shutdown, q);
    if q.process.Running? {
      CompletedIff(cfg, q, PreStop, o.preStop);
      TransitionPreserves(cfg, q, PreStop, o.preStop);
      var r := Transition(cfg, q, PreStop, o.preStop);
      if Completed(cfg, q, PreStop, o.preStop) && o.signal {
        var s := r.(process := Exited, log := r.log + [Stopped]);
        AllDoneIff(cfg, r, PreStop);
        Happens(cfg, r, Stopped, s);
        assert forall ph :: Done(s, ph) == Done(r, ph);
        CompletedIff(cfg, s, PostStop, o.postStop);
      }
    }
  }

  /** A sync of this pilot succeeds exactly when it leaves nothing undone: hooks, subprocess, unless told to stop. */
  lemma SyncOkIff(cfg: Config, p: Pilot, o: SyncOutcomes)
    requires Inv(cfg, p)
    ensures var q := SyncPilot(cfg, p, o);
      SyncOk(cfg, p, o) <==>
      !o.isThisPilot
      || (AllDone(cfg, q, PreStart) && AllDone(cfg, q, PostStart) && !q.process.Absent?
          && (q.process.Running? || q.shutdown))
  {
    CompletedIff(cfg, p, PreStart, o.preStart);
    TransitionPreserves(cfg, p, PreStart, o.preStart);
    var q := Transition(cfg, p, PreStart, o.preStart);
    if o.isThisPilot && Completed(cfg, p, PreStart, o.preStart) && (p.process.Absent? ==> o.command) {
      var c := if q.process.Absent? then q.(process := Created) else q;
      assert forall ph :: Done(c, ph) == Done(q, ph);
      if c.process.Running? || c.shutdown {
        CompletedIff(cfg, c, PostStart, o.postStart);
      } else if c.process.Created? && o.start {
        var s := StartProcess(c, o.start);
        AllDoneIff(cfg, q, PreStart);
        Happens(cfg, c, Start, s);
        assert forall ph :: Done(s, ph) == Done(q, ph);
        CompletedIff(cfg, s, PostStart, o.postStart);
      }
    }
  }

  /** A stop of a running subprocess succeeds exactly when it ends it, without an error, and all PostStop hooks do. */
  lemma StopOkIff(cfg: Config, p: Pilot, o: StopOutcomes)
    requires Inv(cfg, p)
    ensures StopOk(cfg, p, o) <==>
      !p.process.Running?
      || (Stop(cfg, p, o).process.Exited? && !o.exitError && AllDone(cfg, Stop(cfg, p, o), PostStop))
  {
    var q := p.(shutdown := true, log := p.log + [Shutdown]);
    Happens(cfg, p, Shutdown, q);
    if q.process.Running? {
      CompletedIff(cfg, q, PreStop, o.preStop);
      TransitionPreserves(cfg, q, PreStop, o.preStop);
      var r := Transition(cfg, q, PreStop, o.preStop);
      if Completed(cfg, q, PreStop, o.preStop) && o.signal {
        var s := r.(process := Exited, log := r.log + [Stopped]);
        AllDoneIff(cfg, r, PreStop);
        Happens(cfg, r, Stopped, s);
        assert forall ph :: Done(s, ph) == Done(r, ph);
        CompletedIff(cfg, s, PostStop, o.postStop);
      }
    }
  }
}
