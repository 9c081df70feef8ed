/** Units of type library that share one module (app/libsystemd/src/serviceapi.c:984-1044, 1384-1431, 1461-1473).

    A module may implement a pair of callbacks, one that starts a unit and one that stops it. Such a module stays
    enabled when a unit stops; each unit has a flag of its own. A module without callbacks is enabled and disabled
    instead. What the loader and the callbacks answer is an input of each operation. */
module LibraryUnits {
  import opened Wrappers
  import opened Errno
  import opened Services

  datatype Kind = START | STOP

  /** The module, the flags of the units that use it, and for each unit the callbacks that succeeded so far, in
      order. */
  datatype Library<U(==)> = Library(
    loaded: bool,
    enabled: bool,
    hasStart: bool,
    hasStop: bool,
    started: map<U, bool>,
    done: map<U, seq<Kind>>)

  datatype StartAnswers = StartAnswers(loads: bool, enables: bool, disables: bool, unloads: bool, callback: int)

  datatype StopAnswers = StopAnswers(disables: bool, unloads: bool, callback: int)

  function Succeeded<U>(m: Library<U>, u: U, kind: Kind): Library<U> {
    m.(started := m.started[u := kind == START],
       done := m.done[u := (if u in m.done then m.done[u] else []) + [kind]])
  }

  function Start<U>(m: Library<U>, u: U, a: StartAnswers): (Library<U>, int)
    requires u in m.started
  {
    var enable := m.(loaded := true, enabled := true);
    if !m.loaded && !a.loads then (m, ENOENT)
    else if !a.enables then (m, EIO)
    else if m.hasStart != m.hasStop then
      (if !m.loaded && a.disables then enable.(enabled := false, loaded := !a.unloads) else enable, ENOTSUP)
    else if !m.hasStart then (enable, if m.enabled then EALREADY else 0)
    else if m.started[u] && m.enabled then (enable, EALREADY)
    else
      (if a.callback == 0 then Succeeded(enable, u, START) else enable.(started := m.started[u := false]), a.callback)
  }

  function Stop<U>(m: Library<U>, u: U, a: StopAnswers): (Library<U>, int)
    requires u in m.started
  {
    var inactive := m.(started := m.started[u := false]);
    if !m.loaded && !m.enabled then (inactive, if m.started[u] then 0 else ESRCH)
    else if !m.enabled then
      if m.started[u] then (inactive, 0)
      else if a.unloads then (m.(loaded := false), 0)
      else (m, EIO)
    else if m.hasStop then
      if !m.started[u] then (m, ESRCH)
      else
        (if a.callback == 0 then Succeeded(m, u, STOP) else m, a.callback)
    else if !a.disables then (m, EIO)
    else if m.loaded && !a.unloads then (m.(enabled := false), EIO)
    else (m.(enabled := false, loaded := false), 0)
  }

  /** libsystemd_fill_status: whether the unit is reported as running. */
  predicate Running<U>(m: Library<U>, u: U)
    requires u in m.started
  {
    m.enabled && (m.hasStart || m.hasStop ==> m.started[u])
  }

  // ---------------------------------------------------------------------------------------------------------------
  // Runs
  // ---------------------------------------------------------------------------------------------------------------

  /** Enable and Disable are the doing of others that use the module. Renew is a rescan's new generation in the place of
      the previous one: new units, none of them started, whatever the units of the same names were. */
  datatype Op<U> =
    | StartUnit(unit: U, starts: StartAnswers)
    | StopUnit(unit: U, stops: StopAnswers)
    | Enable
    | Disable
    | Renew(units: set<U>)

  predicate Enabled<U>(m: Library<U>, op: Op<U>) {
    op.StartUnit? || op.StopUnit? ==> op.unit in m.started
  }

  function Next<U>(m: Library<U>, op: Op<U>): Library<U>
    requires Enabled(m, op)
  {
    match op
    case StartUnit(u, a) => Start(m, u, a).0
    case StopUnit(u, a) => Stop(m, u, a).0
    case Enable => m.(loaded := true, enabled := true)
    case Disable => m.(enabled := false)
    case Renew(units) => m.(started := map u | u in units :: false, done := (map u | u in units :: []) + m.done)
  }

  ghost predicate IsRun<U>(m: Library<U>, run: seq<Op<U>>)
    decreases |run|
  {
    run == [] || (Enabled(m, run[0]) && IsRun(Next(m, run[0]), run[1..]))
  }

  ghost function After<U>(m: Library<U>, run: seq<Op<U>>): Library<U>
    requires IsRun(m, run)
    decreases |run|
  {
    if run == [] then m else After(Next(m, run[0]), run[1..])
  }

  /** START, STOP, START, ... */
  ghost predicate Alternates(kinds: seq<Kind>) {
    forall k :: 0 <= k < |kinds| ==> kinds[k] == if k % 2 == 0 then START else STOP
  }

  ghost predicate CallbackBacked<U>(m: Library<U>) {
    m.hasStart && m.hasStop
  }

  /** The flag of a unit is its callbacks' doing, and a unit that is started has the module enabled. A name that no unit
      bears any more was left with its callbacks in balance. */
  ghost predicate InStep<U>(m: Library<U>, u: U) {
    && u in m.done
    && Alternates(m.done[u])
    && (u in m.started && m.started[u] <==> |m.done[u]| % 2 == 1)
    && (u in m.started && m.started[u] ==> m.enabled)
  }

  ghost predicate Inv<U>(m: Library<U>) {
    && CallbackBacked(m)
    && (m.enabled ==> m.loaded)
    && m.started.Keys <= m.done.Keys
    && forall u :: u in m.done ==> InStep(m, u)
  }

  /** No unit is started, which is to say that none is reported as running. */
  ghost predicate Quiet<U>(m: Library<U>) {
    forall u :: u in m.started ==> !m.started[u]
  }

  lemma QuietIsReported<U>(m: Library<U>)
    requires Inv(m)
    ensures Quiet(m) <==> forall u :: u in m.started ==> !Running(m, u)
  {
    forall u | u in m.started ensures Running(m, u) <==> m.started[u] {
      assert InStep(m, u);
    }
  }

  /** What the library leaves to others: disabling the module, and giving up units that were not stopped. */
  predicate Interferes<U>(op: Op<U>) {
    op.Disable? || op.Renew?
  }

  lemma NextKeepsInv<U>(m: Library<U>, op: Op<U>)
    requires Inv(m) && Enabled(m, op) && (Interferes(op) ==> Quiet(m))
    ensures Inv(Next(m, op))
    ensures !Interferes(op) ==> Next(m, op).started.Keys == m.started.Keys && (m.enabled ==> Next(m, op).enabled)
  {
    var n := Next(m, op);
    forall u | u in n.done ensures InStep(n, u) {
      assert u in m.done ==> InStep(m, u);
    }
  }

  /** Disabling the module, or replacing the units, keeps flags and callbacks in step exactly when no unit is
      started. */
  lemma InterferenceKeepsInvIff<U>(m: Library<U>, op: Op<U>)
    requires Inv(m) && Interferes(op)
    ensures Inv(Next(m, op)) <==> Quiet(m)
  {
    var n := Next(m, op);
    if Quiet(m) {
      NextKeepsInv(m, op);
    } else {
      var u :| u in m.started && m.started[u];
      assert InStep(m, u);
      assert n.done[u] == m.done[u];
      assert !InStep(n, u);
    }
  }

  /** Whatever others do in a run, they do while no unit is started. */
  ghost predicate Considerate<U>(m: Library<U>, run: seq<Op<U>>)
    requires IsRun(m, run)
    decreases |run|
  {
    run == [] || ((Interferes(run[0]) ==> Quiet(m)) && Considerate(Next(m, run[0]), run[1..]))
  }

  ghost predicate AlwaysInStep<U>(m: Library<U>, run: seq<Op<U>>)
    requires IsRun(m, run)
    decreases |run|
  {
    Inv(m) && (run == [] || AlwaysInStep(Next(m, run[0]), run[1..]))
  }

  /** Flags and callbacks stay in step throughout a run exactly when others interfere only while no unit is started. */
  lemma {:induction false} InStepThroughoutIff<U>(m: Library<U>, run: seq<Op<U>>)
    requires Inv(m) && IsRun(m, run)
    ensures AlwaysInStep(m, run) <==> Considerate(m, run)
    decreases |run|
  {
    if run != [] {
      var n := Next(m, run[0]);
      if Interferes(run[0]) {
        InterferenceKeepsInvIff(m, run[0]);
      } else {
        NextKeepsInv(m, run[0]);
      }
      if Inv(n) {
        InStepThroughoutIff(n, run[1..]);
      }
    }
  }

  /** After any run in which others interfere only while no unit is started: for every name a unit ever bore the
      successful callbacks alternate, starting with START; a unit's flag is up exactly when the last of them was
      START, and that is when it is reported as running. */
  lemma {:induction false} FlagsFollowCallbacks<U>(m: Library<U>, run: seq<Op<U>>, u: U)
    requires Inv(m) && IsRun(m, run) && Considerate(m, run)
    ensures var n := After(m, run);
            && (u in n.done ==> Alternates(n.done[u]))
            && (u in n.started ==>
                  && u in n.done
                  && (n.started[u] <==> n.done[u] != [] && n.done[u][|n.done[u]| - 1] == START)
                  && (Running(n, u) <==> n.started[u]))
    ensures (forall k :: 0 <= k < |run| ==> run[k] != Disable) && m.enabled ==> After(m, run).enabled
    decreases |run|
  {
    if run == [] {
      assert u in m.done ==> InStep(m, u);
    } else {
      NextKeepsInv(m, run[0]);
      FlagsFollowCallbacks(Next(m, run[0]), run[1..], u);
    }
  }

  /** Starting or stopping one unit never changes another one, and stopping never disables a module with callbacks. */
  lemma UnitsAreIndependent<U>(m: Library<U>, op: Op<U>, other: U)
    requires Enabled(m, op) && CallbackBacked(m) && (op.StartUnit? || op.StopUnit?)
    requires other in m.started && other != op.unit
    ensures var n := Next(m, op);
            && other in n.started && n.started[other] == m.started[other]
            && (other in m.done <==> other in n.done) && (other in m.done ==> n.done[other] == m.done[other])
            && (m.enabled ==> n.enabled)
  {
  }

  /** An operation that reports an error - a failed callback included - leaves every unit as it was: inactive after a
      START that failed, active after a STOP that failed. */
  lemma ErrorsChangeNoUnit<U>(m: Library<U>, u: U, starts: StartAnswers, stops: StopAnswers)
    requires Inv(m) && u in m.started
    ensures Start(m, u, starts).1 != 0
           ==> Start(m, u, starts).0.started == m.started && Start(m, u, starts).0.done == m.done
    ensures Stop(m, u, stops).1 != 0 ==> Stop(m, u, stops).0.started == m.started && Stop(m, u, stops).0.done == m.done
  {
    assert InStep(m, u);
  }

  /** Why interference with a started unit matters: the next start calls START again without a STOP. */
  lemma InterferenceRepeatsStart<U>(m: Library<U>, op: Op<U>, u: U, a: StartAnswers)
    requires Inv(m) && Interferes(op) && u in m.started && m.started[u]
    requires op.Renew? ==> u in op.units
    requires a.loads && a.enables && a.callback == 0
    ensures Enabled(m, op) && u in Next(m, op).started && !Running(Next(m, op), u)
    ensures var n := Start(Next(m, op), u, a).0; u in n.done && !Alternates(n.done[u])
  {
    assert InStep(m, u);
    var n := Start(Next(m, op), u, a).0;
    assert n.done[u] == m.done[u] + [START];
    assert n.done[u][|m.done[u]|] == START;
  }

  // ---------------------------------------------------------------------------------------------------------------
  // What a start and a stop achieve, in every state of the module
  // ---------------------------------------------------------------------------------------------------------------

  ghost function DoneBy<U>(m: Library<U>, u: U): seq<Kind> {
    if u in m.done then m.done[u] else []
  }

  /** A start that reports success has called START, if the module has callbacks, and the unit runs, also when it is
      the first one and had to load and enable the module. A unit that runs is reported as such and not started again.
      Any other unit whose module can be enabled is started: it runs afterwards exactly if START does not fail, and a
      failure is reported. */
  lemma StartOutcome<U>(m: Library<U>, u: U, a: StartAnswers)
    requires u in m.started
    ensures var (n, result) := Start(m, u, a);
            && n.started.Keys == m.started.Keys
            && (result == 0 ==> Running(n, u))
            && (result == 0 && CallbackBacked(m) ==> DoneBy(n, u) == DoneBy(m, u) + [START] && a.callback == 0)
            && (result != 0 || !CallbackBacked(m) ==> n.done == m.done)
            && (a.loads && a.enables && m.hasStart == m.hasStop && Running(m, u) ==>
                  result == EALREADY && Running(n, u))
            && (a.loads && a.enables && m.hasStart == m.hasStop && !Running(m, u) ==>
                  && n.loaded && n.enabled
                  && result == (if m.hasStart then a.callback else 0)
                  && n.started == if m.hasStart then m.started[u := a.callback == 0] else m.started)
  {
  }

  /** A module that cannot be loaded or enabled is left as it was, and so is one with half a pair of callbacks that
      was loaded only to find that out. */
  lemma StartLeavesNothingBehind<U>(m: Library<U>, u: U, a: StartAnswers)
    requires u in m.started && (m.enabled ==> m.loaded)
    ensures !m.loaded && !a.loads ==> Start(m, u, a) == (m, ENOENT)
    ensures (m.loaded || a.loads) && !a.enables ==> Start(m, u, a) == (m, EIO)
    ensures (m.loaded || a.loads) && a.enables && m.hasStart != m.hasStop ==> Start(m, u, a).1 == ENOTSUP
    ensures m.hasStart != m.hasStop && !m.loaded && a.disables && a.unloads ==> Start(m, u, a).0 == m
    ensures m.hasStart != m.hasStop && !m.loaded && a.loads && a.enables && a.disables && !a.unloads
        ==> Start(m, u, a).0 == m.(loaded := true)
    ensures m.hasStart != m.hasStop && a.enables && (m.loaded || (a.loads && !a.disables))
        ==> Start(m, u, a).0 == m.(loaded := true, enabled := true)
  {
  }

  /** A stop that reports success leaves the unit not running. One that runs by a callback is stopped exactly by its
      STOP callback: the result is what that reports, and if it fails the unit goes on running. */
  lemma StopOutcome<U>(m: Library<U>, u: U, a: StopAnswers)
    requires u in m.started
    ensures var (n, result) := Stop(m, u, a);
            && n.started.Keys == m.started.Keys
            && (result == 0 ==> !Running(n, u))
            && (Running(m, u) && CallbackBacked(m) ==>
                  && result == a.callback
                  && n.loaded == m.loaded && n.enabled
                  && n.started == m.started[u := a.callback != 0]
                  && DoneBy(n, u) == DoneBy(m, u) + (if a.callback == 0 then [STOP] else []))
            && (!Running(m, u) && CallbackBacked(m) ==> n.done == m.done)
  {
  }

  /** With the module disabled there is nothing to call: a flag that somebody else's disabling left behind is taken
      down, a module that is only loaded is unloaded, and a unit that was not there to stop is reported. */
  lemma StopWhileDisabled<U>(m: Library<U>, u: U, a: StopAnswers)
    requires u in m.started && !m.enabled
    ensures Stop(m, u, a).0.done == m.done && !Stop(m, u, a).0.started[u]
    ensures m.started[u] ==> Stop(m, u, a) == (m.(started := m.started[u := false]), 0)
    ensures !m.started[u] && m.loaded ==> Stop(m, u, a) == if a.unloads then (m.(loaded := false), 0) else (m, EIO)
    ensures !m.started[u] && !m.loaded ==> Stop(m, u, a) == (m, ESRCH)
  {
    if !m.started[u] {
      assert m.started[u := false] == m.started;
    }
  }

  /** START for a start of the unit that reports success, STOP for a stop of it that does so while it runs. */
  function Success<U>(m: Library<U>, op: Op<U>, u: U): seq<Kind>
    requires Enabled(m, op)
  {
    match op
    case StartUnit(v, a) => if v == u && Start(m, u, a).1 == 0 then [START] else []
    case StopUnit(v, a) => if v == u && Running(m, u) && Stop(m, u, a).1 == 0 then [STOP] else []
    case _ => []
  }

  ghost function Successes<U>(m: Library<U>, run: seq<Op<U>>, u: U): seq<Kind>
    requires IsRun(m, run)
    decreases |run|
  {
    if run == [] then [] else Success(m, run[0], u) + Successes(Next(m, run[0]), run[1..], u)
  }

  lemma CallbackIsTheSuccess<U>(m: Library<U>, op: Op<U>, u: U)
    requires CallbackBacked(m) && Enabled(m, op)
    ensures DoneBy(Next(m, op), u) == DoneBy(m, u) + Success(m, op, u) && CallbackBacked(Next(m, op))
  {
    match op
    case StartUnit(v, a) => StartOutcome(m, v, a);
    case StopUnit(v, a) => StopOutcome(m, v, a);
    case _ =>
  }

  /** Over any run, whatever others do to the module, the callbacks that succeeded for a unit are exactly what its
      starts and stops have reported. */
  lemma {:induction false} CallbacksAreTheSuccesses<U>(m: Library<U>, run: seq<Op<U>>, u: U)
    requires CallbackBacked(m) && IsRun(m, run)
    ensures DoneBy(After(m, run), u) == DoneBy(m, u) + Successes(m, run, u)
    decreases |run|
  {
    if run != [] {
      var n := Next(m, run[0]);
      CallbackIsTheSuccess(m, run[0], u);
      CallbacksAreTheSuccesses(n, run[1..], u);
      assert DoneBy(m, u) + Success(m, run[0], u) + Successes(n, run[1..], u)
          == DoneBy(m, u) + (Success(m, run[0], u) + Successes(n, run[1..], u));
    }
  }

  /** A module without callbacks is enabled by the start of a unit and disabled and unloaded by the stop. The stop
      undoes the start, and a failure is reported. */
  lemma PlainModuleLifecycle<U>(m: Library<U>, u: U, a: StartAnswers, b: StopAnswers)
    requires u in m.started && !m.hasStart && !m.hasStop && (m.enabled ==> m.loaded)
    ensures m.enabled ==> (Stop(m, u, b).1 == 0 <==> b.disables && b.unloads)
    ensures m.enabled && b.disables && b.unloads ==> Stop(m, u, b).0 == m.(loaded := false, enabled := false)
    ensures m.enabled && !b.disables ==> Stop(m, u, b) == (m, EIO)
    ensures m.enabled && b.disables && !b.unloads ==> Stop(m, u, b) == (m.(enabled := false), EIO)
    ensures !m.loaded && b.disables && b.unloads && Start(m, u, a).1 == 0 ==> Stop(Start(m, u, a).0, u, b) == (m, 0)
  {
  }

  // ---------------------------------------------------------------------------------------------------------------
  // Rescans
  // ---------------------------------------------------------------------------------------------------------------

  /** libsystemd_stop_all_services_visitor; the result is ignored. */
  function StopIfLoaded<U>(m: Library<U>, u: U, a: StopAnswers): Library<U>
    requires u in m.started
  {
    if m.loaded || m.enabled then Stop(m, u, a).0 else m
  }

  /** libsystemd_stop_all_services over the first n units. */
  function StopAll<U>(m: Library<U>, units: seq<U>, answers: seq<StopAnswers>, n: nat): (r: Library<U>)
    requires n <= |units| == |answers| && forall u :: u in units ==> u in m.started
    ensures r.started.Keys == m.started.Keys
  {
    if n == 0 then m else StopIfLoaded(StopAll(m, units, answers, n - 1), units[n - 1], answers[n - 1])
  }

  lemma StopIfLoadedEffect<U>(m: Library<U>, u: U, a: StopAnswers)
    requires Inv(m) && u in m.started
    ensures var r := StopIfLoaded(m, u, a);
            Inv(r) && r.started == m.started[u := m.started[u] && a.callback != 0]
  {
    assert InStep(m, u);
    NextKeepsInv(m, StopUnit(u, a));
  }

  ghost predicate StopSucceeds<U>(units: seq<U>, answers: seq<StopAnswers>, n: nat, u: U)
    requires n <= |units| == |answers|
  {
    exists k :: 0 <= k < n && units[k] == u && answers[k].callback == 0
  }

  lemma {:induction false} StopAllKeepsInv<U>(m: Library<U>, units: seq<U>, answers: seq<StopAnswers>, n: nat)
    requires Inv(m) && n <= |units| == |answers| && forall v :: v in units ==> v in m.started
    ensures Inv(StopAll(m, units, answers, n))
  {
    if n > 0 {
      StopAllKeepsInv(m, units, answers, n - 1);
      StopIfLoadedEffect(StopAll(m, units, answers, n - 1), units[n - 1], answers[n - 1]);
    }
  }

  lemma {:induction false} StopAllEffect<U>(m: Library<U>, units: seq<U>, answers: seq<StopAnswers>, n: nat, u: U)
    requires Inv(m) && n <= |units| == |answers| && (forall v :: v in units ==> v in m.started) && u in m.started
    ensures StopAll(m, units, answers, n).started[u] <==> m.started[u] && !StopSucceeds(units, answers, n, u)
  {
    if n > 0 {
      StopAllKeepsInv(m, units, answers, n - 1);
      StopAllEffect(m, units, answers, n - 1, u);
      StopIfLoadedEffect(StopAll(m, units, answers, n - 1), units[n - 1], answers[n - 1]);
    }
  }

  lemma StopAllQuietIff<U>(m: Library<U>, units: seq<U>, answers: seq<StopAnswers>)
    requires Inv(m) && |units| == |answers| && forall v :: v in units ==> v in m.started
    ensures Quiet(StopAll(m, units, answers, |units|))
       <==> forall u :: u in m.started && m.started[u] ==> StopSucceeds(units, answers, |units|, u)
  {
    var stopped := StopAll(m, units, answers, |units|);
    forall u | u in m.started
      ensures stopped.started[u] <==> m.started[u] && !StopSucceeds(units, answers, |units|, u)
    {
      StopAllEffect(m, units, answers, |units|, u);
    }
  }

  /** A rescan stops the previous generation, ignoring what that reports, and puts a new one in its place.
      Callbacks go on alternating for every unit name exactly when the STOP of every started unit succeeds. */
  lemma RescanKeepsInvIff<U>(m: Library<U>, units: seq<U>, answers: seq<StopAnswers>, renewed: set<U>)
    requires Inv(m) && |units| == |answers| && forall v :: v in units ==> v in m.started
    ensures Inv(Next(StopAll(m, units, answers, |units|), Renew(renewed)))
       <==> forall u :: u in m.started && m.started[u] ==> StopSucceeds(units, answers, |units|, u)
  {
    StopAllKeepsInv(m, units, answers, |units|);
    StopAllQuietIff(m, units, answers);
    InterferenceKeepsInvIff(StopAll(m, units, answers, |units|), Renew(renewed));
  }

  // ---------------------------------------------------------------------------------------------------------------
  // The operations on service objects
  // ---------------------------------------------------------------------------------------------------------------

  /** The shared module as the loader knows it. */
  class SharedModule {
    var loaded: bool
    var enabled: bool
    const hasStart: bool
    const hasStop: bool
    ghost var done: map<Service, seq<Kind>>

    constructor (hasStart: bool, hasStop: bool)
      ensures !loaded && !enabled && this.hasStart == hasStart && this.hasStop == hasStop && done == map[]
    {
      this.hasStart, this.hasStop := hasStart, hasStop;
      loaded, enabled, done := false, false, map[];
    }

    ghost function State(services: set<Service>): Library<Service>
      reads this, services
    {
      Library.Library(loaded, enabled, hasStart, hasStop, map s | s in services :: s.libraryStarted, done)
    }

    /** Only this unit's flag has changed since. */
    lemma FlagSet(services: set<Service>, before: map<Service, bool>, service: Service)
      requires service in services && before.Keys == services
      requires forall s :: s in services && s != service ==> s.libraryStarted == before[s]
      ensures State(services).started == before[service := service.libraryStarted]
    {
    }

    /** The START callback and what is made of its result. */
    method CallStart(service: Service, ghost services: set<Service>, callback: int)
      requires service in services
      modifies this`done, service`libraryStarted
      ensures var before := old(State(services));
              State(services) == if callback == 0 then Succeeded(before, service, START)
                                 else before.(started := before.started[service := false])
    {
      ghost var before := State(services);
      service.libraryStarted := false;
      if callback == 0 {
        service.libraryStarted := true;
        done := done[service := (if service in done then done[service] else []) + [START]];
      }
      FlagSet(services, before.started, service);
    }

    /** libsystemd_start_library_service_internal. */
    method StartLibrary(service: Service, ghost services: set<Service>, a: StartAnswers) returns (result: int)
      requires service in services
      modifies this, service`libraryStarted
      ensures (State(services), result) == Start(old(State(services)), service, a)
    {
      ghost var before := State(services);
      var wasEnabled, alreadyLoaded := enabled, loaded;
      if !alreadyLoaded {
        if !a.loads {
          return ENOENT;
        }
        loaded := true;
      }
      if !a.enables {
        if !alreadyLoaded {
          loaded := false;
        }
        assert State(services) == before;
        return EIO;
      }
      enabled := true;
      assert State(services).started == before.started;
      if hasStart != hasStop {
        if !alreadyLoaded && a.disables {
          enabled := false;
          loaded := !a.unloads;
        }
        assert State(services).started == before.started;
        return ENOTSUP;
      }
      if !hasStart {
        return if wasEnabled then EALREADY else 0;
      }
      if service.libraryStarted && wasEnabled {
        return EALREADY;
      }
      CallStart(service, services, a.callback);
      return a.callback;
    }

    /** libsystemd_stop_library_service_internal. */
    method StopLibrary(service: Service, ghost services: set<Service>, a: StopAnswers) returns (result: int)
      requires service in services
      modifies this, service`libraryStarted
      ensures (State(services), result) == Stop(old(State(services)), service, a)
    {
      ghost var before := State(services);
      if !loaded && !enabled {
        var active := service.libraryStarted;
        service.libraryStarted := false;
        assert State(services).started == before.started[service := false];
        return if active then 0 else ESRCH;
      }
      if !enabled {
        if service.libraryStarted {
          service.libraryStarted := false;
          assert State(services).started == before.started[service := false];
          return 0;
        }
        if a.unloads {
          loaded := false;
        }
        assert State(services).started == before.started;
        return if a.unloads then 0 else EIO;
      }
      if hasStop {
        if !service.libraryStarted {
          return ESRCH;
        }
        if a.callback == 0 {
          service.libraryStarted := false;
          done := done[service := (if service in done then done[service] else []) + [STOP]];
        }
        assert State(services).started == before.started[service := a.callback != 0];
        return a.callback;
      }
      if !a.disables {
        return EIO;
      }
      enabled := false;
      assert State(services).started == before.started;
      if loaded && !a.unloads {
        return EIO;
      }
      loaded := false;
      assert State(services).started == before.started;
      return 0;
    }
  }
}
