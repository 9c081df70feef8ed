/** Whole runs of supervision: units are created, started, handed over, stopped and destroyed, and processes exit at any
    time, also between the two halves of a stop (app/libsystemd/src/serviceapi.c:1158-1187, 1322-1402, 5014-5020). */
module SupervisionRuns {
  import opened Wrappers
  import opened Errno
  import opened Services
  import opened Supervision

  datatype Stop<U> = Idle | Stopping(unit: U, pid: Pid, destroy: bool)

  datatype State<U(==)> = State(world: World<U>, stop: Stop<U>)

  datatype Op<U> =
    | CreateUnit(unit: U, policy: RestartPolicy)
    | StartUnit(unit: U, spawn: Spawn)
    | ProcessStarts                                                 // one that no unit started, such as a payload
    | ProcessExits(pid: Pid, status: int, spawns: seq<Spawn>)
    | NotifyMainPid(named: Option<U>, newPid: int, registers: bool)
    | BeginStop(unit: U, destroy: bool)                             // destroy: the unit leaves the registry afterwards
    | EndStop(kill: int, spawns: seq<Spawn>)                        // the process is gone, or the wait is over

  ghost predicate Enabled<U>(s: State<U>, op: Op<U>) {
    match op
    case CreateUnit(u, _) => s.stop == Idle && u !in s.world.units
    case StartUnit(u, _) => s.stop == Idle && u in s.world.units
    case ProcessStarts => true
    case ProcessExits(p, _, spawns) => p in s.world.procs && |spawns| == |s.world.procs[p]|
    case NotifyMainPid(u, _, _) => s.stop == Idle && (u.Some? ==> u.value in s.world.units)
    case BeginStop(u, _) => s.stop == Idle && u in s.world.units
    case EndStop(kill, spawns) =>
      && s.stop.Stopping?
      && s.stop.unit in s.world.units
      && s.world.units[s.stop.unit].pid == s.stop.pid > 0
      && (s.stop.pid in s.world.procs && kill == 0 ==> |spawns| == |s.world.procs[s.stop.pid]|)
  }

  ghost function Drop<U>(w: World<U>, u: U): World<U> {
    w.(units := w.units - {u})
  }

  ghost function Next<U>(s: State<U>, op: Op<U>): State<U>
    requires Enabled(s, op)
  {
    var w := s.world;
    match op
    case CreateUnit(u, policy) => s.(world := w.(units := w.units[u := Tracking(-1, -1, None, policy)]))
    case StartUnit(u, spawn) => s.(world := Start(w, u, spawn).0)
    case ProcessStarts => s.(world := AfterSpawn(w, true))
    case ProcessExits(p, status, spawns) => s.(world := Exit(w, p, status, spawns))
    case NotifyMainPid(u, pid, registers) => s.(world := Notify(w, u, pid, registers).0)
    case BeginStop(u, destroy) =>
      var (w', result) := StopBegin(w, u);
      if result == None then State(w', Stopping(u, w.units[u].pid as Pid, destroy))
      else State(if destroy then Drop(w', u) else w', Idle)
    case EndStop(kill, spawns) =>
      var (w', result) := StopEnd(w, s.stop.unit, kill, spawns);
      State(if s.stop.destroy then Drop(w', s.stop.unit) else w', Idle)
  }

  ghost predicate IsRun<U>(s: State<U>, run: seq<Op<U>>)
    decreases |run|
  {
    run == [] || (Enabled(s, run[0]) && IsRun(Next(s, run[0]), run[1..]))
  }

  ghost function After<U>(s: State<U>, run: seq<Op<U>>): State<U>
    requires IsRun(s, run)
    decreases |run|
  {
    if run == [] then s else After(Next(s, run[0]), run[1..])
  }

  ghost predicate Initial<U>(s: State<U>) {
    s.world.units == map[] && s.world.procs == map[] && s.world.nextPid == 1 && s.stop == Idle
  }

  /** The invariant of the world, and a unit that is being stopped is tracked without supervision. */
  ghost predicate StateInv<U>(s: State<U>) {
    && Inv(s.world)
    && (s.stop.Stopping? ==>
          && s.stop.unit in s.world.units
          && s.world.units[s.stop.unit].pid == s.stop.pid > 0
          && s.world.units[s.stop.unit].handle == None)
  }

  // ---------------------------------------------------------------------------------------------------------------
  // What an exit does to each unit
  // ---------------------------------------------------------------------------------------------------------------

  /** The units whose exit callback is registered on a process: those it supervises. */
  ghost predicate Supervises<U>(w: World<U>, p: Pid, u: U) {
    u in w.units && w.units[u].pid == p && w.units[u].handle.Some?
  }

  /** What an exit makes of a supervised unit, given the answer to its respawn: it is released, or restarted as a new
      process, which it supervises again if it can. */
  ghost predicate ReleasedOrRestarted<U>(before: World<U>, after: World<U>, u: U, status: int, spawn: Spawn)
    requires u in before.units && u in after.units
  {
    var was, now := before.units[u], after.units[u];
    var restarted := (was.policy == Always || (was.policy == OnFailure && status != 0)) && spawn.Spawned?;
    && now.policy == was.policy
    && (if restarted then now.pid == now.lastPid >= before.nextPid else now.pid == -1 && now.lastPid == was.lastPid)
    && (now.handle.Some? <==> restarted && spawn.alive && spawn.registers)
  }

  lemma {:induction false} CallbacksFrame<U>(w: World<U>, regs: seq<Registration<U>>, status: int,
                                             spawns: seq<Spawn>, u: U)
    requires |spawns| == |regs| && u in w.units && !Among(regs, u)
    ensures u in Callbacks(w, regs, status, spawns).units && Callbacks(w, regs, status, spawns).units[u] == w.units[u]
    decreases |regs|
  {
    if regs != [] {
      assert regs[0].unit != u;
      assert forall i :: 0 <= i < |regs[1..]| ==> regs[1..][i] == regs[i + 1];
      var first := if regs[0].unit in w.units then Callback(w, regs[0].unit, status, spawns[0]) else w;
      CallbacksFrame(first, regs[1..], status, spawns[1..], u);
    }
  }

  lemma CallbackEffect<U>(w: World<U>, regs: seq<Registration<U>>, dead: Pid, status: int, spawn: Spawn)
    requires InvDuring(w, regs, dead) && regs != [] && dead > 0
    ensures var u, after := regs[0].unit, Callback(w, regs[0].unit, status, spawn);
            u in w.units && u in after.units && ReleasedOrRestarted(w, after, u, status, spawn)
  {
  }

  lemma CallbackLeavesOthers<U>(w: World<U>, u: U, status: int, spawn: Spawn, v: U)
    requires u in w.units && v in w.units && v != u
    ensures var after := Callback(w, u, status, spawn);
            v in after.units && after.units[v] == w.units[v] && w.nextPid <= after.nextPid
  {
  }

  /** A unit is registered once on a process. */
  lemma RegisteredOnce<U>(w: World<U>, regs: seq<Registration<U>>, dead: Pid, i: nat, j: nat)
    requires InvDuring(w, regs, dead) && i < j < |regs|
    ensures regs[i].unit != regs[j].unit
  {
  }

  lemma {:induction false} CallbacksEffect<U>(w: World<U>, regs: seq<Registration<U>>, dead: Pid, status: int,
                                              spawns: seq<Spawn>, i: nat)
    requires InvDuring(w, regs, dead) && |spawns| == |regs| && i < |regs| && dead > 0
    ensures var u := regs[i].unit;
            && u in w.units && u in Callbacks(w, regs, status, spawns).units
            && ReleasedOrRestarted(w, Callbacks(w, regs, status, spawns), u, status, spawns[i])
    decreases |regs|
  {
    CallbackKeeps(w, regs, dead, status, spawns[0]);
    var first, rest := Callback(w, regs[0].unit, status, spawns[0]), regs[1..];
    if i == 0 {
      CallbackEffect(w, regs, dead, status, spawns[0]);
      forall j: nat | j < |rest| ensures rest[j].unit != regs[0].unit {
        RegisteredOnce(w, regs, dead, 0, j + 1);
      }
      CallbacksFrame(first, rest, status, spawns[1..], regs[0].unit);
    } else {
      RegisteredOnce(w, regs, dead, 0, i);
      assert rest[i - 1] == regs[i];
      CallbacksEffect(first, rest, dead, status, spawns[1..], i - 1);
      CallbackLeavesOthers(w, regs[0].unit, status, spawns[0], regs[i].unit);
    }
  }

  lemma SupervisedIffRegistered<U>(w: World<U>, p: Pid, u: U)
    requires Inv(w) && p in w.procs
    ensures Supervises(w, p, u) <==> Among(w.procs[p], u)
  {
    assert Owned(w, w.procs[p], p);
    if Supervises(w, p, u) {
      assert Registered(w, [], 0, u);
      var r := Registration(w.units[u].handle.value, u);
      var i :| 0 <= i < |w.procs[p]| && w.procs[p][i] == r;
    }
  }

  /** An exit touches exactly the units it supervises: each of those is released or, if its policy calls for it,
      restarted as a new process; every other unit is as it was. */
  lemma ExitEffect<U>(w: World<U>, p: Pid, status: int, spawns: seq<Spawn>, u: U)
    requires Inv(w) && p in w.procs && |spawns| == |w.procs[p]| && u in w.units
    ensures var after := Exit(w, p, status, spawns);
            && u in after.units
            && (if Supervises(w, p, u) then
                  exists i :: 0 <= i < |spawns| && w.procs[p][i].unit == u
                              && ReleasedOrRestarted(w, after, u, status, spawns[i])
                else after.units[u] == w.units[u])
  {
    SupervisedIffRegistered(w, p, u);
    ExitBegins(w, p);
    var begun := w.(procs := w.procs - {p});
    if Supervises(w, p, u) {
      var i :| 0 <= i < |w.procs[p]| && w.procs[p][i].unit == u;
      CallbacksEffect(begun, w.procs[p], p, status, spawns, i);
      assert ReleasedOrRestarted(w, Exit(w, p, status, spawns), u, status, spawns[i]);
    } else {
      CallbacksFrame(begun, w.procs[p], status, spawns, u);
    }
  }

  lemma FirstOwner<U>(w: World<U>, p: Pid)
    requires Inv(w) && p in w.procs && w.procs[p] != []
    ensures exists u :: u in w.units && w.units[u].pid == p
  {
    assert Owned(w, w.procs[p], p);
    assert w.units[w.procs[p][0].unit].pid == p;
  }

  /** The exit of a process no unit tracks changes no unit and respawns nothing. */
  lemma UntrackedExitIsInert<U>(w: World<U>, p: Pid, status: int, spawns: seq<Spawn>)
    requires Inv(w) && p in w.procs && |spawns| == |w.procs[p]|
    requires forall u :: u in w.units ==> w.units[u].pid != p
    ensures Exit(w, p, status, spawns) == w.(procs := w.procs - {p})
  {
    if w.procs[p] != [] {
      FirstOwner(w, p);
    }
  }

  /** After a hand-over, the launcher's own exit leaves the unit with its new main process. */
  lemma LauncherExitAfterHandOver<U>(w: World<U>, u: U, pid: int, registers: bool, status: int, spawns: seq<Spawn>)
    requires Inv(w) && u in w.units && Alive(w, w.units[u].pid) && Notify(w, Some(u), pid, registers).1 == 0
    requires pid != w.units[u].pid
    requires var n := Notify(w, Some(u), pid, registers).0; var launcher := w.units[u].pid as Pid;
             launcher in n.procs && |spawns| == |n.procs[launcher]|
    ensures var n := Notify(w, Some(u), pid, registers).0;
            var after := Exit(n, w.units[u].pid as Pid, status, spawns);
            u in after.units && after.units[u] == n.units[u] && after.units[u].pid == after.units[u].lastPid == pid
  {
    NotifyKeepsInv(w, Some(u), pid, registers);
    DetachKeepsInv(w, u);
    var n := Notify(w, Some(u), pid, registers).0;
    ExitEffect(n, w.units[u].pid as Pid, status, spawns, u);
  }

  // ---------------------------------------------------------------------------------------------------------------
  // Every run keeps the invariant
  // ---------------------------------------------------------------------------------------------------------------

  lemma DropKeepsInv<U>(w: World<U>, u: U)
    requires Inv(w) && u in w.units && w.units[u].handle == None
    ensures Inv(Drop(w, u))
  {
    var n := Drop(w, u);
    forall p | p in n.procs ensures Owned(n, n.procs[p], p) {
      assert Owned(w, w.procs[p], p);
    }
    forall v | v in n.units && n.units[v].handle.Some? ensures Registered(n, [], 0, v) {
      assert Registered(w, [], 0, v);
    }
  }

  lemma CreateKeepsInv<U>(w: World<U>, u: U, policy: RestartPolicy)
    requires Inv(w) && u !in w.units
    ensures Inv(w.(units := w.units[u := Tracking(-1, -1, None, policy)]))
  {
    var n := w.(units := w.units[u := Tracking(-1, -1, None, policy)]);
    forall p | p in n.procs ensures Owned(n, n.procs[p], p) {
      assert Owned(w, w.procs[p], p);
    }
    forall v | v in n.units && n.units[v].handle.Some? ensures Registered(n, [], 0, v) {
      assert Registered(w, [], 0, v);
    }
  }

  lemma BeginStopKeepsInv<U>(w: World<U>, u: U)
    requires Inv(w) && u in w.units
    ensures var (w', result) := StopBegin(w, u);
            && Inv(w') && u in w'.units && w'.units[u].handle == None
            && (result == None <==> Alive(w, w.units[u].pid))
            && (result == None ==> w'.units[u] == w.units[u].(handle := None) && Alive(w', w'.units[u].pid))
            && (result.Some? ==> result.value == ESRCH && w'.units[u].pid <= 0 && w'.procs == w.procs)
  {
    if w.units[u].handle.Some? {
      assert Registered(w, [], 0, u);
    }
    DetachKeepsInv(w, u);
    if w.units[u].handle == None {
      ReleaseKeepsInv(w, u);
    }
  }

  /** A stop that reports success has released the unit and left nothing of its process. */
  lemma EndStopEffect<U>(w: World<U>, u: U, kill: int, spawns: seq<Spawn>)
    requires Inv(w) && u in w.units && w.units[u].pid > 0 && w.units[u].handle == None
    requires var p := w.units[u].pid as Pid; p in w.procs && kill == 0 ==> |spawns| == |w.procs[p]|
    ensures var (w', result) := StopEnd(w, u, kill, spawns);
            && Inv(w') && u in w'.units && w'.units[u].handle == None
            && w'.units[u].lastPid == w.units[u].lastPid
            && (result == 0 ==> w'.units[u].pid == -1 && w.units[u].pid as Pid !in w'.procs)
            && (result != 0 ==> w' == w && result == kill && w.units[u].pid as Pid in w.procs)
  {
    var p := w.units[u].pid as Pid;
    if p !in w.procs {
      ReleaseKeepsInv(w, u);
    } else if kill == 0 {
      ExitEffect(w, p, 0, spawns, u);
      ExitKeepsInv(w, p, 0, spawns);
      ExitRemoves(w, p, 0, spawns);
      ReleaseKeepsInv(Exit(w, p, 0, spawns), u);
    }
  }

  lemma {:induction false} CallbacksNeverRevive<U>(w: World<U>, regs: seq<Registration<U>>, status: int,
                                                   spawns: seq<Spawn>, p: Pid)
    requires |spawns| == |regs| && p !in w.procs && p < w.nextPid
    ensures p !in Callbacks(w, regs, status, spawns).procs
    decreases |regs|
  {
    if regs != [] {
      var first := if regs[0].unit in w.units then Callback(w, regs[0].unit, status, spawns[0]) else w;
      CallbacksNeverRevive(first, regs[1..], status, spawns[1..], p);
    }
  }

  lemma ExitRemoves<U>(w: World<U>, p: Pid, status: int, spawns: seq<Spawn>)
    requires Inv(w) && p in w.procs && |spawns| == |w.procs[p]|
    ensures p !in Exit(w, p, status, spawns).procs
  {
    CallbacksNeverRevive(w.(procs := w.procs - {p}), w.procs[p], status, spawns, p);
  }

  lemma NextKeepsInv<U>(s: State<U>, op: Op<U>)
    requires StateInv(s) && Enabled(s, op)
    ensures StateInv(Next(s, op))
  {
    var w := s.world;
    match op
    case CreateUnit(u, policy) => CreateKeepsInv(w, u, policy);
    case StartUnit(u, spawn) => StartKeeps(w, u, spawn, [], 0);
    case ProcessStarts => SpawnKeeps(w, true, [], 0);
    case ProcessExits(p, status, spawns) =>
      ExitKeepsInv(w, p, status, spawns);
      if s.stop.Stopping? {
        ExitEffect(w, p, status, spawns, s.stop.unit);
      }
    case NotifyMainPid(u, pid, registers) => NotifyKeepsInv(w, u, pid, registers);
    case BeginStop(u, destroy) =>
      BeginStopKeepsInv(w, u);
      if StopBegin(w, u).1.Some? {
        DropKeepsInv(StopBegin(w, u).0, u);
      }
    case EndStop(kill, spawns) =>
      EndStopEffect(w, s.stop.unit, kill, spawns);
      DropKeepsInv(StopEnd(w, s.stop.unit, kill, spawns).0, s.stop.unit);
  }

  /** Supervision invariant: in every run, the registrations on live processes are exactly those of units not yet
      destroyed that track that process, and a tracked pid is the last pid. */
  lemma {:induction false} RunKeepsInv<U>(s: State<U>, run: seq<Op<U>>)
    requires StateInv(s) && IsRun(s, run)
    ensures StateInv(After(s, run))
    decreases |run|
  {
    if run != [] {
      NextKeepsInv(s, run[0]);
      RunKeepsInv(Next(s, run[0]), run[1..]);
    }
  }

  lemma ReachableStatesAreSupervised<U>(s: State<U>, run: seq<Op<U>>)
    requires Initial(s) && IsRun(s, run)
    ensures StateInv(After(s, run))
  {
    RunKeepsInv(s, run);
  }

  // ---------------------------------------------------------------------------------------------------------------
  // A unit keeps its process
  // ---------------------------------------------------------------------------------------------------------------

  ghost predicate OthersUnchanged<U>(before: World<U>, after: World<U>, u: U) {
    && after.units.Keys == before.units.Keys
    && forall v :: v in before.units && v != u ==> after.units[v] == before.units[v]
  }

  /** A start finds a live process and changes nothing, or fails to spawn and changes nothing, or makes a new process
      the unit's main process, supervised if it can be. */
  lemma StartOutcome<U>(w: World<U>, u: U, spawn: Spawn)
    requires Inv(w) && u in w.units && (spawn.Failed? ==> spawn.error < 0)
    ensures var (n, result) := Start(w, u, spawn);
            && OthersUnchanged(w, n, u)
            && (result == 0 <==> !Alive(w, w.units[u].pid) && spawn.Spawned?)
            && (result != 0 ==> n == w && result == if Alive(w, w.units[u].pid) then EALREADY else spawn.error)
            && (result == 0 ==>
                  && n.units[u].pid == n.units[u].lastPid == w.nextPid == n.nextPid - 1
                  && n.units[u].policy == w.units[u].policy
                  && (n.units[u].handle.Some? <==> spawn.alive && spawn.registers)
                  && n.procs.Keys == w.procs.Keys + (if spawn.alive then {w.nextPid} else {}))
  {
    assert w.nextPid !in w.procs;
  }

  /** A hand-over succeeds for every unit and every live process, whatever became of the launcher: the process is the
      unit's main process from then on, supervised if it takes the registration. Nothing else changes. */
  lemma NotifyOutcome<U>(w: World<U>, u: Option<U>, pid: int, registers: bool)
    requires Inv(w) && (u.Some? ==> u.value in w.units)
    ensures var (n, result) := Notify(w, u, pid, registers);
            && (result == 0 <==> Alive(w, pid) && u.Some?)
            && (result != 0 ==> n == w)
            && (pid <= 0 ==> result == EINVAL) && (pid > 0 && !Alive(w, pid) ==> result == ESRCH)
            && (Alive(w, pid) && u == None ==> result == ENOENT)
            && (result == 0 ==>
                  && OthersUnchanged(w, n, u.value) && n.procs.Keys == w.procs.Keys && n.nextPid == w.nextPid
                  && n.units[u.value].pid == n.units[u.value].lastPid == pid
                  && n.units[u.value].policy == w.units[u.value].policy
                  && (w.units[u.value].pid == pid ==> n == w)
                  && (w.units[u.value].pid != pid ==> (n.units[u.value].handle.Some? <==> registers)))
  {
    if Alive(w, pid) && u.Some? && w.units[u.value].pid != pid {
      DetachKeepsInv(w, u.value);
    }
  }

  lemma OtherStartLeaves<U>(w: World<U>, v: U, spawn: Spawn, u: U)
    requires Inv(w) && u in w.units && v in w.units && Alive(w, w.units[u].pid)
    ensures u in Start(w, v, spawn).0.units && Start(w, v, spawn).0.units[u] == w.units[u]
  {
  }

  lemma OtherStopLeaves<U>(w: World<U>, v: U, kill: int, spawns: seq<Spawn>, u: U)
    requires Inv(w) && u in w.units && v in w.units && w.units[v].pid > 0 && Alive(w, w.units[u].pid)
    requires var p := w.units[v].pid as Pid; p in w.procs && kill == 0 ==> |spawns| == |w.procs[p]|
    ensures var n := StopEnd(w, v, kill, spawns).0;
            u in n.units && (Alive(n, w.units[u].pid) ==> n.units[u].pid == w.units[u].pid)
  {
    var p := w.units[v].pid as Pid;
    if p in w.procs && kill == 0 {
      ExitEffect(w, p, 0, spawns, u);
      ExitRemoves(w, p, 0, spawns);
    }
  }

  /** No operation takes a live process away from its unit and leaves it running: as long as the process is there it
      stays the unit's main process, unless the unit itself is handed over to another one. */
  lemma LiveProcessStaysTracked<U>(s: State<U>, op: Op<U>, u: U)
    requires StateInv(s) && Enabled(s, op) && u in s.world.units && Alive(s.world, s.world.units[u].pid)
    requires !(op.NotifyMainPid? && op.named == Some(u))
    requires u in Next(s, op).world.units && Alive(Next(s, op).world, s.world.units[u].pid)
    ensures Next(s, op).world.units[u].pid == s.world.units[u].pid
  {
    var w := s.world;
    match op
    case StartUnit(v, spawn) => OtherStartLeaves(w, v, spawn, u);
    case ProcessExits(p, status, spawns) =>
      ExitEffect(w, p, status, spawns, u);
      ExitRemoves(w, p, status, spawns);
    case NotifyMainPid(v, pid, registers) => NotifyOutcome(w, v, pid, registers);
    case EndStop(kill, spawns) => OtherStopLeaves(w, s.stop.unit, kill, spawns, u);
    case _ =>
  }

  // ---------------------------------------------------------------------------------------------------------------
  // A deliberate stop
  // ---------------------------------------------------------------------------------------------------------------

  ghost predicate NoEndStop<U>(run: seq<Op<U>>) {
    forall i :: 0 <= i < |run| ==> !run[i].EndStop?
  }

  /** While a stop waits, whatever exits - its own process included, with any status, under any restart policy - the
      unit stays as the stop left it. */
  lemma {:induction false} StoppingUnitIsLeftAlone<U>(s: State<U>, run: seq<Op<U>>)
    requires StateInv(s) && s.stop.Stopping? && IsRun(s, run) && NoEndStop(run)
    ensures var t := After(s, run);
            t.stop == s.stop && s.stop.unit in t.world.units
            && t.world.units[s.stop.unit] == s.world.units[s.stop.unit]
    decreases |run|
  {
    if run != [] {
      NextKeepsInv(s, run[0]);
      if run[0].ProcessExits? {
        ExitEffect(s.world, run[0].pid, run[0].status, run[0].spawns, s.stop.unit);
      }
      assert forall i :: 0 <= i < |run[1..]| ==> run[1..][i] == run[i + 1];
      StoppingUnitIsLeftAlone(Next(s, run[0]), run[1..]);
    }
  }

  /** A whole stop: from its beginning, through any exits while it waits, to its end, the unit is never respawned. If
      the stop reports success the unit is released and its process is gone; if the kill fails, the unit still tracks
      it. */
  lemma DeliberateStopNeverRespawns<U>(s: State<U>, u: U, wait: seq<Op<U>>, end: Op<U>)
    requires StateInv(s) && Enabled(s, BeginStop(u, false)) && StopBegin(s.world, u).1 == None
    requires IsRun(Next(s, BeginStop(u, false)), wait) && NoEndStop(wait) && end.EndStop?
    requires Enabled(After(Next(s, BeginStop(u, false)), wait), end)
    ensures var m := After(Next(s, BeginStop(u, false)), wait);
            var result := StopEnd(m.world, m.stop.unit, end.kill, end.spawns).1;
            var t := Next(m, end).world;
            && m.stop.unit == u
            && u in s.world.units && u in t.units
            && t.units[u].lastPid == s.world.units[u].lastPid
            && t.units[u].handle == None
            && t.units[u].pid == (if result == 0 then -1 else s.world.units[u].pid)
            && (result == 0 ==> s.world.units[u].pid > 0 && s.world.units[u].pid as Pid !in t.procs)
  {
    var b := Next(s, BeginStop(u, false));
    BeginStopKeepsInv(s.world, u);
    NextKeepsInv(s, BeginStop(u, false));
    StoppingUnitIsLeftAlone(b, wait);
    RunKeepsInv(b, wait);
    EndStopEffect(After(b, wait).world, u, end.kill, end.spawns);
  }

  // ---------------------------------------------------------------------------------------------------------------
  // Every spawn has a cause
  // ---------------------------------------------------------------------------------------------------------------

  /** How many spawns an operation may account for: one for an explicit start, one for each unit whose policy calls for
      a restart of the process that exits, none for a stop or a hand-over. */
  ghost function Budget<U>(s: State<U>, op: Op<U>): nat
    requires Enabled(s, op)
  {
    match op
    case StartUnit(_, _) => 1
    case ProcessStarts => 1
    case ProcessExits(p, status, _) => |RestartsDue(s.world, p, status)|
    case EndStop(kill, _) =>
      if s.stop.pid in s.world.procs && kill == 0 then |RestartsDue(s.world, s.stop.pid, 0) - {s.stop.unit}| else 0
    case _ => 0
  }

  ghost function RestartsDue<U>(w: World<U>, p: Pid, status: int): set<U> {
    set u | u in w.units && w.units[u].pid == p && w.units[u].handle.Some? && Qualifies(w.units[u].policy, status)
  }

  ghost function TotalBudget<U>(s: State<U>, run: seq<Op<U>>): nat
    requires IsRun(s, run)
    decreases |run|
  {
    if run == [] then 0 else Budget(s, run[0]) + TotalBudget(Next(s, run[0]), run[1..])
  }

  lemma CallbackUsesUpRestart<U>(w: World<U>, u: U, dead: Pid, status: int, spawn: Spawn)
    requires Numbers(w) && Supervises(w, dead, u) && dead < w.nextPid
    ensures var first := Callback(w, u, status, spawn);
            first.nextPid - w.nextPid <= |RestartsDue(w, dead, status)| - |RestartsDue(first, dead, status)|
  {
    var first := Callback(w, u, status, spawn);
    var due, later := RestartsDue(w, dead, status), RestartsDue(first, dead, status);
    assert first.units[u].pid != dead;
    assert forall v :: v in later ==> v != u && first.units[v] == w.units[v];
    SubsetSize(later, due - {u});
  }

  lemma {:induction false} CallbacksSpawn<U>(w: World<U>, regs: seq<Registration<U>>, dead: Pid, status: int,
                                             spawns: seq<Spawn>)
    requires InvDuring(w, regs, dead) && |spawns| == |regs|
    ensures Callbacks(w, regs, status, spawns).nextPid - w.nextPid <= |RestartsDue(w, dead, status)|
    decreases |regs|
  {
    if regs != [] {
      CallbackKeeps(w, regs, dead, status, spawns[0]);
      CallbackUsesUpRestart(w, regs[0].unit, dead, status, spawns[0]);
      CallbacksSpawn(Callback(w, regs[0].unit, status, spawns[0]), regs[1..], dead, status, spawns[1..]);
    }
  }

  lemma {:induction false} SubsetSize<T>(a: set<T>, b: set<T>)
    requires a <= b
    ensures |a| <= |b|
  {
    if a != {} {
      var x :| x in a;
      SubsetSize(a - {x}, b - {x});
    }
  }

  lemma SpawnsWithinBudget<U>(s: State<U>, op: Op<U>)
    requires StateInv(s) && Enabled(s, op)
    ensures Next(s, op).world.nextPid - s.world.nextPid <= Budget(s, op)
  {
    var w := s.world;
    match op
    case ProcessExits(p, status, spawns) =>
      ExitSpawns(w, p, status, spawns);
    case EndStop(kill, spawns) =>
      if s.stop.pid in w.procs && kill == 0 {
        ExitSpawns(w, s.stop.pid, 0, spawns);
        assert RestartsDue(w, s.stop.pid, 0) - {s.stop.unit} == RestartsDue(w, s.stop.pid, 0);
      }
    case _ =>
  }

  lemma ExitSpawns<U>(w: World<U>, p: Pid, status: int, spawns: seq<Spawn>)
    requires Inv(w) && p in w.procs && |spawns| == |w.procs[p]|
    ensures Exit(w, p, status, spawns).nextPid - w.nextPid <= |RestartsDue(w, p, status)|
  {
    ExitBegins(w, p);
    var begun := w.(procs := w.procs - {p});
    CallbacksSpawn(begun, w.procs[p], p, status, spawns);
    assert RestartsDue(begun, p, status) == RestartsDue(w, p, status);
  }

  /** Over a whole run, every process spawned is accounted for by an explicit start or by an exit whose unit's policy
      calls for a restart. */
  lemma {:induction false} EverySpawnIsAccountedFor<U>(s: State<U>, run: seq<Op<U>>)
    requires StateInv(s) && IsRun(s, run)
    ensures After(s, run).world.nextPid - s.world.nextPid <= TotalBudget(s, run)
    decreases |run|
  {
    if run != [] {
      SpawnsWithinBudget(s, run[0]);
      NextKeepsInv(s, run[0]);
      EverySpawnIsAccountedFor(Next(s, run[0]), run[1..]);
    }
  }
}
