/** Supervision of process-backed units: start, exit, restart, main-PID hand-over and stop
    (app/libsystemd/src/serviceapi.c:929-975, 1087-1187, 1322-1368, 3577-3635).

    The operating system is an environment. It gives every process a fresh positive number, keeps a list of exit
    registrations for each live process, and when a process terminates it detaches that list and runs every callback on
    it once. Its answers - whether a spawn succeeds, whether the new process is still alive and takes a registration,
    whether a kill succeeds - are inputs of each operation. Calls into the library are serialised, as the code asks of
    its callers; processes may exit at any time, also while a stop waits. */
module Supervision {
  import opened Wrappers
  import opened Errno
  import opened Services

  type Pid = nat

  datatype Registration<U> = Registration(handle: nat, unit: U)

  datatype Tracking = Tracking(pid: int, lastPid: int, handle: Option<nat>, policy: RestartPolicy)

  datatype World<U(==)> = World(
    units: map<U, Tracking>,
    procs: map<Pid, seq<Registration<U>>>,
    nextPid: Pid,
    nextHandle: nat)

  /** The answer to Dmod_RunModuleDetached and to the registration that follows. */
  datatype Spawn = Failed(error: int) | Spawned(alive: bool, registers: bool)

  // ---------------------------------------------------------------------------------------------------------------
  // Operations
  // ---------------------------------------------------------------------------------------------------------------

  predicate Alive<U>(w: World<U>, pid: int) {
    pid > 0 && pid as Pid in w.procs
  }

  /** dmosi_process_unregister_exit_callback. */
  function Without<U>(regs: seq<Registration<U>>, handle: nat): seq<Registration<U>> {
    if regs == [] then []
    else if regs[0].handle == handle then regs[1..]
    else [regs[0]] + Without(regs[1..], handle)
  }

  function Attach<U>(w: World<U>, u: U, registers: bool): World<U>
    requires u in w.units
  {
    var t := w.units[u];
    if Alive(w, t.pid) && registers then
      var p := t.pid as Pid;
      w.(units := w.units[u := t.(handle := Some(w.nextHandle))],
         procs := w.procs[p := w.procs[p] + [Registration(w.nextHandle, u)]],
         nextHandle := w.nextHandle + 1)
    else
      w.(units := w.units[u := t.(handle := None)])
  }

  function Detach<U>(w: World<U>, u: U): World<U>
    requires u in w.units
  {
    var t := w.units[u];
    if t.handle == None then w
    else
      w.(units := w.units[u := t.(handle := None)],
         procs := if Alive(w, t.pid) then w.procs[t.pid as Pid := Without(w.procs[t.pid as Pid], t.handle.value)]
                  else w.procs)
  }

  function Repoint<U>(w: World<U>, u: U, pid: Pid): World<U>
    requires u in w.units
  {
    w.(units := w.units[u := w.units[u].(pid := pid, lastPid := pid)])
  }

  function Track<U>(w: World<U>, u: U, pid: Pid, registers: bool): World<U>
    requires u in w.units
  {
    Attach(Repoint(w, u, pid), u, registers)
  }

  /** A new process, which may have terminated already. */
  function AfterSpawn<U>(w: World<U>, alive: bool): World<U> {
    w.(procs := if alive then w.procs[w.nextPid := []] else w.procs, nextPid := w.nextPid + 1)
  }

  function Start<U>(w: World<U>, u: U, spawn: Spawn): (World<U>, int)
    requires u in w.units
  {
    if Alive(w, w.units[u].pid) then (w, EALREADY)
    else
      match spawn
      case Failed(error) => (w, error)
      case Spawned(alive, registers) =>
        (Track(AfterSpawn(w, alive), u, w.nextPid, registers), 0)
  }

  predicate Qualifies(policy: RestartPolicy, status: int) {
    policy == Always || (policy == OnFailure && status != 0)
  }

  /** libsystemd_service_exit_callback. */
  function Callback<U>(w: World<U>, u: U, status: int, spawn: Spawn): World<U>
    requires u in w.units
  {
    var released := w.(units := w.units[u := w.units[u].(handle := None, pid := -1)]);
    if Qualifies(w.units[u].policy, status) then Start(released, u, spawn).0 else released
  }

  function Callbacks<U>(w: World<U>, regs: seq<Registration<U>>, status: int, spawns: seq<Spawn>): World<U>
    requires |spawns| == |regs|
    decreases |regs|
  {
    if regs == [] then w
    else
      var first := if regs[0].unit in w.units then Callback(w, regs[0].unit, status, spawns[0]) else w;
      Callbacks(first, regs[1..], status, spawns[1..])
  }

  /** A live process terminates. */
  function Exit<U>(w: World<U>, p: Pid, status: int, spawns: seq<Spawn>): World<U>
    requires p in w.procs && |spawns| == |w.procs[p]|
  {
    Callbacks(w.(procs := w.procs - {p}), w.procs[p], status, spawns)
  }

  function Notify<U>(w: World<U>, u: Option<U>, pid: int, registers: bool): (World<U>, int)
    requires u.Some? ==> u.value in w.units
  {
    if pid <= 0 then (w, EINVAL)
    else if pid as Pid !in w.procs then (w, ESRCH)
    else if u == None then (w, ENOENT)
    else if w.units[u.value].pid == pid then (w, 0)
    else (Track(Detach(w, u.value), u.value, pid as Pid, registers), 0)
  }

  function SetPid<U>(w: World<U>, u: U, pid: int): World<U>
    requires u in w.units
  {
    w.(units := w.units[u := w.units[u].(pid := pid)])
  }

  /** The first part of a stop, up to the request: None if there is something to wait for, else the result. */
  function StopBegin<U>(w: World<U>, u: U): (World<U>, Option<int>)
    requires u in w.units
  {
    var pid := w.units[u].pid;
    if pid <= 0 then (w, Some(ESRCH))
    else if pid as Pid !in w.procs then (SetPid(w, u, -1), Some(ESRCH))
    else (Detach(w, u), None)
  }

  /** The last part of a stop. If the process is still there it is killed, with exit status 0; its callbacks - those of
      other units that track the same process - run like at any exit. kill is the result of dmosi_process_kill. */
  function StopEnd<U>(w: World<U>, u: U, kill: int, spawns: seq<Spawn>): (World<U>, int)
    requires u in w.units && w.units[u].pid > 0
    requires var p := w.units[u].pid as Pid; p in w.procs && kill == 0 ==> |spawns| == |w.procs[p]|
  {
    var p := w.units[u].pid as Pid;
    if p !in w.procs then (SetPid(w, u, -1), 0)
    else if kill != 0 then (w, kill)
    else
      var killed := Exit(w, p, 0, spawns);
      (if u in killed.units then SetPid(killed, u, -1) else killed, 0)
  }

  // ---------------------------------------------------------------------------------------------------------------
  // The invariant
  // ---------------------------------------------------------------------------------------------------------------

  /** A registration on the process, or among the callbacks of a terminated process that have yet to run. */
  ghost predicate Registered<U>(w: World<U>, pending: seq<Registration<U>>, dead: Pid, u: U)
    requires u in w.units && w.units[u].handle.Some?
  {
    var t := w.units[u];
    || (Alive(w, t.pid) && Registration(t.handle.value, u) in w.procs[t.pid as Pid])
    || (t.pid == dead && Registration(t.handle.value, u) in pending)
  }

  ghost predicate Numbers<U>(w: World<U>) {
    && w.nextPid > 0
    && (forall p :: p in w.procs ==> 0 < p < w.nextPid)
    && (forall u :: u in w.units ==> w.units[u].pid < w.nextPid)
    && (forall u :: u in w.units && w.units[u].pid > 0 ==> w.units[u].lastPid == w.units[u].pid)
  }

  /** Every registration belongs to a unit that tracks that process and knows the registration. */
  ghost predicate Owned<U>(w: World<U>, regs: seq<Registration<U>>, p: Pid) {
    && (forall i :: 0 <= i < |regs| ==> regs[i].unit in w.units && regs[i].handle < w.nextHandle)
    && (forall i :: 0 <= i < |regs| ==> w.units[regs[i].unit].pid == p
                                        && w.units[regs[i].unit].handle == Some(regs[i].handle))
    && DistinctHandles(regs)
  }

  /** The invariant while the callbacks of a terminated process are being run. */
  ghost predicate InvDuring<U>(w: World<U>, pending: seq<Registration<U>>, dead: Pid) {
    && Numbers(w)
    && (forall p :: p in w.procs ==> Owned(w, w.procs[p], p))
    && Owned(w, pending, dead)
    && dead !in w.procs
    && dead < w.nextPid
    && (forall u :: u in w.units && w.units[u].handle.Some? ==> Registered(w, pending, dead, u))
  }

  /** Supervision is exact: the registrations on live processes are those of the units that track them. */
  ghost predicate Inv<U>(w: World<U>) {
    InvDuring(w, [], 0)
  }

  ghost predicate Among<U>(regs: seq<Registration<U>>, u: U) {
    exists i :: 0 <= i < |regs| && regs[i].unit == u
  }

  ghost predicate DistinctHandles<U>(regs: seq<Registration<U>>) {
    forall i, j :: 0 <= i < j < |regs| ==> regs[i].handle != regs[j].handle
  }

  lemma {:induction false} WithoutMember<U>(regs: seq<Registration<U>>, handle: nat, r: Registration<U>)
    requires DistinctHandles(regs)
    ensures r in Without(regs, handle) <==> r in regs && r.handle != handle
  {
    if regs != [] {
      assert regs == [regs[0]] + regs[1..];
      WithoutMember(regs[1..], handle, r);
    }
  }

  lemma {:induction false} WithoutDistinct<U>(regs: seq<Registration<U>>, handle: nat)
    requires DistinctHandles(regs)
    ensures DistinctHandles(Without(regs, handle))
  {
    if regs != [] && regs[0].handle != handle {
      var rest := Without(regs[1..], handle);
      WithoutDistinct(regs[1..], handle);
      forall k | 0 <= k < |rest| ensures rest[k].handle != regs[0].handle {
        WithoutMember(regs[1..], handle, rest[k]);
      }
    }
  }

  /** Exactly the registration with the handle is taken out. */
  lemma WithoutEffect<U>(regs: seq<Registration<U>>, handle: nat)
    requires DistinctHandles(regs)
    ensures forall k :: 0 <= k < |Without(regs, handle)| ==>
              Without(regs, handle)[k] in regs && Without(regs, handle)[k].handle != handle
    ensures forall k :: 0 <= k < |regs| && regs[k].handle != handle ==> regs[k] in Without(regs, handle)
    ensures DistinctHandles(Without(regs, handle))
  {
    WithoutDistinct(regs, handle);
    forall k | 0 <= k < |Without(regs, handle)|
      ensures Without(regs, handle)[k] in regs && Without(regs, handle)[k].handle != handle
    {
      WithoutMember(regs, handle, Without(regs, handle)[k]);
    }
    forall k | 0 <= k < |regs| && regs[k].handle != handle ensures regs[k] in Without(regs, handle) {
      WithoutMember(regs, handle, regs[k]);
    }
  }

  lemma RepointKeeps<U>(w: World<U>, u: U, pid: Pid, pending: seq<Registration<U>>, dead: Pid)
    requires InvDuring(w, pending, dead) && u in w.units && w.units[u].handle == None
    requires 0 < pid < w.nextPid
    ensures InvDuring(Repoint(w, u, pid), pending, dead)
  {
    var n := Repoint(w, u, pid);
    forall p | p in n.procs ensures Owned(n, n.procs[p], p) {
      assert Owned(w, w.procs[p], p);
    }
    forall v | v in n.units && n.units[v].handle.Some? ensures Registered(n, pending, dead, v) {
      assert Registered(w, pending, dead, v);
    }
  }

  lemma AttachOwns<U>(w: World<U>, u: U, pending: seq<Registration<U>>, dead: Pid, p: Pid)
    requires InvDuring(w, pending, dead) && u in w.units && w.units[u].handle == None && p in w.procs
    ensures var n := Attach(w, u, true); p in n.procs && Owned(n, n.procs[p], p)
  {
    assert Owned(w, w.procs[p], p);
  }

  lemma AttachRegisters<U>(w: World<U>, u: U, pending: seq<Registration<U>>, dead: Pid, v: U)
    requires InvDuring(w, pending, dead) && u in w.units && w.units[u].handle == None && Alive(w, w.units[u].pid)
    requires v == u || (v in w.units && w.units[v].handle.Some?)
    ensures Registered(Attach(w, u, true), pending, dead, v)
  {
    var n := Attach(w, u, true);
    if v != u {
      assert Registered(w, pending, dead, v);
    } else {
      var regs := n.procs[w.units[u].pid as Pid];
      assert regs[|regs| - 1] == Registration(w.nextHandle, u);
    }
  }

  lemma AttachKeeps<U>(w: World<U>, u: U, registers: bool, pending: seq<Registration<U>>, dead: Pid)
    requires InvDuring(w, pending, dead) && u in w.units && w.units[u].handle == None
    ensures InvDuring(Attach(w, u, registers), pending, dead)
  {
    var n := Attach(w, u, registers);
    if Alive(w, w.units[u].pid) && registers {
      forall p | p in n.procs ensures Owned(n, n.procs[p], p) {
        AttachOwns(w, u, pending, dead, p);
      }
      forall v | v in n.units && n.units[v].handle.Some? ensures Registered(n, pending, dead, v) {
        AttachRegisters(w, u, pending, dead, v);
      }
    } else {
      assert n == w;
    }
  }

  lemma TrackKeeps<U>(w: World<U>, u: U, pid: Pid, registers: bool, pending: seq<Registration<U>>, dead: Pid)
    requires InvDuring(w, pending, dead) && u in w.units && w.units[u].handle == None
    requires 0 < pid < w.nextPid
    ensures InvDuring(Track(w, u, pid, registers), pending, dead)
  {
    RepointKeeps(w, u, pid, pending, dead);
    AttachKeeps(Repoint(w, u, pid), u, registers, pending, dead);
  }

  lemma SpawnKeeps<U>(w: World<U>, alive: bool, pending: seq<Registration<U>>, dead: Pid)
    requires InvDuring(w, pending, dead)
    ensures InvDuring(AfterSpawn(w, alive), pending, dead)
  {
    var n := AfterSpawn(w, alive);
    forall p | p in n.procs ensures Owned(n, n.procs[p], p) {
      if p in w.procs { assert Owned(w, w.procs[p], p); }
    }
    forall v | v in n.units && n.units[v].handle.Some? ensures Registered(n, pending, dead, v) {
      assert Registered(w, pending, dead, v);
    }
  }

  lemma StartKeeps<U>(w: World<U>, u: U, spawn: Spawn, pending: seq<Registration<U>>, dead: Pid)
    requires InvDuring(w, pending, dead) && u in w.units && !Among(pending, u)
    ensures InvDuring(Start(w, u, spawn).0, pending, dead)
  {
    if !Alive(w, w.units[u].pid) && spawn.Spawned? {
      assert w.units[u].handle.Some? ==> Registered(w, pending, dead, u);
      SpawnKeeps(w, spawn.alive, pending, dead);
      TrackKeeps(AfterSpawn(w, spawn.alive), u, w.nextPid, spawn.registers, pending, dead);
    }
  }

  lemma {:induction false} CallbackKeeps<U>(w: World<U>, pending: seq<Registration<U>>, dead: Pid, status: int,
                                            spawn: Spawn)
    requires InvDuring(w, pending, dead) && pending != []
    ensures pending[0].unit in w.units
    ensures InvDuring(Callback(w, pending[0].unit, status, spawn), pending[1..], dead)
  {
    var u, rest := pending[0].unit, pending[1..];
    var released := w.(units := w.units[u := w.units[u].(handle := None, pid := -1)]);
    assert forall i :: 0 <= i < |rest| ==> rest[i] == pending[i + 1];
    assert !Among(rest, u);
    assert InvDuring(released, rest, dead) by {
      forall p | p in released.procs ensures Owned(released, released.procs[p], p) {
        assert Owned(w, w.procs[p], p);
      }
      forall v | v in released.units && released.units[v].handle.Some? ensures Registered(released, rest, dead, v) {
        assert Registered(w, pending, dead, v);
      }
    }
    if Qualifies(w.units[u].policy, status) {
      StartKeeps(released, u, spawn, rest, dead);
    }
  }

  lemma {:induction false} CallbacksKeep<U>(w: World<U>, pending: seq<Registration<U>>, dead: Pid, status: int,
                                            spawns: seq<Spawn>)
    requires InvDuring(w, pending, dead) && |spawns| == |pending|
    ensures Inv(Callbacks(w, pending, status, spawns))
    decreases |pending|
  {
    if pending == [] {
      forall v | v in w.units && w.units[v].handle.Some? ensures Registered(w, [], 0, v) {
        assert Registered(w, pending, dead, v);
      }
    } else {
      CallbackKeeps(w, pending, dead, status, spawns[0]);
      CallbacksKeep(Callback(w, pending[0].unit, status, spawns[0]), pending[1..], dead, status, spawns[1..]);
    }
  }

  lemma ExitBegins<U>(w: World<U>, p: Pid)
    requires Inv(w) && p in w.procs
    ensures InvDuring(w.(procs := w.procs - {p}), w.procs[p], p)
  {
    var n := w.(procs := w.procs - {p});
    assert Owned(w, w.procs[p], p);
    forall q | q in n.procs ensures Owned(n, n.procs[q], q) {
      assert Owned(w, w.procs[q], q);
    }
    forall v | v in n.units && n.units[v].handle.Some? ensures Registered(n, w.procs[p], p, v) {
      assert Registered(w, [], 0, v);
    }
  }

  lemma ExitKeepsInv<U>(w: World<U>, p: Pid, status: int, spawns: seq<Spawn>)
    requires Inv(w) && p in w.procs && |spawns| == |w.procs[p]|
    ensures Inv(Exit(w, p, status, spawns))
  {
    ExitBegins(w, p);
    CallbacksKeep(w.(procs := w.procs - {p}), w.procs[p], p, status, spawns);
  }

  lemma DetachKeepsInv<U>(w: World<U>, u: U)
    requires Inv(w) && u in w.units
    ensures Inv(Detach(w, u)) && Detach(w, u).units[u] == w.units[u].(handle := None)
  {
    var n, t := Detach(w, u), w.units[u];
    if t.handle.Some? {
      assert Registered(w, [], 0, u);
      var p := t.pid as Pid;
      assert Owned(w, w.procs[p], p);
      WithoutEffect(w.procs[p], t.handle.value);
      forall q | q in n.procs ensures Owned(n, n.procs[q], q) {
        assert Owned(w, w.procs[q], q);
        forall i | 0 <= i < |n.procs[q]| ensures n.procs[q][i] in w.procs[q] && n.procs[q][i].unit != u {
          assert n.procs[q][i] in n.procs[q];
        }
      }
      forall v | v in n.units && n.units[v].handle.Some? ensures Registered(n, [], 0, v) {
        assert Registered(w, [], 0, v);
        if w.units[v].pid == t.pid {
          var r := Registration(w.units[v].handle.value, v);
          assert r in w.procs[p];
          assert r.handle != t.handle.value;
        }
      }
    }
  }

  lemma NotifyKeepsInv<U>(w: World<U>, u: Option<U>, pid: int, registers: bool)
    requires Inv(w) && (u.Some? ==> u.value in w.units)
    ensures Inv(Notify(w, u, pid, registers).0)
  {
    if pid > 0 && pid as Pid in w.procs && u.Some? && w.units[u.value].pid != pid {
      DetachKeepsInv(w, u.value);
      TrackKeeps(Detach(w, u.value), u.value, pid as Pid, registers, [], 0);
    }
  }

  /** A pid that is released or found stale: its unit has no registration. */
  lemma ReleaseKeepsInv<U>(w: World<U>, u: U)
    requires Inv(w) && u in w.units && w.units[u].handle == None
    ensures Inv(SetPid(w, u, -1))
  {
    var n := SetPid(w, u, -1);
    forall p | p in n.procs ensures Owned(n, n.procs[p], p) {
      assert Owned(w, w.procs[p], p);
    }
    forall v | v in n.units && n.units[v].handle.Some? ensures Registered(n, [], 0, v) {
      assert Registered(w, [], 0, v);
    }
  }
}
