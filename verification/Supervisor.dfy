/** Supervision as the C code runs it, on service objects that are updated in place, proved against module Supervision
    (app/libsystemd/src/serviceapi.c:929-975, 1087-1368, 3577-3635).

    What the environment decides - whether a spawn succeeds, when processes exit - is chosen arbitrarily. */
module Supervisor {
  import opened Wrappers
  import opened Errno
  import opened Services
  import opened Supervision
  import Runs = SupervisionRuns

  /** The part of dmosi that supervision uses: live processes, each with its exit registrations. */
  class Dmosi {
    var procs: map<Pid, seq<Registration<Service>>>
    var nextPid: Pid
    var nextHandle: nat

    constructor ()
      ensures procs == map[] && nextPid == 1 && nextHandle == 0
    {
      procs, nextPid, nextHandle := map[], 1, 0;
    }
  }

  const POLL_MS := 10
  const TWO_32 := 0x1_0000_0000

  lemma {:induction false} CallbacksSnoc<U>(w: World<U>, regs: seq<Registration<U>>, r: Registration<U>, status: int,
                                                 spawns: seq<Spawn>, spawn: Spawn)
    requires |spawns| == |regs|
    ensures var reached := Callbacks(w, regs, status, spawns);
            Callbacks(w, regs + [r], status, spawns + [spawn])
            == if r.unit in reached.units then Callback(reached, r.unit, status, spawn) else reached
    decreases |regs|
  {
    if regs == [] {
      assert [r][1..] == [] && regs + [r] == [r] && spawns + [spawn] == [spawn];
    } else {
      assert (regs + [r])[1..] == regs[1..] + [r] && (spawns + [spawn])[1..] == spawns[1..] + [spawn];
      var first := if regs[0].unit in w.units then Callback(w, regs[0].unit, status, spawns[0]) else w;
      CallbacksSnoc(first, regs[1..], r, status, spawns[1..], spawn);
    }
  }

  class Manager {
    const os: Dmosi
    var services: seq<Service>

    constructor ()
      ensures services == [] && fresh(os) && World().units == map[] && Inv(World())
    {
      os := new Dmosi();
      services := [];
    }

    ghost function World(): World<Service>
      reads this, services, os
    {
      Supervision.World(map s | s in services :: Tracking(s.pid, s.lastPid, s.exitHandle, s.unit.restart),
            os.procs, os.nextPid, os.nextHandle)
    }

    /** libsystemd_attach_exit_callback. */
    method AttachExitCallback(service: Service, registers: bool)
      requires service in services
      modifies service`exitHandle, os
      ensures World() == Attach(old(World()), service, registers)
    {
      ghost var before := World();
      service.exitHandle := None;
      if service.pid > 0 && service.pid in os.procs && registers {
        os.procs := os.procs[service.pid := os.procs[service.pid] + [Registration(os.nextHandle, service)]];
        service.exitHandle := Some(os.nextHandle);
        os.nextHandle := os.nextHandle + 1;
      }
      assert World().units == Attach(before, service, registers).units;
    }

    /** libsystemd_detach_exit_callback. */
    method DetachExitCallback(service: Service)
      requires service in services
      modifies service`exitHandle, os`procs
      ensures World() == Detach(old(World()), service)
    {
      ghost var before := World();
      if service.exitHandle == None {
        return;
      }
      if service.pid > 0 && service.pid in os.procs {
        os.procs := os.procs[service.pid := Without(os.procs[service.pid], service.exitHandle.value)];
      }
      service.exitHandle := None;
      assert World().units == Detach(before, service).units;
    }

    method TrackProcess(service: Service, pid: Pid, registers: bool)
      requires service in services
      modifies service`pid, service`lastPid, service`exitHandle, os
      ensures World() == Track(old(World()), service, pid, registers)
    {
      ghost var before := World();
      service.pid := pid;
      service.lastPid := pid;
      assert World().units == before.units[service := before.units[service].(pid := pid, lastPid := pid)];
      AttachExitCallback(service, registers);
    }

    /** libsystemd_start_service_internal for a unit that is not a library. */
    method StartService(service: Service, spawn: Spawn) returns (result: int)
      requires service in services
      modifies service`pid, service`lastPid, service`exitHandle, os
      ensures (World(), result) == Start(old(World()), service, spawn)
    {
      if service.pid > 0 && service.pid in os.procs {
        return EALREADY;
      }
      if spawn.Failed? {
        return spawn.error;
      }
      ghost var before := World();
      var pid := os.nextPid;
      os.nextPid := pid + 1;
      if spawn.alive {
        os.procs := os.procs[pid := []];
      }
      assert World().units == before.units;
      assert World() == AfterSpawn(before, spawn.alive);
      TrackProcess(service, pid, spawn.registers);
      return 0;
    }

    /** libsystemd_service_exit_callback. */
    method ExitCallback(service: Service, status: int, spawn: Spawn)
      requires service in services
      modifies service`pid, service`lastPid, service`exitHandle, os
      ensures World() == Callback(old(World()), service, status, spawn)
    {
      ghost var before := World();
      service.exitHandle := None;
      service.pid := -1;
      assert World().units == before.units[service := before.units[service].(handle := None, pid := -1)];
      if service.unit.restart == Always || (service.unit.restart == OnFailure && status != 0) {
        var result := StartService(service, spawn);
      }
    }

    /** The callbacks of a terminated process, once each, in order. */
    method RunCallbacks(regs: seq<Registration<Service>>, status: int) returns (ghost spawns: seq<Spawn>)
      requires forall k :: 0 <= k < |regs| ==> regs[k].unit in services
      modifies (set s | s in services)`pid, (set s | s in services)`lastPid, (set s | s in services)`exitHandle, os
      ensures |spawns| == |regs| && World() == Callbacks(old(World()), regs, status, spawns)
    {
      ghost var begun := World();
      spawns := [];
      for i := 0 to |regs|
        invariant |spawns| == i
        invariant World() == Callbacks(begun, regs[..i], status, spawns)
      {
        var spawn: Spawn := *;
        assert regs[i].unit in World().units;
        ExitCallback(regs[i].unit, status, spawn);
        CallbacksSnoc(begun, regs[..i], regs[i], status, spawns, spawn);
        assert regs[..i + 1] == regs[..i] + [regs[i]];
        spawns := spawns + [spawn];
      }
      assert regs[..|regs|] == regs;
    }

    /** A process terminates: its registrations are detached, and then its callbacks run. */
    method ProcessExits(pid: Pid, status: int) returns (ghost spawns: seq<Spawn>)
      requires Inv(World()) && pid in os.procs
      modifies (set s | s in services)`pid, (set s | s in services)`lastPid, (set s | s in services)`exitHandle, os
      ensures |spawns| == |old(os.procs[pid])| && World() == Exit(old(World()), pid, status, spawns)
    {
      ghost var before := World();
      var regs := os.procs[pid];
      ExitBegins(before, pid);
      os.procs := os.procs - {pid};
      assert World().units == before.units;
      assert forall k :: 0 <= k < |regs| ==> regs[k].unit in before.units;
      spawns := RunCallbacks(regs, status);
    }

    ghost function MainPids(): (pids: seq<int>)
      reads this, services
      ensures |pids| == |services| && forall i :: 0 <= i < |pids| ==> pids[i] == services[i].pid
    {
      seq(|services|, i requires 0 <= i < |services| reads this, services => services[i].pid)
    }

    /** found is the first service with this main PID, if there is one. A unit that is not running has none. */
    ghost predicate FirstWithPid(pids: seq<int>, pid: int, found: Option<Service>)
      requires |pids| == |services|
      reads this
    {
      if found == None then pid <= 0 || pid !in pids
      else
        exists i :: 0 <= i < |services| && services[i] == found.value && pids[i] == pid > 0
                    && forall j :: 0 <= j < i ==> pids[j] != pid
    }

    ghost predicate FirstNamed(name: string, found: Option<Service>)
      reads this
    {
      if found == None then forall s :: s in services ==> s.unit.name != name
      else
        exists i :: 0 <= i < |services| && services[i] == found.value && services[i].unit.name == name
                    && forall j :: 0 <= j < i ==> services[j].unit.name != name
    }

    /** libsystemd_find_service_by_pid. */
    method FindByPid(pid: int) returns (found: Option<Service>)
      ensures FirstWithPid(MainPids(), pid, found)
    {
      if pid <= 0 {
        return None;
      }
      for i := 0 to |services|
        invariant forall j :: 0 <= j < i ==> services[j].pid != pid
      {
        if services[i].pid == pid {
          return Some(services[i]);
        }
      }
      return None;
    }

    /** libsystemd_find_service. */
    method FindByName(name: string) returns (found: Option<Service>)
      ensures FirstNamed(name, found)
    {
      for i := 0 to |services|
        invariant forall j :: 0 <= j < i ==> services[j].unit.name != name
      {
        if services[i].unit.name == name {
          return Some(services[i]);
        }
      }
      return None;
    }

    /** libsystemd_notify_main_pid. Without a name, the unit is the one whose main process is the caller. */
    method NotifyMainPid(name: Option<string>, caller: Option<Pid>, pid: int, registers: bool)
      returns (result: int, ghost unit: Option<Service>)
      modifies (set s | s in services)`pid, (set s | s in services)`lastPid, (set s | s in services)`exitHandle, os
      ensures unit.Some? ==> unit.value in services && 0 < pid && pid in old(os.procs)
      ensures 0 < pid && pid in old(os.procs) && name.Some? ==> FirstNamed(name.value, unit)
      ensures 0 < pid && pid in old(os.procs) && name == None && caller.Some? ==>
                FirstWithPid(old(MainPids()), caller.value, unit)
      ensures name == None && caller == None ==> unit == None
      ensures (World(), result) == Notify(old(World()), unit, pid, registers)
    {
      unit := None;
      if pid <= 0 {
        return EINVAL, None;
      }
      if pid !in os.procs {
        return ESRCH, None;
      }
      var found: Option<Service> := None;
      if name.Some? {
        found := FindByName(name.value);
      } else if caller.Some? {
        found := FindByPid(caller.value);
      }
      if found == None {
        return ENOENT, None;
      }
      var service := found.value;
      if service.pid == pid {
        return 0, found;
      }
      DetachExitCallback(service);
      TrackProcess(service, pid, registers);
      return 0, found;
    }

    // -------------------------------------------------------------------------------------------------------------
    // Stop
    // -------------------------------------------------------------------------------------------------------------

    /** Time passes: any processes exit, in any order, and their units may be restarted. A unit without supervision
        stays as it is. */
    method Sleep()
      requires Inv(World())
      modifies (set s | s in services)`pid, (set s | s in services)`lastPid, (set s | s in services)`exitHandle, os
      ensures Inv(World())
      ensures forall s :: s in services && old(s.exitHandle) == None ==>
                s.exitHandle == None && s.pid == old(s.pid) && s.lastPid == old(s.lastPid)
    {
      var exits: nat :| true;
      for i := 0 to exits
        invariant Inv(World())
        invariant forall s :: s in services && old(s.exitHandle) == None ==>
                    s.exitHandle == None && s.pid == old(s.pid) && s.lastPid == old(s.lastPid)
      {
        var pid: Pid := *;
        var status: int := *;
        if pid in os.procs {
          ghost var before := World();
          ghost var spawns := ProcessExits(pid, status);
          ExitKeepsInv(before, pid, status, spawns);
          forall s | s in services && before.units[s].handle == None ensures World().units[s] == before.units[s] {
            Runs.ExitEffect(before, pid, status, spawns, s);
          }
          forall s | s in services
            ensures World().units[s] == Tracking(s.pid, s.lastPid, s.exitHandle, s.unit.restart)
          {
          }
        }
      }
    }

    /** libsystemd_wait_for_exit, with the 32-bit counter of the C code. */
    method WaitForExit(pid: Pid, timeout: StopTimeout) returns (gone: bool, sleeps: nat)
      requires Inv(World())
      modifies (set s | s in services)`pid, (set s | s in services)`lastPid, (set s | s in services)`exitHandle, os
      ensures Inv(World())
      ensures forall s :: s in services && old(s.exitHandle) == None ==>
                s.exitHandle == None && s.pid == old(s.pid) && s.lastPid == old(s.lastPid)
      ensures gone <==> pid !in os.procs
      ensures sleeps <= (timeout + POLL_MS - 1) / POLL_MS
      ensures !gone ==> sleeps * POLL_MS >= timeout
    {
      var waited := 0;
      sleeps := 0;
      while true
        invariant Inv(World())
        invariant forall s :: s in services && old(s.exitHandle) == None ==>
                    s.exitHandle == None && s.pid == old(s.pid) && s.lastPid == old(s.lastPid)
        invariant waited == sleeps * POLL_MS < timeout + POLL_MS
        decreases timeout + POLL_MS - waited
      {
        if pid !in os.procs {
          return true, sleeps;
        }
        if waited >= timeout {
          return false, sleeps;
        }
        Sleep();
        waited := (waited + POLL_MS) % TWO_32;
        sleeps := sleeps + 1;
      }
    }

    /** libsystemd_request_graceful_stop. registered: whether the process registered for stop requests. */
    method RequestGracefulStop(service: Service, self: Option<Pid>, registered: bool) returns (gone: bool, sleeps: nat)
      requires service in services && Inv(World()) && service.pid > 0 && service.exitHandle == None
      modifies (set s | s in services)`pid, (set s | s in services)`lastPid, (set s | s in services)`exitHandle, os
      ensures Inv(World())
      ensures service.exitHandle == None && service.pid == old(service.pid) && service.lastPid == old(service.lastPid)
      ensures gone ==> service.pid !in os.procs
      ensures sleeps <= (service.stopTimeout + POLL_MS - 1) / POLL_MS
      ensures !gone && registered && self != Some(service.pid) ==> sleeps * POLL_MS >= service.stopTimeout
      ensures !registered || self == Some(service.pid) || service.stopTimeout == 0 ==> !gone && sleeps == 0
    {
      if service.stopTimeout == 0 || self == Some(service.pid) {
        return false, 0;
      }
      if !registered {
        return false, 0;
      }
      gone, sleeps := WaitForExit(service.pid, service.stopTimeout);
    }

    method Release(service: Service)
      requires service in services && Inv(World()) && service.exitHandle == None
      modifies service`pid
      ensures service.pid == -1 && Inv(World())
    {
      ghost var before := World();
      ReleaseKeepsInv(before, service);
      service.pid := -1;
      assert World().units == SetPid(before, service, -1).units;
    }

    /** dmosi_process_kill. The unit's own callback is detached, so it does not run. */
    method Kill(service: Service)
      requires service in services && Inv(World()) && service.exitHandle == None
      requires service.pid > 0 && service.pid in os.procs
      modifies (set s | s in services)`pid, (set s | s in services)`lastPid, (set s | s in services)`exitHandle, os
      ensures Inv(World()) && service.pid !in os.procs
      ensures service.exitHandle == None && service.pid == old(service.pid) && service.lastPid == old(service.lastPid)
    {
      ghost var before := World();
      var pid: Pid := service.pid;
      ghost var spawns := ProcessExits(pid, 0);
      ExitKeepsInv(before, pid, 0, spawns);
      Runs.ExitEffect(before, pid, 0, spawns, service);
      Runs.ExitRemoves(before, pid, 0, spawns);
      assert World().units[service] == before.units[service];
    }

    /** The end of a stop: the process is looked up again, and killed if it is still there. */
    method EndStop(service: Service, gone: bool, killResult: int) returns (result: int, killed: bool)
      requires service in services && Inv(World()) && service.exitHandle == None
      requires service.pid > 0 && (gone ==> service.pid !in os.procs)
      modifies (set s | s in services)`pid, (set s | s in services)`lastPid, (set s | s in services)`exitHandle, os
      ensures Inv(World()) && service.lastPid == old(service.lastPid) && service.exitHandle == None
      ensures result == 0 ==> service.pid == -1 && old(service.pid) !in os.procs
      ensures killed ==> !gone && result == killResult
      ensures result != 0 ==> killed && service.pid == old(service.pid)
    {
      if gone || service.pid !in os.procs {
        Release(service);
        return 0, false;
      }
      if killResult != 0 {
        return killResult, true;
      }
      Kill(service);
      Release(service);
      return 0, true;
    }

    /** The lookup of the process and the detachment of its callback. */
    method BeginStop(service: Service) returns (result: Option<int>)
      requires service in services && Inv(World())
      modifies service`pid, service`exitHandle, os`procs
      ensures (World(), result) == StopBegin(old(World()), service)
      ensures Inv(World()) && service.exitHandle == None
      ensures result == None ==> service.pid == old(service.pid) > 0 && old(service.pid in os.procs)
      ensures result.Some? ==> result.value == ESRCH && service.pid <= 0
    {
      ghost var before := World();
      Runs.BeginStopKeepsInv(before, service);
      if service.pid <= 0 {
        return Some(ESRCH);
      }
      if service.pid !in os.procs {
        Release(service);
        assert World().units == SetPid(before, service, -1).units;
        return Some(ESRCH);
      }
      DetachExitCallback(service);
      return None;
    }

    /** libsystemd_stop_service_internal for a unit that is not a library. killResult is the answer of
        dmosi_process_kill, should it come to that. */
    method StopService(service: Service, self: Option<Pid>, registered: bool, killResult: int)
      returns (result: int, killed: bool, sleeps: nat)
      requires service in services && Inv(World())
      modifies (set s | s in services)`pid, (set s | s in services)`lastPid, (set s | s in services)`exitHandle, os
      ensures Inv(World())
      // the unit is never respawned
      ensures service.lastPid == old(service.lastPid) && service.exitHandle == None
      // success leaves the unit released and its process gone
      ensures result == 0 ==> service.pid == -1 && 0 < old(service.pid) && old(service.pid) !in os.procs
      ensures old(service.pid) <= 0 || old(service.pid !in os.procs) ==> result == ESRCH && service.pid <= 0 && !killed
      // a process that registered is killed only after the whole timeout, unless the unit stops itself
      ensures killed && registered && self != Some(old(service.pid)) ==> sleeps * POLL_MS >= service.stopTimeout
      ensures sleeps <= (service.stopTimeout + POLL_MS - 1) / POLL_MS
      // a failed kill is reported, and the unit still tracks its process
      ensures killed && killResult != 0 ==> result == killResult && service.pid == old(service.pid)
    {
      killed, sleeps := false, 0;
      var begun := BeginStop(service);
      if begun.Some? {
        return begun.value, false, 0;
      }
      var gone;
      gone, sleeps := RequestGracefulStop(service, self, registered);
      result, killed := EndStop(service, gone, killResult);
    }
  }
}
