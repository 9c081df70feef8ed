/** Remembered devices while scans, rule loads, mounts and device reports run at the same time
    (app/libsystemd/src/serviceapi.c:3121-3163, 3185-3267, 3469-3489, 3815-3830, 3895-3905, 3962-3995, 4882-4920).

    A call is a thread that takes the registry lock several times. A scan, a rule load or a mount first changes the
    lists, then copies the remembered devices, and then goes through its copy: it reads which units the rules name
    for a device, and starts them one after the other. A report first remembers its device and then does the same
    for that one. Between any two of these sections other threads may run. The file system stays as it is. */
module RegistryThreads {
  import opened Wrappers
  import opened Services
  import opened Registry
  import opened RegistryRuns

  /** What is left for a call to do: copy the devices, or start the targets it has read and then see to its devices. */
  datatype Thread =
    | AboutToCopy
    | Serving(devices: seq<Device>, targets: seq<string>, value: Option<string>)

  datatype State = State(reg: Registry, threads: seq<Thread>)

  datatype Step =
    | SwapUnits(path: string, sorted: seq<Unit>)           // a scan begins
    | SwapRules(dir: string)                               // a rule load begins
    | LoadConfig(mountPoint: string)                       // a mount begins
    | Report(device: Device)                               // a device is reported
    | Copy(thread: nat)                                    // a call copies the remembered devices
    | ReadRules(thread: nat)                               // a call looks up the targets of its next device
    | StartTarget(thread: nat, mayRefresh: bool)           // a call starts its next target
    | Withdraw(className: string, name: string)            // a device is withdrawn
    | StartAny(request: Request, anyRefresh: bool)         // someone starts a unit
    | UnloadConfig(mountPoint: string)                     // an unmount

  ghost predicate Enabled(files: Files, st: State, s: Step) {
    match s
    case SwapUnits(path, sorted) => path in files.trees
    case SwapRules(dir) => dir in files.rules
    case Copy(i) => i < |st.threads| && st.threads[i].AboutToCopy?
    case ReadRules(i) =>
      i < |st.threads| && st.threads[i].Serving? && st.threads[i].targets == [] && st.threads[i].devices != []
    case StartTarget(i, _) => i < |st.threads| && st.threads[i].Serving? && st.threads[i].targets != []
    case _ => true
  }

  function Next(files: Files, st: State, s: Step): State
    requires Enabled(files, st, s)
  {
    match s
    case SwapUnits(path, sorted) => State(InstallScan(files, st.reg, path, sorted), st.threads + [AboutToCopy])
    case SwapRules(dir) => State(InstallRules(files, st.reg, dir), st.threads + [AboutToCopy])
    case LoadConfig(m) =>
      if LoadResult(files, st.reg, m) != 0 then st
      else State(InstallConfig(files, st.reg, m), st.threads + [AboutToCopy])
    case Report(d) => State(Remember(st.reg, d), st.threads + [Serving([d], [], None)])
    case Copy(i) => st.(threads := st.threads[i := Serving(st.reg.devices, [], None)])
    case ReadRules(i) =>
      var d := st.threads[i].devices[0];
      st.(threads := st.threads[i := Serving(st.threads[i].devices[1..],
                                             Targets(Rules(st.reg), d.className, d.name, false), d.value)])
    case StartTarget(i, mayRefresh) =>
      var t := st.threads[i];
      State(Start(files, st.reg, Request(t.targets[0], t.value), mayRefresh),
            st.threads[i := t.(targets := t.targets[1..])])
    case Withdraw(className, name) => st.(reg := Forget(st.reg, className, name))
    case StartAny(request, mayRefresh) => st.(reg := Start(files, st.reg, request, mayRefresh))
    case UnloadConfig(m) => st.(reg := RemoveConfig(st.reg, m))
  }

  ghost predicate IsRun(files: Files, st: State, steps: seq<Step>, reached: State)
    decreases |steps|
  {
    if steps == [] then reached == st
    else
      Enabled(files, st, steps[0]) && IsRun(files, Next(files, st, steps[0]), steps[1..], reached)
  }

  // ---------------------------------------------------------------------------------------------------------------
  // What is still to come for a device
  // ---------------------------------------------------------------------------------------------------------------

  /** The thread will look up the device again, or is about to start the unit. */
  ghost predicate WillServe(t: Thread, d: Device, name: string) {
    match t
    case AboutToCopy => true
    case Serving(devices, targets, _) => name in targets || exists e :: e in devices && Matches(e, d.className, d.name)
  }

  ghost predicate Pending(st: State, d: Device, name: string) {
    exists i :: 0 <= i < |st.threads| && WillServe(st.threads[i], d, name)
  }

  /** Every unit a rule names for a remembered device is registered or cannot be made, or a call under way will see
      to it. */
  ghost predicate Attended(files: Files, st: State) {
    forall d, name :: d in st.reg.devices && Wants(Rules(st.reg), d, name) ==>
      Served(files, st.reg, name) || Pending(st, d, name)
  }

  predicate Done(t: Thread) {
    t.Serving? && t.devices == [] && t.targets == []
  }

  lemma PendingAt(st: State, d: Device, name: string, i: nat)
    requires i < |st.threads| && WillServe(st.threads[i], d, name)
    ensures Pending(st, d, name)
  {
  }

  /** A call that is about to copy the devices attends to all of them, whatever was so before. */
  lemma CopyIsToCome(files: Files, st: State)
    requires st.threads != [] && st.threads[|st.threads| - 1] == AboutToCopy
    ensures Attended(files, st)
  {
    forall d, name | d in st.reg.devices && Wants(Rules(st.reg), d, name) ensures Pending(st, d, name) {
      PendingAt(st, d, name, |st.threads| - 1);
    }
  }

  lemma ReportAttends(files: Files, st: State, d: Device)
    requires Attended(files, st)
    ensures Attended(files, Next(files, st, Report(d)))
  {
    var n := Next(files, st, Report(d));
    forall e, name | e in n.reg.devices && Wants(Rules(n.reg), e, name)
      ensures Served(files, n.reg, name) || Pending(n, e, name)
    {
      if e in st.reg.devices {
        assert Served(files, st.reg, name) ==> Served(files, n.reg, name) by {
          assert TemplateFor(n.reg, name) == TemplateFor(st.reg, name);
        }
        if Pending(st, e, name) {
          var i :| 0 <= i < |st.threads| && WillServe(st.threads[i], e, name);
          PendingAt(n, e, name, i);
        }
      } else {
        assert e == d && d in n.threads[|st.threads|].devices;
        PendingAt(n, e, name, |st.threads|);
      }
    }
  }

  lemma CopyAttends(files: Files, st: State, i: nat)
    requires Attended(files, st) && Enabled(files, st, Copy(i))
    ensures Attended(files, Next(files, st, Copy(i)))
  {
    var n := Next(files, st, Copy(i));
    forall d, name | d in n.reg.devices && Wants(Rules(n.reg), d, name) ensures Pending(n, d, name) {
      assert d in n.threads[i].devices && Matches(d, d.className, d.name);
      PendingAt(n, d, name, i);
    }
  }

  lemma ReadAttends(files: Files, st: State, i: nat)
    requires Attended(files, st) && Enabled(files, st, ReadRules(i))
    ensures Attended(files, Next(files, st, ReadRules(i)))
  {
    var n := Next(files, st, ReadRules(i));
    var first := st.threads[i].devices[0];
    forall d, name | d in n.reg.devices && Wants(Rules(n.reg), d, name)
      ensures Served(files, n.reg, name) || Pending(n, d, name)
    {
      if !Served(files, st.reg, name) {
        var j :| 0 <= j < |st.threads| && WillServe(st.threads[j], d, name);
        if j == i {
          var e :| e in st.threads[i].devices && Matches(e, d.className, d.name);
          TargetsAreNamed(Rules(st.reg), first.className, first.name, false, name);
          assert st.threads[i].devices == [first] + st.threads[i].devices[1..];
          assert e == first || e in n.threads[i].devices;
        }
        PendingAt(n, d, name, j);
      }
    }
  }

  lemma StartAttends(files: Files, st: State, i: nat, mayRefresh: bool)
    requires Attended(files, st) && Enabled(files, st, StartTarget(i, mayRefresh))
    ensures Attended(files, Next(files, st, StartTarget(i, mayRefresh)))
  {
    var n := Next(files, st, StartTarget(i, mayRefresh));
    var t := st.threads[i];
    StartRegisters(files, st.reg, Request(t.targets[0], t.value), mayRefresh);
    StartedStaysAttended(files, st, n, i, t.targets[0]);
  }

  /** Registering units serves devices and strands none: what a start takes off a list of targets is served by it. */
  lemma StartedStaysAttended(files: Files, st: State, n: State, i: nat, first: string)
    requires Attended(files, st) && Grows(st.reg, n.reg) && i < |st.threads| && Served(files, n.reg, first)
    requires st.threads[i].Serving? && st.threads[i].targets != [] && st.threads[i].targets[0] == first
    requires n.threads == st.threads[i := st.threads[i].(targets := st.threads[i].targets[1..])]
    ensures Attended(files, n)
  {
    forall d, name | d in n.reg.devices && Wants(Rules(n.reg), d, name)
      ensures Served(files, n.reg, name) || Pending(n, d, name)
    {
      assert TemplateFor(n.reg, name) == TemplateFor(st.reg, name);
      if !Served(files, n.reg, name) {
        assert !Served(files, st.reg, name);
        var j :| 0 <= j < |st.threads| && WillServe(st.threads[j], d, name);
        if j == i {
          assert st.threads[i].targets == [first] + n.threads[i].targets;
        }
        PendingAt(n, d, name, j);
      }
    }
  }

  /** Growing units, or fewer devices, leave the rest as it is. */
  lemma FewerDevicesAttended(files: Files, st: State, reg: Registry)
    requires Attended(files, st) && Names(st.reg.units) <= Names(reg.units)
    requires reg == st.reg.(units := reg.units, devices := reg.devices)
    requires forall d :: d in reg.devices ==> d in st.reg.devices
    ensures Attended(files, st.(reg := reg))
  {
    var n := st.(reg := reg);
    forall d, name | d in n.reg.devices && Wants(Rules(n.reg), d, name)
      ensures Served(files, n.reg, name) || Pending(n, d, name)
    {
      assert TemplateFor(n.reg, name) == TemplateFor(st.reg, name);
      if Pending(st, d, name) {
        var i :| 0 <= i < |st.threads| && WillServe(st.threads[i], d, name);
        PendingAt(n, d, name, i);
      }
    }
  }

  /** A step after which every device is attended to, whatever was so before. */
  ghost predicate Reloads(files: Files, st: State, s: Step) {
    s.SwapUnits? || s.SwapRules? || (s.LoadConfig? && LoadResult(files, st.reg, s.mountPoint) == 0)
  }

  lemma NextAttends(files: Files, st: State, s: Step)
    requires Enabled(files, st, s)
    requires Reloads(files, st, s) || (Attended(files, st) && !s.UnloadConfig?)
    ensures Attended(files, Next(files, st, s))
  {
    if Reloads(files, st, s) {
      CopyIsToCome(files, Next(files, st, s));
    } else {
      match s
      case Report(d) => ReportAttends(files, st, d);
      case Copy(i) => CopyAttends(files, st, i);
      case ReadRules(i) => ReadAttends(files, st, i);
      case StartTarget(i, mayRefresh) => StartAttends(files, st, i, mayRefresh);
      case Withdraw(className, name) => FewerDevicesAttended(files, st, Forget(st.reg, className, name));
      case StartAny(request, mayRefresh) =>
        StartRegisters(files, st.reg, request, mayRefresh);
        FewerDevicesAttended(files, st, Start(files, st.reg, request, mayRefresh));
      case _ =>
    }
  }

  /** Once a scan, a rule load or a mount has begun, no unmount has the last word. */
  ghost predicate EndsAttended(files: Files, st: State, steps: seq<Step>, attended: bool)
    decreases |steps|
  {
    if steps == [] then attended
    else
      && Enabled(files, st, steps[0])
      && EndsAttended(files, Next(files, st, steps[0]), steps[1..],
                      Reloads(files, st, steps[0]) || (attended && !steps[0].UnloadConfig?))
  }

  lemma {:induction false} RunAttends(files: Files, st: State, steps: seq<Step>, reached: State, attended: bool)
    requires IsRun(files, st, steps, reached) && EndsAttended(files, st, steps, attended)
    requires attended ==> Attended(files, st)
    ensures Attended(files, reached)
    decreases |steps|
  {
    if steps != [] {
      var now := Reloads(files, st, steps[0]) || (attended && !steps[0].UnloadConfig?);
      if now {
        NextAttends(files, st, steps[0]);
      }
      RunAttends(files, Next(files, st, steps[0]), steps[1..], reached, now);
    }
  }

  /** In every interleaving of the lock sections of scans, rule loads, mounts, device reports, withdrawals and
      starts, once all calls have returned every remembered device is served - provided that after each unmount
      some scan, rule load or mount began. */
  lemma InterleavingsServeDevices(files: Files, steps: seq<Step>, reached: State)
    requires IsRun(files, State(EMPTY, []), steps, reached) && EndsAttended(files, State(EMPTY, []), steps, true)
    requires forall i :: 0 <= i < |reached.threads| ==> Done(reached.threads[i])
    ensures DevicesServed(files, reached.reg)
  {
    RunAttends(files, State(EMPTY, []), steps, reached, true);
    forall d, name | d in reached.reg.devices && Wants(Rules(reached.reg), d, name)
      ensures Served(files, reached.reg, name)
    {
      assert !Pending(reached, d, name);
    }
  }
}
