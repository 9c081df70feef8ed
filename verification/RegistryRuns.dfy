/** What the registry operations guarantee over whole runs (app/libsystemd/src/serviceapi.c:2756-2820, 3185-3267,
    3469-3489, 3773-3995). */
module RegistryRuns {
  import opened Wrappers
  import opened Services
  import opened UnitNames
  import opened UnitFiles
  import opened Registry
  import Expansion
  import StartOrder

  // ---------------------------------------------------------------------------------------------------------------
  // One start
  // ---------------------------------------------------------------------------------------------------------------

  lemma HasUnitIffNamed(units: seq<Unit>, name: string)
    ensures HasUnit(units, name) <==> name in Names(units)
  {
    var i := FindUnit(units, name);
    if i < |units| {
      assert Names(units)[i] == name;
    }
  }

  /** An instance carries the name it was asked for and comes from where its template comes from. Whether it can be made
      does not depend on the value. */
  lemma InstanceOf(files: Files, reg: Registry, name: string, value: Option<string>)
    requires TemplateFor(reg, name).Some?
    ensures var r := MakeInstance(files, reg, name, value);
            && (r.Ok? <==> Usable(files.disk, TemplateFor(reg, name).value))
            && (r.Ok? ==> r.value.name == name && r.value.source == TemplateFor(reg, name).value.source
                          && TemplateFor(reg, name).value in reg.templates)
  {
    var (prefix, instance) := SplitInstanceName(name).value;
    SplitIffBuilt(name, prefix, instance);
    InstanceIdentity(files.disk, TemplateFor(reg, name).value, instance, value);
  }

  /** Nothing changes but the units, and these only by appending. */
  ghost predicate Grows(a: Registry, b: Registry) {
    && b == a.(units := b.units)
    && Names(a.units) <= Names(b.units)
  }

  /** A start registers its unit if that is missing and can be made, and never twice; it neither renames a unit nor
      moves one, not even when it expands an instance again. */
  lemma StartRegisters(files: Files, reg: Registry, r: Request, mayRefresh: bool)
    ensures var after := Start(files, reg, r, mayRefresh);
            && Grows(reg, after)
            && Names(after.units) == Names(reg.units)
                 + (if r.name in Names(reg.units) || !Instantiable(files, reg, r.name) then [] else [r.name])
  {
    HasUnitIffNamed(reg.units, r.name);
    if TemplateFor(reg, r.name).Some? {
      InstanceOf(files, reg, r.name, r.value);
    }
  }

  /** An instance that is expanded again is the unit that a start with the new value would make if there were none:
      no old value is left in it. */
  lemma RefreshIsFreshStart(files: Files, reg: Registry, others: seq<Unit>, r: Request)
    requires var i := FindUnit(reg.units, r.name);
             i < |reg.units| && reg.units[i].fromTemplate && reg.units[i].unitType == Library
    requires r.value.Some? && reg.unitsDir.Some? && r.name !in Names(others)
    requires StartErrorOf(files, reg, r, true) == None
    ensures Start(files, reg.(units := others), r, true).units
         == others + [Start(files, reg, r, true).units[FindUnit(reg.units, r.name)]]
  {
    var emptied := reg.(units := others);
    HasUnitIffNamed(others, r.name);
    assert TemplateFor(emptied, r.name) == TemplateFor(reg, r.name);
    assert MakeInstance(files, emptied, r.name, r.value) == MakeInstance(files, reg, r.name, r.value);
  }

  /** A start reports that there is no such unit exactly when none is registered afterwards. */
  lemma NoUnitIffUnregistered(files: Files, reg: Registry, r: Request, mayRefresh: bool)
    ensures StartErrorOf(files, reg, r, mayRefresh) == Some(NoUnit)
       <==> r.name !in Names(Start(files, reg, r, mayRefresh).units)
  {
    StartRegisters(files, reg, r, mayRefresh);
    HasUnitIffNamed(reg.units, r.name);
  }

  ghost predicate Asked(requests: seq<Request>, n: nat, name: string)
    requires n <= |requests|
  {
    exists k :: 0 <= k < n && requests[k].name == name
  }

  lemma StartMakes(files: Files, reg: Registry, r: Request, mayRefresh: bool, name: string)
    ensures var after := Start(files, reg, r, mayRefresh);
            && Grows(reg, after)
            && (name in Names(after.units)
                <==> name in Names(reg.units) || (r.name == name && Instantiable(files, reg, name)))
  {
    StartRegisters(files, reg, r, mayRefresh);
  }

  lemma AskedStep(files: Files, reg: Registry, before: Registry, after: Registry, requests: seq<Request>, n: nat,
                  name: string)
    requires 0 < n <= |requests| && Grows(reg, before) && Grows(before, after)
    requires name in Names(before.units)
        <==> name in Names(reg.units) || (Asked(requests, n - 1, name) && Instantiable(files, reg, name))
    requires name in Names(after.units)
        <==> name in Names(before.units) || (requests[n - 1].name == name && Instantiable(files, before, name))
    ensures name in Names(after.units)
       <==> name in Names(reg.units) || (Asked(requests, n, name) && Instantiable(files, reg, name))
    ensures Grows(reg, after)
  {
    assert TemplateFor(before, name) == TemplateFor(reg, name);
  }

  lemma {:induction false} StartFirstRegisters(files: Files, reg: Registry, requests: seq<Request>, answers: seq<bool>,
                                               n: nat, name: string)
    requires n <= |requests|
    ensures var after := StartFirst(files, reg, requests, answers, n);
            && Grows(reg, after)
            && (name in Names(after.units)
                <==> name in Names(reg.units) || (Asked(requests, n, name) && Instantiable(files, reg, name)))
  {
    if n > 0 {
      StartFirstRegisters(files, reg, requests, answers, n - 1, name);
      var before := StartFirst(files, reg, requests, answers, n - 1);
      StartMakes(files, before, requests[n - 1], AnswerAt(answers, n - 1), name);
      AskedStep(files, reg, before, StartFirst(files, reg, requests, answers, n), requests, n, name);
    }
  }

  // ---------------------------------------------------------------------------------------------------------------
  // Devices
  // ---------------------------------------------------------------------------------------------------------------

  predicate RuleNames(rule: Rule, className: string, deviceName: string, removal: bool, name: string) {
    var template := if removal then rule.remove else rule.start;
    rule.className == className && template.Some? && Expansion.ReplaceAll(template.value, "%name", deviceName) == name
  }

  ghost predicate Named(rules: seq<Rule>, className: string, deviceName: string, removal: bool, name: string) {
    exists rule :: rule in rules && RuleNames(rule, className, deviceName, removal, name)
  }

  ghost predicate Wants(rules: seq<Rule>, d: Device, name: string) {
    Named(rules, d.className, d.name, false, name)
  }

  lemma NamedByLast(front: seq<Rule>, last: Rule, className: string, deviceName: string, removal: bool, name: string)
    ensures Named(front + [last], className, deviceName, removal, name)
       <==> Named(front, className, deviceName, removal, name) || RuleNames(last, className, deviceName, removal, name)
  {
    assert last in front + [last];
  }

  lemma {:induction false} TargetsAreNamed(rules: seq<Rule>, className: string, deviceName: string, removal: bool,
                                           name: string)
    ensures name in Targets(rules, className, deviceName, removal)
           <==> Named(rules, className, deviceName, removal, name)
  {
    if rules != [] {
      var front, last := rules[..|rules| - 1], rules[|rules| - 1];
      TargetsAreNamed(front, className, deviceName, removal, name);
      NamedByLast(front, last, className, deviceName, removal, name);
      assert rules == front + [last];
    }
  }

  lemma RequestsAsk(targets: seq<string>, value: Option<string>, name: string)
    ensures var requests := RequestsFor(targets, value); Asked(requests, |requests|, name) <==> name in targets
  {
    var requests := RequestsFor(targets, value);
    if name in targets {
      var k :| 0 <= k < |targets| && targets[k] == name;
      assert requests[k].name == name;
    }
  }

  ghost predicate Remembered(reg: Registry, n: nat, name: string)
    requires n <= |reg.devices|
  {
    exists k :: 0 <= k < n && Wants(Rules(reg), reg.devices[k], name)
  }

  lemma AskedConcat(a: seq<Request>, b: seq<Request>, name: string)
    ensures Asked(a + b, |a + b|, name) <==> Asked(a, |a|, name) || Asked(b, |b|, name)
  {
    if Asked(a, |a|, name) {
      var k :| 0 <= k < |a| && a[k].name == name;
      assert (a + b)[k].name == name;
    }
    if Asked(b, |b|, name) {
      var k :| 0 <= k < |b| && b[k].name == name;
      assert (a + b)[|a| + k].name == name;
    }
  }

  lemma {:induction false} ReplayAsks(reg: Registry, n: nat, name: string)
    requires n <= |reg.devices|
    ensures var requests := ReplayRequests(reg, n); Asked(requests, |requests|, name) <==> Remembered(reg, n, name)
  {
    if n > 0 {
      var d := reg.devices[n - 1];
      var targets := Targets(Rules(reg), d.className, d.name, false);
      ReplayAsks(reg, n - 1, name);
      TargetsAreNamed(Rules(reg), d.className, d.name, false, name);
      RequestsAsk(targets, d.value, name);
      AskedConcat(ReplayRequests(reg, n - 1), RequestsFor(targets, d.value), name);
    }
  }

  /** Exactly what a replay registers: the units the rules name for remembered devices, those that can be made. */
  lemma ReplayRegisters(files: Files, reg: Registry, answers: seq<bool>, name: string)
    ensures var after := Replay(files, reg, answers);
            && Grows(reg, after)
            && (name in Names(after.units)
                <==> name in Names(reg.units)
                     || (Remembered(reg, |reg.devices|, name) && Instantiable(files, reg, name)))
  {
    var requests := ReplayRequests(reg, |reg.devices|);
    StartFirstRegisters(files, reg, requests, answers, |requests|, name);
    ReplayAsks(reg, |reg.devices|, name);
  }

  // ---------------------------------------------------------------------------------------------------------------
  // Remembering and forgetting
  // ---------------------------------------------------------------------------------------------------------------

  ghost predicate Knows(reg: Registry, className: string, name: string) {
    exists d :: d in reg.devices && Matches(d, className, name)
  }

  ghost predicate OncePerDevice(devices: seq<Device>) {
    forall i, j :: 0 <= i < j < |devices| ==> !Matches(devices[i], devices[j].className, devices[j].name)
  }

  lemma KnowsIffFound(reg: Registry, className: string, name: string)
    ensures Knows(reg, className, name) <==> FindDevice(reg.devices, className, name) < |reg.devices|
  {
    if Knows(reg, className, name) {
      var d :| d in reg.devices && Matches(d, className, name);
      var k :| 0 <= k < |reg.devices| && reg.devices[k] == d;
    }
  }

  /** A device is remembered once, with the value of its first report. */
  lemma RememberOnce(reg: Registry, d: Device)
    requires OncePerDevice(reg.devices)
    ensures OncePerDevice(Remember(reg, d).devices) && Knows(Remember(reg, d), d.className, d.name)
    ensures forall e :: e in reg.devices ==> e in Remember(reg, d).devices
    ensures d in Remember(reg, d).devices <==> d in reg.devices || !Knows(reg, d.className, d.name)
  {
    KnowsIffFound(reg, d.className, d.name);
    var after := Remember(reg, d);
    if !Knows(reg, d.className, d.name) {
      assert after.devices[|reg.devices|] == d && Matches(d, d.className, d.name);
    }
  }

  lemma ForgetKeepsOthers(reg: Registry, className: string, name: string, d: Device)
    requires d in reg.devices && !Matches(d, className, name)
    ensures d in Forget(reg, className, name).devices
  {
    var i, after := FindDevice(reg.devices, className, name), Forget(reg, className, name);
    var k :| 0 <= k < |reg.devices| && reg.devices[k] == d;
    if i < |reg.devices| && k > i {
      assert after.devices[k - 1] == d;
    } else {
      assert after.devices[k] == d;
    }
  }

  lemma ForgetRemoves(reg: Registry, className: string, name: string, k: nat)
    requires OncePerDevice(reg.devices) && k < |Forget(reg, className, name).devices|
    ensures var after := Forget(reg, className, name).devices;
            after[k] in reg.devices && !Matches(after[k], className, name)
  {
    var i, after := FindDevice(reg.devices, className, name), Forget(reg, className, name).devices;
    if i < |reg.devices| {
      assert after[k] == if k < i then reg.devices[k] else reg.devices[k + 1];
    }
  }

  lemma ForgetKeepsOnce(reg: Registry, className: string, name: string)
    requires OncePerDevice(reg.devices)
    ensures OncePerDevice(Forget(reg, className, name).devices)
  {
    var i, after := FindDevice(reg.devices, className, name), Forget(reg, className, name).devices;
    if i < |reg.devices| {
      assert forall k :: 0 <= k < |after| ==> after[k] == if k < i then reg.devices[k] else reg.devices[k + 1];
    }
  }

  /** What is forgotten is gone, and nothing else is. */
  lemma ForgetIsExact(reg: Registry, className: string, name: string)
    requires OncePerDevice(reg.devices)
    ensures var after := Forget(reg, className, name);
            && OncePerDevice(after.devices)
            && (forall d :: d in after.devices <==> d in reg.devices && !Matches(d, className, name))
  {
    var after := Forget(reg, className, name);
    ForgetKeepsOnce(reg, className, name);
    forall d | d in reg.devices && !Matches(d, className, name) ensures d in after.devices {
      ForgetKeepsOthers(reg, className, name, d);
    }
    forall k: nat | k < |after.devices|
      ensures after.devices[k] in reg.devices && !Matches(after.devices[k], className, name)
    {
      ForgetRemoves(reg, className, name, k);
    }
  }

  /** Forgetting undoes remembering. */
  lemma ForgetUndoesRemember(reg: Registry, d: Device)
    requires !Knows(reg, d.className, d.name)
    ensures Forget(Remember(reg, d), d.className, d.name) == reg
  {
    KnowsIffFound(reg, d.className, d.name);
    var all := reg.devices + [d];
    var i := FindDevice(all, d.className, d.name);
    assert Matches(all[|reg.devices|], d.className, d.name);
    assert forall k :: 0 <= k < |reg.devices| ==> !Matches(all[k], d.className, d.name);
    assert i == |reg.devices|;
  }

  // ---------------------------------------------------------------------------------------------------------------
  // Remembered devices over whole runs
  // ---------------------------------------------------------------------------------------------------------------

  predicate Served(files: Files, reg: Registry, name: string) {
    name in Names(reg.units) || !Instantiable(files, reg, name)
  }

  /** Every unit a rule names for a remembered device is registered, unless it cannot be made. */
  ghost predicate DevicesServed(files: Files, reg: Registry) {
    forall d, name :: d in reg.devices && Wants(Rules(reg), d, name) ==> Served(files, reg, name)
  }

  datatype Op =
    | ScanUnits(path: string, sorted: seq<Unit>, answers: seq<bool>)
    | ReloadRules(dir: string, answers: seq<bool>)
    | AddDevice(device: Device, answers: seq<bool>)
    | RemoveDevice(className: string, name: string, answers: seq<bool>)
    | StartUnit(request: Request, mayRefresh: bool)
    | Mount(mountPoint: string, answers: seq<bool>)
    | Unmount(mountPoint: string)

  ghost predicate Allowed(files: Files, reg: Registry, op: Op) {
    op.ScanUnits? && op.path in files.trees ==> IsSortOf(op.sorted, NewGeneration(files, reg, op.path).units)
  }

  function Next(files: Files, reg: Registry, op: Op): Registry {
    match op
    case ScanUnits(path, sorted, answers) => Scan(files, reg, path, sorted, answers)
    case ReloadRules(dir, answers) => LoadRules(files, reg, dir, answers)
    case AddDevice(device, answers) => DeviceAdded(files, reg, device, answers)
    case RemoveDevice(className, name, answers) => DeviceRemoved(files, reg, className, name, answers)
    case StartUnit(request, mayRefresh) => Start(files, reg, request, mayRefresh)
    case Mount(mountPoint, answers) => AddConfigDir(files, reg, mountPoint, answers)
    case Unmount(mountPoint) => RemoveConfig(reg, mountPoint)
  }

  function After(files: Files, reg: Registry, ops: seq<Op>): Registry {
    if ops == [] then reg else Next(files, After(files, reg, ops[..|ops| - 1]), ops[|ops| - 1])
  }

  ghost predicate IsRun(files: Files, reg: Registry, ops: seq<Op>) {
    ops == []
    || (var front := ops[..|ops| - 1];
        IsRun(files, reg, front) && Allowed(files, After(files, reg, front), ops[|ops| - 1]))
  }

  lemma ServedWhenGrown(files: Files, reg: Registry, after: Registry)
    requires DevicesServed(files, reg) && Grows(reg, after)
    ensures DevicesServed(files, after)
  {
    forall d, name | d in after.devices && Wants(Rules(after), d, name) ensures Served(files, after, name) {
      assert Served(files, reg, name);
      assert TemplateFor(after, name) == TemplateFor(reg, name);
    }
  }

  /** After a replay every remembered device is served, whatever was so before. */
  lemma ReplayServes(files: Files, reg: Registry, answers: seq<bool>)
    ensures DevicesServed(files, Replay(files, reg, answers))
  {
    var after := Replay(files, reg, answers);
    ReplayRegisters(files, reg, answers, "");
    forall d, name | d in after.devices && Wants(Rules(after), d, name) ensures Served(files, after, name) {
      ReplayRegisters(files, reg, answers, name);
      var k :| 0 <= k < |reg.devices| && reg.devices[k] == d;
      assert Remembered(reg, |reg.devices|, name);
      assert TemplateFor(after, name) == TemplateFor(reg, name);
    }
  }

  /** Exactly what a reported device registers. */
  lemma DeviceAddedRegisters(files: Files, reg: Registry, d: Device, answers: seq<bool>, name: string)
    ensures var after := DeviceAdded(files, reg, d, answers);
            && Grows(Remember(reg, d), after)
            && (name in Names(after.units)
                <==> name in Names(reg.units) || (Wants(Rules(reg), d, name) && Instantiable(files, reg, name)))
  {
    var remembered := Remember(reg, d);
    var targets := Targets(Rules(reg), d.className, d.name, false);
    var requests := RequestsFor(targets, d.value);
    StartFirstRegisters(files, remembered, requests, answers, |requests|, name);
    TargetsAreNamed(Rules(reg), d.className, d.name, false, name);
    RequestsAsk(targets, d.value, name);
    assert TemplateFor(remembered, name) == TemplateFor(reg, name);
  }

  lemma DeviceAddedServes(files: Files, reg: Registry, d: Device, answers: seq<bool>)
    requires DevicesServed(files, reg)
    ensures DevicesServed(files, DeviceAdded(files, reg, d, answers))
  {
    var after := DeviceAdded(files, reg, d, answers);
    DeviceAddedRegisters(files, reg, d, answers, "");
    forall e, name | e in after.devices && Wants(Rules(after), e, name) ensures Served(files, after, name) {
      DeviceAddedRegisters(files, reg, d, answers, name);
      assert TemplateFor(after, name) == TemplateFor(reg, name);
      assert e in reg.devices ==> Served(files, reg, name);
    }
  }

  lemma ForgetServes(files: Files, reg: Registry, className: string, name: string)
    requires DevicesServed(files, reg)
    ensures DevicesServed(files, Forget(reg, className, name))
  {
    var forgotten := Forget(reg, className, name);
    forall d, target | d in forgotten.devices && Wants(Rules(forgotten), d, target)
      ensures Served(files, forgotten, target)
    {
      assert d in reg.devices && Served(files, reg, target);
      assert TemplateFor(forgotten, target) == TemplateFor(reg, target);
    }
  }

  lemma DeviceRemovedServes(files: Files, reg: Registry, className: string, name: string, answers: seq<bool>)
    requires DevicesServed(files, reg)
    ensures DevicesServed(files, DeviceRemoved(files, reg, className, name, answers))
  {
    var i := FindDevice(reg.devices, className, name);
    var value := if i < |reg.devices| then reg.devices[i].value else None;
    var forgotten := Forget(reg, className, name);
    ForgetServes(files, reg, className, name);
    StartAllServes(files, forgotten, RequestsFor(Targets(Rules(forgotten), className, name, true), value), answers);
  }

  lemma StartAllServes(files: Files, reg: Registry, requests: seq<Request>, answers: seq<bool>)
    requires DevicesServed(files, reg)
    ensures DevicesServed(files, StartAll(files, reg, requests, answers))
  {
    StartFirstRegisters(files, reg, requests, answers, |requests|, "");
    ServedWhenGrown(files, reg, StartAll(files, reg, requests, answers));
  }

  lemma NextServes(files: Files, reg: Registry, op: Op)
    requires DevicesServed(files, reg) && !op.Unmount?
    ensures DevicesServed(files, Next(files, reg, op))
  {
    match op
    case ScanUnits(path, sorted, answers) =>
      if path in files.trees { ReplayServes(files, InstallScan(files, reg, path, sorted), answers); }
    case ReloadRules(dir, answers) =>
      if dir in files.rules { ReplayServes(files, InstallRules(files, reg, dir), answers); }
    case AddDevice(device, answers) => DeviceAddedServes(files, reg, device, answers);
    case RemoveDevice(className, name, answers) => DeviceRemovedServes(files, reg, className, name, answers);
    case StartUnit(request, mayRefresh) =>
      StartRegisters(files, reg, request, mayRefresh);
      ServedWhenGrown(files, reg, Start(files, reg, request, mayRefresh));
    case Mount(mountPoint, answers) =>
      if !IsLoaded(reg, mountPoint) && HasConfig(files, mountPoint) {
        ReplayServes(files, InstallConfig(files, reg, mountPoint), answers);
      }
    case _ =>
  }

  predicate Reloads(files: Files, op: Op) {
    || (op.ScanUnits? && op.path in files.trees)
    || (op.ReloadRules? && op.dir in files.rules)
  }

  /** Each unmount is followed by a reload that can read its directory. */
  ghost predicate Settled(files: Files, ops: seq<Op>) {
    forall i :: 0 <= i < |ops| && ops[i].Unmount? ==> ReloadedAfter(files, ops, i)
  }

  ghost predicate ReloadedAfter(files: Files, ops: seq<Op>, i: nat) {
    exists j :: i < j < |ops| && Reloads(files, ops[j])
  }

  lemma SettledFront(files: Files, ops: seq<Op>)
    requires ops != [] && Settled(files, ops) && !Reloads(files, ops[|ops| - 1])
    ensures Settled(files, ops[..|ops| - 1]) && !ops[|ops| - 1].Unmount?
  {
    var front, n := ops[..|ops| - 1], |ops| - 1;
    assert !ops[n].Unmount? by {
      assert !ReloadedAfter(files, ops, n);
    }
    forall i | 0 <= i < n && front[i].Unmount? ensures ReloadedAfter(files, front, i) {
      assert ReloadedAfter(files, ops, i);
      var j :| i < j < |ops| && Reloads(files, ops[j]);
      assert front[j] == ops[j];
    }
  }

  lemma ReloadServes(files: Files, reg: Registry, op: Op)
    requires Reloads(files, op)
    ensures DevicesServed(files, Next(files, reg, op))
  {
    if op.ScanUnits? {
      ReplayServes(files, InstallScan(files, reg, op.path, op.sorted), op.answers);
    } else {
      ReplayServes(files, InstallRules(files, reg, op.dir), op.answers);
    }
  }

  /** Remembered devices are served after any settled run from an empty registry. */
  lemma {:induction false} RunServesDevices(files: Files, ops: seq<Op>)
    requires Settled(files, ops)
    ensures DevicesServed(files, After(files, EMPTY, ops))
  {
    if ops != [] {
      var front, last := ops[..|ops| - 1], ops[|ops| - 1];
      if Reloads(files, last) {
        ReloadServes(files, After(files, EMPTY, front), last);
      } else {
        SettledFront(files, ops);
        RunServesDevices(files, front);
        NextServes(files, After(files, EMPTY, front), last);
      }
    }
  }

  lemma NextDevices(files: Files, reg: Registry, op: Op)
    ensures Next(files, reg, op).devices
         == match op
            case AddDevice(d, _) => Remember(reg, d).devices
            case RemoveDevice(className, name, _) => Forget(reg, className, name).devices
            case _ => reg.devices
  {
    match op
    case ScanUnits(path, sorted, answers) =>
      if path in files.trees {
        var parsed := ParseTree(files.disk, files.trees[path], None);
        var base := reg.(units := parsed.units, templates := parsed.templates, unitsDir := Some(path));
        MergeAllKeepsDevices(files, base, |reg.configDirs|);
        ReplayRegisters(files, InstallScan(files, reg, path, sorted), answers, "");
      }
    case ReloadRules(dir, answers) =>
      if dir in files.rules {
        MergeAllKeepsDevices(files, reg.(rules := Some(LoadedRules(files.rules[dir], None))), |reg.configDirs|);
        ReplayRegisters(files, InstallRules(files, reg, dir), answers, "");
      }
    case AddDevice(d, answers) => DeviceAddedRegisters(files, reg, d, answers, "");
    case RemoveDevice(className, name, answers) =>
      var i := FindDevice(reg.devices, className, name);
      var value := if i < |reg.devices| then reg.devices[i].value else None;
      var forgotten := Forget(reg, className, name);
      var requests := RequestsFor(Targets(Rules(forgotten), className, name, true), value);
      StartFirstRegisters(files, forgotten, requests, answers, |requests|, "");
    case StartUnit(request, mayRefresh) => StartRegisters(files, reg, request, mayRefresh);
    case Mount(mountPoint, answers) => ReplayRegisters(files, InstallConfig(files, reg, mountPoint), answers, "");
    case Unmount(_) =>
  }

  lemma {:induction false} MergeAllKeepsDevices(files: Files, reg: Registry, n: nat)
    requires n <= |reg.configDirs|
    ensures MergeAllUnits(files, reg, n).devices == reg.devices && MergeAllRules(files, reg, n).devices == reg.devices
  {
    if n > 0 {
      MergeAllKeepsDevices(files, reg, n - 1);
    }
  }

  predicate Reports(op: Op, className: string, name: string) {
    op.AddDevice? && Matches(op.device, className, name)
  }

  predicate Withdraws(op: Op, className: string, name: string) {
    op.RemoveDevice? && op.className == className && op.name == name
  }

  /** A run reports a device and does not withdraw it afterwards. */
  predicate LastReported(ops: seq<Op>, className: string, name: string) {
    ops != [] &&
    var last := ops[|ops| - 1];
    || Reports(last, className, name)
    || (!Withdraws(last, className, name) && LastReported(ops[..|ops| - 1], className, name))
  }

  lemma NextKnows(files: Files, reg: Registry, op: Op, className: string, name: string)
    requires OncePerDevice(reg.devices)
    ensures OncePerDevice(Next(files, reg, op).devices)
    ensures Knows(Next(files, reg, op), className, name)
       <==> Reports(op, className, name) || (!Withdraws(op, className, name) && Knows(reg, className, name))
  {
    NextDevices(files, reg, op);
    if op.AddDevice? {
      RememberOnce(reg, op.device);
      KnowsMore(reg, op.device, className, name);
    } else if op.RemoveDevice? {
      ForgetIsExact(reg, op.className, op.name);
      KnowsLess(reg, op.className, op.name, className, name);
    }
  }

  lemma KnowsMore(reg: Registry, d: Device, className: string, name: string)
    ensures Knows(Remember(reg, d), className, name) <==> Matches(d, className, name) || Knows(reg, className, name)
  {
    var after := Remember(reg, d);
    KnowsIffFound(reg, d.className, d.name);
    if !Knows(reg, d.className, d.name) {
      assert after.devices[|reg.devices|] == d;
      assert forall e :: e in after.devices <==> e in reg.devices || e == d;
    }
  }

  lemma KnowsLess(reg: Registry, gone: string, goneName: string, className: string, name: string)
    requires OncePerDevice(reg.devices)
    ensures Knows(Forget(reg, gone, goneName), className, name)
       <==> Knows(reg, className, name) && !(gone == className && goneName == name)
  {
    ForgetIsExact(reg, gone, goneName);
    if Knows(reg, className, name) && !(gone == className && goneName == name) {
      var d :| d in reg.devices && Matches(d, className, name);
      assert d in Forget(reg, gone, goneName).devices;
    }
  }

  /** After any run exactly the devices that were reported and not withdrawn since are remembered, each once:
      whatever is reloaded or mounted later, a withdrawn device does not come back. */
  lemma {:induction false} RunRemembersReported(files: Files, ops: seq<Op>, className: string, name: string)
    ensures OncePerDevice(After(files, EMPTY, ops).devices)
    ensures Knows(After(files, EMPTY, ops), className, name) <==> LastReported(ops, className, name)
  {
    if ops != [] {
      var front, last := ops[..|ops| - 1], ops[|ops| - 1];
      RunRemembersReported(files, front, className, name);
      NextKnows(files, After(files, EMPTY, front), last, className, name);
    }
  }
}
