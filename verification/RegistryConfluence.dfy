/** The order of the first calls does not matter (app/libsystemd/src/serviceapi.c:169-186, 3121-3163, 3232-3267,
    3773-3833, 3880-3995). */
module RegistryConfluence {
  import opened Wrappers
  import opened Services
  import opened UnitFiles
  import opened Registry
  import opened RegistryRuns
  import opened RegistrySections

  /** A run that scans one directory, loads the rules of another and reports devices: each any number of times, in any
      order, each scan sorting as it likes. */
  ghost predicate IsBoot(files: Files, path: string, dir: string, ops: seq<Op>) {
    && path in files.trees
    && dir in files.rules
    && IsRun(files, EMPTY, ops)
    && forall k :: 0 <= k < |ops| ==> BootOp(path, dir, ops[k])
  }

  predicate BootOp(path: string, dir: string, op: Op) {
    match op
    case ScanUnits(p, _, _) => p == path
    case ReloadRules(d, _) => d == dir
    case AddDevice(_, _) => true
    case _ => false
  }

  predicate HasScan(ops: seq<Op>) {
    ops != [] && (ops[|ops| - 1].ScanUnits? || HasScan(ops[..|ops| - 1]))
  }

  predicate HasReload(ops: seq<Op>) {
    ops != [] && (ops[|ops| - 1].ReloadRules? || HasReload(ops[..|ops| - 1]))
  }

  /** A rule names this unit for a reported device. */
  ghost predicate Called(rules: seq<Rule>, ops: seq<Op>, name: string) {
    exists k :: 0 <= k < |ops| && ops[k].AddDevice? && Wants(rules, ops[k].device, name)
  }

  ghost predicate WantedBy(rules: seq<Rule>, devices: seq<Device>, name: string) {
    exists d :: d in devices && Wants(rules, d, name)
  }

  function Tree(files: Files, path: string): Parsed
    requires path in files.trees
  {
    ParseTree(files.disk, files.trees[path], None)
  }

  /** The scanned directory has a usable first template for the name. */
  predicate Makeable(files: Files, path: string, name: string)
    requires path in files.trees
  {
    Instantiable(files, EMPTY.(templates := Tree(files, path).templates, unitsDir := Some(path)), name)
  }

  ghost predicate Expected(files: Files, path: string, rules: seq<Rule>, ops: seq<Op>, name: string)
    requires path in files.trees
  {
    name in Names(Tree(files, path).units) || (Called(rules, ops, name) && Makeable(files, path, name))
  }

  // ---------------------------------------------------------------------------------------------------------------
  // What is known after each call
  // ---------------------------------------------------------------------------------------------------------------

  ghost predicate SettingOf(files: Files, path: string, dir: string, reg: Registry, ops: seq<Op>)
    requires path in files.trees && dir in files.rules
  {
    && reg.configDirs == []
    && reg.unitsDir == (if HasScan(ops) then Some(path) else None)
    && reg.templates == (if HasScan(ops) then Tree(files, path).templates else [])
    && reg.rules == (if HasReload(ops) then Some(LoadedRules(files.rules[dir], None)) else None)
  }

  ghost predicate KnowsDevices(reg: Registry, ops: seq<Op>) {
    forall rules, name :: WantedBy(rules, reg.devices, name) <==> Called(rules, ops, name)
  }

  ghost predicate NamesWithin(files: Files, path: string, reg: Registry, ops: seq<Op>)
    requires path in files.trees
  {
    if HasScan(ops) then
      && (forall name :: name in Names(Tree(files, path).units) ==> name in Names(reg.units))
      && (forall name :: name in Names(reg.units) ==> Expected(files, path, Rules(reg), ops, name))
    else forall name :: name !in Names(reg.units)
  }

  ghost predicate Inv(files: Files, path: string, dir: string, reg: Registry, ops: seq<Op>)
    requires path in files.trees && dir in files.rules
  {
    && SettingOf(files, path, dir, reg, ops)
    && KnowsDevices(reg, ops)
    && NamesWithin(files, path, reg, ops)
    && DevicesServed(files, reg)
  }

  lemma CalledMore(rules: seq<Rule>, ops: seq<Op>, op: Op, name: string)
    ensures Called(rules, ops + [op], name)
       <==> Called(rules, ops, name) || (op.AddDevice? && Wants(rules, op.device, name))
  {
    var all := ops + [op];
    assert all[|ops|] == op;
    if Called(rules, ops, name) {
      var k :| 0 <= k < |ops| && ops[k].AddDevice? && Wants(rules, ops[k].device, name);
      assert all[k] == ops[k];
    }
  }

  lemma HasMore(ops: seq<Op>, op: Op)
    ensures HasScan(ops + [op]) <==> HasScan(ops) || op.ScanUnits?
    ensures HasReload(ops + [op]) <==> HasReload(ops) || op.ReloadRules?
  {
    assert (ops + [op])[..|ops|] == ops;
  }

  lemma RememberedIsWanted(reg: Registry, name: string)
    ensures Remembered(reg, |reg.devices|, name) <==> WantedBy(Rules(reg), reg.devices, name)
  {
    if WantedBy(Rules(reg), reg.devices, name) {
      var d :| d in reg.devices && Wants(Rules(reg), d, name);
      var k :| 0 <= k < |reg.devices| && reg.devices[k] == d;
    }
  }

  lemma RememberKnows(reg: Registry, ops: seq<Op>, d: Device, answers: seq<bool>)
    requires KnowsDevices(reg, ops)
    ensures KnowsDevices(Remember(reg, d), ops + [AddDevice(d, answers)])
  {
    var after := Remember(reg, d);
    forall rules, name
      ensures WantedBy(rules, after.devices, name) <==> Called(rules, ops + [AddDevice(d, answers)], name)
    {
      CalledMore(rules, ops, AddDevice(d, answers), name);
      var i := FindDevice(reg.devices, d.className, d.name);
      if i < |reg.devices| {
        assert reg.devices[i] in after.devices && Wants(rules, reg.devices[i], name) == Wants(rules, d, name);
      } else {
        assert d in after.devices && forall e :: e in after.devices <==> e in reg.devices || e == d;
        if WantedBy(rules, reg.devices, name) {
          var e :| e in reg.devices && Wants(rules, e, name);
          assert e in after.devices;
        }
      }
    }
  }

  lemma DeviceStep(files: Files, path: string, dir: string, reg: Registry, ops: seq<Op>, d: Device, answers: seq<bool>)
    requires path in files.trees && dir in files.rules && Inv(files, path, dir, reg, ops)
    ensures Inv(files, path, dir, DeviceAdded(files, reg, d, answers), ops + [AddDevice(d, answers)])
  {
    var op := AddDevice(d, answers);
    var after := DeviceAdded(files, reg, d, answers);
    HasMore(ops, op);
    DeviceAddedRegisters(files, reg, d, answers, "");
    DeviceAddedServes(files, reg, d, answers);
    RememberKnows(reg, ops, d, answers);
    forall name ensures name in Names(after.units) <==>
                        name in Names(reg.units) || (Wants(Rules(reg), d, name) && Instantiable(files, reg, name))
    {
      DeviceAddedRegisters(files, reg, d, answers, name);
    }
    forall name | name in Names(after.units) && HasScan(ops)
      ensures Expected(files, path, Rules(after), ops + [op], name)
    {
      CalledMore(Rules(reg), ops, op, name);
      SameTemplates(files, path, reg, name);
    }
  }

  lemma SameTemplates(files: Files, path: string, reg: Registry, name: string)
    requires path in files.trees && reg.unitsDir == Some(path) && reg.templates == Tree(files, path).templates
    ensures Instantiable(files, reg, name) <==> Makeable(files, path, name)
  {
  }

  /** A reload keeps what is known of devices and rules, and a replay adds what is expected. */
  lemma ReplayStep(files: Files, path: string, dir: string, reg: Registry, ops: seq<Op>, answers: seq<bool>)
    requires path in files.trees && dir in files.rules
    requires SettingOf(files, path, dir, reg, ops) && KnowsDevices(reg, ops) && NamesWithin(files, path, reg, ops)
    ensures Inv(files, path, dir, Replay(files, reg, answers), ops)
  {
    var after := Replay(files, reg, answers);
    ReplayServes(files, reg, answers);
    ReplayRegisters(files, reg, answers, "");
    forall name ensures name in Names(after.units) <==>
                        name in Names(reg.units) || (Called(Rules(reg), ops, name) && Instantiable(files, reg, name))
    {
      ReplayRegisters(files, reg, answers, name);
      RememberedIsWanted(reg, name);
    }
    forall name | name in Names(after.units) && HasScan(ops) ensures Expected(files, path, Rules(after), ops, name) {
      SameTemplates(files, path, reg, name);
    }
  }

  lemma NoOtherDevice(reg: Registry, ops: seq<Op>, op: Op)
    requires KnowsDevices(reg, ops) && !op.AddDevice?
    ensures KnowsDevices(reg, ops + [op])
    ensures forall rules, name :: Called(rules, ops + [op], name) <==> Called(rules, ops, name)
  {
    forall rules, name ensures Called(rules, ops + [op], name) <==> Called(rules, ops, name) {
      CalledMore(rules, ops, op, name);
    }
  }

  lemma NamesOfSame(a: seq<Unit>, b: seq<Unit>)
    requires forall u :: u in a <==> u in b
    ensures forall name :: name in Names(a) <==> name in Names(b)
  {
    forall name | name in Names(a) ensures name in Names(b) {
      var i :| 0 <= i < |a| && Names(a)[i] == name;
      assert a[i] in b;
      var j :| 0 <= j < |b| && b[j] == a[i];
      assert Names(b)[j] == name;
    }
    forall name | name in Names(b) ensures name in Names(a) {
      var i :| 0 <= i < |b| && Names(b)[i] == name;
      assert b[i] in a;
      var j :| 0 <= j < |a| && a[j] == b[i];
      assert Names(a)[j] == name;
    }
  }

  lemma ScanStep(files: Files, path: string, dir: string, reg: Registry, ops: seq<Op>, sorted: seq<Unit>,
                 answers: seq<bool>)
    requires path in files.trees && dir in files.rules && Inv(files, path, dir, reg, ops)
    requires IsSortOf(sorted, NewGeneration(files, reg, path).units)
    ensures Inv(files, path, dir, Scan(files, reg, path, sorted, answers), ops + [ScanUnits(path, sorted, answers)])
  {
    var op := ScanUnits(path, sorted, answers);
    var installed := InstallScan(files, reg, path, sorted);
    var units := NewGeneration(files, reg, path).units;
    HasMore(ops, op);
    NoOtherDevice(reg, ops, op);
    assert units == Tree(files, path).units;
    var positions := SortRearranges(units, sorted);
    RearrangedMembers(units, sorted, positions);
    NamesOfSame(units, sorted);
    assert KnowsDevices(installed, ops + [op]);
    ReplayStep(files, path, dir, installed, ops + [op], answers);
  }

  lemma ReloadStep(files: Files, path: string, dir: string, reg: Registry, ops: seq<Op>, answers: seq<bool>)
    requires path in files.trees && dir in files.rules && Inv(files, path, dir, reg, ops)
    ensures Inv(files, path, dir, LoadRules(files, reg, dir, answers), ops + [ReloadRules(dir, answers)])
  {
    var op := ReloadRules(dir, answers);
    var installed := InstallRules(files, reg, dir);
    HasMore(ops, op);
    NoOtherDevice(reg, ops, op);
    assert installed == reg.(rules := Some(LoadedRules(files.rules[dir], None)));
    assert KnowsDevices(installed, ops + [op]);
    if HasScan(ops) {
      forall name | name in Names(reg.units) ensures Expected(files, path, Rules(installed), ops + [op], name) {
        assert Expected(files, path, Rules(reg), ops, name);
        assert reg.rules == None ==> !Called(Rules(reg), ops, name);
      }
    }
    ReplayStep(files, path, dir, installed, ops + [op], answers);
  }

  lemma BootStep(files: Files, path: string, dir: string, reg: Registry, reached: Registry, ops: seq<Op>, op: Op,
                 all: seq<Op>)
    requires path in files.trees && dir in files.rules && Inv(files, path, dir, reg, ops)
    requires Allowed(files, reg, op) && BootOp(path, dir, op) && reached == Next(files, reg, op)
    requires all != [] && ops == all[..|all| - 1] && op == all[|all| - 1]
    ensures Inv(files, path, dir, reached, all)
  {
    assert all == ops + [op];
    match op
    case ScanUnits(_, sorted, answers) => ScanStep(files, path, dir, reg, ops, sorted, answers);
    case ReloadRules(_, answers) => ReloadStep(files, path, dir, reg, ops, answers);
    case AddDevice(d, answers) => DeviceStep(files, path, dir, reg, ops, d, answers);
    case _ =>
  }

  lemma EmptyInv(files: Files, path: string, dir: string)
    requires path in files.trees && dir in files.rules
    ensures Inv(files, path, dir, EMPTY, [])
  {
    forall rules, name ensures WantedBy(rules, EMPTY.devices, name) <==> Called(rules, [], name) {
    }
  }

  lemma {:induction false} BootFront(files: Files, path: string, dir: string, ops: seq<Op>)
    requires IsBoot(files, path, dir, ops) && ops != []
    ensures IsBoot(files, path, dir, ops[..|ops| - 1])
    ensures Allowed(files, After(files, EMPTY, ops[..|ops| - 1]), ops[|ops| - 1]) && BootOp(path, dir, ops[|ops| - 1])
  {
  }

  lemma {:induction false} BootKeepsInv(files: Files, path: string, dir: string, ops: seq<Op>)
    requires IsBoot(files, path, dir, ops)
    ensures Inv(files, path, dir, After(files, EMPTY, ops), ops)
  {
    if ops == [] {
      EmptyInv(files, path, dir);
    } else {
      BootFront(files, path, dir, ops);
      var front, last := ops[..|ops| - 1], ops[|ops| - 1];
      BootKeepsInv(files, path, dir, front);
      BootStep(files, path, dir, After(files, EMPTY, front), After(files, EMPTY, ops), front, last, ops);
    }
  }

  // ---------------------------------------------------------------------------------------------------------------
  // Main results
  // ---------------------------------------------------------------------------------------------------------------

  /** Once the directory was scanned and the rules were loaded, exactly these names are registered: those of the
      directory, and those that the rules name for the reported devices and a template can make. */
  lemma {:induction false} BootRegisters(files: Files, path: string, dir: string, ops: seq<Op>, name: string)
    requires IsBoot(files, path, dir, ops) && HasScan(ops) && HasReload(ops)
    ensures name in Names(After(files, EMPTY, ops).units)
       <==> Expected(files, path, LoadedRules(files.rules[dir], None), ops, name)
  {
    BootKeepsInv(files, path, dir, ops);
    var reg := After(files, EMPTY, ops);
    if Called(Rules(reg), ops, name) && Makeable(files, path, name) {
      assert WantedBy(Rules(reg), reg.devices, name);
      var d :| d in reg.devices && Wants(Rules(reg), d, name);
      assert Served(files, reg, name);
      SameTemplates(files, path, reg, name);
    }
  }

  ghost predicate Reported(ops: seq<Op>, className: string, name: string) {
    exists k :: 0 <= k < |ops| && ops[k].AddDevice? && Matches(ops[k].device, className, name)
  }

  ghost predicate SameReports(a: seq<Op>, b: seq<Op>) {
    forall className, name :: Reported(a, className, name) <==> Reported(b, className, name)
  }

  lemma CalledAlike(rules: seq<Rule>, a: seq<Op>, b: seq<Op>, name: string)
    requires SameReports(a, b)
    ensures Called(rules, a, name) ==> Called(rules, b, name)
  {
    if Called(rules, a, name) {
      var k :| 0 <= k < |a| && a[k].AddDevice? && Wants(rules, a[k].device, name);
      var d := a[k].device;
      assert Reported(a, d.className, d.name);
      var j :| 0 <= j < |b| && b[j].AddDevice? && Matches(b[j].device, d.className, d.name);
      assert Wants(rules, b[j].device, name);
    }
  }

  /** Two such runs that report the same devices, in whatever order and with whatever values, register the same
      names. */
  lemma {:induction false} OrderOfCallsDoesNotMatter(files: Files, path: string, dir: string, a: seq<Op>, b: seq<Op>,
                                                     name: string)
    requires IsBoot(files, path, dir, a) && HasScan(a) && HasReload(a)
    requires IsBoot(files, path, dir, b) && HasScan(b) && HasReload(b)
    requires SameReports(a, b)
    ensures name in Names(After(files, EMPTY, a).units) <==> name in Names(After(files, EMPTY, b).units)
  {
    BootRegisters(files, path, dir, a, name);
    BootRegisters(files, path, dir, b, name);
    CalledAlike(LoadedRules(files.rules[dir], None), a, b, name);
    CalledAlike(LoadedRules(files.rules[dir], None), b, a, name);
  }
}
