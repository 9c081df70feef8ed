/** Unmounting does not replay devices: when that leaves one without its unit
    (app/libsystemd/src/serviceapi.c:4941-5024, against 3830, 3905 and 4920). */
module RegistryUnmount {
  import opened Wrappers
  import opened Services
  import opened UnitNames
  import opened UnitFiles
  import opened Registry
  import opened RegistryRuns
  import opened RegistrySections
  import Expansion

  lemma KeptNameWasFirst(units: seq<Unit>, m: string, unit: Unit)
    requires OnePerName(units) && unit in units && unit.source != Some(m)
    ensures HasUnit(units, unit.name) && units[FindUnit(units, unit.name)].source != Some(m)
  {
    var k :| 0 <= k < |units| && units[k] == unit;
    var i := FindUnit(units, unit.name);
    assert i < k ==> FromScan(units[i]);
  }

  lemma NamesAfterRemoval(reg: Registry, m: string, name: string)
    requires m in reg.configDirs && OnePerName(reg.units)
    ensures name in Names(RemoveConfig(reg, m).units)
       <==> HasUnit(reg.units, name) && reg.units[FindUnit(reg.units, name)].source != Some(m)
  {
    var kept, i := RemoveConfig(reg, m).units, FindUnit(reg.units, name);
    KeptUnits(reg.units, m);
    HasUnitIffNamed(kept, name);
    if HasUnit(kept, name) {
      KeptNameWasFirst(reg.units, m, kept[FindUnit(kept, name)]);
    }
    if i < |reg.units| && reg.units[i].source != Some(m) {
      assert reg.units[i] in kept;
      var j :| 0 <= j < |kept| && kept[j] == reg.units[i];
    }
  }

  lemma FirstTemplateAfterRemoval(templates: seq<TemplateRef>, m: string, prefix: string)
    requires OnePerPrefix(templates)
    ensures var kept := Kept(templates, TemplateSources(templates), m, 0);
            var i, j := FindTemplate(templates, prefix), FindTemplate(kept, prefix);
            && (j < |kept| <==> i < |templates| && templates[i].source != Some(m))
            && (j < |kept| ==> kept[j] == templates[i])
  {
    var kept := Kept(templates, TemplateSources(templates), m, 0);
    var positions := KeptIsFilter(templates, TemplateSources(templates), m, 0);
    var i, j := FindTemplate(templates, prefix), FindTemplate(kept, prefix);
    if j < |kept| {
      assert kept[j] == templates[positions[j]] && positions[j] in positions;
      assert i <= positions[j];
      assert TemplateSources(templates)[positions[j]] != Some(m);
    }
    if i < |templates| && templates[i].source != Some(m) {
      assert TemplateSources(templates)[i] != Some(m);
      assert i in positions;
      var k :| 0 <= k < |positions| && positions[k] == i;
      assert kept[k] == templates[i];
      assert j <= k;
      if j < k {
        assert false;
      }
    }
  }

  lemma InstantiableAfterRemoval(files: Files, reg: Registry, m: string, name: string)
    requires m in reg.configDirs && OnePerPrefix(reg.templates)
    ensures Instantiable(files, RemoveConfig(reg, m), name)
       <==> Instantiable(files, reg, name) && TemplateFor(reg, name).value.source != Some(m)
  {
    if SplitInstanceName(name).Some? {
      FirstTemplateAfterRemoval(reg.templates, m, SplitInstanceName(name).value.0);
    }
  }

  /** A rule that is not from m names this unit for the device. */
  ghost predicate WantsWithout(reg: Registry, m: string, d: Device, name: string) {
    exists rule :: rule in Rules(reg) && rule.source != Some(m) && RuleNames(rule, d.className, d.name, false, name)
  }

  lemma WantsAfterRemoval(reg: Registry, m: string, d: Device, name: string)
    requires m in reg.configDirs
    ensures Wants(Rules(RemoveConfig(reg, m)), d, name) <==> WantsWithout(reg, m, d, name)
    ensures WantsWithout(reg, m, d, name) ==> Wants(Rules(reg), d, name)
  {
    RulesAfterRemoval(reg, m);
  }

  /** The unit comes from m, and once it is gone another template could make it. */
  predicate Replaceable(files: Files, reg: Registry, m: string, name: string) {
    && HasUnit(reg.units, name)
    && reg.units[FindUnit(reg.units, name)].source == Some(m)
    && Instantiable(files, reg, name)
    && TemplateFor(reg, name).value.source != Some(m)
  }

  lemma UnservedAfterRemoval(files: Files, reg: Registry, m: string, name: string)
    requires Tidy(reg) && m in reg.configDirs && Served(files, reg, name)
    ensures !Served(files, RemoveConfig(reg, m), name) <==> Replaceable(files, reg, m, name)
  {
    NamesAfterRemoval(reg, m, name);
    InstantiableAfterRemoval(files, reg, m, name);
    HasUnitIffNamed(reg.units, name);
  }

  /** Unmounting m leaves every remembered device served exactly when no unit that a remaining rule names for one comes
      from m although its template comes from elsewhere. */
  lemma UnmountServesIff(files: Files, reg: Registry, m: string)
    requires Tidy(reg) && m in reg.configDirs && DevicesServed(files, reg)
    ensures DevicesServed(files, RemoveConfig(reg, m))
       <==> forall d, name :: d in reg.devices && WantsWithout(reg, m, d, name) ==> !Replaceable(files, reg, m, name)
  {
    var after := RemoveConfig(reg, m);
    forall d, name | d in reg.devices && WantsWithout(reg, m, d, name)
      ensures Wants(Rules(after), d, name) && (!Served(files, after, name) <==> Replaceable(files, reg, m, name))
    {
      WantsAfterRemoval(reg, m, d, name);
      assert Served(files, reg, name);
      UnservedAfterRemoval(files, reg, m, name);
    }
    forall d, name | d in reg.devices && Wants(Rules(after), d, name) ensures WantsWithout(reg, m, d, name) {
      WantsAfterRemoval(reg, m, d, name);
    }
  }

  // ---------------------------------------------------------------------------------------------------------------
  // A run that leaves a device without its unit
  // ---------------------------------------------------------------------------------------------------------------

  /** What can be read: a template in the scanned directory, one unit on a mount point, one rule in a rules
      directory. */
  datatype Setup = Setup(files: Files, path: string, dir: string, mountPoint: string,
                         template: TemplateRef, unit: Unit, rule: Rule, device: Device)

  ghost predicate Readable(s: Setup) {
    var services := ConfigPath(s.mountPoint, "services");
    && s.path in s.files.trees && ParseTree(s.files.disk, s.files.trees[s.path], None) == Parsed([], [s.template])
    && services in s.files.trees
    && ParseTree(s.files.disk, s.files.trees[services], Some(s.mountPoint)) == Parsed([s.unit], [])
    && ConfigPath(s.mountPoint, "rules") !in s.files.rules
    && !SamePath(services, s.path)
    && s.dir in s.files.rules && LoadedRules(s.files.rules[s.dir], None) == [s.rule]
  }

  /** The rule names the unit for the device, the template could make it, and the unit has a file on the mount point. */
  ghost predicate Stranding(s: Setup) {
    && s.rule.source == None && s.template.source == None
    && Targets([s.rule], s.device.className, s.device.name, false) == [s.unit.name]
    && !s.unit.fromTemplate && s.unit.source == Some(s.mountPoint)
    && SplitInstanceName(s.unit.name).Some? && SplitInstanceName(s.unit.name).value.0 == s.template.prefix
    && Usable(s.files.disk, s.template)
  }

  predicate NoUnmount(ops: seq<Op>) {
    forall k :: 0 <= k < |ops| ==> !ops[k].Unmount?
  }

  lemma NothingToReplay(files: Files, reg: Registry)
    requires reg.devices == []
    ensures Replay(files, reg, []) == reg
  {
  }

  lemma NothingSorted()
    ensures IsSortOf([], [])
  {
    assert Sorts([], [], []);
  }

  lemma GenerationIsTemplate(s: Setup)
    requires Readable(s)
    ensures NewGeneration(s.files, EMPTY, s.path) == Scanned(s)
  {
    var parsed := ParseTree(s.files.disk, s.files.trees[s.path], None);
    assert EMPTY.(units := parsed.units, templates := parsed.templates, unitsDir := Some(s.path)) == Scanned(s);
  }

  lemma AfterScan(s: Setup)
    requires Readable(s)
    ensures IsSortOf([], NewGeneration(s.files, EMPTY, s.path).units)
    ensures Scan(s.files, EMPTY, s.path, [], []) == Scanned(s)
  {
    GenerationIsTemplate(s);
    NothingSorted();
    NothingToReplay(s.files, Scanned(s));
  }

  lemma AfterReload(s: Setup, reg: Registry)
    requires Readable(s) && reg.configDirs == [] && reg.devices == []
    ensures LoadRules(s.files, reg, s.dir, []) == reg.(rules := Some([s.rule]))
  {
    NothingToReplay(s.files, reg.(rules := Some([s.rule])));
  }

  lemma AfterMount(s: Setup, reg: Registry)
    requires Readable(s) && reg.configDirs == [] && reg.devices == [] && reg.units == [] && reg.unitsDir == Some(s.path)
    ensures Next(s.files, reg, Mount(s.mountPoint, [])) == reg.(units := [s.unit], configDirs := [s.mountPoint])
  {
    var after := reg.(units := [s.unit], configDirs := [s.mountPoint]);
    assert AddUnits([], [s.unit], 1) == [s.unit] by {
      assert AddUnits([], [s.unit], 0) == [] && !HasUnit([], s.unit.name);
    }
    assert InstallConfig(s.files, reg, s.mountPoint) == after;
    NothingToReplay(s.files, after);
  }

  lemma AfterReport(s: Setup, reg: Registry)
    requires Stranding(s) && reg.units == [s.unit] && reg.devices == [] && reg.rules == Some([s.rule])
    ensures Next(s.files, reg, AddDevice(s.device, [])) == reg.(devices := [s.device])
  {
    var known := reg.(devices := [s.device]);
    assert Remember(reg, s.device) == known;
    var request := Request(s.unit.name, s.device.value);
    assert RequestsFor([s.unit.name], s.device.value) == [request];
    assert FindUnit([s.unit], s.unit.name) == 0;
    assert Start(s.files, known, request, false) == known;
    StartFirstIs(s.files, known, [request], [], 1);
  }

  ghost predicate Reaches(files: Files, ops: seq<Op>, reg: Registry) {
    IsRun(files, EMPTY, ops) && After(files, EMPTY, ops) == reg
  }

  lemma OneMore(files: Files, ops: seq<Op>, op: Op, reg: Registry, next: Registry) returns (more: seq<Op>)
    requires Reaches(files, ops, reg) && Allowed(files, reg, op) && Next(files, reg, op) == next
    requires NoUnmount(ops) && !op.Unmount?
    ensures Reaches(files, more, next) && NoUnmount(more)
  {
    more := ops + [op];
    assert more[..|ops|] == ops;
  }

  function Scanned(s: Setup): Registry {
    EMPTY.(templates := [s.template], unitsDir := Some(s.path))
  }

  function Mounted(s: Setup): Registry {
    Scanned(s).(rules := Some([s.rule]), units := [s.unit], configDirs := [s.mountPoint])
  }

  function Booted(s: Setup): Registry {
    Mounted(s).(devices := [s.device])
  }

  lemma ScanIsAllowed(s: Setup, op: Op)
    requires Readable(s) && op == ScanUnits(s.path, [], [])
    ensures Allowed(s.files, EMPTY, op) && Next(s.files, EMPTY, op) == Scanned(s)
  {
    AfterScan(s);
  }

  lemma ScanOf(s: Setup) returns (op: Op)
    requires Readable(s)
    ensures !op.Unmount? && Allowed(s.files, EMPTY, op) && Next(s.files, EMPTY, op) == Scanned(s)
  {
    op := ScanUnits(s.path, [], []);
    ScanIsAllowed(s, op);
  }

  lemma ReachesScanned(s: Setup) returns (ops: seq<Op>)
    requires Readable(s)
    ensures Reaches(s.files, ops, Scanned(s)) && NoUnmount(ops)
  {
    var op := ScanOf(s);
    ops := OneMore(s.files, [], op, EMPTY, Scanned(s));
  }

  lemma ReachesRuled(s: Setup, ops: seq<Op>) returns (more: seq<Op>)
    requires Readable(s) && Reaches(s.files, ops, Scanned(s)) && NoUnmount(ops)
    ensures Reaches(s.files, more, Scanned(s).(rules := Some([s.rule]))) && NoUnmount(more)
  {
    AfterReload(s, Scanned(s));
    more := OneMore(s.files, ops, ReloadRules(s.dir, []), Scanned(s), Scanned(s).(rules := Some([s.rule])));
  }

  lemma ReachesMounted(s: Setup, ops: seq<Op>) returns (more: seq<Op>)
    requires Readable(s) && Reaches(s.files, ops, Scanned(s).(rules := Some([s.rule]))) && NoUnmount(ops)
    ensures Reaches(s.files, more, Mounted(s)) && NoUnmount(more)
  {
    var ruled := Scanned(s).(rules := Some([s.rule]));
    AfterMount(s, ruled);
    more := OneMore(s.files, ops, Mount(s.mountPoint, []), ruled, Mounted(s));
  }

  lemma ReachesBooted(s: Setup, ops: seq<Op>) returns (more: seq<Op>)
    requires Stranding(s) && Reaches(s.files, ops, Mounted(s)) && NoUnmount(ops)
    ensures Reaches(s.files, more, Booted(s)) && NoUnmount(more)
  {
    AfterReport(s, Mounted(s));
    more := OneMore(s.files, ops, AddDevice(s.device, []), Mounted(s), Booted(s));
  }

  /** A scan, a rule load, a mount and a report. */
  lemma BootReaches(s: Setup) returns (ops: seq<Op>)
    requires Readable(s) && Stranding(s)
    ensures Reaches(s.files, ops, Booted(s)) && NoUnmount(ops)
  {
    ops := ReachesScanned(s);
    ops := ReachesRuled(s, ops);
    ops := ReachesMounted(s, ops);
    ops := ReachesBooted(s, ops);
  }

  lemma BootedIsServed(s: Setup)
    requires Readable(s) && Stranding(s)
    ensures DevicesServed(s.files, Booted(s)) && Tidy(Booted(s))
  {
    var ops := BootReaches(s);
    RunServesDevices(s.files, ops);
    RunStaysTidy(s.files, ops);
  }

  lemma UnitIsWanted(s: Setup)
    requires Stranding(s)
    ensures WantsWithout(Booted(s), s.mountPoint, s.device, s.unit.name)
  {
    TargetsAreNamed([s.rule], s.device.className, s.device.name, false, s.unit.name);
    assert s.rule in Rules(Booted(s));
  }

  lemma UnitIsReplaceable(s: Setup)
    requires Stranding(s)
    ensures Replaceable(s.files, Booted(s), s.mountPoint, s.unit.name)
  {
    assert FindUnit([s.unit], s.unit.name) == 0 && FindTemplate([s.template], s.template.prefix) == 0;
  }

  /** After the unmount the device is remembered but nothing is registered for it, although a template could make its
      unit. */
  lemma UnmountStrands(s: Setup)
    requires Readable(s) && Stranding(s)
    ensures DevicesServed(s.files, Booted(s)) && !DevicesServed(s.files, RemoveConfig(Booted(s), s.mountPoint))
  {
    BootedIsServed(s);
    UnitIsWanted(s);
    UnitIsReplaceable(s);
    assert s.device in Booted(s).devices && s.mountPoint in Booted(s).configDirs;
    UnmountServesIff(s.files, Booted(s), s.mountPoint);
  }

  const TEMPLATE_FILE := Entry("d", "p@" + INI)

  const UNIT_FILE := Entry("m/cfg/services", "p@i" + INI)

  const DISK: Disk := map[TEMPLATE_FILE := map["exec" := "x"], UNIT_FILE := map["exec" := "x"]]

  const RULE := Rule("c", Some("p@i"), None, None)

  lemma TemplateFileIsATemplate()
    ensures ParseTree(DISK, [TEMPLATE_FILE], None) == Parsed([], [TemplateRef("p", "d", None)])
    ensures Usable(DISK, TemplateRef("p", "d", None))
  {
    MakeUnitNameOf("p@");
    FirstAtIs("p", "");
    assert "p" + "@" + "" == "p@" && "p@"[..1] == "p";
    assert TemplateFileName("p") == "p@" + INI;
    assert ParseEntry(DISK, TEMPLATE_FILE, None) == Parsed([], [TemplateRef("p", "d", None)]);
    assert ParseFirst(DISK, [TEMPLATE_FILE], None, 0) == Parsed([], []);
  }

  lemma UnitFileIsAUnit() returns (unit: Unit)
    ensures unit.name == "p@i" && unit.source == Some("m") && !unit.fromTemplate
    ensures ParseTree(DISK, [UNIT_FILE], Some("m")) == Parsed([unit], [])
  {
    MakeUnitNameOf("p@i");
    assert "p@i" == BuildUnitName("p", "i");
    InstanceFileIffBuilt("p@i" + INI, "p", "i");
    assert "exec" in FileKeys(DISK, UNIT_FILE, Some("m"));
    unit := ParseUnitFile(DISK, UNIT_FILE, Some("m")).value;
    assert ParseEntry(DISK, UNIT_FILE, Some("m")) == Parsed([unit], []);
    assert ParseFirst(DISK, [UNIT_FILE], Some("m"), 0) == Parsed([], []);
  }

  lemma Paths()
    ensures ConfigPath("m", "services") == "m/cfg/services" && ConfigPath("m", "rules") != "r"
    ensures !SamePath("m/cfg/services", "d")
  {
    assert JoinPath("m", "cfg") == "m/cfg" && JoinPath("m/cfg", "services") == "m/cfg/services";
    assert TrimPath("m/cfg/services") == "m/cfg/services" && TrimPath("d") == "d";
    assert |ConfigPath("m", "rules")| > 1;
  }

  lemma RuleNamesUnit()
    ensures Targets([RULE], "c", "n", false) == ["p@i"] && LoadedRules([RULE], None) == [RULE]
  {
    assert !Expansion.Contains("p@i", "%name");
    Expansion.ReplaceFree("p@i", "%name", "n");
    assert Targets([RULE][..0], "c", "n", false) == [] && LoadedRules([RULE][..0], None) == [];
  }

  lemma SetupExists() returns (s: Setup)
    ensures Readable(s) && Stranding(s)
  {
    var unit := UnitFileIsAUnit();
    TemplateFileIsATemplate();
    Paths();
    RuleNamesUnit();
    SplitIffBuilt("p@i", "p", "i");
    assert "p@i" == BuildUnitName("p", "i");
    var trees := map["d" := [TEMPLATE_FILE], "m/cfg/services" := [UNIT_FILE]];
    s := Setup(Files(DISK, trees, map["r" := [RULE]]), "d", "r", "m", TemplateRef("p", "d", None), unit, RULE,
               Device("c", "n", None));
  }

  /** With template "p@" in directory "d", unit "p@i" on mount point "m", and in directory "r" a rule that names
      "p@i" for a device: after a scan, a rule load, a mount and a report the device is served; after the unmount
      it is not. */
  lemma UnmountCanStrandADevice() returns (files: Files, ops: seq<Op>, reg: Registry, m: string)
    ensures IsRun(files, EMPTY, ops) && NoUnmount(ops) && After(files, EMPTY, ops) == reg
    ensures DevicesServed(files, reg) && !DevicesServed(files, RemoveConfig(reg, m))
  {
    var s := SetupExists();
    ops := BootReaches(s);
    UnmountStrands(s);
    files, reg, m := s.files, Booted(s), s.mountPoint;
  }
}
