/** The registry of units, templates, rules and remembered devices, with the configuration directories of mount
    points (app/libsystemd/src/serviceapi.c:557-632, 2756-2820, 3121-3267, 3469-3489, 3773-3995, 4032-4112,
    4577-4828, 4863-5024).

    The file system is fixed. An operation that takes the registry lock more than once is a sequence of the lock
    sections defined here. Whether an inactive library instance may be expanded again is decided by the state of
    its module, which is not part of this module: it is an input. */
module Registry {
  import opened Wrappers
  import opened Errno
  import opened Services
  import opened UnitNames
  import opened UnitFiles
  import Expansion
  import Relaxation
  import Search
  import StartOrder

  // ---------------------------------------------------------------------------------------------------------------
  // Data
  // ---------------------------------------------------------------------------------------------------------------

  datatype Rule = Rule(className: string, start: Option<string>, remove: Option<string>, source: Option<string>)

  datatype Device = Device(className: string, name: string, value: Option<string>)

  /** A directory that is absent from its map cannot be opened. trees has the entries of a units directory in the order
      of the walk, rules the sections of a rules directory; their source is filled in when they are loaded. */
  datatype Files = Files(disk: Disk, trees: map<string, seq<Entry>>, rules: map<string, seq<Rule>>)

  /** rules is None until rules are loaded; unitsDir is None until a directory is scanned. */
  datatype Registry = Registry(
    units: seq<Unit>,
    templates: seq<TemplateRef>,
    rules: Option<seq<Rule>>,
    devices: seq<Device>,
    configDirs: seq<string>,
    unitsDir: Option<string>)

  const EMPTY: Registry := Registry([], [], None, [], [], None)

  function Names(units: seq<Unit>): (names: seq<string>)
    ensures |names| == |units| && forall i :: 0 <= i < |units| ==> names[i] == units[i].name
  {
    seq(|units|, i requires 0 <= i < |units| => units[i].name)
  }

  function FindUnit(units: seq<Unit>, name: string): (i: nat)
    ensures i <= |units| && (i < |units| ==> units[i].name == name)
    ensures forall j :: 0 <= j < i ==> units[j].name != name
  {
    Search.First(Names(units), name)
  }

  predicate HasUnit(units: seq<Unit>, name: string) {
    FindUnit(units, name) < |units|
  }

  function Prefixes(templates: seq<TemplateRef>): (prefixes: seq<string>)
    ensures |prefixes| == |templates| && forall i :: 0 <= i < |templates| ==> prefixes[i] == templates[i].prefix
  {
    seq(|templates|, i requires 0 <= i < |templates| => templates[i].prefix)
  }

  function FindTemplate(templates: seq<TemplateRef>, prefix: string): (i: nat)
    ensures i <= |templates| && (i < |templates| ==> templates[i].prefix == prefix)
    ensures forall j :: 0 <= j < i ==> templates[j].prefix != prefix
  {
    Search.First(Prefixes(templates), prefix)
  }

  // ---------------------------------------------------------------------------------------------------------------
  // Starting a unit
  // ---------------------------------------------------------------------------------------------------------------

  /** The template an instance name would be made from. */
  function TemplateFor(reg: Registry, name: string): Option<TemplateRef> {
    match SplitInstanceName(name)
    case None => None
    case Some((prefix, _)) =>
      var i := FindTemplate(reg.templates, prefix);
      if i < |reg.templates| then Some(reg.templates[i]) else None
  }

  /** A units directory is known and the first template of the name's prefix is there and usable. */
  predicate Instantiable(files: Files, reg: Registry, name: string) {
    reg.unitsDir.Some? && TemplateFor(reg, name).Some? && Usable(files.disk, TemplateFor(reg, name).value)
  }

  function MakeInstance(files: Files, reg: Registry, name: string, value: Option<string>): Result<Unit>
    requires TemplateFor(reg, name).Some?
  {
    Instantiate(files.disk, TemplateFor(reg, name).value, SplitInstanceName(name).value.1, value)
  }

  datatype Request = Request(name: string, value: Option<string>)

  /** The locked part of libsystemd_start_service: a unit that is there may be expanded again
      (libsystemd_refresh_library_instance), one that is not may be instantiated. */
  function Start(files: Files, reg: Registry, r: Request, mayRefresh: bool): Registry {
    var i := FindUnit(reg.units, r.name);
    if i < |reg.units| then
      var unit := reg.units[i];
      if unit.fromTemplate && unit.unitType == Library && mayRefresh && r.value.Some?
          && TemplateFor(reg, r.name).Some? then
        match MakeInstance(files, reg, r.name, r.value)
        case Ok(renewed) => reg.(units := reg.units[i := renewed])
        case Err(_) => reg
      else reg
    else if reg.unitsDir == None || TemplateFor(reg, r.name) == None then reg
    else
      match MakeInstance(files, reg, r.name, r.value)
      case Ok(unit) => reg.(units := reg.units + [unit])
      case Err(_) => reg
  }

  /** NoUnit and NoTemplate are both reported as -ENOENT. */
  datatype StartError = NoUnit | NoTemplate | BadTemplate(error: Error)

  function StartErrorOf(files: Files, reg: Registry, r: Request, mayRefresh: bool): Option<StartError> {
    var i := FindUnit(reg.units, r.name);
    if i == |reg.units| then
      (if Instantiable(files, reg, r.name) then None else Some(NoUnit))
    else if reg.units[i].fromTemplate && reg.units[i].unitType == Library && mayRefresh && r.value.Some? then
      match TemplateFor(reg, r.name)
      case None => Some(NoTemplate)
      case Some(_) =>
        match MakeInstance(files, reg, r.name, r.value)
        case Ok(_) => None
        case Err(e) => Some(BadTemplate(e))
    else None
  }

  predicate AnswerAt(answers: seq<bool>, k: nat) {
    k < |answers| && answers[k]
  }

  /** The first n requests, one after the other, whatever a step is. */
  function Steps<S>(f: (S, Request, bool) -> S, start: S, requests: seq<Request>, answers: seq<bool>, n: nat): S
    requires n <= |requests|
  {
    if n == 0 then start
    else f(Steps(f, start, requests, answers, n - 1), requests[n - 1], AnswerAt(answers, n - 1))
  }

  function Starter(files: Files): (Registry, Request, bool) -> Registry {
    (reg, r, mayRefresh) => Start(files, reg, r, mayRefresh)
  }

  function StartFirst(files: Files, reg: Registry, requests: seq<Request>, answers: seq<bool>, n: nat): Registry
    requires n <= |requests|
  {
    Steps(Starter(files), reg, requests, answers, n)
  }

  lemma StartFirstIs(files: Files, reg: Registry, requests: seq<Request>, answers: seq<bool>, n: nat)
    requires 0 < n <= |requests|
    ensures StartFirst(files, reg, requests, answers, n)
         == Start(files, StartFirst(files, reg, requests, answers, n - 1), requests[n - 1], AnswerAt(answers, n - 1))
  {
  }

  function StartAll(files: Files, reg: Registry, requests: seq<Request>, answers: seq<bool>): Registry {
    StartFirst(files, reg, requests, answers, |requests|)
  }

  /** What the look-ups of the first n requests report, each when its turn comes. */
  function StartErrors(files: Files, reg: Registry, requests: seq<Request>, answers: seq<bool>, n: nat):
    (errors: seq<Option<StartError>>)
    requires n <= |requests|
    ensures |errors| == n
  {
    if n == 0 then []
    else
      var before := StartFirst(files, reg, requests, answers, n - 1);
      StartErrors(files, reg, requests, answers, n - 1)
      + [StartErrorOf(files, before, requests[n - 1], AnswerAt(answers, n - 1))]
  }

  // ---------------------------------------------------------------------------------------------------------------
  // Rules and devices
  // ---------------------------------------------------------------------------------------------------------------

  function Rules(reg: Registry): seq<Rule> {
    reg.rules.GetOr([])
  }

  /** The units the rules name for a device, in rule order. */
  function Targets(rules: seq<Rule>, className: string, deviceName: string, removal: bool): seq<string> {
    if rules == [] then []
    else
      var init := Targets(rules[..|rules| - 1], className, deviceName, removal);
      var rule := rules[|rules| - 1];
      var template := if removal then rule.remove else rule.start;
      if rule.className == className && template.Some? then
        init + [Expansion.ReplaceAll(template.value, "%name", deviceName)]
      else init
  }

  function RequestsFor(targets: seq<string>, value: Option<string>): (r: seq<Request>)
    ensures |r| == |targets| && forall i :: 0 <= i < |r| ==> r[i] == Request(targets[i], value)
  {
    seq(|targets|, i requires 0 <= i < |targets| => Request(targets[i], value))
  }

  /** What a replay asks for: the start targets of the first n remembered devices. */
  function ReplayRequests(reg: Registry, n: nat): seq<Request>
    requires n <= |reg.devices|
  {
    if n == 0 then []
    else
      var d := reg.devices[n - 1];
      ReplayRequests(reg, n - 1) + RequestsFor(Targets(Rules(reg), d.className, d.name, false), d.value)
  }

  /** libsystemd_replay_pending_devices. */
  function Replay(files: Files, reg: Registry, answers: seq<bool>): Registry {
    StartAll(files, reg, ReplayRequests(reg, |reg.devices|), answers)
  }

  predicate Matches(d: Device, className: string, name: string) {
    d.className == className && d.name == name
  }

  function DeviceKeys(devices: seq<Device>): (keys: seq<(string, string)>)
    ensures |keys| == |devices| && forall i :: 0 <= i < |devices| ==> keys[i] == (devices[i].className, devices[i].name)
  {
    seq(|devices|, i requires 0 <= i < |devices| => (devices[i].className, devices[i].name))
  }

  function FindDevice(devices: seq<Device>, className: string, name: string): (i: nat)
    ensures i <= |devices| && (i < |devices| ==> Matches(devices[i], className, name))
    ensures forall j :: 0 <= j < i ==> !Matches(devices[j], className, name)
  {
    Search.First(DeviceKeys(devices), (className, name))
  }

  function Remember(reg: Registry, d: Device): Registry {
    if FindDevice(reg.devices, d.className, d.name) < |reg.devices| then reg
    else reg.(devices := reg.devices + [d])
  }

  function Forget(reg: Registry, className: string, name: string): Registry {
    var i := FindDevice(reg.devices, className, name);
    if i < |reg.devices| then reg.(devices := reg.devices[..i] + reg.devices[i + 1..]) else reg
  }

  // ---------------------------------------------------------------------------------------------------------------
  // Configuration directories of mount points
  // ---------------------------------------------------------------------------------------------------------------

  function JoinPath(dir: string, file: string): string {
    dir + (if dir != "" && dir[|dir| - 1] != '/' then "/" else "") + file
  }

  function ConfigPath(mountPoint: string, sub: string): string {
    JoinPath(JoinPath(mountPoint, "cfg"), sub)
  }

  function TrimPath(path: string): string {
    if |path| > 1 && path[|path| - 1] == '/' then TrimPath(path[..|path| - 1]) else path
  }

  predicate SamePath(a: string, b: string) {
    TrimPath(a) == TrimPath(b)
  }

  /** The first n new units, each ignored if its name is taken. */
  function AddUnits(units: seq<Unit>, added: seq<Unit>, n: nat): seq<Unit>
    requires n <= |added|
  {
    if n == 0 then units
    else
      var before := AddUnits(units, added, n - 1);
      if HasUnit(before, added[n - 1].name) then before else before + [added[n - 1]]
  }

  function AddTemplates(templates: seq<TemplateRef>, added: seq<TemplateRef>, n: nat): seq<TemplateRef>
    requires n <= |added|
  {
    if n == 0 then templates
    else
      var before := AddTemplates(templates, added, n - 1);
      if FindTemplate(before, added[n - 1].prefix) < |before| then before else before + [added[n - 1]]
  }

  /** libsystemd_merge_config_dir_units. Nothing if there is no such directory. */
  function MergeUnits(files: Files, reg: Registry, mountPoint: string): Registry {
    var path := ConfigPath(mountPoint, "services");
    if path !in files.trees then reg
    else
      var parsed := ParseTree(files.disk, files.trees[path], Some(mountPoint));
      reg.(units := AddUnits(reg.units, parsed.units, |parsed.units|),
           templates := AddTemplates(reg.templates, parsed.templates, |parsed.templates|))
  }

  /** The rules of a directory that have a class and something to start. */
  function LoadedRules(rules: seq<Rule>, source: Option<string>): (r: seq<Rule>)
    ensures forall rule :: rule in r ==> rule.source == source
  {
    if rules == [] then []
    else
      var init := LoadedRules(rules[..|rules| - 1], source);
      var last := rules[|rules| - 1];
      if last.className != "" && (last.start.Some? || last.remove.Some?) then init + [last.(source := source)] else init
  }

  /** libsystemd_merge_config_dir_rules. */
  function MergeRules(files: Files, reg: Registry, mountPoint: string): Registry {
    var path := ConfigPath(mountPoint, "rules");
    if path !in files.rules then reg
    else reg.(rules := Some(Rules(reg) + LoadedRules(files.rules[path], Some(mountPoint))))
  }

  function MergeAllUnits(files: Files, reg: Registry, n: nat): (r: Registry)
    requires n <= |reg.configDirs|
    ensures r.configDirs == reg.configDirs
  {
    if n == 0 then reg else MergeUnits(files, MergeAllUnits(files, reg, n - 1), reg.configDirs[n - 1])
  }

  function MergeAllRules(files: Files, reg: Registry, n: nat): (r: Registry)
    requires n <= |reg.configDirs|
    ensures r.configDirs == reg.configDirs
  {
    if n == 0 then reg else MergeRules(files, MergeAllRules(files, reg, n - 1), reg.configDirs[n - 1])
  }

  // ---------------------------------------------------------------------------------------------------------------
  // Lock sections of the reloads
  // ---------------------------------------------------------------------------------------------------------------

  /** The new generation of a scan before it is sorted. */
  function NewGeneration(files: Files, reg: Registry, path: string): Registry
    requires path in files.trees
  {
    var parsed := ParseTree(files.disk, files.trees[path], None);
    MergeAllUnits(files, reg.(units := parsed.units, templates := parsed.templates, unitsDir := Some(path)),
                  |reg.configDirs|)
  }

  ghost function UnitGraph(units: seq<Unit>): (g: StartOrder.Graph)
    ensures |g| == |units| && forall i :: 0 <= i < |g| ==> g[i] == Relaxation.NodeOf(units[i])
  {
    seq(|units|, i requires 0 <= i < |units| => Relaxation.NodeOf(units[i]))
  }

  ghost function Indices(n: nat): (s: set<nat>)
    ensures forall i: nat :: i in s <==> i < n
  {
    if n == 0 then {} else Indices(n - 1) + {n - 1}
  }

  /** sorted has the same units in ascending start order. How equal orders are arranged is left open. */
  ghost predicate Sorts(units: seq<Unit>, sorted: seq<Unit>, positions: seq<nat>) {
    && StartOrder.Arranges(positions, Indices(|units|), StartOrder.Chains(UnitGraph(units)))
    && |positions| == |sorted|
    && forall k :: 0 <= k < |positions| ==> positions[k] < |units| && sorted[k] == units[positions[k]]
  }

  ghost predicate IsSortOf(sorted: seq<Unit>, units: seq<Unit>) {
    exists positions :: Sorts(units, sorted, positions)
  }

  /** The locked part of libsystemd_scan. */
  function InstallScan(files: Files, reg: Registry, path: string, sorted: seq<Unit>): Registry
    requires path in files.trees
  {
    NewGeneration(files, reg, path).(units := sorted)
  }

  /** The locked part of libsystemd_load_rules. */
  function InstallRules(files: Files, reg: Registry, dir: string): Registry
    requires dir in files.rules
  {
    MergeAllRules(files, reg.(rules := Some(LoadedRules(files.rules[dir], None))), |reg.configDirs|)
  }

  predicate IsLoaded(reg: Registry, mountPoint: string) {
    || mountPoint in reg.configDirs
    || (reg.unitsDir.Some? && SamePath(ConfigPath(mountPoint, "services"), reg.unitsDir.value))
  }

  predicate HasConfig(files: Files, mountPoint: string) {
    ConfigPath(mountPoint, "services") in files.trees || ConfigPath(mountPoint, "rules") in files.rules
  }

  function LoadResult(files: Files, reg: Registry, mountPoint: string): int {
    if IsLoaded(reg, mountPoint) then EALREADY else if !HasConfig(files, mountPoint) then ENOENT else 0
  }

  /** The locked part of libsystemd_add_config_dir. */
  function InstallConfig(files: Files, reg: Registry, mountPoint: string): Registry {
    if IsLoaded(reg, mountPoint) || !HasConfig(files, mountPoint) then reg
    else
      MergeRules(files, MergeUnits(files, reg.(configDirs := reg.configDirs + [mountPoint]), mountPoint), mountPoint)
  }

  function WithoutFirst(dirs: seq<string>, dir: string): seq<string> {
    if dirs == [] then [] else if dirs[0] == dir then dirs[1..] else [dirs[0]] + WithoutFirst(dirs[1..], dir)
  }

  /** What stays of a list from position i on when everything from mount point m goes: sources[k] is where items[k] is
      from. */
  function Kept<T>(items: seq<T>, sources: seq<Option<string>>, m: string, i: nat): seq<T>
    requires i <= |items| == |sources|
    decreases |items| - i
  {
    if i == |items| then []
    else (if sources[i] == Some(m) then [] else [items[i]]) + Kept(items, sources, m, i + 1)
  }

  /** What goes, last one first. */
  function Dropped<T>(items: seq<T>, sources: seq<Option<string>>, m: string, i: nat): seq<T>
    requires i <= |items| == |sources|
    decreases |items| - i
  {
    if i == |items| then []
    else Dropped(items, sources, m, i + 1) + (if sources[i] == Some(m) then [items[i]] else [])
  }

  function UnitSources(units: seq<Unit>): (s: seq<Option<string>>)
    ensures |s| == |units| && forall i :: 0 <= i < |s| ==> s[i] == units[i].source
  {
    seq(|units|, i requires 0 <= i < |units| => units[i].source)
  }

  function TemplateSources(templates: seq<TemplateRef>): (s: seq<Option<string>>)
    ensures |s| == |templates| && forall i :: 0 <= i < |s| ==> s[i] == templates[i].source
  {
    seq(|templates|, i requires 0 <= i < |templates| => templates[i].source)
  }

  function RuleSources(rules: seq<Rule>): (s: seq<Option<string>>)
    ensures |s| == |rules| && forall i :: 0 <= i < |s| ==> s[i] == rules[i].source
  {
    seq(|rules|, i requires 0 <= i < |rules| => rules[i].source)
  }

  /** The locked part of libsystemd_remove_config_dir. */
  function RemoveConfig(reg: Registry, mountPoint: string): Registry {
    if mountPoint !in reg.configDirs then reg
    else
      reg.(configDirs := WithoutFirst(reg.configDirs, mountPoint),
           units := Kept(reg.units, UnitSources(reg.units), mountPoint, 0),
           templates := Kept(reg.templates, TemplateSources(reg.templates), mountPoint, 0),
           rules := match reg.rules
                    case Some(rules) => Some(Kept(rules, RuleSources(rules), mountPoint, 0))
                    case None => None)
  }

  /** The units libsystemd_remove_config_dir stops, in that order. */
  function Stopped(reg: Registry, mountPoint: string): seq<Unit> {
    if mountPoint !in reg.configDirs then [] else Dropped(reg.units, UnitSources(reg.units), mountPoint, 0)
  }

  // ---------------------------------------------------------------------------------------------------------------
  // Whole operations
  // ---------------------------------------------------------------------------------------------------------------

  /** sorted is the new generation in start order, should there be one. */
  function Scan(files: Files, reg: Registry, path: string, sorted: seq<Unit>, answers: seq<bool>): Registry {
    if path !in files.trees then reg else Replay(files, InstallScan(files, reg, path, sorted), answers)
  }

  function LoadRules(files: Files, reg: Registry, dir: string, answers: seq<bool>): Registry {
    if dir !in files.rules then reg else Replay(files, InstallRules(files, reg, dir), answers)
  }

  function DeviceAdded(files: Files, reg: Registry, d: Device, answers: seq<bool>): Registry {
    var remembered := Remember(reg, d);
    StartAll(files, remembered, RequestsFor(Targets(Rules(remembered), d.className, d.name, false), d.value), answers)
  }

  /** Stopping the units the device had started leaves the registry as it is; then the removal units are started, with
      the value the device was remembered with. */
  function DeviceRemoved(files: Files, reg: Registry, className: string, name: string, answers: seq<bool>): Registry {
    var i := FindDevice(reg.devices, className, name);
    var value := if i < |reg.devices| then reg.devices[i].value else None;
    var forgotten := Forget(reg, className, name);
    StartAll(files, forgotten, RequestsFor(Targets(Rules(forgotten), className, name, true), value), answers)
  }

  function AddConfigDir(files: Files, reg: Registry, mountPoint: string, answers: seq<bool>): Registry {
    if LoadResult(files, reg, mountPoint) != 0 then reg
    else Replay(files, InstallConfig(files, reg, mountPoint), answers)
  }
}
