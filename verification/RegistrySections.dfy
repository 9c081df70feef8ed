/** What every lock section keeps, in every interleaving (app/libsystemd/src/serviceapi.c:2756-2820, 3469-3489,
    3798-3815, 3904-3906, 4647-4773, 4882-5024).

    A run is any sequence of lock sections, of any number of threads. The file system may change between two of them. */
module RegistrySections {
  import opened Wrappers
  import opened Services
  import opened UnitFiles
  import opened Registry
  import opened RegistryRuns
  import StartOrder

  datatype Section =
    | SwapUnits(path: string, sorted: seq<Unit>)
    | SwapRules(dir: string)
    | LookUpAndMake(request: Request, mayRefresh: bool)
    | LoadConfig(mountPoint: string)
    | UnloadConfig(mountPoint: string)
    | RememberDevice(device: Device)
    | ForgetDevice(className: string, name: string)

  datatype Step = Step(files: Files, section: Section)

  ghost predicate DistinctNames(units: seq<Unit>) {
    forall i, j :: 0 <= i < j < |units| ==> units[i].name != units[j].name
  }

  ghost predicate Enabled(reg: Registry, s: Step) {
    match s.section
    case SwapUnits(path, sorted) =>
      path in s.files.trees && IsSortOf(sorted, NewGeneration(s.files, reg, path).units)
    case SwapRules(dir) => dir in s.files.rules
    case _ => true
  }

  /** A scanned tree has distinct names of its own. */
  ghost predicate CleanTree(s: Step) {
    s.section.SwapUnits? && s.section.path in s.files.trees ==>
      DistinctNames(ParseTree(s.files.disk, s.files.trees[s.section.path], None).units)
  }

  ghost function Apply(reg: Registry, s: Step): Registry
    requires Enabled(reg, s)
  {
    match s.section
    case SwapUnits(path, sorted) => InstallScan(s.files, reg, path, sorted)
    case SwapRules(dir) => InstallRules(s.files, reg, dir)
    case LookUpAndMake(request, mayRefresh) => Start(s.files, reg, request, mayRefresh)
    case LoadConfig(mountPoint) => InstallConfig(s.files, reg, mountPoint)
    case UnloadConfig(mountPoint) => RemoveConfig(reg, mountPoint)
    case RememberDevice(device) => Remember(reg, device)
    case ForgetDevice(className, name) => Forget(reg, className, name)
  }

  ghost function Perform(reg: Registry, s: Step): Option<Registry> {
    if Enabled(reg, s) then Some(Apply(reg, s)) else None
  }

  /** acts lead from one state to another, each where it is possible. */
  ghost predicate Chain<S, A>(perform: (S, A) -> Option<S>, from: S, acts: seq<A>, to: S)
    decreases |acts|
  {
    if acts == [] then to == from
    else
      var next := perform(from, acts[0]);
      next.Some? && Chain(perform, next.value, acts[1..], to)
  }

  lemma {:induction false} Continue<S, A>(perform: (S, A) -> Option<S>, from: S, a: seq<A>, mid: S, b: seq<A>, to: S)
    requires Chain(perform, from, a, mid) && Chain(perform, mid, b, to)
    ensures Chain(perform, from, a + b, to)
    decreases |a|
  {
    if a == [] {
      assert a + b == b;
    } else {
      assert (a + b)[0] == a[0] && (a + b)[1..] == a[1..] + b;
      Continue(perform, perform(from, a[0]).value, a[1..], mid, b, to);
    }
  }

  ghost predicate IsInterleaving(reg: Registry, steps: seq<Step>, reached: Registry) {
    Chain(Perform, reg, steps, reached)
  }

  // ---------------------------------------------------------------------------------------------------------------
  // Nothing outlives its mount point
  // ---------------------------------------------------------------------------------------------------------------

  predicate Anchored(source: Option<string>, dirs: seq<string>) {
    source.Some? ==> source.value in dirs
  }

  /** Every unit, template and rule of a mount point belongs to one whose configuration is loaded. */
  ghost predicate OrphanFree(reg: Registry) {
    && (forall u :: u in reg.units ==> Anchored(u.source, reg.configDirs))
    && (forall t :: t in reg.templates ==> Anchored(t.source, reg.configDirs))
    && (forall rule :: rule in Rules(reg) ==> Anchored(rule.source, reg.configDirs))
  }

  /** Only files of the scanned directory may define a name more than once. */
  ghost predicate OnePerName(units: seq<Unit>) {
    forall i, j :: 0 <= i < j < |units| && units[i].name == units[j].name ==> FromScan(units[i]) && FromScan(units[j])
  }

  predicate FromScan(unit: Unit) {
    unit.source == None && !unit.fromTemplate
  }

  lemma {:induction false} AddUnitsKeeps(units: seq<Unit>, added: seq<Unit>, n: nat)
    requires n <= |added|
    ensures units <= AddUnits(units, added, n)
    ensures forall u :: u in AddUnits(units, added, n) ==> u in units || u in added
    ensures DistinctNames(AddUnits(units, added, n)) <==> DistinctNames(units)
    ensures OnePerName(units) ==> OnePerName(AddUnits(units, added, n))
  {
    if n > 0 {
      AddUnitsKeeps(units, added, n - 1);
      var before := AddUnits(units, added, n - 1);
      HasUnitIffNamed(before, added[n - 1].name);
      if !HasUnit(before, added[n - 1].name) {
        AppendKeepsDistinct(before, added[n - 1]);
      }
    }
  }

  lemma AppendKeepsDistinct(units: seq<Unit>, unit: Unit)
    requires unit.name !in Names(units)
    ensures DistinctNames(units + [unit]) <==> DistinctNames(units)
    ensures OnePerName(units) ==> OnePerName(units + [unit])
  {
    var all := units + [unit];
    assert forall i :: 0 <= i < |units| ==> all[i] == units[i] && Names(units)[i] == units[i].name;
    if DistinctNames(all) {
      forall i, j | 0 <= i < j < |units| ensures units[i].name != units[j].name {
        assert all[i].name != all[j].name;
      }
    }
  }

  lemma {:induction false} AddTemplatesKeeps(templates: seq<TemplateRef>, added: seq<TemplateRef>, n: nat)
    requires n <= |added|
    ensures templates <= AddTemplates(templates, added, n)
    ensures forall t :: t in AddTemplates(templates, added, n) ==> t in templates || t in added
    ensures OnePerPrefix(templates) ==> OnePerPrefix(AddTemplates(templates, added, n))
  {
    if n > 0 {
      AddTemplatesKeeps(templates, added, n - 1);
    }
  }

  /** Only the scanned directory may define a prefix more than once. */
  ghost predicate OnePerPrefix(templates: seq<TemplateRef>) {
    forall i, j :: 0 <= i < j < |templates| && templates[i].prefix == templates[j].prefix ==>
      templates[i].source == None && templates[j].source == None
  }

  ghost predicate Tidy(reg: Registry) {
    OrphanFree(reg) && OnePerName(reg.units) && OnePerPrefix(reg.templates)
  }

  lemma MergeUnitsKeeps(files: Files, reg: Registry, mountPoint: string)
    requires mountPoint in reg.configDirs
    ensures var after := MergeUnits(files, reg, mountPoint);
            && after == reg.(units := after.units, templates := after.templates)
            && reg.units <= after.units
            && (Tidy(reg) ==> Tidy(after))
            && (DistinctNames(after.units) <==> DistinctNames(reg.units))
  {
    var path := ConfigPath(mountPoint, "services");
    if path in files.trees {
      var parsed := ParseTree(files.disk, files.trees[path], Some(mountPoint));
      AddUnitsKeeps(reg.units, parsed.units, |parsed.units|);
      AddTemplatesKeeps(reg.templates, parsed.templates, |parsed.templates|);
    }
  }

  lemma {:induction false} MergeAllUnitsKeeps(files: Files, reg: Registry, n: nat)
    requires n <= |reg.configDirs|
    ensures var after := MergeAllUnits(files, reg, n);
            && after == reg.(units := after.units, templates := after.templates)
            && (Tidy(reg) ==> Tidy(after))
            && (DistinctNames(after.units) <==> DistinctNames(reg.units))
  {
    if n > 0 {
      MergeAllUnitsKeeps(files, reg, n - 1);
      MergeUnitsKeeps(files, MergeAllUnits(files, reg, n - 1), reg.configDirs[n - 1]);
    }
  }

  lemma MergeRulesKeeps(files: Files, reg: Registry, mountPoint: string)
    requires mountPoint in reg.configDirs
    ensures var after := MergeRules(files, reg, mountPoint);
            && after == reg.(rules := after.rules)
            && (Tidy(reg) ==> Tidy(after))
  {
  }

  lemma {:induction false} MergeAllRulesKeeps(files: Files, reg: Registry, n: nat)
    requires n <= |reg.configDirs|
    ensures var after := MergeAllRules(files, reg, n);
            && after == reg.(rules := after.rules)
            && (Tidy(reg) ==> Tidy(after))
  {
    if n > 0 {
      MergeAllRulesKeeps(files, reg, n - 1);
      MergeRulesKeeps(files, MergeAllRules(files, reg, n - 1), reg.configDirs[n - 1]);
    }
  }

  ghost predicate Rearranges(units: seq<Unit>, sorted: seq<Unit>, positions: seq<nat>) {
    && |positions| == |sorted|
    && (forall a, b :: 0 <= a < b < |positions| ==> positions[a] != positions[b])
    && (forall k :: 0 <= k < |positions| ==> positions[k] < |units| && sorted[k] == units[positions[k]])
    && (forall i: nat :: i < |units| ==> i in positions)
  }

  lemma SortRearranges(units: seq<Unit>, sorted: seq<Unit>) returns (positions: seq<nat>)
    requires IsSortOf(sorted, units)
    ensures Rearranges(units, sorted, positions)
  {
    positions :| Sorts(units, sorted, positions);
    ArrangedPositions(positions, |units|, StartOrder.Chains(UnitGraph(units)));
  }

  lemma ArrangedPositions(positions: seq<nat>, n: nat, orders: seq<int>)
    requires StartOrder.Arranges(positions, Indices(n), orders)
    ensures forall a, b :: 0 <= a < b < |positions| ==> positions[a] != positions[b]
    ensures forall i: nat :: i < n ==> i in positions
  {
  }

  lemma RearrangedMembers(units: seq<Unit>, sorted: seq<Unit>, positions: seq<nat>)
    requires Rearranges(units, sorted, positions)
    ensures forall u :: u in sorted <==> u in units
  {
    forall u | u in units ensures u in sorted {
      var i: nat :| i < |units| && units[i] == u;
      assert i in positions;
      var k :| 0 <= k < |positions| && positions[k] == i;
      assert sorted[k] == u;
    }
  }

  lemma RearrangedNames(units: seq<Unit>, sorted: seq<Unit>, positions: seq<nat>)
    requires Rearranges(units, sorted, positions)
    ensures DistinctNames(sorted) <==> DistinctNames(units)
  {
    if DistinctNames(units) {
      forall a, b | 0 <= a < b < |sorted| ensures sorted[a].name != sorted[b].name {
        assert positions[a] != positions[b];
      }
    }
    if DistinctNames(sorted) {
      forall i: nat, j: nat | i < j < |units| ensures units[i].name != units[j].name {
        assert i in positions && j in positions;
        var a :| 0 <= a < |positions| && positions[a] == i;
        var b :| 0 <= b < |positions| && positions[b] == j;
        assert sorted[a] == units[i] && sorted[b] == units[j];
      }
    }
  }

  lemma RearrangedOnePerName(units: seq<Unit>, sorted: seq<Unit>, positions: seq<nat>)
    requires Rearranges(units, sorted, positions) && OnePerName(units)
    ensures OnePerName(sorted)
  {
    forall a, b | 0 <= a < b < |sorted| && sorted[a].name == sorted[b].name
      ensures FromScan(sorted[a]) && FromScan(sorted[b])
    {
      var i, j := positions[a], positions[b];
      assert i < j || j < i;
    }
  }

  lemma ReorderKeepsTidy(reg: Registry, sorted: seq<Unit>)
    requires Tidy(reg) && (forall u :: u in sorted ==> u in reg.units) && OnePerName(sorted)
    ensures Tidy(reg.(units := sorted))
  {
  }

  lemma NewGenerationKeeps(files: Files, reg: Registry, path: string)
    requires path in files.trees
    ensures DistinctNames(NewGeneration(files, reg, path).units)
       <==> DistinctNames(ParseTree(files.disk, files.trees[path], None).units)
    ensures Tidy(reg) ==> Tidy(NewGeneration(files, reg, path))
  {
    var parsed := ParseTree(files.disk, files.trees[path], None);
    var base := reg.(units := parsed.units, templates := parsed.templates, unitsDir := Some(path));
    MergeAllUnitsKeeps(files, base, |reg.configDirs|);
    assert OnePerName(parsed.units);
    assert Tidy(reg) ==> Tidy(base);
  }

  /** After a scan names are distinct exactly when those of the scanned tree are: the units of mount points add
      none that is taken, and sorting keeps every unit. */
  lemma {:induction false} ScanDistinctIffTreeIs(files: Files, reg: Registry, path: string, sorted: seq<Unit>)
    requires path in files.trees && IsSortOf(sorted, NewGeneration(files, reg, path).units)
    ensures DistinctNames(InstallScan(files, reg, path, sorted).units)
       <==> DistinctNames(ParseTree(files.disk, files.trees[path], None).units)
    ensures Tidy(reg) ==> Tidy(InstallScan(files, reg, path, sorted))
  {
    var generation := NewGeneration(files, reg, path);
    NewGenerationKeeps(files, reg, path);
    var positions := SortRearranges(generation.units, sorted);
    RearrangedNames(generation.units, sorted, positions);
    RearrangedMembers(generation.units, sorted, positions);
    if Tidy(reg) {
      RearrangedOnePerName(generation.units, sorted, positions);
      ReorderKeepsTidy(generation, sorted);
    }
  }

  lemma StartKeepsNames(files: Files, reg: Registry, r: Request, mayRefresh: bool)
    ensures DistinctNames(Start(files, reg, r, mayRefresh).units) <==> DistinctNames(reg.units)
  {
    StartRegisters(files, reg, r, mayRefresh);
    SameNames(reg.units, Start(files, reg, r, mayRefresh).units, r.name);
  }

  lemma StartKeepsOrphanFree(files: Files, reg: Registry, r: Request, mayRefresh: bool)
    ensures OrphanFree(reg) ==> OrphanFree(Start(files, reg, r, mayRefresh))
  {
    if TemplateFor(reg, r.name).Some? {
      InstanceOf(files, reg, r.name, r.value);
    }
  }

  /** A new unit has a new name, and a unit that is expanded again was the only one of its name. */
  lemma StartKeepsOnePerName(files: Files, reg: Registry, r: Request, mayRefresh: bool)
    requires OnePerName(reg.units)
    ensures OnePerName(Start(files, reg, r, mayRefresh).units)
  {
    var units, after := reg.units, Start(files, reg, r, mayRefresh).units;
    var i := FindUnit(units, r.name);
    HasUnitIffNamed(units, r.name);
    StartRegisters(files, reg, r, mayRefresh);
    if i == |units| && after != units {
      AppendKeepsDistinct(units, after[|units|]);
      assert after == units + [after[|units|]];
    } else if after != units {
      assert after == units[i := after[i]] && !FromScan(units[i]);
      assert Names(after)[i] == Names(units)[i];
      forall a, b | 0 <= a < b < |after| && after[a].name == after[b].name
        ensures FromScan(after[a]) && FromScan(after[b])
      {
        assert units[a].name == units[b].name;
      }
    }
  }

  lemma StartKeepsTidy(files: Files, reg: Registry, r: Request, mayRefresh: bool)
    ensures Tidy(reg) ==> Tidy(Start(files, reg, r, mayRefresh))
  {
    StartKeepsOrphanFree(files, reg, r, mayRefresh);
    StartRegisters(files, reg, r, mayRefresh);
    if Tidy(reg) {
      StartKeepsOnePerName(files, reg, r, mayRefresh);
    }
  }

  lemma SameNames(before: seq<Unit>, after: seq<Unit>, name: string)
    requires Names(after) == Names(before) || (name !in Names(before) && Names(after) == Names(before) + [name])
    ensures DistinctNames(after) <==> DistinctNames(before)
  {
    assert forall i :: 0 <= i < |before| ==> Names(before)[i] == before[i].name;
    assert forall i :: 0 <= i < |after| ==> Names(after)[i] == after[i].name;
    assert forall i :: 0 <= i < |before| ==> before[i].name == after[i].name;
  }

  // ---------------------------------------------------------------------------------------------------------------
  // Unloading a mount point
  // ---------------------------------------------------------------------------------------------------------------

  /** Exactly the positions from i on that are from m, or are not. */
  ghost predicate Covers(positions: seq<nat>, sources: seq<Option<string>>, m: string, stays: bool, i: nat) {
    forall k: nat :: k in positions <==> i <= k < |sources| && (sources[k] != Some(m)) == stays
  }

  ghost predicate Ascending(positions: seq<nat>) {
    forall a, b :: 0 <= a < b < |positions| ==> positions[a] < positions[b]
  }

  ghost predicate Descending(positions: seq<nat>) {
    forall a, b :: 0 <= a < b < |positions| ==> positions[a] > positions[b]
  }

  ghost predicate ItemsAt<T>(part: seq<T>, items: seq<T>, positions: seq<nat>) {
    |part| == |positions| && forall k :: 0 <= k < |part| ==> positions[k] < |items| && part[k] == items[positions[k]]
  }

  /** What stays is the order-preserving filter of the list. */
  lemma {:induction false} KeptIsFilter<T>(items: seq<T>, sources: seq<Option<string>>, m: string, i: nat)
    returns (positions: seq<nat>)
    requires i <= |items| == |sources|
    ensures Covers(positions, sources, m, true, i) && Ascending(positions)
    ensures ItemsAt(Kept(items, sources, m, i), items, positions)
    decreases |items| - i
  {
    if i == |items| {
      positions := [];
    } else {
      positions := KeptIsFilter(items, sources, m, i + 1);
      var rest := Kept(items, sources, m, i + 1);
      if sources[i] != Some(m) {
        forall k | 0 <= k < |positions| ensures i < positions[k] {
          assert positions[k] in positions;
        }
        positions := [i] + positions;
        assert Kept(items, sources, m, i) == [items[i]] + rest;
      } else {
        assert Kept(items, sources, m, i) == rest;
      }
    }
  }

  /** What is stopped is everything else, in reverse order. */
  lemma {:induction false} DroppedIsReversedRest<T>(items: seq<T>, sources: seq<Option<string>>, m: string, i: nat)
    returns (positions: seq<nat>)
    requires i <= |items| == |sources|
    ensures Covers(positions, sources, m, false, i) && Descending(positions)
    ensures ItemsAt(Dropped(items, sources, m, i), items, positions)
    decreases |items| - i
  {
    if i == |items| {
      positions := [];
    } else {
      positions := DroppedIsReversedRest(items, sources, m, i + 1);
      var rest := Dropped(items, sources, m, i + 1);
      if sources[i] == Some(m) {
        forall k | 0 <= k < |positions| ensures i < positions[k] {
          assert positions[k] in positions;
        }
        positions := positions + [i];
        assert Dropped(items, sources, m, i) == rest + [items[i]];
        assert forall k: nat :: k in positions <==> k == i || k in positions[..|positions| - 1];
      } else {
        assert Dropped(items, sources, m, i) == rest;
      }
    }
  }

  lemma KeptMembers<T>(items: seq<T>, sources: seq<Option<string>>, m: string)
    requires |items| == |sources|
    ensures forall k :: 0 <= k < |items| && sources[k] != Some(m) ==> items[k] in Kept(items, sources, m, 0)
    ensures forall j :: 0 <= j < |Kept(items, sources, m, 0)| ==>
              exists k :: 0 <= k < |items| && sources[k] != Some(m) && items[k] == Kept(items, sources, m, 0)[j]
  {
    var kept := Kept(items, sources, m, 0);
    var positions := KeptIsFilter(items, sources, m, 0);
    forall k: nat | k < |items| && sources[k] != Some(m) ensures items[k] in kept {
      assert k in positions;
      var j :| 0 <= j < |positions| && positions[j] == k;
      assert kept[j] == items[k];
    }
    forall j | 0 <= j < |kept| ensures exists k :: 0 <= k < |items| && sources[k] != Some(m) && items[k] == kept[j] {
      assert positions[j] in positions;
    }
  }

  lemma KeptUnits(units: seq<Unit>, m: string)
    ensures var kept := Kept(units, UnitSources(units), m, 0);
            && (forall u :: u in kept <==> u in units && u.source != Some(m))
            && (DistinctNames(units) ==> DistinctNames(kept))
            && (OnePerName(units) ==> OnePerName(kept))
  {
    var kept := Kept(units, UnitSources(units), m, 0);
    KeptMembers(units, UnitSources(units), m);
    forall u | u in units && u.source != Some(m) ensures u in kept {
      var k :| 0 <= k < |units| && units[k] == u;
      assert UnitSources(units)[k] != Some(m);
    }
    var positions := KeptIsFilter(units, UnitSources(units), m, 0);
    if DistinctNames(units) {
      forall a, b | 0 <= a < b < |kept| ensures kept[a].name != kept[b].name {
        assert positions[a] < positions[b];
      }
    }
    if OnePerName(units) {
      forall a, b | 0 <= a < b < |kept| && kept[a].name == kept[b].name ensures FromScan(kept[a]) && FromScan(kept[b]) {
        assert positions[a] < positions[b];
      }
    }
  }

  lemma KeptTemplates(templates: seq<TemplateRef>, m: string)
    ensures var kept := Kept(templates, TemplateSources(templates), m, 0);
            && (forall t :: t in kept <==> t in templates && t.source != Some(m))
            && (OnePerPrefix(templates) ==> OnePerPrefix(kept))
  {
    var kept := Kept(templates, TemplateSources(templates), m, 0);
    KeptMembers(templates, TemplateSources(templates), m);
    forall t | t in templates && t.source != Some(m) ensures t in kept {
      var k :| 0 <= k < |templates| && templates[k] == t;
      assert TemplateSources(templates)[k] != Some(m);
    }
    var positions := KeptIsFilter(templates, TemplateSources(templates), m, 0);
    if OnePerPrefix(templates) {
      forall a, b | 0 <= a < b < |kept| && kept[a].prefix == kept[b].prefix
        ensures kept[a].source == None && kept[b].source == None
      {
        assert positions[a] < positions[b];
      }
    }
  }

  lemma KeptRules(rules: seq<Rule>, m: string)
    ensures forall rule :: rule in Kept(rules, RuleSources(rules), m, 0) <==> rule in rules && rule.source != Some(m)
  {
    KeptMembers(rules, RuleSources(rules), m);
    forall rule | rule in rules && rule.source != Some(m) ensures rule in Kept(rules, RuleSources(rules), m, 0) {
      var k :| 0 <= k < |rules| && rules[k] == rule;
      assert RuleSources(rules)[k] != Some(m);
    }
  }

  lemma {:induction false} OthersStay(dirs: seq<string>, m: string)
    ensures forall d :: d in dirs && d != m ==> d in WithoutFirst(dirs, m)
  {
    if dirs != [] && dirs[0] != m {
      OthersStay(dirs[1..], m);
      assert dirs == [dirs[0]] + dirs[1..];
    }
  }

  lemma RulesAfterRemoval(reg: Registry, m: string)
    requires m in reg.configDirs
    ensures forall rule :: rule in Rules(RemoveConfig(reg, m)) <==> rule in Rules(reg) && rule.source != Some(m)
  {
    if reg.rules.Some? {
      KeptRules(reg.rules.value, m);
    }
  }

  lemma RemoveConfigKeeps(reg: Registry, m: string)
    ensures Tidy(reg) ==> Tidy(RemoveConfig(reg, m))
    ensures DistinctNames(reg.units) ==> DistinctNames(RemoveConfig(reg, m).units)
  {
    if m in reg.configDirs {
      KeptUnits(reg.units, m);
      KeptTemplates(reg.templates, m);
      RulesAfterRemoval(reg, m);
      OthersStay(reg.configDirs, m);
    }
  }

  lemma InstallConfigKeeps(files: Files, reg: Registry, mountPoint: string)
    ensures Tidy(reg) ==> Tidy(InstallConfig(files, reg, mountPoint))
    ensures DistinctNames(InstallConfig(files, reg, mountPoint).units) <==> DistinctNames(reg.units)
    ensures reg.units <= InstallConfig(files, reg, mountPoint).units
  {
    var listed := reg.(configDirs := reg.configDirs + [mountPoint]);
    MergeUnitsKeeps(files, listed, mountPoint);
    MergeRulesKeeps(files, MergeUnits(files, listed, mountPoint), mountPoint);
    assert Tidy(reg) ==> Tidy(listed);
  }

  // ---------------------------------------------------------------------------------------------------------------
  // All interleavings
  // ---------------------------------------------------------------------------------------------------------------

  lemma {:induction false} ApplyKeeps(reg: Registry, s: Step)
    requires Enabled(reg, s)
    ensures Tidy(reg) ==> Tidy(Apply(reg, s))
    ensures DistinctNames(reg.units) && CleanTree(s) ==> DistinctNames(Apply(reg, s).units)
  {
    match s.section
    case SwapUnits(path, sorted) => ScanDistinctIffTreeIs(s.files, reg, path, sorted);
    case SwapRules(dir) =>
      var base := reg.(rules := Some(LoadedRules(s.files.rules[dir], None)));
      assert Tidy(reg) ==> Tidy(base);
      MergeAllRulesKeeps(s.files, base, |reg.configDirs|);
    case LookUpAndMake(request, mayRefresh) =>
      StartKeepsTidy(s.files, reg, request, mayRefresh);
      StartKeepsNames(s.files, reg, request, mayRefresh);
    case LoadConfig(mountPoint) => InstallConfigKeeps(s.files, reg, mountPoint);
    case UnloadConfig(mountPoint) => RemoveConfigKeeps(reg, mountPoint);
    case _ =>
  }

  /** No interleaving leaves anything of a mount point behind that is not loaded, or makes a second template of one
      prefix or a second unit of one name, save for what a scanned tree itself defines twice; and names stay
      distinct as long as every scanned tree has distinct names. */
  lemma {:induction false} InterleavingsStayTidy(reg: Registry, steps: seq<Step>, reached: Registry)
    requires IsInterleaving(reg, steps, reached) && Tidy(reg)
    ensures Tidy(reached)
    ensures DistinctNames(reg.units) && (forall s :: s in steps ==> CleanTree(s)) ==> DistinctNames(reached.units)
    decreases |steps|
  {
    if steps != [] {
      assert Perform(reg, steps[0]).Some?;
      ApplyKeeps(reg, steps[0]);
      InterleavingsStayTidy(Apply(reg, steps[0]), steps[1..], reached);
    }
  }

  // ---------------------------------------------------------------------------------------------------------------
  // Whole operations are sequences of lock sections
  // ---------------------------------------------------------------------------------------------------------------

  lemma OneStep(reg: Registry, s: Step)
    requires Enabled(reg, s)
    ensures IsInterleaving(reg, [s], Apply(reg, s))
  {
    assert [s][1..] == [];
    assert Perform(reg, s) == Some(Apply(reg, s));
  }

  ghost predicate NoSwap(steps: seq<Step>) {
    forall s :: s in steps ==> !s.section.SwapUnits?
  }

  lemma {:induction false} StartsAreSections(files: Files, reg: Registry, requests: seq<Request>, answers: seq<bool>,
                                             n: nat)
    returns (steps: seq<Step>)
    requires n <= |requests|
    ensures NoSwap(steps) && IsInterleaving(reg, steps, StartFirst(files, reg, requests, answers, n))
  {
    if n == 0 {
      steps := [];
    } else {
      var before := StartFirst(files, reg, requests, answers, n - 1);
      var init := StartsAreSections(files, reg, requests, answers, n - 1);
      var s := Step(files, LookUpAndMake(requests[n - 1], AnswerAt(answers, n - 1)));
      OneStep(before, s);
      Continue(Perform, reg, init, before, [s], Apply(before, s));
      steps := init + [s];
    }
  }

  /** A section followed by starts. */
  lemma SectionThenStarts(files: Files, reg: Registry, s: Step, requests: seq<Request>, answers: seq<bool>)
    returns (starts: seq<Step>)
    requires Enabled(reg, s)
    ensures NoSwap(starts) && IsInterleaving(reg, [s] + starts, StartAll(files, Apply(reg, s), requests, answers))
  {
    starts := StartsAreSections(files, Apply(reg, s), requests, answers, |requests|);
    OneStep(reg, s);
    Continue(Perform, reg, [s], Apply(reg, s), starts, StartAll(files, Apply(reg, s), requests, answers));
  }

  ghost predicate CleanOp(files: Files, op: Op) {
    op.ScanUnits? && op.path in files.trees ==> DistinctNames(ParseTree(files.disk, files.trees[op.path], None).units)
  }

  lemma SectionThenReplay(files: Files, reg: Registry, s: Step, answers: seq<bool>) returns (steps: seq<Step>)
    requires Enabled(reg, s)
    ensures IsInterleaving(reg, steps, Replay(files, Apply(reg, s), answers))
    ensures CleanTree(s) ==> forall t :: t in steps ==> CleanTree(t)
  {
    var installed := Apply(reg, s);
    var starts := SectionThenStarts(files, reg, s, ReplayRequests(installed, |installed.devices|), answers);
    steps := [s] + starts;
  }

  lemma DeviceOpIsInterleaving(files: Files, reg: Registry, op: Op) returns (steps: seq<Step>)
    requires op.AddDevice? || op.RemoveDevice?
    ensures IsInterleaving(reg, steps, Next(files, reg, op)) && NoSwap(steps)
  {
    if op.AddDevice? {
      var d := op.device;
      var s := Step(files, RememberDevice(d));
      var starts := SectionThenStarts(files, reg, s,
        RequestsFor(Targets(Rules(Remember(reg, d)), d.className, d.name, false), d.value), op.answers);
      steps := [s] + starts;
    } else {
      var i := FindDevice(reg.devices, op.className, op.name);
      var value := if i < |reg.devices| then reg.devices[i].value else None;
      var s := Step(files, ForgetDevice(op.className, op.name));
      var starts := SectionThenStarts(files, reg, s,
        RequestsFor(Targets(Rules(Forget(reg, op.className, op.name)), op.className, op.name, true), value),
        op.answers);
      steps := [s] + starts;
    }
  }

  /** Every operation is a sequence of lock sections, so whatever all interleavings keep it keeps too. */
  lemma OpIsInterleaving(files: Files, reg: Registry, op: Op) returns (steps: seq<Step>)
    requires Allowed(files, reg, op)
    ensures IsInterleaving(reg, steps, Next(files, reg, op))
    ensures CleanOp(files, op) ==> forall s :: s in steps ==> CleanTree(s)
  {
    steps := [];
    match op
    case ScanUnits(path, sorted, answers) =>
      if path in files.trees {
        steps := SectionThenReplay(files, reg, Step(files, SwapUnits(path, sorted)), answers);
      }
    case ReloadRules(dir, answers) =>
      if dir in files.rules {
        steps := SectionThenReplay(files, reg, Step(files, SwapRules(dir)), answers);
      }
    case Mount(mountPoint, answers) =>
      if !IsLoaded(reg, mountPoint) && HasConfig(files, mountPoint) {
        steps := SectionThenReplay(files, reg, Step(files, LoadConfig(mountPoint)), answers);
      }
    case StartUnit(request, mayRefresh) =>
      OneStep(reg, Step(files, LookUpAndMake(request, mayRefresh)));
      steps := [Step(files, LookUpAndMake(request, mayRefresh))];
    case Unmount(mountPoint) =>
      OneStep(reg, Step(files, UnloadConfig(mountPoint)));
      steps := [Step(files, UnloadConfig(mountPoint))];
    case _ =>
      steps := DeviceOpIsInterleaving(files, reg, op);
  }

  /** After any run of whole operations from an empty registry nothing is orphaned, two units of one name are both
      files of the scanned tree, and names are distinct if those of every scanned tree are. */
  lemma {:induction false} RunStaysTidy(files: Files, ops: seq<Op>)
    requires IsRun(files, EMPTY, ops)
    ensures Tidy(After(files, EMPTY, ops))
    ensures (forall op :: op in ops ==> CleanOp(files, op)) ==> DistinctNames(After(files, EMPTY, ops).units)
  {
    if ops != [] {
      var front, last := ops[..|ops| - 1], ops[|ops| - 1];
      RunStaysTidy(files, front);
      var before := After(files, EMPTY, front);
      var steps := OpIsInterleaving(files, before, last);
      InterleavingsStayTidy(before, steps, Next(files, before, last));
    }
  }
}
