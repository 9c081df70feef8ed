/** What a mount adds, what a reload keeps of it, and what an unmount takes away
    (app/libsystemd/src/serviceapi.c:3807-3809, 3908-3910, 4656-4773, 4863-5024). */
module RegistryMounts {
  import opened Wrappers
  import opened Services
  import opened UnitFiles
  import opened Registry
  import opened RegistryRuns
  import opened RegistrySections

  // ---------------------------------------------------------------------------------------------------------------
  // Units
  // ---------------------------------------------------------------------------------------------------------------

  /** The units directory of a mount point defines the name. */
  predicate Defines(files: Files, mountPoint: string, name: string) {
    var path := ConfigPath(mountPoint, "services");
    path in files.trees && name in Names(ParseTree(files.disk, files.trees[path], Some(mountPoint)).units)
  }

  ghost predicate AmongFirst(added: seq<Unit>, n: nat, name: string)
    requires n <= |added|
  {
    exists k :: 0 <= k < n && added[k].name == name
  }

  lemma {:induction false} AddUnitsNames(units: seq<Unit>, added: seq<Unit>, n: nat, name: string)
    requires n <= |added|
    ensures name in Names(AddUnits(units, added, n)) <==> name in Names(units) || AmongFirst(added, n, name)
  {
    if n > 0 {
      AddUnitsNames(units, added, n - 1, name);
      var before := AddUnits(units, added, n - 1);
      HasUnitIffNamed(before, added[n - 1].name);
      NamesMore(before, added[n - 1], name);
    }
  }

  lemma NamesMore(units: seq<Unit>, unit: Unit, name: string)
    ensures name in Names(units + [unit]) <==> name in Names(units) || name == unit.name
  {
    assert Names(units + [unit]) == Names(units) + [unit.name];
  }

  lemma MergeUnitsNames(files: Files, reg: Registry, mountPoint: string, name: string)
    ensures name in Names(MergeUnits(files, reg, mountPoint).units)
       <==> name in Names(reg.units) || Defines(files, mountPoint, name)
  {
    var path := ConfigPath(mountPoint, "services");
    if path in files.trees {
      var added := ParseTree(files.disk, files.trees[path], Some(mountPoint)).units;
      AddUnitsNames(reg.units, added, |added|, name);
      if name in Names(added) {
        var k :| 0 <= k < |added| && Names(added)[k] == name;
        assert added[k].name == name;
      }
      if AmongFirst(added, |added|, name) {
        var k :| 0 <= k < |added| && added[k].name == name;
        assert Names(added)[k] == name;
      }
    }
  }

  /** A mount registers exactly the names its directory adds, and of two units with one name the first one stays,
      where it is. */
  lemma MountAddsItsUnits(files: Files, reg: Registry, mountPoint: string, name: string)
    requires LoadResult(files, reg, mountPoint) == 0
    ensures var after := InstallConfig(files, reg, mountPoint);
            && reg.units <= after.units
            && (name in Names(after.units) <==> name in Names(reg.units) || Defines(files, mountPoint, name))
            && mountPoint in after.configDirs
  {
    var listed := reg.(configDirs := reg.configDirs + [mountPoint]);
    InstallConfigKeeps(files, reg, mountPoint);
    MergeUnitsNames(files, listed, mountPoint, name);
  }

  ghost predicate DefinedByFirst(files: Files, dirs: seq<string>, n: nat, name: string)
    requires n <= |dirs|
  {
    exists k :: 0 <= k < n && Defines(files, dirs[k], name)
  }

  lemma {:induction false} MergeAllNames(files: Files, reg: Registry, n: nat, name: string)
    requires n <= |reg.configDirs|
    ensures name in Names(MergeAllUnits(files, reg, n).units)
       <==> name in Names(reg.units) || DefinedByFirst(files, reg.configDirs, n, name)
  {
    if n > 0 {
      MergeAllNames(files, reg, n - 1, name);
      MergeUnitsNames(files, MergeAllUnits(files, reg, n - 1), reg.configDirs[n - 1], name);
    }
  }

  /** A scan reloads its own directory and keeps the units of every loaded mount point. */
  lemma ScanKeepsMountedUnits(files: Files, reg: Registry, path: string, name: string)
    requires path in files.trees
    ensures name in Names(NewGeneration(files, reg, path).units)
       <==> name in Names(ParseTree(files.disk, files.trees[path], None).units)
            || exists m :: m in reg.configDirs && Defines(files, m, name)
  {
    var parsed := ParseTree(files.disk, files.trees[path], None);
    MergeAllNames(files, reg.(units := parsed.units, templates := parsed.templates, unitsDir := Some(path)),
                  |reg.configDirs|, name);
    if exists m :: m in reg.configDirs && Defines(files, m, name) {
      var m :| m in reg.configDirs && Defines(files, m, name);
      var k :| 0 <= k < |reg.configDirs| && reg.configDirs[k] == m;
      assert DefinedByFirst(files, reg.configDirs, |reg.configDirs|, name);
    }
  }

  // ---------------------------------------------------------------------------------------------------------------
  // Rules
  // ---------------------------------------------------------------------------------------------------------------

  function RulesOf(files: Files, mountPoint: string): (r: seq<Rule>)
    ensures forall rule :: rule in r ==> rule.source == Some(mountPoint)
  {
    var path := ConfigPath(mountPoint, "rules");
    if path in files.rules then LoadedRules(files.rules[path], Some(mountPoint)) else []
  }

  function MountRules(files: Files, dirs: seq<string>): seq<Rule> {
    if dirs == [] then [] else RulesOf(files, dirs[0]) + MountRules(files, dirs[1..])
  }

  ghost predicate Unsourced(rules: seq<Rule>) {
    forall rule :: rule in rules ==> rule.source == None
  }

  ghost predicate Distinct(dirs: seq<string>) {
    forall i, j :: 0 <= i < j < |dirs| ==> dirs[i] != dirs[j]
  }

  /** The rules are those of the rules directory, followed by those of each loaded mount point in the order of
      loading. */
  ghost predicate RulesInStep(files: Files, reg: Registry, own: seq<Rule>) {
    && Unsourced(own)
    && Distinct(reg.configDirs)
    && Rules(reg) == own + MountRules(files, reg.configDirs)
  }

  lemma {:induction false} MountRulesSnoc(files: Files, dirs: seq<string>, m: string)
    ensures MountRules(files, dirs + [m]) == MountRules(files, dirs) + RulesOf(files, m)
  {
    if dirs == [] {
      assert [m][1..] == [];
      assert MountRules(files, [m]) == RulesOf(files, m) + [];
    } else {
      assert (dirs + [m])[1..] == dirs[1..] + [m];
      MountRulesSnoc(files, dirs[1..], m);
    }
  }

  lemma {:induction false} MergeAllRulesAre(files: Files, reg: Registry, n: nat)
    requires n <= |reg.configDirs|
    ensures Rules(MergeAllRules(files, reg, n)) == Rules(reg) + MountRules(files, reg.configDirs[..n])
  {
    if n > 0 {
      MergeAllRulesAre(files, reg, n - 1);
      assert reg.configDirs[..n] == reg.configDirs[..n - 1] + [reg.configDirs[n - 1]];
      MountRulesSnoc(files, reg.configDirs[..n - 1], reg.configDirs[n - 1]);
    }
  }

  lemma {:induction false} KeptShift<T>(all: seq<T>, sources: seq<Option<string>>, b: seq<T>, sb: seq<Option<string>>,
                                        m: string, n: nat, i: nat)
    requires i <= |b| == |sb| && |all| == |sources| == n + |b|
    requires forall k :: 0 <= k < |b| ==> all[n + k] == b[k] && sources[n + k] == sb[k]
    ensures Kept(all, sources, m, n + i) == Kept(b, sb, m, i)
    decreases |b| - i
  {
    if i < |b| {
      KeptShift(all, sources, b, sb, m, n, i + 1);
      assert all[n + i] == b[i] && sources[n + i] == sb[i];
    }
  }

  lemma {:induction false} KeptConcat<T>(a: seq<T>, sa: seq<Option<string>>, b: seq<T>, sb: seq<Option<string>>,
                                         m: string, i: nat)
    requires i <= |a| == |sa| && |b| == |sb|
    ensures Kept(a + b, sa + sb, m, i) == Kept(a, sa, m, i) + Kept(b, sb, m, 0)
    decreases |a| - i
  {
    if i < |a| {
      KeptConcat(a, sa, b, sb, m, i + 1);
    } else {
      KeptShift(a + b, sa + sb, b, sb, m, |a|, 0);
    }
  }

  lemma {:induction false} KeptUniform<T>(items: seq<T>, sources: seq<Option<string>>, m: string,
                                          source: Option<string>, i: nat)
    requires i <= |items| == |sources| && forall k :: 0 <= k < |items| ==> sources[k] == source
    ensures Kept(items, sources, m, i) == if source == Some(m) then [] else items[i..]
    decreases |items| - i
  {
    if i < |items| {
      KeptUniform(items, sources, m, source, i + 1);
    }
  }

  function RulesWithout(rules: seq<Rule>, m: string): seq<Rule> {
    Kept(rules, RuleSources(rules), m, 0)
  }

  lemma RulesWithoutConcat(a: seq<Rule>, b: seq<Rule>, m: string)
    ensures RulesWithout(a + b, m) == RulesWithout(a, m) + RulesWithout(b, m)
  {
    KeptConcat(a, RuleSources(a), b, RuleSources(b), m, 0);
    assert RuleSources(a + b) == RuleSources(a) + RuleSources(b);
  }

  lemma {:induction false} WithoutFirstDistinct(dirs: seq<string>, m: string)
    requires Distinct(dirs)
    ensures m !in dirs ==> WithoutFirst(dirs, m) == dirs
    ensures Distinct(WithoutFirst(dirs, m)) && forall d :: d in WithoutFirst(dirs, m) ==> d in dirs
  {
    if dirs != [] && dirs[0] != m {
      var rest := WithoutFirst(dirs[1..], m);
      WithoutFirstDistinct(dirs[1..], m);
      forall j | 0 <= j < |rest| ensures dirs[0] != rest[j] {
        assert rest[j] in dirs[1..];
      }
    }
  }

  lemma {:induction false} MountRulesWithout(files: Files, dirs: seq<string>, m: string)
    requires Distinct(dirs)
    ensures RulesWithout(MountRules(files, dirs), m) == MountRules(files, WithoutFirst(dirs, m))
  {
    if dirs != [] {
      var head, tail := dirs[0], dirs[1..];
      RulesWithoutConcat(RulesOf(files, head), MountRules(files, tail), m);
      KeptUniform(RulesOf(files, head), RuleSources(RulesOf(files, head)), m, Some(head), 0);
      MountRulesWithout(files, tail, m);
      assert RulesOf(files, head)[0..] == RulesOf(files, head);
      if head == m {
        WithoutFirstDistinct(tail, m);
        assert WithoutFirst(tail, m) == tail;
      } else {
        assert WithoutFirst(dirs, m)[1..] == WithoutFirst(tail, m);
      }
    }
  }

  // ---------------------------------------------------------------------------------------------------------------
  // Rules over whole runs
  // ---------------------------------------------------------------------------------------------------------------

  lemma {:induction false} MergeAllKeepsRules(files: Files, reg: Registry, n: nat)
    requires n <= |reg.configDirs|
    ensures MergeAllUnits(files, reg, n).rules == reg.rules
  {
    if n > 0 {
      MergeAllKeepsRules(files, reg, n - 1);
    }
  }

  lemma ReplayKeepsSetting(files: Files, reg: Registry, answers: seq<bool>)
    ensures Replay(files, reg, answers).rules == reg.rules && Replay(files, reg, answers).configDirs == reg.configDirs
  {
    ReplayRegisters(files, reg, answers, "");
  }

  lemma OtherOpsKeepRules(files: Files, reg: Registry, op: Op)
    requires !op.ReloadRules? && !op.Mount? && !op.Unmount?
    ensures Next(files, reg, op).rules == reg.rules && Next(files, reg, op).configDirs == reg.configDirs
  {
    match op
    case ScanUnits(path, sorted, answers) =>
      if path in files.trees {
        var parsed := ParseTree(files.disk, files.trees[path], None);
        MergeAllKeepsRules(files, reg.(units := parsed.units, templates := parsed.templates, unitsDir := Some(path)),
                           |reg.configDirs|);
        ReplayKeepsSetting(files, InstallScan(files, reg, path, sorted), answers);
      }
    case AddDevice(d, answers) => DeviceAddedRegisters(files, reg, d, answers, "");
    case RemoveDevice(className, name, answers) =>
      var i := FindDevice(reg.devices, className, name);
      var value := if i < |reg.devices| then reg.devices[i].value else None;
      var forgotten := Forget(reg, className, name);
      var requests := RequestsFor(Targets(Rules(forgotten), className, name, true), value);
      StartFirstRegisters(files, forgotten, requests, answers, |requests|, "");
    case StartUnit(request, mayRefresh) => StartRegisters(files, reg, request, mayRefresh);
    case _ =>
  }

  lemma ReloadStaysInStep(files: Files, reg: Registry, dir: string, answers: seq<bool>)
    requires Distinct(reg.configDirs) && dir in files.rules
    ensures RulesInStep(files, LoadRules(files, reg, dir, answers), LoadedRules(files.rules[dir], None))
  {
    var base := reg.(rules := Some(LoadedRules(files.rules[dir], None)));
    MergeAllRulesAre(files, base, |reg.configDirs|);
    MergeAllRulesKeeps(files, base, |reg.configDirs|);
    assert reg.configDirs[..|reg.configDirs|] == reg.configDirs;
    ReplayKeepsSetting(files, InstallRules(files, reg, dir), answers);
  }

  lemma InstallConfigRules(files: Files, reg: Registry, m: string)
    requires LoadResult(files, reg, m) == 0
    ensures var after := InstallConfig(files, reg, m);
            Rules(after) == Rules(reg) + RulesOf(files, m) && after.configDirs == reg.configDirs + [m]
  {
    MergeUnitsKeeps(files, reg.(configDirs := reg.configDirs + [m]), m);
    assert Rules(reg) + [] == Rules(reg);
  }

  lemma MountStaysInStep(files: Files, reg: Registry, own: seq<Rule>, m: string, answers: seq<bool>)
    requires RulesInStep(files, reg, own)
    ensures RulesInStep(files, AddConfigDir(files, reg, m, answers), own)
  {
    if LoadResult(files, reg, m) == 0 {
      InstallConfigRules(files, reg, m);
      MountRulesSnoc(files, reg.configDirs, m);
      ReplayKeepsSetting(files, InstallConfig(files, reg, m), answers);
      var rules := MountRules(files, reg.configDirs);
      assert own + rules + RulesOf(files, m) == own + (rules + RulesOf(files, m));
    }
  }

  lemma UnmountStaysInStep(files: Files, reg: Registry, own: seq<Rule>, m: string)
    requires RulesInStep(files, reg, own)
    ensures RulesInStep(files, RemoveConfig(reg, m), own)
  {
    if m in reg.configDirs {
      WithoutFirstDistinct(reg.configDirs, m);
      RulesWithoutConcat(own, MountRules(files, reg.configDirs), m);
      MountRulesWithout(files, reg.configDirs, m);
      KeptUniform(own, RuleSources(own), m, None, 0);
      assert own[0..] == own;
      assert reg.rules == None ==> RulesWithout([], m) == [];
    }
  }

  /** The rules that were loaded last from a rules directory. */
  function OwnRules(files: Files, ops: seq<Op>): seq<Rule> {
    if ops == [] then []
    else
      var last := ops[|ops| - 1];
      if last.ReloadRules? && last.dir in files.rules then LoadedRules(files.rules[last.dir], None)
      else OwnRules(files, ops[..|ops| - 1])
  }

  /** After any run the rules are exactly those of the rules directory loaded last and those of every loaded mount
      point, in the order of loading; and no mount point is loaded twice. */
  lemma {:induction false} RunKeepsRulesInStep(files: Files, ops: seq<Op>)
    ensures RulesInStep(files, After(files, EMPTY, ops), OwnRules(files, ops))
  {
    if ops != [] {
      var front, last := ops[..|ops| - 1], ops[|ops| - 1];
      var reg, own := After(files, EMPTY, front), OwnRules(files, front);
      RunKeepsRulesInStep(files, front);
      match last
      case ReloadRules(dir, answers) =>
        if dir in files.rules { ReloadStaysInStep(files, reg, dir, answers); }
      case Mount(m, answers) => MountStaysInStep(files, reg, own, m, answers);
      case Unmount(m) => UnmountStaysInStep(files, reg, own, m);
      case _ => OtherOpsKeepRules(files, reg, last);
    }
  }
}
