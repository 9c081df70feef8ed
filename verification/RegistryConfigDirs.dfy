/** The configuration directories of mount points: their paths, when a mount is refused, which templates and units it
    brings, and that an unmount takes them away again (app/libsystemd/src/serviceapi.c:2756-2796, 3807-3810, 4557-4697,
    4863-5024). */
module RegistryConfigDirs {
  import opened Wrappers
  import opened Errno
  import opened Services
  import opened UnitNames
  import opened UnitFiles
  import opened Registry
  import opened RegistryRuns
  import opened RegistrySections
  import opened RegistryMounts
  import Search

  // ---------------------------------------------------------------------------------------------------------------
  // Paths
  // ---------------------------------------------------------------------------------------------------------------

  predicate EndsInSlash(path: string) {
    path != "" && path[|path| - 1] == '/'
  }

  /** The directory "cfg/services" or "cfg/rules" below a mount point, whether that is written with a slash at its end
      or not. */
  lemma ConfigPathIs(mountPoint: string, sub: string)
    requires !EndsInSlash(mountPoint)
    ensures mountPoint != "" ==> ConfigPath(mountPoint, sub) == mountPoint + "/cfg/" + sub
    ensures ConfigPath(mountPoint + "/", sub) == mountPoint + "/cfg/" + sub
  {
    assert mountPoint + "/" + "cfg" == mountPoint + "/cfg";
    assert mountPoint + "/cfg" + "/" + sub == mountPoint + "/cfg/" + sub;
    assert mountPoint + "/" + "" + "cfg" == mountPoint + "/cfg";
  }

  ghost predicate Slashes(s: string) {
    forall i :: 0 <= i < |s| ==> s[i] == '/'
  }

  /** A path without slashes at its end; the root is one. */
  predicate Trimmed(path: string) {
    path == "/" || (path != "" && !EndsInSlash(path))
  }

  lemma {:induction false} TrimmedIs(path: string, slashes: string)
    requires Trimmed(path) && Slashes(slashes)
    ensures TrimPath(path + slashes) == path
    decreases |slashes|
  {
    if slashes == "" {
      assert path + slashes == path;
    } else {
      assert (path + slashes)[..|path + slashes| - 1] == path + slashes[..|slashes| - 1];
      TrimmedIs(path, slashes[..|slashes| - 1]);
    }
  }

  /** Two paths name the same directory exactly when they agree but for slashes at their ends. */
  lemma SamePathIffSlashesApart(a: string, x: string, b: string, y: string)
    requires Trimmed(a) && Trimmed(b) && Slashes(x) && Slashes(y)
    ensures SamePath(a + x, b + y) <==> a == b
  {
    TrimmedIs(a, x);
    TrimmedIs(b, y);
  }

  // ---------------------------------------------------------------------------------------------------------------
  // Refused mounts
  // ---------------------------------------------------------------------------------------------------------------

  /** The same mount point, written with or without a slash at its end; the root is "/". */
  predicate Spelled(m: string, point: string) {
    !EndsInSlash(m) && point != "" && (point == m || point == m + "/")
  }

  /** The units directory of the mount point is the one that was scanned. */
  ghost predicate IsScanned(reg: Registry, m: string) {
    reg.unitsDir.Some? && exists slashes :: Slashes(slashes) && reg.unitsDir.value == m + "/cfg/services" + slashes
  }

  lemma ScannedIffSamePath(reg: Registry, m: string, point: string, scanned: string, slashes: string)
    requires Spelled(m, point) && Trimmed(scanned) && Slashes(slashes)
    requires reg.unitsDir == Some(scanned + slashes)
    ensures IsScanned(reg, m) <==> scanned == m + "/cfg/services"
    ensures IsScanned(reg, m) <==> SamePath(ConfigPath(point, "services"), reg.unitsDir.value)
  {
    ConfigPathIs(m, "services");
    var path := m + "/cfg/services";
    assert path[|path| - 1] == 's' && path + "" == path && path == m + "/cfg/" + "services";
    SamePathIffSlashesApart(path, "", scanned, slashes);
    if IsScanned(reg, m) {
      var more :| Slashes(more) && reg.unitsDir.value == path + more;
      TrimmedIs(path, more);
      TrimmedIs(scanned, slashes);
    }
  }

  /** A mount is refused if it is loaded, if its units directory is the one that was scanned, or if it has neither
      units nor rules; otherwise it is loaded. */
  lemma MountIsRefusedIff(files: Files, reg: Registry, m: string, point: string, scanned: string, slashes: string)
    requires Spelled(m, point) && Trimmed(scanned) && Slashes(slashes)
    requires reg.unitsDir.Some? ==> reg.unitsDir == Some(scanned + slashes)
    ensures LoadResult(files, reg, point)
         == if point in reg.configDirs || IsScanned(reg, m) then EALREADY
            else if m + "/cfg/services" !in files.trees && m + "/cfg/rules" !in files.rules then ENOENT
            else 0
  {
    ConfigPathIs(m, "services");
    ConfigPathIs(m, "rules");
    assert m + "/cfg/services" == m + "/cfg/" + "services" && m + "/cfg/rules" == m + "/cfg/" + "rules";
    if reg.unitsDir.Some? {
      ScannedIffSamePath(reg, m, point, scanned, slashes);
    }
  }

  /** A refused mount changes nothing, and one that is loaded is refused when it is mounted again. */
  lemma MountOnce(files: Files, reg: Registry, m: string, answers: seq<bool>)
    ensures LoadResult(files, reg, m) != 0 ==> AddConfigDir(files, reg, m, answers) == reg
    ensures LoadResult(files, reg, m) == 0 ==> LoadResult(files, AddConfigDir(files, reg, m, answers), m) == EALREADY
  {
    if LoadResult(files, reg, m) == 0 {
      InstallConfigRules(files, reg, m);
      ReplayKeepsSetting(files, InstallConfig(files, reg, m), answers);
      assert m in (reg.configDirs + [m]);
    }
  }

  // ---------------------------------------------------------------------------------------------------------------
  // Templates and units: the first one of a prefix, or of a name, stays
  // ---------------------------------------------------------------------------------------------------------------

  function FirstTemplate(templates: seq<TemplateRef>, prefix: string): Option<TemplateRef> {
    var i := FindTemplate(templates, prefix);
    if i < |templates| then Some(templates[i]) else None
  }

  function FirstUnit(units: seq<Unit>, name: string): Option<Unit> {
    var i := FindUnit(units, name);
    if i < |units| then Some(units[i]) else None
  }

  lemma FirstOfConcat(a: seq<TemplateRef>, b: seq<TemplateRef>, prefix: string)
    ensures FirstTemplate(a + b, prefix)
         == if FirstTemplate(a, prefix).Some? then FirstTemplate(a, prefix) else FirstTemplate(b, prefix)
  {
    Search.FirstOfConcat(Prefixes(a), Prefixes(b), prefix);
    assert Prefixes(a + b) == Prefixes(a) + Prefixes(b);
  }

  lemma FirstUnitOfConcat(a: seq<Unit>, b: seq<Unit>, name: string)
    ensures FirstUnit(a + b, name) == if FirstUnit(a, name).Some? then FirstUnit(a, name) else FirstUnit(b, name)
  {
    Search.FirstOfConcat(Names(a), Names(b), name);
    assert Names(a + b) == Names(a) + Names(b);
  }

  /** Appending to two lists in which the same is found. */
  lemma FoundAfterAppending(before: seq<TemplateRef>, a: seq<TemplateRef>, b: seq<TemplateRef>, more: seq<TemplateRef>,
                            prefix: string)
    requires FirstTemplate(before, prefix) == FirstTemplate(a + b, prefix)
    ensures FirstTemplate(before + more, prefix) == FirstTemplate(a + (b + more), prefix)
  {
    FirstOfConcat(before, more, prefix);
    FirstOfConcat(a + b, more, prefix);
    assert a + (b + more) == a + b + more;
  }

  lemma UnitFoundAfterAppending(before: seq<Unit>, a: seq<Unit>, b: seq<Unit>, more: seq<Unit>, name: string)
    requires FirstUnit(before, name) == FirstUnit(a + b, name)
    ensures FirstUnit(before + more, name) == FirstUnit(a + (b + more), name)
  {
    FirstUnitOfConcat(before, more, name);
    FirstUnitOfConcat(a + b, more, name);
    assert a + (b + more) == a + b + more;
  }

  /** What is found among merged templates is what would be found if all were appended; nothing is lost and nothing
      is taken over. */
  lemma {:induction false} AddTemplatesFinds(templates: seq<TemplateRef>, added: seq<TemplateRef>, n: nat,
                                             prefix: string)
    requires n <= |added|
    ensures FirstTemplate(AddTemplates(templates, added, n), prefix) == FirstTemplate(templates + added[..n], prefix)
  {
    if n == 0 {
      assert templates + added[..0] == templates;
    } else {
      var before, last := AddTemplates(templates, added, n - 1), added[n - 1];
      AddTemplatesFinds(templates, added, n - 1, prefix);
      FoundAfterAppending(before, templates, added[..n - 1], [last], prefix);
      FirstOfConcat(before, [last], prefix);
      assert added[..n] == added[..n - 1] + [last];
    }
  }

  lemma {:induction false} AddUnitsFinds(units: seq<Unit>, added: seq<Unit>, n: nat, name: string)
    requires n <= |added|
    ensures FirstUnit(AddUnits(units, added, n), name) == FirstUnit(units + added[..n], name)
  {
    if n == 0 {
      assert units + added[..0] == units;
    } else {
      var before, last := AddUnits(units, added, n - 1), added[n - 1];
      AddUnitsFinds(units, added, n - 1, name);
      UnitFoundAfterAppending(before, units, added[..n - 1], [last], name);
      FirstUnitOfConcat(before, [last], name);
      assert added[..n] == added[..n - 1] + [last];
    }
  }

  /** What the units directory of a mount point holds, if there is one. */
  function Brings(files: Files, mountPoint: string): Parsed {
    var path := ConfigPath(mountPoint, "services");
    if path in files.trees then ParseTree(files.disk, files.trees[path], Some(mountPoint)) else Parsed([], [])
  }

  lemma MergeUnitsFinds(files: Files, reg: Registry, m: string, prefix: string, name: string)
    ensures var after := MergeUnits(files, reg, m);
            && after == reg.(units := after.units, templates := after.templates)
            && FirstTemplate(after.templates, prefix)
               == FirstTemplate(reg.templates + Brings(files, m).templates, prefix)
            && FirstUnit(after.units, name) == FirstUnit(reg.units + Brings(files, m).units, name)
  {
    var added := Brings(files, m);
    AddTemplatesFinds(reg.templates, added.templates, |added.templates|, prefix);
    AddUnitsFinds(reg.units, added.units, |added.units|, name);
    assert added.templates[..|added.templates|] == added.templates && added.units[..|added.units|] == added.units;
    assert reg.templates + [] == reg.templates && reg.units + [] == reg.units;
  }

  /** After a mount the first template of a prefix is the one that was the first before, or else the mount's own first
      one; the same goes for units. */
  lemma MountAddsItsTemplates(files: Files, reg: Registry, m: string, prefix: string, name: string)
    requires LoadResult(files, reg, m) == 0
    ensures var after, brought := InstallConfig(files, reg, m), Brings(files, m);
            && FirstTemplate(after.templates, prefix) == FirstTemplate(reg.templates + brought.templates, prefix)
            && FirstUnit(after.units, name) == FirstUnit(reg.units + brought.units, name)
            && after.unitsDir == reg.unitsDir
  {
    MergeUnitsFinds(files, reg.(configDirs := reg.configDirs + [m]), m, prefix, name);
  }

  /** So a name can be instantiated after the mount exactly if the first template of its prefix, old ones first, is
      usable. */
  lemma InstantiableAfterMountIff(files: Files, reg: Registry, m: string, prefix: string, instance: string)
    requires LoadResult(files, reg, m) == 0 && prefix != "" && '@' !in prefix && instance != ""
    ensures Instantiable(files, InstallConfig(files, reg, m), prefix + "@" + instance)
       <==> && reg.unitsDir.Some?
            && var first := FirstTemplate(reg.templates + Brings(files, m).templates, prefix);
               first.Some? && Usable(files.disk, first.value)
  {
    SplitIffBuilt(prefix + "@" + instance, prefix, instance);
    MountAddsItsTemplates(files, reg, m, prefix, "");
  }

  /** A prefix is found after a mount if and only if it was found before or the mount's directory has such a template
      file. */
  lemma MountFindsPrefixIff(files: Files, reg: Registry, m: string, prefix: string)
    requires LoadResult(files, reg, m) == 0
    ensures var path := ConfigPath(m, "services");
            FirstTemplate(InstallConfig(files, reg, m).templates, prefix).Some?
            <==> || FirstTemplate(reg.templates, prefix).Some?
                 || ('@' !in prefix && path in files.trees
                     && exists dir :: Entry(dir, prefix + "@" + ".ini") in files.trees[path])
  {
    var path, brought := ConfigPath(m, "services"), Brings(files, m).templates;
    MountAddsItsTemplates(files, reg, m, prefix, "");
    FirstOfConcat(reg.templates, brought, prefix);
    if path in files.trees {
      var unit := Unit("", Simple, Never, false, "", [], [], [], None);
      forall t { TreeIsItsFiles(files.disk, files.trees[path], Some(m), unit, t); }
      var i := FindTemplate(brought, prefix);
      if i < |brought| {
        assert brought[i] in brought && Entry(brought[i].dir, prefix + "@" + ".ini") in files.trees[path];
      }
      forall dir | '@' !in prefix && Entry(dir, prefix + "@" + ".ini") in files.trees[path] ensures i < |brought| {
        assert TemplateRef(prefix, dir, Some(m)) in brought;
      }
    }
  }

  /** The templates and the units of several mount points, in the order of loading. */
  function BringAll(files: Files, dirs: seq<string>): Parsed {
    if dirs == [] then Parsed([], [])
    else
      var front, last := BringAll(files, dirs[..|dirs| - 1]), Brings(files, dirs[|dirs| - 1]);
      Parsed(front.units + last.units, front.templates + last.templates)
  }

  lemma BringAllMore(files: Files, dirs: seq<string>, n: nat)
    requires 0 < n <= |dirs|
    ensures var front, last := BringAll(files, dirs[..n - 1]), Brings(files, dirs[n - 1]);
            BringAll(files, dirs[..n]) == Parsed(front.units + last.units, front.templates + last.templates)
  {
    assert dirs[..n][..n - 1] == dirs[..n - 1];
  }

  lemma MergeStepFinds(files: Files, reg: Registry, before: Registry, brought: Parsed, m: string, prefix: string,
                       name: string)
    requires FirstTemplate(before.templates, prefix) == FirstTemplate(reg.templates + brought.templates, prefix)
    requires FirstUnit(before.units, name) == FirstUnit(reg.units + brought.units, name)
    ensures var after, own := MergeUnits(files, before, m), Brings(files, m);
            && FirstTemplate(after.templates, prefix)
               == FirstTemplate(reg.templates + (brought.templates + own.templates), prefix)
            && FirstUnit(after.units, name) == FirstUnit(reg.units + (brought.units + own.units), name)
  {
    MergeUnitsFinds(files, before, m, prefix, name);
    FoundAfterAppending(before.templates, reg.templates, brought.templates, Brings(files, m).templates, prefix);
    UnitFoundAfterAppending(before.units, reg.units, brought.units, Brings(files, m).units, name);
  }

  lemma {:induction false} MergeAllFinds(files: Files, reg: Registry, n: nat, prefix: string, name: string)
    requires n <= |reg.configDirs|
    ensures var after, brought := MergeAllUnits(files, reg, n), BringAll(files, reg.configDirs[..n]);
            && FirstTemplate(after.templates, prefix) == FirstTemplate(reg.templates + brought.templates, prefix)
            && FirstUnit(after.units, name) == FirstUnit(reg.units + brought.units, name)
  {
    if n == 0 {
      assert reg.templates + [] == reg.templates && reg.units + [] == reg.units;
    } else {
      MergeAllFinds(files, reg, n - 1, prefix, name);
      MergeStepFinds(files, reg, MergeAllUnits(files, reg, n - 1), BringAll(files, reg.configDirs[..n - 1]),
                     reg.configDirs[n - 1], prefix, name);
      BringAllMore(files, reg.configDirs, n);
    }
  }

  /** After a scan a template, and a unit, is found first in the scanned tree and then in the directories of the loaded
      mount points in the order of loading. Rules, devices and mount points stay as they are. */
  lemma ScanFindsInOrder(files: Files, reg: Registry, path: string, prefix: string, name: string)
    requires path in files.trees
    ensures var after, brought := NewGeneration(files, reg, path), BringAll(files, reg.configDirs);
            var tree := ParseTree(files.disk, files.trees[path], None);
            && after == reg.(units := after.units, templates := after.templates, unitsDir := Some(path))
            && FirstTemplate(after.templates, prefix) == FirstTemplate(tree.templates + brought.templates, prefix)
            && FirstUnit(after.units, name) == FirstUnit(tree.units + brought.units, name)
  {
    var tree := ParseTree(files.disk, files.trees[path], None);
    var base := reg.(units := tree.units, templates := tree.templates, unitsDir := Some(path));
    MergeAllUnitsKeeps(files, base, |reg.configDirs|);
    MergeAllFinds(files, base, |reg.configDirs|, prefix, name);
    assert reg.configDirs[..|reg.configDirs|] == reg.configDirs;
  }

  // ---------------------------------------------------------------------------------------------------------------
  // An unmount undoes a mount
  // ---------------------------------------------------------------------------------------------------------------

  lemma {:induction false} KeptAll<T>(items: seq<T>, sources: seq<Option<string>>, m: string, i: nat)
    requires i <= |items| == |sources| && forall k :: i <= k < |items| ==> sources[k] != Some(m)
    ensures Kept(items, sources, m, i) == items[i..]
    decreases |items| - i
  {
    if i < |items| {
      KeptAll(items, sources, m, i + 1);
    }
  }

  /** What was not from m stays, what was appended from m goes. */
  lemma KeptWithoutAppended<T>(before: seq<T>, sources: seq<Option<string>>, after: seq<T>, all: seq<Option<string>>,
                               m: string)
    requires |before| == |sources| && |after| == |all| && before <= after && sources <= all
    requires forall k :: 0 <= k < |before| ==> sources[k] != Some(m)
    requires forall k :: |before| <= k < |after| ==> all[k] == Some(m)
    ensures Kept(after, all, m, 0) == before
  {
    var rest, restSources := after[|before|..], all[|before|..];
    assert forall k :: 0 <= k < |rest| ==> restSources[k] == all[|before| + k];
    KeptAll(before, sources, m, 0);
    KeptUniform(rest, restSources, m, Some(m), 0);
    KeptConcat(before, sources, rest, restSources, m, 0);
    assert after == before + rest && all == sources + restSources;
  }

  lemma {:induction false} AppendedAreAdded(units: seq<Unit>, added: seq<Unit>, templates: seq<TemplateRef>,
                                            found: seq<TemplateRef>, n: nat, k: nat)
    requires n <= |added| && k <= |found|
    ensures units <= AddUnits(units, added, n) && templates <= AddTemplates(templates, found, k)
    ensures forall i :: |units| <= i < |AddUnits(units, added, n)| ==> AddUnits(units, added, n)[i] in added
    ensures forall i :: |templates| <= i < |AddTemplates(templates, found, k)| ==>
              AddTemplates(templates, found, k)[i] in found
    decreases n + k
  {
    if n > 0 {
      AppendedAreAdded(units, added, templates, found, n - 1, k);
    } else if k > 0 {
      AppendedAreAdded(units, added, templates, found, n, k - 1);
    }
  }

  ghost predicate NothingFrom(reg: Registry, m: string) {
    && m !in reg.configDirs
    && (forall u :: u in reg.units ==> u.source != Some(m))
    && (forall t :: t in reg.templates ==> t.source != Some(m))
    && (forall rule :: rule in Rules(reg) ==> rule.source != Some(m))
  }

  lemma MergeAppends(files: Files, reg: Registry, m: string)
    ensures var after := MergeUnits(files, reg, m);
            && reg.units <= after.units && reg.templates <= after.templates
            && (forall k :: |reg.units| <= k < |after.units| ==> after.units[k].source == Some(m))
            && (forall k :: |reg.templates| <= k < |after.templates| ==> after.templates[k].source == Some(m))
  {
    var added := Brings(files, m);
    AppendedAreAdded(reg.units, added.units, reg.templates, added.templates, |added.units|, |added.templates|);
  }

  lemma {:induction false} WithoutAppended(dirs: seq<string>, m: string)
    requires m !in dirs
    ensures WithoutFirst(dirs + [m], m) == dirs
  {
    if dirs == [] {
      assert [m][1..] == [];
    } else {
      assert (dirs + [m])[1..] == dirs[1..] + [m];
      WithoutAppended(dirs[1..], m);
    }
  }

  /** Unmounting takes away exactly what mounting has added: units, templates, rules and the mount point itself. In a
      registry without orphans nothing of a mount point that is not loaded is there before. */
  lemma UnmountUndoesMount(files: Files, reg: Registry, m: string)
    requires LoadResult(files, reg, m) == 0 && OrphanFree(reg)
    ensures var after := RemoveConfig(InstallConfig(files, reg, m), m);
            after == reg.(rules := after.rules) && Rules(after) == Rules(reg)
    ensures LoadResult(files, RemoveConfig(InstallConfig(files, reg, m), m), m) == 0
  {
    assert NothingFrom(reg, m);
    var mounted := InstallConfig(files, reg, m);
    InstallConfigRules(files, reg, m);
    MergeAppends(files, reg.(configDirs := reg.configDirs + [m]), m);
    KeptWithoutAppended(reg.units, UnitSources(reg.units), mounted.units, UnitSources(mounted.units), m);
    KeptWithoutAppended(reg.templates, TemplateSources(reg.templates), mounted.templates,
                        TemplateSources(mounted.templates), m);
    var rules := Rules(reg) + RulesOf(files, m);
    KeptWithoutAppended(Rules(reg), RuleSources(Rules(reg)), rules, RuleSources(rules), m);
    WithoutAppended(reg.configDirs, m);
  }

  lemma {:induction false} KeptAndDropped<T>(items: seq<T>, sources: seq<Option<string>>, m: string, i: nat)
    requires i <= |items| == |sources|
    ensures |items| - i == |Dropped(items, sources, m, i)| + |Kept(items, sources, m, i)|
    decreases |items| - i
  {
    if i < |items| {
      KeptAndDropped(items, sources, m, i + 1);
    }
  }

  lemma {:induction false} DroppedAreFrom(units: seq<Unit>, m: string, i: nat, unit: Unit)
    requires i <= |units|
    ensures unit in Dropped(units, UnitSources(units), m, i) <==> unit in units[i..] && unit.source == Some(m)
    decreases |units| - i
  {
    if i < |units| {
      DroppedAreFrom(units, m, i + 1, unit);
      assert units[i..] == [units[i]] + units[i + 1..];
    }
  }

  /** An unmount stops exactly the units it takes away. */
  lemma UnmountStopsWhatItTakes(reg: Registry, m: string, unit: Unit)
    requires m in reg.configDirs
    ensures unit in Stopped(reg, m) <==> unit in reg.units && unit.source == Some(m)
    ensures unit in RemoveConfig(reg, m).units <==> unit in reg.units && unit.source != Some(m)
    ensures |reg.units| == |Stopped(reg, m)| + |RemoveConfig(reg, m).units|
  {
    KeptAndDropped(reg.units, UnitSources(reg.units), m, 0);
    KeptUnits(reg.units, m);
    DroppedAreFrom(reg.units, m, 0, unit);
    assert reg.units[0..] == reg.units;
  }
}
