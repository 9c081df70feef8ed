/** In what order a scan and a mount start their units (app/libsystemd/src/serviceapi.c:707-712, 3807-3828,
    4784-4808). */
module RegistryStartOrder {
  import opened Wrappers
  import opened Services
  import opened Registry
  import opened RegistryRuns
  import opened RegistrySections
  import StartOrder

  predicate DependsOn(unit: Unit, name: string) {
    name in unit.required || name in unit.after
  }

  lemma {:induction false} FirstNodeIsUnit(units: seq<Unit>, name: string)
    ensures StartOrder.FindFirst(UnitGraph(units), name) == FindUnit(units, name)
  {
    assert StartOrder.NodeNames(UnitGraph(units)) == Names(units);
  }

  lemma DependencyIsEdge(units: seq<Unit>, i: nat, name: string)
    requires i < |units| && DependsOn(units[i], name) && HasUnit(units, name)
    ensures StartOrder.Edge(UnitGraph(units), i, FindUnit(units, name))
  {
    var names := units[i].required + units[i].after;
    assert name in names;
    var k :| 0 <= k < |names| && names[k] == name;
    assert UnitGraph(units)[i].Names()[k] == name;
    FirstNodeIsUnit(units, name);
  }

  /** The list a scan starts from front to back has every unit of the new generation once, and each that reaches no
      cycle after the first unit of any name it requires or follows. */
  lemma ScanStartsAfterDependencies(units: seq<Unit>, sorted: seq<Unit>, positions: seq<nat>, b: nat, name: string)
    requires Sorts(units, sorted, positions) && b < |sorted| && !StartOrder.ReachesCycle(UnitGraph(units), positions[b])
    requires DependsOn(sorted[b], name) && HasUnit(units, name)
    ensures FindUnit(sorted, name) < b
    ensures Rearranges(units, sorted, positions)
  {
    var g, zeros := UnitGraph(units), StartOrder.Zeros(|units|);
    ArrangedPositions(positions, |units|, StartOrder.Chains(g));
    DependencyIsEdge(units, positions[b], name);
    var d := FindUnit(units, name);
    assert d in positions;
    var a :| 0 <= a < |positions| && positions[a] == d;
    StartOrder.StartsAfterDependencies(g, zeros, Indices(|units|), positions, a, b);
    assert sorted[a].name == name;
  }

  /** A mount after a scan of distinct names: from the orders the sorted units carry, or lower ones, resolving the
      registry with the units appended since gives every unit that reaches no cycle what it would get from scratch. */
  lemma MountAfterScanResolvesAsFromScratch(units: seq<Unit>, sorted: seq<Unit>, positions: seq<nat>, carried: seq<int>,
                                            appended: seq<Unit>)
    requires Sorts(units, sorted, positions) && DistinctNames(units)
    requires |carried| == |sorted| && StartOrder.NonNegative(carried)
    requires forall k :: 0 <= k < |sorted| && !StartOrder.ReachesCycle(UnitGraph(sorted), k) ==>
               carried[k] <= StartOrder.Chains(UnitGraph(units))[positions[k]]
    ensures StartOrder.ResolvesAsFromScratch(UnitGraph(sorted + appended), carried + StartOrder.Zeros(|appended|))
  {
    var g, h, extra := UnitGraph(units), UnitGraph(sorted), UnitGraph(appended);
    ArrangedPositions(positions, |units|, StartOrder.Chains(g));
    assert UnitGraph(sorted + appended) == h + extra;
    assert StartOrder.Permutes(h, g, positions);
    StartOrder.MountAfterScanResolvesAsFromScratch(g, h, positions, carried, extra);
  }

  ghost function From(units: seq<Unit>, m: string, n: nat): (s: set<nat>)
    requires n <= |units|
    ensures forall i: nat :: i in s <==> i < n && units[i].source == Some(m)
  {
    if n == 0 then {}
    else From(units, m, n - 1) + (if units[n - 1].source == Some(m) then {n - 1} else {})
  }

  /** A mount resolves the whole registry from the orders it carries, which may be stale, and starts its own units
      in ascending order: each that reaches no cycle follows those of its dependencies that are from the same mount
      point. */
  lemma MountStartsAfterDependencies(units: seq<Unit>, orders: seq<int>, m: string, starts: seq<nat>, b: nat,
                                     name: string)
    requires |orders| == |units| && StartOrder.NonNegative(orders)
    requires StartOrder.Arranges(starts, From(units, m, |units|), StartOrder.Resolve(UnitGraph(units), orders))
    requires b < |starts| && starts[b] < |units| && !StartOrder.ReachesCycle(UnitGraph(units), starts[b])
    requires DependsOn(units[starts[b]], name)
    requires HasUnit(units, name) && units[FindUnit(units, name)].source == Some(m)
    ensures exists a :: 0 <= a < b && starts[a] == FindUnit(units, name)
  {
    DependencyIsEdge(units, starts[b], name);
    var d := FindUnit(units, name);
    assert d in From(units, m, |units|);
    assert d in starts;
    var a :| 0 <= a < |starts| && starts[a] == d;
    StartOrder.StartsAfterDependencies(UnitGraph(units), orders, From(units, m, |units|), starts, a, b);
  }

  // ---------------------------------------------------------------------------------------------------------------
  // Walking the list while others change it
  // ---------------------------------------------------------------------------------------------------------------

  ghost predicate NoneFrom(units: seq<Unit>, m: string, count: nat)
    requires count <= |units|
  {
    forall i :: 0 <= i < count ==> units[i].source != Some(m)
  }

  lemma {:induction false} KeptPrefix(units: seq<Unit>, m: string, count: nat, i: nat)
    requires i <= count <= |units| && NoneFrom(units, m, count)
    ensures Kept(units, UnitSources(units), m, i) == units[i..count] + Kept(units, UnitSources(units), m, count)
    decreases count - i
  {
    if i < count {
      KeptPrefix(units, m, count, i + 1);
      assert units[i..count] == [units[i]] + units[i + 1..count];
    }
  }

  ghost predicate UnmountKeepsFirst(reg: Registry, m: string, count: nat)
    requires count <= |reg.units|
  {
    var after := RemoveConfig(reg, m).units;
    count <= |after| && after[..count] == reg.units[..count]
  }

  /** An unmount leaves each of the first count units where it is exactly when none of them comes from the mount
      point. A scan that counted its units before must otherwise not go on by index. */
  lemma UnmountKeepsPlacesIff(reg: Registry, m: string, count: nat)
    requires m in reg.configDirs && count <= |reg.units|
    ensures UnmountKeepsFirst(reg, m, count) <==> NoneFrom(reg.units, m, count)
  {
    var after := RemoveConfig(reg, m).units;
    if NoneFrom(reg.units, m, count) {
      KeptPrefix(reg.units, m, count, 0);
      assert after[..count] == reg.units[..count];
    }
    if UnmountKeepsFirst(reg, m, count) {
      KeptUnits(reg.units, m);
      forall i | 0 <= i < count ensures reg.units[i].source != Some(m) {
        assert reg.units[i] == reg.units[..count][i] == after[..count][i] == after[i];
        assert after[i] in after;
      }
    }
  }

  /** A section that leaves the first count units where they are: no scan swaps the list, and no unmount takes one
      of them away. */
  ghost predicate KeepsPlaces(reg: Registry, s: Step, count: nat) {
    && !s.section.SwapUnits?
    && (s.section.UnloadConfig? && s.section.mountPoint in reg.configDirs ==>
          count <= |reg.units| && NoneFrom(reg.units, s.section.mountPoint, count))
  }

  ghost predicate FirstNamesStay(a: seq<Unit>, b: seq<Unit>, count: nat) {
    count <= |a| && count <= |b| && Names(a)[..count] == Names(b)[..count]
  }

  lemma PrefixNames(a: seq<Unit>, b: seq<Unit>, count: nat)
    requires count <= |a| && count <= |b| && a[..count] == b[..count]
    ensures FirstNamesStay(a, b, count)
  {
    forall i | 0 <= i < count ensures Names(a)[i] == Names(b)[i] {
      assert a[i] == a[..count][i] == b[..count][i] == b[i];
    }
  }

  lemma StepKeepsPlaces(reg: Registry, s: Step, count: nat)
    requires Enabled(reg, s) && count <= |reg.units| && KeepsPlaces(reg, s, count)
    ensures FirstNamesStay(reg.units, Apply(reg, s).units, count)
  {
    match s.section
    case LookUpAndMake(request, mayRefresh) => StartRegisters(s.files, reg, request, mayRefresh);
    case LoadConfig(mountPoint) =>
      InstallConfigKeeps(s.files, reg, mountPoint);
      PrefixNames(reg.units, InstallConfig(s.files, reg, mountPoint).units, count);
    case SwapRules(dir) =>
      MergeAllRulesKeeps(s.files, reg.(rules := Some(LoadedRules(s.files.rules[dir], None))), |reg.configDirs|);
    case UnloadConfig(mountPoint) =>
      if mountPoint in reg.configDirs {
        UnmountKeepsPlacesIff(reg, mountPoint, count);
        PrefixNames(reg.units, RemoveConfig(reg, mountPoint).units, count);
      }
    case _ =>
  }

  ghost predicate KeepPlaces(reg: Registry, steps: seq<Step>, count: nat)
    decreases |steps|
  {
    steps == []
    || (Enabled(reg, steps[0]) && KeepsPlaces(reg, steps[0], count)
        && KeepPlaces(Apply(reg, steps[0]), steps[1..], count))
  }

  /** While a scan walks its first count units by index, starts, mounts, rule loads and such unmounts of other
      calls leave every one of them in its place. */
  lemma {:induction false} UnitsKeepTheirPlaces(reg: Registry, steps: seq<Step>, reached: Registry, count: nat)
    requires IsInterleaving(reg, steps, reached) && count <= |reg.units| && KeepPlaces(reg, steps, count)
    ensures FirstNamesStay(reg.units, reached.units, count)
    decreases |steps|
  {
    if steps != [] {
      assert Perform(reg, steps[0]).Some?;
      StepKeepsPlaces(reg, steps[0], count);
      UnitsKeepTheirPlaces(Apply(reg, steps[0]), steps[1..], reached, count);
    }
  }
}
