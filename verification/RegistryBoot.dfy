/** Confluence of calls that run at the same time (app/libsystemd/src/serviceapi.c:169-186, 3185-3267, 3798-3830,
    3895-3905, 3962-3995): scans of one directory, loads of one rules directory and device reports register the
    same units in every interleaving of their lock sections. */
module RegistryBoot {
  import opened Wrappers
  import opened Services
  import opened UnitFiles
  import opened Registry
  import opened RegistryRuns
  import Confluence = RegistryConfluence
  import Sections = RegistrySections
  import Threads = RegistryThreads

  type State = Threads.State

  type Step = Threads.Step

  /** A section of a scan of path, of a load of the rules in dir, or of a device report. */
  ghost predicate BootStep(files: Files, path: string, dir: string, st: State, s: Step) {
    match s
    case SwapUnits(p, sorted) =>
      p == path && path in files.trees && IsSortOf(sorted, NewGeneration(files, st.reg, path).units)
    case SwapRules(d) => d == dir
    case Report(_) => true
    case Copy(_) => true
    case ReadRules(_) => true
    case StartTarget(_, _) => true
    case _ => false
  }

  ghost predicate BootSteps(files: Files, path: string, dir: string, st: State, steps: seq<Step>)
    decreases |steps|
  {
    steps == []
    || (Threads.Enabled(files, st, steps[0]) && BootStep(files, path, dir, st, steps[0])
        && BootSteps(files, path, dir, Threads.Next(files, st, steps[0]), steps[1..]))
  }

  function ReportedBy(s: Step): seq<Device> {
    if s.Report? then [s.device] else []
  }

  function Reported(steps: seq<Step>): seq<Device>
    decreases |steps|
  {
    if steps == [] then [] else ReportedBy(steps[0]) + Reported(steps[1..])
  }

  predicate HasScan(steps: seq<Step>)
    decreases |steps|
  {
    steps != [] && (steps[0].SwapUnits? || HasScan(steps[1..]))
  }

  predicate HasLoad(steps: seq<Step>)
    decreases |steps|
  {
    steps != [] && (steps[0].SwapRules? || HasLoad(steps[1..]))
  }

  function OwnRules(files: Files, dir: string): seq<Rule>
    requires dir in files.rules
  {
    LoadedRules(files.rules[dir], None)
  }

  /** The name is the tree's, or a rule names it for a reported device and a template of the tree can make it. */
  ghost predicate Expected(files: Files, path: string, rules: seq<Rule>, reported: seq<Device>, name: string)
    requires path in files.trees
  {
    || name in Names(Confluence.Tree(files, path).units)
    || (Confluence.WantedBy(rules, reported, name) && Confluence.Makeable(files, path, name))
  }

  // ---------------------------------------------------------------------------------------------------------------
  // What every section keeps
  // ---------------------------------------------------------------------------------------------------------------

  /** What has happened so far: which devices were reported, whether a scan or a rule load has begun. */
  datatype Past = Past(reported: seq<Device>, scanned: bool, loaded: bool)

  ghost predicate SettingOf(files: Files, path: string, dir: string, reg: Registry, past: Past)
    requires path in files.trees && dir in files.rules
  {
    && reg.configDirs == []
    && reg.unitsDir == (if past.scanned then Some(path) else None)
    && reg.templates == (if past.scanned then Confluence.Tree(files, path).templates else [])
    && reg.rules == (if past.loaded then Some(OwnRules(files, dir)) else None)
  }

  ghost predicate KnowsReported(reg: Registry, past: Past) {
    && (forall d :: d in reg.devices ==> d in past.reported)
    && (forall d :: d in past.reported ==> Knows(reg, d.className, d.name))
  }

  /** A call sees to reported devices only, and starts only what a rule names for one. */
  ghost predicate Justified(files: Files, dir: string, t: Threads.Thread, past: Past)
    requires dir in files.rules
  {
    t.Serving? ==>
      && (forall d :: d in t.devices ==> d in past.reported)
      && (forall name :: name in t.targets ==> Confluence.WantedBy(OwnRules(files, dir), past.reported, name))
  }

  ghost predicate NamesWithin(files: Files, path: string, dir: string, reg: Registry, past: Past)
    requires path in files.trees && dir in files.rules
  {
    if past.scanned then
      && (forall name :: name in Names(Confluence.Tree(files, path).units) ==> name in Names(reg.units))
      && (forall name :: name in Names(reg.units) ==> Expected(files, path, OwnRules(files, dir), past.reported, name))
    else forall name :: name !in Names(reg.units)
  }

  ghost predicate Inv(files: Files, path: string, dir: string, st: State, past: Past)
    requires path in files.trees && dir in files.rules
  {
    && SettingOf(files, path, dir, st.reg, past)
    && KnowsReported(st.reg, past)
    && (forall t :: t in st.threads ==> Justified(files, dir, t, past))
    && NamesWithin(files, path, dir, st.reg, past)
  }

  lemma SortedNames(units: seq<Unit>, sorted: seq<Unit>)
    requires IsSortOf(sorted, units)
    ensures forall name :: name in Names(sorted) <==> name in Names(units)
  {
    var positions := Sections.SortRearranges(units, sorted);
    Sections.RearrangedMembers(units, sorted, positions);
    Confluence.NamesOfSame(units, sorted);
  }

  lemma ScanWithoutMounts(files: Files, path: string, reg: Registry, sorted: seq<Unit>)
    requires path in files.trees && reg.configDirs == []
    ensures NewGeneration(files, reg, path).units == Confluence.Tree(files, path).units
    ensures InstallScan(files, reg, path, sorted)
         == reg.(units := sorted, templates := Confluence.Tree(files, path).templates, unitsDir := Some(path))
  {
  }

  lemma SwappedUnitsWithin(files: Files, path: string, dir: string, reg: Registry, past: Past, sorted: seq<Unit>)
    requires path in files.trees && dir in files.rules
    requires SettingOf(files, path, dir, reg, past) && KnowsReported(reg, past)
    requires IsSortOf(sorted, Confluence.Tree(files, path).units)
    ensures var after := InstallScan(files, reg, path, sorted);
            && SettingOf(files, path, dir, after, past.(scanned := true))
            && KnowsReported(after, past.(scanned := true))
            && NamesWithin(files, path, dir, after, past.(scanned := true))
  {
    ScanWithoutMounts(files, path, reg, sorted);
    SortedNames(Confluence.Tree(files, path).units, sorted);
  }

  lemma NewCallIsJustified(files: Files, dir: string, threads: seq<Threads.Thread>, past: Past)
    requires dir in files.rules && forall t :: t in threads ==> Justified(files, dir, t, past)
    ensures forall t :: t in threads + [Threads.AboutToCopy] ==> Justified(files, dir, t, past.(scanned := true))
  {
  }

  lemma ScanKeepsInv(files: Files, path: string, dir: string, st: State, past: Past, sorted: seq<Unit>)
    requires path in files.trees && dir in files.rules && Inv(files, path, dir, st, past)
    requires IsSortOf(sorted, NewGeneration(files, st.reg, path).units)
    ensures Inv(files, path, dir, Threads.Next(files, st, Threads.SwapUnits(path, sorted)), past.(scanned := true))
  {
    ScanWithoutMounts(files, path, st.reg, sorted);
    SwappedUnitsWithin(files, path, dir, st.reg, past, sorted);
    NewCallIsJustified(files, dir, st.threads, past);
  }

  lemma LoadKeepsInv(files: Files, path: string, dir: string, st: State, past: Past)
    requires path in files.trees && dir in files.rules && Inv(files, path, dir, st, past)
    ensures Inv(files, path, dir, Threads.Next(files, st, Threads.SwapRules(dir)), past.(loaded := true))
  {
  }

  lemma WantedByMore(rules: seq<Rule>, reported: seq<Device>, d: Device, name: string)
    requires Confluence.WantedBy(rules, reported, name)
    ensures Confluence.WantedBy(rules, reported + [d], name)
  {
    var e :| e in reported && Wants(rules, e, name);
    assert e in reported + [d];
  }

  lemma ReportKeepsKnown(reg: Registry, past: Past, d: Device)
    requires KnowsReported(reg, past)
    ensures KnowsReported(Remember(reg, d), past.(reported := past.reported + [d]))
  {
    forall e | e in past.reported + [d] ensures Knows(Remember(reg, d), e.className, e.name) {
      KnowsMore(reg, d, e.className, e.name);
    }
  }

  lemma ReportKeepsInv(files: Files, path: string, dir: string, st: State, past: Past, d: Device)
    requires path in files.trees && dir in files.rules && Inv(files, path, dir, st, past)
    ensures Inv(files, path, dir, Threads.Next(files, st, Threads.Report(d)), past.(reported := past.reported + [d]))
  {
    var n, more := Threads.Next(files, st, Threads.Report(d)), past.(reported := past.reported + [d]);
    ReportKeepsKnown(st.reg, past, d);
    forall name | Confluence.WantedBy(OwnRules(files, dir), past.reported, name)
      ensures Confluence.WantedBy(OwnRules(files, dir), more.reported, name)
    {
      WantedByMore(OwnRules(files, dir), past.reported, d, name);
    }
    forall t | t in n.threads ensures Justified(files, dir, t, more) {
      assert t in st.threads || t == Threads.Serving([d], [], None);
    }
  }

  lemma ThreadChanges(files: Files, dir: string, threads: seq<Threads.Thread>, i: nat, t: Threads.Thread, past: Past)
    requires dir in files.rules && i < |threads| && Justified(files, dir, t, past)
    requires forall u :: u in threads ==> Justified(files, dir, u, past)
    ensures forall u :: u in threads[i := t] ==> Justified(files, dir, u, past)
  {
    forall u | u in threads[i := t] ensures u == t || u in threads {
      var k :| 0 <= k < |threads| && threads[i := t][k] == u;
    }
  }

  lemma CopyKeepsInv(files: Files, path: string, dir: string, st: State, past: Past, i: nat)
    requires path in files.trees && dir in files.rules && Inv(files, path, dir, st, past)
    requires Threads.Enabled(files, st, Threads.Copy(i))
    ensures Inv(files, path, dir, Threads.Next(files, st, Threads.Copy(i)), past)
  {
    ThreadChanges(files, dir, st.threads, i, Threads.Serving(st.reg.devices, [], None), past);
  }

  lemma ReadKeepsInv(files: Files, path: string, dir: string, st: State, past: Past, i: nat)
    requires path in files.trees && dir in files.rules && Inv(files, path, dir, st, past)
    requires Threads.Enabled(files, st, Threads.ReadRules(i))
    ensures Inv(files, path, dir, Threads.Next(files, st, Threads.ReadRules(i)), past)
  {
    var n := Threads.Next(files, st, Threads.ReadRules(i));
    var d := st.threads[i].devices[0];
    assert forall e :: e in n.threads[i].devices ==> e in st.threads[i].devices;
    assert st.threads[i] in st.threads && d in st.threads[i].devices;
    forall name | name in n.threads[i].targets ensures Confluence.WantedBy(OwnRules(files, dir), past.reported, name) {
      TargetsAreNamed(Rules(st.reg), d.className, d.name, false, name);
      assert Wants(OwnRules(files, dir), d, name);
    }
    ThreadChanges(files, dir, st.threads, i, n.threads[i], past);
  }

  lemma StartKeepsNames(files: Files, path: string, dir: string, reg: Registry, past: Past, r: Request,
                        mayRefresh: bool)
    requires path in files.trees && dir in files.rules && SettingOf(files, path, dir, reg, past)
    requires NamesWithin(files, path, dir, reg, past)
    requires Confluence.WantedBy(OwnRules(files, dir), past.reported, r.name)
    ensures SettingOf(files, path, dir, Start(files, reg, r, mayRefresh), past)
    ensures NamesWithin(files, path, dir, Start(files, reg, r, mayRefresh), past)
    ensures Start(files, reg, r, mayRefresh).devices == reg.devices
  {
    StartRegisters(files, reg, r, mayRefresh);
    if past.scanned {
      Confluence.SameTemplates(files, path, reg, r.name);
    }
  }

  lemma StartKeepsInv(files: Files, path: string, dir: string, st: State, past: Past, i: nat, mayRefresh: bool)
    requires path in files.trees && dir in files.rules && Inv(files, path, dir, st, past)
    requires Threads.Enabled(files, st, Threads.StartTarget(i, mayRefresh))
    ensures Inv(files, path, dir, Threads.Next(files, st, Threads.StartTarget(i, mayRefresh)), past)
  {
    var t := st.threads[i];
    assert t in st.threads && t.targets[0] in t.targets;
    StartKeepsNames(files, path, dir, st.reg, past, Request(t.targets[0], t.value), mayRefresh);
    ThreadChanges(files, dir, st.threads, i, t.(targets := t.targets[1..]), past);
  }

  function After(past: Past, s: Step): Past {
    Past(past.reported + ReportedBy(s), past.scanned || s.SwapUnits?, past.loaded || s.SwapRules?)
  }

  lemma StepKeepsInv(files: Files, path: string, dir: string, st: State, past: Past, s: Step)
    requires path in files.trees && dir in files.rules && Inv(files, path, dir, st, past)
    requires Threads.Enabled(files, st, s) && BootStep(files, path, dir, st, s)
    ensures Inv(files, path, dir, Threads.Next(files, st, s), After(past, s))
  {
    assert past.reported + [] == past.reported;
    match s
    case SwapUnits(_, sorted) => ScanKeepsInv(files, path, dir, st, past, sorted);
    case SwapRules(_) => LoadKeepsInv(files, path, dir, st, past);
    case Report(d) => ReportKeepsInv(files, path, dir, st, past, d);
    case Copy(i) => CopyKeepsInv(files, path, dir, st, past, i);
    case ReadRules(i) => ReadKeepsInv(files, path, dir, st, past, i);
    case StartTarget(i, mayRefresh) => StartKeepsInv(files, path, dir, st, past, i, mayRefresh);
    case _ =>
  }

  function Later(past: Past, steps: seq<Step>): Past {
    Past(past.reported + Reported(steps), past.scanned || HasScan(steps), past.loaded || HasLoad(steps))
  }

  lemma LaterCons(past: Past, steps: seq<Step>)
    ensures steps == [] ==> Later(past, steps) == past
    ensures steps != [] ==> Later(After(past, steps[0]), steps[1..]) == Later(past, steps)
  {
    assert past.reported + [] == past.reported;
    if steps != [] {
      assert past.reported + ReportedBy(steps[0]) + Reported(steps[1..])
          == past.reported + (ReportedBy(steps[0]) + Reported(steps[1..]));
    }
  }

  lemma {:induction false} RunKeepsInv(files: Files, path: string, dir: string, st: State, past: Past, steps: seq<Step>,
                                       reached: State)
    requires path in files.trees && dir in files.rules && Inv(files, path, dir, st, past)
    requires Threads.IsRun(files, st, steps, reached) && BootSteps(files, path, dir, st, steps)
    ensures Inv(files, path, dir, reached, Later(past, steps))
    decreases |steps|
  {
    LaterCons(past, steps);
    if steps != [] {
      StepKeepsInv(files, path, dir, st, past, steps[0]);
      RunKeepsInv(files, path, dir, Threads.Next(files, st, steps[0]), After(past, steps[0]), steps[1..], reached);
    }
  }

  lemma {:induction false} BootEndsAttended(files: Files, path: string, dir: string, st: State, steps: seq<Step>)
    requires BootSteps(files, path, dir, st, steps)
    ensures Threads.EndsAttended(files, st, steps, true)
    decreases |steps|
  {
    if steps != [] {
      BootEndsAttended(files, path, dir, Threads.Next(files, st, steps[0]), steps[1..]);
    }
  }

  // ---------------------------------------------------------------------------------------------------------------
  // Main results
  // ---------------------------------------------------------------------------------------------------------------

  const START: State := Threads.State(EMPTY, [])

  predicate AllDone(st: State) {
    forall i :: 0 <= i < |st.threads| ==> Threads.Done(st.threads[i])
  }

  lemma NothingYet(files: Files, path: string, dir: string)
    requires path in files.trees && dir in files.rules
    ensures Inv(files, path, dir, START, Past([], false, false))
  {
  }

  lemma ReportedIsServed(files: Files, reg: Registry, past: Past, name: string)
    requires DevicesServed(files, reg) && KnowsReported(reg, past)
    requires Confluence.WantedBy(Rules(reg), past.reported, name)
    ensures Served(files, reg, name)
  {
    var d :| d in past.reported && Wants(Rules(reg), d, name);
    assert Knows(reg, d.className, d.name);
    var e :| e in reg.devices && Matches(e, d.className, d.name);
    assert Wants(Rules(reg), e, name);
  }

  lemma InvRegisters(files: Files, path: string, dir: string, st: State, past: Past, name: string)
    requires path in files.trees && dir in files.rules && Inv(files, path, dir, st, past)
    requires past.scanned && past.loaded && DevicesServed(files, st.reg)
    ensures name in Names(st.reg.units) <==> Expected(files, path, OwnRules(files, dir), past.reported, name)
  {
    Confluence.SameTemplates(files, path, st.reg, name);
    if Confluence.WantedBy(OwnRules(files, dir), past.reported, name) {
      ReportedIsServed(files, st.reg, past, name);
    }
  }

  /** A finished interleaving in which the directory was scanned and the rules were loaded. */
  ghost predicate Finished(files: Files, path: string, dir: string, steps: seq<Step>, reached: State) {
    && path in files.trees && dir in files.rules
    && BootSteps(files, path, dir, START, steps) && Threads.IsRun(files, START, steps, reached)
    && AllDone(reached) && HasScan(steps) && HasLoad(steps)
  }

  lemma BootEndsInInv(files: Files, path: string, dir: string, steps: seq<Step>, reached: State)
    requires Finished(files, path, dir, steps, reached)
    ensures Inv(files, path, dir, reached, Past(Reported(steps), true, true))
  {
    NothingYet(files, path, dir);
    RunKeepsInv(files, path, dir, START, Past([], false, false), steps, reached);
    assert Later(Past([], false, false), steps) == Past(Reported(steps), true, true);
  }

  lemma BootServes(files: Files, path: string, dir: string, steps: seq<Step>, reached: State)
    requires Finished(files, path, dir, steps, reached)
    ensures DevicesServed(files, reached.reg)
  {
    BootEndsAttended(files, path, dir, START, steps);
    Threads.InterleavingsServeDevices(files, steps, reached);
  }

  /** In every interleaving, once all calls have returned and a scan and a rule load took place, exactly these names are
      registered: those of the directory, and those that the rules name for the reported devices and a template can
      make. */
  lemma {:induction false} InterleavedBootRegisters(files: Files, path: string, dir: string, steps: seq<Step>,
                                                    reached: State, name: string)
    requires Finished(files, path, dir, steps, reached)
    ensures name in Names(reached.reg.units)
       <==> Expected(files, path, OwnRules(files, dir), Reported(steps), name)
  {
    BootEndsInInv(files, path, dir, steps, reached);
    BootServes(files, path, dir, steps, reached);
    InvRegisters(files, path, dir, reached, Past(Reported(steps), true, true), name);
  }

  ghost predicate IsReported(devices: seq<Device>, className: string, name: string) {
    exists d :: d in devices && Matches(d, className, name)
  }

  ghost predicate SameDevices(a: seq<Device>, b: seq<Device>) {
    forall className, name :: IsReported(a, className, name) <==> IsReported(b, className, name)
  }

  lemma WantedAlike(rules: seq<Rule>, a: seq<Device>, b: seq<Device>, name: string)
    requires SameDevices(a, b) && Confluence.WantedBy(rules, a, name)
    ensures Confluence.WantedBy(rules, b, name)
  {
    var d :| d in a && Wants(rules, d, name);
    assert IsReported(a, d.className, d.name);
    var e :| e in b && Matches(e, d.className, d.name);
    assert Wants(rules, e, name);
  }

  lemma ExpectedAlike(files: Files, path: string, rules: seq<Rule>, a: seq<Device>, b: seq<Device>, name: string)
    requires path in files.trees && SameDevices(a, b) && Expected(files, path, rules, a, name)
    ensures Expected(files, path, rules, b, name)
  {
    if Confluence.WantedBy(rules, a, name) {
      WantedAlike(rules, a, b, name);
    }
  }

  /** Two finished interleavings that report the same devices, in whatever order and with whatever values, register
      the same names. */
  lemma {:induction false} OrderOfSectionsDoesNotMatter(files: Files, path: string, dir: string, a: seq<Step>,
                                                        endA: State, b: seq<Step>, endB: State, name: string)
    requires Finished(files, path, dir, a, endA) && Finished(files, path, dir, b, endB)
    requires SameDevices(Reported(a), Reported(b))
    ensures name in Names(endA.reg.units) <==> name in Names(endB.reg.units)
  {
    InterleavedBootRegisters(files, path, dir, a, endA, name);
    InterleavedBootRegisters(files, path, dir, b, endB, name);
    if Expected(files, path, OwnRules(files, dir), Reported(a), name) {
      ExpectedAlike(files, path, OwnRules(files, dir), Reported(a), Reported(b), name);
    }
    if Expected(files, path, OwnRules(files, dir), Reported(b), name) {
      ExpectedAlike(files, path, OwnRules(files, dir), Reported(b), Reported(a), name);
    }
  }
}
