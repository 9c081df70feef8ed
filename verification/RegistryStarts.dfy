/** What a start makes, with which value, and what device events start (app/libsystemd/src/serviceapi.c:2756-2820,
    2851-2925, 3071-3163, 3185-3267, 3469-3489, 3962-3995, 4032-4112). */
module RegistryStarts {
  import opened Wrappers
  import opened Services
  import opened UnitNames
  import opened UnitFiles
  import opened Registry
  import opened RegistryRuns
  import Expansion

  // ---------------------------------------------------------------------------------------------------------------
  // One start
  // ---------------------------------------------------------------------------------------------------------------

  /** The template is the first one of its prefix. */
  ghost predicate First(templates: seq<TemplateRef>, i: nat) {
    i < |templates| && forall j :: 0 <= j < i ==> templates[j].prefix != templates[i].prefix
  }

  /** The name is an instance of this template. */
  predicate Instance(template: TemplateRef, instance: string, name: string) {
    template.prefix != "" && '@' !in template.prefix && instance != "" && name == template.prefix + "@" + instance
  }

  /** The unit is what the first template of the name's prefix gives for this instance and this value. */
  ghost predicate Makes(files: Files, templates: seq<TemplateRef>, name: string, value: Option<string>, unit: Unit) {
    exists i: nat, instance ::
      && First(templates, i)
      && Instance(templates[i], instance, name)
      && Instantiate(files.disk, templates[i], instance, value) == Ok(unit)
  }

  /** An instance of a library unit that is there, is known not to run, and is asked for with a value. */
  ghost predicate Refreshable(reg: Registry, r: Request, mayRefresh: bool) {
    && HasUnit(reg.units, r.name)
    && reg.units[FindUnit(reg.units, r.name)].fromTemplate
    && reg.units[FindUnit(reg.units, r.name)].unitType == Library
    && r.value.Some? && mayRefresh
  }

  lemma MakesIffInstance(files: Files, reg: Registry, name: string, value: Option<string>, unit: Unit)
    ensures Makes(files, reg.templates, name, value, unit)
       <==> TemplateFor(reg, name).Some? && MakeInstance(files, reg, name, value) == Ok(unit)
  {
    forall i: nat, instance | First(reg.templates, i) && Instance(reg.templates[i], instance, name)
      ensures SplitInstanceName(name) == Some((reg.templates[i].prefix, instance))
      ensures FindTemplate(reg.templates, reg.templates[i].prefix) == i
    {
      SplitIffBuilt(name, reg.templates[i].prefix, instance);
    }
    if TemplateFor(reg, name).Some? {
      var (prefix, instance) := SplitInstanceName(name).value;
      SplitIffBuilt(name, prefix, instance);
      var i := FindTemplate(reg.templates, prefix);
      assert First(reg.templates, i) && Instance(reg.templates[i], instance, name);
    }
  }

  lemma MadeIsNamed(files: Files, templates: seq<TemplateRef>, name: string, value: Option<string>, unit: Unit)
    requires Makes(files, templates, name, value, unit)
    ensures unit.name == name && unit.fromTemplate
  {
    var i: nat, instance :|
      && First(templates, i)
      && Instance(templates[i], instance, name)
      && Instantiate(files.disk, templates[i], instance, value) == Ok(unit);
    InstanceIdentity(files.disk, templates[i], instance, value);
  }

  /** A start appends the instance made with its value if there is no such unit, puts it in the old one's place if that
      may be expanded again, and otherwise leaves everything as it is. */
  lemma StartMakesTheInstance(files: Files, reg: Registry, r: Request, mayRefresh: bool, unit: Unit)
    requires Makes(files, reg.templates, r.name, r.value, unit)
    ensures Start(files, reg, r, mayRefresh)
         == if r.name !in Names(reg.units) then
              (if reg.unitsDir.Some? then reg.(units := reg.units + [unit]) else reg)
            else if Refreshable(reg, r, mayRefresh) then
              reg.(units := reg.units[FindUnit(reg.units, r.name) := unit])
            else reg
  {
    MakesIffInstance(files, reg, r.name, r.value, unit);
    HasUnitIffNamed(reg.units, r.name);
  }

  /** A start that reports an error has changed nothing. It reports none exactly when the unit is there afterwards,
      expanded anew if it was to be. */
  lemma StartReports(files: Files, reg: Registry, r: Request, mayRefresh: bool)
    ensures (forall unit :: !Makes(files, reg.templates, r.name, r.value, unit))
        ==> Start(files, reg, r, mayRefresh) == reg
    ensures StartErrorOf(files, reg, r, mayRefresh).Some? ==> Start(files, reg, r, mayRefresh) == reg
    ensures StartErrorOf(files, reg, r, mayRefresh) == None
       <==> && r.name in Names(Start(files, reg, r, mayRefresh).units)
            && (Refreshable(reg, r, mayRefresh) ==> exists unit :: Makes(files, reg.templates, r.name, r.value, unit))
    ensures StartErrorOf(files, reg, r, mayRefresh) == Some(NoTemplate)
       <==> Refreshable(reg, r, mayRefresh)
            && (SplitInstanceName(r.name) == None
                || forall t :: t in reg.templates ==> t.prefix != SplitInstanceName(r.name).value.0)
  {
    HasUnitIffNamed(reg.units, r.name);
    StartRegisters(files, reg, r, mayRefresh);
    forall unit ensures Makes(files, reg.templates, r.name, r.value, unit)
                   <==> TemplateFor(reg, r.name).Some? && MakeInstance(files, reg, r.name, r.value) == Ok(unit)
    {
      MakesIffInstance(files, reg, r.name, r.value, unit);
    }
    if TemplateFor(reg, r.name).Some? && MakeInstance(files, reg, r.name, r.value).Ok? {
      assert Makes(files, reg.templates, r.name, r.value, MakeInstance(files, reg, r.name, r.value).value);
    }
  }

  // ---------------------------------------------------------------------------------------------------------------
  // Many starts
  // ---------------------------------------------------------------------------------------------------------------

  /** The unit is as it was, or was made for one of the first n requests, with that request's value. */
  ghost predicate MadeForOne(files: Files, reg: Registry, requests: seq<Request>, n: nat, k: nat, unit: Unit)
    requires n <= |requests|
  {
    || (k < |reg.units| && reg.units[k] == unit)
    || exists j :: 0 <= j < n && Makes(files, reg.templates, requests[j].name, requests[j].value, unit)
  }

  lemma OneStartMakes(files: Files, reg: Registry, r: Request, mayRefresh: bool, k: nat)
    requires k < |Start(files, reg, r, mayRefresh).units|
    ensures var unit := Start(files, reg, r, mayRefresh).units[k];
            (k < |reg.units| && reg.units[k] == unit) || Makes(files, reg.templates, r.name, r.value, unit)
  {
    if TemplateFor(reg, r.name).Some? && MakeInstance(files, reg, r.name, r.value).Ok? {
      MakesIffInstance(files, reg, r.name, r.value, MakeInstance(files, reg, r.name, r.value).value);
    }
  }

  /** All units after the first n requests. */
  ghost predicate AllMade(files: Files, reg: Registry, requests: seq<Request>, n: nat, units: seq<Unit>)
    requires n <= |requests|
  {
    forall k :: 0 <= k < |units| ==> MadeForOne(files, reg, requests, n, k, units[k])
  }

  lemma OneMoreStartMakes(files: Files, reg: Registry, before: Registry, requests: seq<Request>, n: nat,
                          mayRefresh: bool, now: Registry)
    requires 0 < n <= |requests| && now == Start(files, before, requests[n - 1], mayRefresh)
    requires AllMade(files, reg, requests, n - 1, before.units) && before.templates == reg.templates
    ensures AllMade(files, reg, requests, n, now.units) && now.templates == reg.templates
  {
    StartRegisters(files, before, requests[n - 1], mayRefresh);
    var after := now.units;
    forall k | 0 <= k < |after| ensures MadeForOne(files, reg, requests, n, k, after[k]) {
      OneStartMakes(files, before, requests[n - 1], mayRefresh, k);
      assert k < |before.units| ==> MadeForOne(files, reg, requests, n - 1, k, before.units[k]);
    }
  }

  lemma {:induction false} UnitsAreMadeForRequests(files: Files, reg: Registry, requests: seq<Request>,
                                                   answers: seq<bool>, n: nat)
    requires n <= |requests|
    ensures var after := StartFirst(files, reg, requests, answers, n);
            AllMade(files, reg, requests, n, after.units) && after.templates == reg.templates
  {
    if n > 0 {
      UnitsAreMadeForRequests(files, reg, requests, answers, n - 1);
      StartFirstIs(files, reg, requests, answers, n);
      OneMoreStartMakes(files, reg, StartFirst(files, reg, requests, answers, n - 1), requests, n,
                        AnswerAt(answers, n - 1), StartFirst(files, reg, requests, answers, n));
    }
  }

  lemma {:induction false} StartErrorsAt(files: Files, reg: Registry, requests: seq<Request>, answers: seq<bool>,
                                         n: nat, i: nat)
    requires i < n <= |requests|
    ensures StartErrors(files, reg, requests, answers, n)[i]
         == StartErrorOf(files, StartFirst(files, reg, requests, answers, i), requests[i], AnswerAt(answers, i))
  {
    if i < n - 1 {
      StartErrorsAt(files, reg, requests, answers, n - 1, i);
    }
  }

  /** Among several starts, one reports that there is no such unit exactly when none of that name is registered when all
      are done: no later start makes good for it. */
  lemma StartsReport(files: Files, reg: Registry, requests: seq<Request>, answers: seq<bool>, i: nat)
    requires i < |requests|
    ensures StartErrors(files, reg, requests, answers, |requests|)[i] == Some(NoUnit)
       <==> requests[i].name !in Names(StartAll(files, reg, requests, answers).units)
  {
    var name, before := requests[i].name, StartFirst(files, reg, requests, answers, i);
    StartErrorsAt(files, reg, requests, answers, |requests|, i);
    StartFirstRegisters(files, reg, requests, answers, i, name);
    StartFirstRegisters(files, reg, requests, answers, |requests|, name);
    NoUnitIffUnregistered(files, before, requests[i], AnswerAt(answers, i));
    StartMakes(files, before, requests[i], AnswerAt(answers, i), name);
    assert TemplateFor(before, name) == TemplateFor(reg, name);
    assert Asked(requests, |requests|, name);
  }

  // ---------------------------------------------------------------------------------------------------------------
  // Devices
  // ---------------------------------------------------------------------------------------------------------------

  lemma RequestedFor(rules: seq<Rule>, className: string, deviceName: string, removal: bool, value: Option<string>,
                     j: nat)
    requires j < |Targets(rules, className, deviceName, removal)|
    ensures var r := RequestsFor(Targets(rules, className, deviceName, removal), value)[j];
            Named(rules, className, deviceName, removal, r.name) && r.value == value
  {
    TargetsAreNamed(rules, className, deviceName, removal, Targets(rules, className, deviceName, removal)[j]);
  }

  /** What a reported device brings is made with the value it is reported with. */
  lemma DeviceAddedMakes(files: Files, reg: Registry, d: Device, answers: seq<bool>, k: nat)
    requires k < |DeviceAdded(files, reg, d, answers).units|
    ensures var unit := DeviceAdded(files, reg, d, answers).units[k];
            || (k < |reg.units| && reg.units[k] == unit)
            || (Wants(Rules(reg), d, unit.name) && Makes(files, reg.templates, unit.name, d.value, unit))
  {
    var unit, remembered := DeviceAdded(files, reg, d, answers).units[k], Remember(reg, d);
    var requests := RequestsFor(Targets(Rules(remembered), d.className, d.name, false), d.value);
    UnitsAreMadeForRequests(files, remembered, requests, answers, |requests|);
    assert MadeForOne(files, remembered, requests, |requests|, k, unit);
    if !(k < |reg.units| && reg.units[k] == unit) {
      var j :| 0 <= j < |requests| && Makes(files, reg.templates, requests[j].name, requests[j].value, unit);
      RequestedFor(Rules(reg), d.className, d.name, false, d.value, j);
      MadeIsNamed(files, reg.templates, requests[j].name, requests[j].value, unit);
    }
  }

  function RememberedValue(reg: Registry, className: string, name: string): (value: Option<string>)
    ensures OncePerDevice(reg.devices) ==>
              forall d :: d in reg.devices && Matches(d, className, name) ==> value == d.value
    ensures !Knows(reg, className, name) ==> value == None
  {
    KnowsIffFound(reg, className, name);
    var i := FindDevice(reg.devices, className, name);
    if i < |reg.devices| then reg.devices[i].value else None
  }

  /** A withdrawn device registers exactly the removal units that rules name for it and that can be made. */
  lemma DeviceRemovedRegisters(files: Files, reg: Registry, className: string, deviceName: string, answers: seq<bool>,
                               name: string)
    ensures var after := DeviceRemoved(files, reg, className, deviceName, answers);
            && Grows(Forget(reg, className, deviceName), after)
            && (name in Names(after.units)
                <==> name in Names(reg.units)
                     || (Named(Rules(reg), className, deviceName, true, name) && Instantiable(files, reg, name)))
  {
    var value := RememberedValue(reg, className, deviceName);
    var forgotten := Forget(reg, className, deviceName);
    var targets := Targets(Rules(forgotten), className, deviceName, true);
    var requests := RequestsFor(targets, value);
    StartFirstRegisters(files, forgotten, requests, answers, |requests|, name);
    TargetsAreNamed(Rules(reg), className, deviceName, true, name);
    RequestsAsk(targets, value, name);
    assert TemplateFor(forgotten, name) == TemplateFor(reg, name);
  }

  /** Its removal units are made with the value the device was remembered with, before it is forgotten. */
  lemma DeviceRemovedMakes(files: Files, reg: Registry, d: Device, answers: seq<bool>, k: nat)
    requires OncePerDevice(reg.devices) && d in reg.devices
    requires k < |DeviceRemoved(files, reg, d.className, d.name, answers).units|
    ensures var unit := DeviceRemoved(files, reg, d.className, d.name, answers).units[k];
            || (k < |reg.units| && reg.units[k] == unit)
            || (Named(Rules(reg), d.className, d.name, true, unit.name)
                && Makes(files, reg.templates, unit.name, d.value, unit))
  {
    var unit, forgotten := DeviceRemoved(files, reg, d.className, d.name, answers).units[k],
                           Forget(reg, d.className, d.name);
    var requests := RequestsFor(Targets(Rules(forgotten), d.className, d.name, true),
                                RememberedValue(reg, d.className, d.name));
    UnitsAreMadeForRequests(files, forgotten, requests, answers, |requests|);
    assert MadeForOne(files, forgotten, requests, |requests|, k, unit);
    if !(k < |reg.units| && reg.units[k] == unit) {
      var j :| 0 <= j < |requests| && Makes(files, reg.templates, requests[j].name, requests[j].value, unit);
      RequestedFor(Rules(reg), d.className, d.name, true, d.value, j);
      MadeIsNamed(files, reg.templates, requests[j].name, requests[j].value, unit);
    }
  }

  lemma {:induction false} ReplayRequestIsForDevice(reg: Registry, n: nat, j: nat) returns (d: Device)
    requires n <= |reg.devices| && j < |ReplayRequests(reg, n)|
    ensures d in reg.devices && Wants(Rules(reg), d, ReplayRequests(reg, n)[j].name)
    ensures ReplayRequests(reg, n)[j].value == d.value
  {
    var before := ReplayRequests(reg, n - 1);
    if j < |before| {
      d := ReplayRequestIsForDevice(reg, n - 1, j);
    } else {
      d := reg.devices[n - 1];
      RequestedFor(Rules(reg), d.className, d.name, false, d.value, j - |before|);
    }
  }

  /** A replay goes through the devices in the order in which they were reported, and through the targets of each in the
      order of the rules. */
  lemma {:induction false} ReplayGoesInOrder(reg: Registry, n: nat, i: nat)
    requires i < n <= |reg.devices|
    ensures var d, from, to := reg.devices[i], |ReplayRequests(reg, i)|, |ReplayRequests(reg, i + 1)|;
            && from <= to <= |ReplayRequests(reg, n)|
            && ReplayRequests(reg, n)[from..to]
               == RequestsFor(Targets(Rules(reg), d.className, d.name, false), d.value)
  {
    if i < n - 1 {
      ReplayGoesInOrder(reg, n - 1, i);
      var from, to := |ReplayRequests(reg, i)|, |ReplayRequests(reg, i + 1)|;
      assert ReplayRequests(reg, n)[from..to] == ReplayRequests(reg, n - 1)[from..to];
    }
  }

  /** What a replay brings is made for a remembered device, with the value that one was remembered with. */
  lemma ReplayMakes(files: Files, reg: Registry, answers: seq<bool>, k: nat)
    requires k < |Replay(files, reg, answers).units|
    ensures var unit := Replay(files, reg, answers).units[k];
            || (k < |reg.units| && reg.units[k] == unit)
            || exists d :: d in reg.devices && Wants(Rules(reg), d, unit.name)
                           && Makes(files, reg.templates, unit.name, d.value, unit)
  {
    var unit, requests := Replay(files, reg, answers).units[k], ReplayRequests(reg, |reg.devices|);
    UnitsAreMadeForRequests(files, reg, requests, answers, |requests|);
    assert MadeForOne(files, reg, requests, |requests|, k, unit);
    if !(k < |reg.units| && reg.units[k] == unit) {
      var j :| 0 <= j < |requests| && Makes(files, reg.templates, requests[j].name, requests[j].value, unit);
      var d := ReplayRequestIsForDevice(reg, |reg.devices|, j);
      MadeIsNamed(files, reg.templates, requests[j].name, requests[j].value, unit);
    }
  }

  // ---------------------------------------------------------------------------------------------------------------
  // Rules
  // ---------------------------------------------------------------------------------------------------------------

  /** Every matching rule contributes its own target, in the order of the rules. */
  lemma {:induction false} TargetsConcat(a: seq<Rule>, b: seq<Rule>, className: string, deviceName: string,
                                         removal: bool)
    ensures Targets(a + b, className, deviceName, removal)
         == Targets(a, className, deviceName, removal) + Targets(b, className, deviceName, removal)
    decreases |b|
  {
    if b == [] {
      assert a + b == a;
    } else {
      assert (a + b)[..|a + b| - 1] == a + b[..|b| - 1];
      TargetsConcat(a, b[..|b| - 1], className, deviceName, removal);
    }
  }

  lemma TargetOfRule(rule: Rule, className: string, deviceName: string, removal: bool, name: string)
    ensures Targets([rule], className, deviceName, removal) == [name]
       <==> RuleNames(rule, className, deviceName, removal, name)
    ensures (forall target :: !RuleNames(rule, className, deviceName, removal, target))
        ==> Targets([rule], className, deviceName, removal) == []
  {
    assert [rule][..0] == [];
    var template := if removal then rule.remove else rule.start;
    if rule.className == className && template.Some? {
      var target := Expansion.ReplaceAll(template.value, "%name", deviceName);
      assert RuleNames(rule, className, deviceName, removal, target);
      assert [] + [target] == [target];
    }
  }

  /** The rules that are loaded are the sections that have a class and something to start or to start on removal, each
      marked with where it is from, in order. */
  lemma {:induction false} LoadedRulesAre(rules: seq<Rule>, source: Option<string>, rule: Rule)
    ensures rule in LoadedRules(rules, source)
       <==> exists raw :: raw in rules && raw.className != "" && (raw.start.Some? || raw.remove.Some?)
                          && rule == raw.(source := source)
  {
    if rules != [] {
      var front, last := rules[..|rules| - 1], rules[|rules| - 1];
      LoadedRulesAre(front, source, rule);
      assert rules == front + [last];
    }
  }

  lemma {:induction false} LoadedRulesConcat(a: seq<Rule>, b: seq<Rule>, source: Option<string>)
    ensures LoadedRules(a + b, source) == LoadedRules(a, source) + LoadedRules(b, source)
    decreases |b|
  {
    if b == [] {
      assert a + b == a;
    } else {
      assert (a + b)[..|a + b| - 1] == a + b[..|b| - 1];
      LoadedRulesConcat(a, b[..|b| - 1], source);
    }
  }
}
