/** The registry lists as libsystemd changes them in place, proved against the functions of module Registry
    (app/libsystemd/src/serviceapi.c:557-632, 2756-2820, 3121-3267, 3469-3489, 3773-3995, 4577-4828, 4863-5024). */
module RegistryStore {
  import opened Wrappers
  import opened Errno
  import opened Services
  import opened UnitNames
  import opened UnitFiles
  import opened Registry
  import Expansion
  import Relaxation
  import Search
  import StartOrder
  import opened RegistrySections
  import opened RegistryStartOrder

  function UnitsOf(services: seq<Service>): (units: seq<Unit>)
    ensures |units| == |services| && forall i :: 0 <= i < |units| ==> units[i] == services[i].unit
  {
    seq(|services|, i requires 0 <= i < |services| => services[i].unit)
  }

  function AnswersFrom(answers: seq<bool>, from: nat): (r: seq<bool>)
    ensures forall k: nat :: AnswerAt(r, k) == AnswerAt(answers, from + k)
  {
    if from <= |answers| then answers[from..] else []
  }

  lemma {:induction false} StepsInFront<S>(f: (S, Request, bool) -> S, start: S, a: seq<Request>, b: seq<Request>,
                                           answers: seq<bool>, n: nat)
    requires n <= |a|
    ensures Steps(f, start, a + b, answers, n) == Steps(f, start, a, answers, n)
  {
    if n > 0 {
      StepsInFront(f, start, a, b, answers, n - 1);
      assert (a + b)[n - 1] == a[n - 1];
    }
  }

  /** Going through two lists is going through the second after the first. */
  lemma {:induction false} StepsBehind<S>(f: (S, Request, bool) -> S, start: S, a: seq<Request>, b: seq<Request>,
                                          answers: seq<bool>, n: nat)
    requires n <= |b|
    ensures Steps(f, start, a + b, answers, |a| + n)
         == Steps(f, Steps(f, start, a, answers, |a|), b, AnswersFrom(answers, |a|), n)
  {
    if n == 0 {
      StepsInFront(f, start, a, b, answers, |a|);
    } else {
      StepsBehind(f, start, a, b, answers, n - 1);
      assert (a + b)[|a| + n - 1] == b[n - 1];
      assert AnswerAt(AnswersFrom(answers, |a|), n - 1) == AnswerAt(answers, |a| + n - 1);
    }
  }

  lemma {:induction false} StartFirstKeepsRest(files: Files, reg: Registry, requests: seq<Request>, answers: seq<bool>,
                                               n: nat)
    requires n <= |requests|
    ensures var after := StartFirst(files, reg, requests, answers, n); after == reg.(units := after.units)
  {
    if n > 0 {
      StartFirstKeepsRest(files, reg, requests, answers, n - 1);
      StartFirstIs(files, reg, requests, answers, n);
    }
  }

  lemma StartAllConcat(files: Files, reg: Registry, a: seq<Request>, b: seq<Request>, answers: seq<bool>)
    ensures StartAll(files, reg, a + b, answers)
         == StartAll(files, StartAll(files, reg, a, answers), b, AnswersFrom(answers, |a|))
  {
    StepsBehind(Starter(files), reg, a, b, answers, |b|);
  }

  /** One more device of a replay. */
  lemma ReplayOneMore(files: Files, reg: Registry, answers: seq<bool>, i: nat)
    requires i < |reg.devices|
    ensures var d := reg.devices[i];
            var before := StartAll(files, reg, ReplayRequests(reg, i), answers);
            && before == reg.(units := before.units)
            && StartAll(files, reg, ReplayRequests(reg, i + 1), answers)
            == StartAll(files, before, RequestsFor(Targets(Rules(reg), d.className, d.name, false), d.value),
                        AnswersFrom(answers, |ReplayRequests(reg, i)|))
  {
    var d := reg.devices[i];
    var a, b := ReplayRequests(reg, i), RequestsFor(Targets(Rules(reg), d.className, d.name, false), d.value);
    StartAllConcat(files, reg, a, b, answers);
    StartFirstKeepsRest(files, reg, a, answers, |a|);
    assert ReplayRequests(reg, i + 1) == a + b;
  }

  // ---------------------------------------------------------------------------------------------------------------
  // Sorting
  // ---------------------------------------------------------------------------------------------------------------

  ghost predicate PlacedAt(sorted: seq<Service>, list: seq<Service>, positions: seq<nat>) {
    && |sorted| == |positions|
    && forall k :: 0 <= k < |positions| ==> positions[k] < |list| && sorted[k] == list[positions[k]]
  }

  function Inserted<T>(list: seq<T>, p: nat, item: T): (r: seq<T>)
    requires p <= |list|
    ensures |r| == |list| + 1 && r[p] == item
    ensures forall k :: 0 <= k < p ==> r[k] == list[k]
    ensures forall k :: p < k < |r| ==> r[k] == list[k - 1]
  {
    list[..p] + [item] + list[p..]
  }

  /** The first i positions, each once, in ascending order. */
  ghost predicate SortedUpTo(positions: seq<nat>, i: nat, orders: seq<int>) {
    && (forall k :: 0 <= k < |positions| ==> positions[k] < i <= |orders|)
    && (forall j: nat :: j < i ==> j in positions)
    && (forall a, b :: 0 <= a < b < |positions| ==>
          positions[a] != positions[b] && orders[positions[a]] <= orders[positions[b]])
  }

  lemma SortedArranges(positions: seq<nat>, orders: seq<int>)
    requires SortedUpTo(positions, |orders|, orders)
    ensures StartOrder.Arranges(positions, Indices(|orders|), orders)
  {
  }

  lemma InsertedMembers<T>(list: seq<T>, p: nat, item: T)
    requires p <= |list|
    ensures forall x :: x in Inserted(list, p, item) <==> x == item || x in list
  {
    assert list == list[..p] + list[p..];
  }

  lemma InsertedElements<T>(list: seq<T>, p: nat, item: T)
    requires p <= |list|
    ensures multiset(Inserted(list, p, item)) == multiset(list) + multiset{item}
  {
    assert list == list[..p] + list[p..];
  }

  lemma InsertKeepsSorted(positions: seq<nat>, i: nat, p: nat, orders: seq<int>)
    requires SortedUpTo(positions, i, orders) && i < |orders| && p <= |positions|
    requires forall k :: 0 <= k < p ==> orders[positions[k]] <= orders[i]
    requires p < |positions| ==> orders[positions[p]] > orders[i]
    ensures SortedUpTo(Inserted(positions, p, i), i + 1, orders)
  {
    InsertedMembers(positions, p, i);
    var all := Inserted(positions, p, i);
    forall k | p <= k < |positions| ensures orders[positions[k]] >= orders[i] {
      assert p < k ==> orders[positions[p]] <= orders[positions[k]];
    }
    forall a, b | 0 <= a < b < |all| ensures all[a] != all[b] && orders[all[a]] <= orders[all[b]] {
    }
  }

  /** The place behind all services that come no later. */
  method FindPlace(sorted: seq<Service>, order: int) returns (p: nat)
    ensures p <= |sorted| && forall k :: 0 <= k < p ==> sorted[k].startingOrder <= order
    ensures p < |sorted| ==> sorted[p].startingOrder > order
  {
    p := 0;
    while p < |sorted| && sorted[p].startingOrder <= order
      invariant p <= |sorted| && forall k :: 0 <= k < p ==> sorted[k].startingOrder <= order
    {
      p := p + 1;
    }
  }

  /** dmlist_sort by starting order. Which of two equal ones comes first is not promised. */
  method SortByStartingOrder(list: seq<Service>) returns (sorted: seq<Service>, ghost positions: seq<nat>)
    ensures StartOrder.Arranges(positions, Indices(|list|), Relaxation.OrdersOf(list))
    ensures PlacedAt(sorted, list, positions)
    ensures multiset(sorted) == multiset(list)
    ensures forall a, b :: 0 <= a < b < |sorted| ==> sorted[a].startingOrder <= sorted[b].startingOrder
  {
    sorted, positions := [], [];
    ghost var orders := Relaxation.OrdersOf(list);
    for i := 0 to |list|
      invariant SortedUpTo(positions, i, orders) && PlacedAt(sorted, list, positions)
      invariant multiset(sorted) == multiset(list[..i])
    {
      var p := FindPlace(sorted, list[i].startingOrder);
      InsertKeepsSorted(positions, i, p, orders);
      InsertedElements(sorted, p, list[i]);
      assert list[..i + 1] == list[..i] + [list[i]];
      sorted := Inserted(sorted, p, list[i]);
      positions := Inserted(positions, p, i);
    }
    SortedArranges(positions, orders);
    assert list[..|list|] == list;
  }

  lemma SortedServices(list: seq<Service>, sorted: seq<Service>, positions: seq<nat>, orders: seq<int>)
    requires StartOrder.Arranges(positions, Indices(|list|), orders) && PlacedAt(sorted, list, positions)
    requires Relaxation.Distinct(list)
    ensures Relaxation.Distinct(sorted) && forall s :: s in sorted ==> s in list
  {
    forall a, b | 0 <= a < b < |sorted| ensures sorted[a] != sorted[b] {
      assert positions[a] != positions[b];
    }
  }

  lemma PickedArranges(picks: seq<nat>, chosen: set<nat>, orders: seq<int>, positions: seq<nat>, starts: seq<nat>)
    requires forall a, b :: 0 <= a < b < |picks| ==> picks[a] != picks[b]
    requires forall i: nat :: i in picks <==> i in chosen
    requires forall k :: 0 <= k < |picks| ==> picks[k] < |orders|
    requires StartOrder.Arranges(positions, Indices(|picks|),
               seq(|picks|, k requires 0 <= k < |picks| => orders[picks[k]]))
    requires |starts| == |positions|
    requires forall k :: 0 <= k < |positions| ==> positions[k] < |picks| && starts[k] == picks[positions[k]]
    ensures StartOrder.Arranges(starts, chosen, orders)
  {
    forall i | i in chosen ensures i in starts {
      var k :| 0 <= k < |picks| && picks[k] == i;
      assert k in positions;
      var j :| 0 <= j < |positions| && positions[j] == k;
      assert starts[j] == i;
    }
    forall a, b | 0 <= a < b < |starts| ensures starts[a] != starts[b] && orders[starts[a]] <= orders[starts[b]] {
      assert positions[a] != positions[b];
    }
  }

  /** New units are appended with order zero. */
  ghost function Padded(orders: seq<int>, n: nat): seq<int> {
    if |orders| <= n then orders + StartOrder.Zeros(n - |orders|) else orders
  }

  /** started are the units of a mount point, in ascending order of what resolving the registry from the given orders
      yields; starts has their places in the registry. */
  ghost predicate StartsFrom(started: seq<Service>, starts: seq<nat>, units: seq<Unit>, orders: seq<int>,
                             mountPoint: string)
  {
    && |started| == |starts|
    && (forall k :: 0 <= k < |starts| ==> starts[k] < |units| && started[k].unit == units[starts[k]])
    && |orders| == |units|
    && StartOrder.Arranges(starts, From(units, mountPoint, |units|), StartOrder.Resolve(UnitGraph(units), orders))
  }

  lemma AroundOne<T>(front: seq<T>, x: T, back: seq<T>, all: seq<T>)
    requires all == front + [x] + back
    ensures all[|front|] == x && all[..|front|] == front && all[|front| + 1..] == back && all == front + ([x] + back)
  {
  }

  lemma LastOfFront<T>(list: seq<T>, i: nat, back: seq<T>)
    requires i < |list|
    ensures list[..i + 1] + back == list[..i] + [list[i]] + back
  {
    assert list[..i + 1] == list[..i] + [list[i]];
  }

  /** One step of a backwards removal. */
  lemma KeptStep<T>(list: seq<T>, sources: seq<Option<string>>, m: string, i: nat, now: seq<T>)
    requires i < |list| == |sources| && now == list[..i + 1] + Kept(list, sources, m, i + 1)
    ensures i < |now| && now[i] == list[i]
    ensures sources[i] == Some(m) ==> now[..i] + now[i + 1..] == list[..i] + Kept(list, sources, m, i)
    ensures sources[i] != Some(m) ==> now == list[..i] + Kept(list, sources, m, i)
  {
    var front, back := list[..i], Kept(list, sources, m, i + 1);
    LastOfFront(list, i, back);
    AroundOne(front, list[i], back, now);
    assert |front| == i;
    if sources[i] == Some(m) {
      assert Kept(list, sources, m, i) == [] + back == back;
    } else {
      assert Kept(list, sources, m, i) == [list[i]] + back;
    }
  }

  lemma KeptDistinct(list: seq<Service>, sources: seq<Option<string>>, m: string)
    requires |list| == |sources| && Relaxation.Distinct(list)
    ensures Relaxation.Distinct(Kept(list, sources, m, 0)) && forall s :: s in Kept(list, sources, m, 0) ==> s in list
  {
    var positions := KeptIsFilter(list, sources, m, 0);
    var kept := Kept(list, sources, m, 0);
    forall a, b | 0 <= a < b < |kept| ensures kept[a] != kept[b] {
      assert positions[a] < positions[b];
    }
  }

  lemma {:induction false} UnitsOfKept(list: seq<Service>, sources: seq<Option<string>>, m: string, i: nat)
    requires i <= |list| == |sources|
    ensures UnitsOf(Kept(list, sources, m, i)) == Kept(UnitsOf(list), sources, m, i)
    ensures UnitsOf(Dropped(list, sources, m, i)) == Dropped(UnitsOf(list), sources, m, i)
    decreases |list| - i
  {
    if i < |list| {
      UnitsOfKept(list, sources, m, i + 1);
    }
  }

  /** The services are the units sorted, each with the order that resolving the units from zero gave it. */
  ghost predicate SortedWithOrders(services: seq<Service>, units: seq<Unit>)
    reads services
  {
    exists positions :: Sorts(units, UnitsOf(services), positions) && CarryOrders(services, units, positions)
  }

  ghost predicate CarryOrders(services: seq<Service>, units: seq<Unit>, positions: seq<nat>)
    reads services
  {
    && |positions| == |services|
    && forall k :: 0 <= k < |services| ==>
         positions[k] < |units| && services[k].startingOrder == StartOrder.Chains(UnitGraph(units))[positions[k]]
  }

  /** libsystemd_same_path: the length of a path without trailing slashes. */
  method TrimmedLength(path: string) returns (length: nat)
    ensures length <= |path| && path[..length] == TrimPath(path)
  {
    length := |path|;
    assert path[..length] == path;
    while length > 1 && path[length - 1] == '/'
      invariant length <= |path| && TrimPath(path[..length]) == TrimPath(path)
    {
      assert path[..length][..length - 1] == path[..length - 1];
      length := length - 1;
    }
  }

  /** The rules of one directory: those with a class and something to do. */
  method ParseRules(list: seq<Rule>, source: Option<string>) returns (parsed: seq<Rule>)
    ensures parsed == LoadedRules(list, source)
  {
    parsed := [];
    assert list[..0] == [];
    for i := 0 to |list|
      invariant parsed == LoadedRules(list[..i], source)
    {
      assert list[..i + 1][..i] == list[..i] && list[..i + 1][i] == list[i];
      if list[i].className != "" && (list[i].start.Some? || list[i].remove.Some?) {
        parsed := parsed + [list[i].(source := source)];
      }
    }
    assert list[..|list|] == list;
  }

  lemma {:induction false} WithoutFirstAt(dirs: seq<string>, dir: string, i: nat)
    requires i < |dirs| && dirs[i] == dir && dir !in dirs[..i]
    ensures WithoutFirst(dirs, dir) == dirs[..i] + dirs[i + 1..]
  {
    if i > 0 {
      assert dirs[0] == dirs[..i][0];
      assert forall k :: 0 <= k < i - 1 ==> dirs[1..][k] == dirs[..i][k + 1];
      WithoutFirstAt(dirs[1..], dir, i - 1);
    }
  }

  class Store {
    var services: seq<Service>
    var templates: seq<TemplateRef>
    var rules: Option<seq<Rule>>
    var devices: seq<Device>
    var configDirs: seq<string>
    var unitsDir: Option<string>

    ghost predicate Valid()
      reads this, services
    {
      && Relaxation.Distinct(services)
      && forall s :: s in services ==> s.startingOrder >= 0
    }

    ghost function Value(): Registry
      reads this
    {
      EMPTY.(units := UnitsOf(services), templates := templates, rules := rules, devices := devices,
             configDirs := configDirs, unitsDir := unitsDir)
    }

    constructor ()
      ensures Valid() && Value() == EMPTY
    {
      services, templates, rules, devices, configDirs, unitsDir := [], [], None, [], [], None;
    }

    // -------------------------------------------------------------------------------------------------------------
    // Starting a unit
    // -------------------------------------------------------------------------------------------------------------

    method FindService(name: string) returns (i: nat)
      ensures i == FindUnit(UnitsOf(services), name)
    {
      i := 0;
      while i < |services| && services[i].unit.name != name
        invariant i <= |services| && forall j :: 0 <= j < i ==> services[j].unit.name != name
      {
        i := i + 1;
      }
      Search.FirstIs(Names(UnitsOf(services)), name, i);
    }

    method FindFirstTemplate(prefix: string) returns (i: nat)
      ensures i == FindTemplate(templates, prefix)
    {
      i := 0;
      while i < |templates| && templates[i].prefix != prefix
        invariant i <= |templates| && forall j :: 0 <= j < i ==> templates[j].prefix != prefix
      {
        i := i + 1;
      }
      Search.FirstIs(Prefixes(templates), prefix, i);
    }

    /** The instance a unit name stands for, or None if there is no template for it. */
    method MakeFromTemplate(files: Files, name: string, value: Option<string>) returns (made: Option<Result<Unit>>)
      ensures made.Some? <==> TemplateFor(Value(), name).Some?
      ensures made.Some? ==> made.value == MakeInstance(files, Value(), name, value)
    {
      var parts := SplitName(name);
      if parts == None {
        return None;
      }
      var (prefix, instance) := parts.value;
      var i := FindFirstTemplate(prefix);
      if i == |templates| {
        return None;
      }
      return Some(Instantiate(files.disk, templates[i], instance, value));
    }

    /** libsystemd_instantiate_service_on_demand. */
    method InstantiateOnDemand(files: Files, r: Request) returns (error: Option<StartError>)
      requires Valid() && FindUnit(Value().units, r.name) == |services|
      modifies this`services
      ensures Valid() && Value() == Start(files, old(Value()), r, false)
      ensures error == StartErrorOf(files, old(Value()), r, false)
    {
      if unitsDir == None {
        return Some(NoUnit);
      }
      var made := MakeFromTemplate(files, r.name, r.value);
      if made == None || made.value.Err? {
        return Some(NoUnit);
      }
      var stopTimeout: StopTimeout := *;
      var service := new Service(made.value.value, stopTimeout);
      services := services + [service];
      return None;
    }

    /** libsystemd_refresh_library_instance. */
    method RefreshLibraryInstance(files: Files, i: nat, r: Request, mayRefresh: bool)
      returns (error: Option<StartError>)
      requires Valid() && FindUnit(Value().units, r.name) == i < |services|
      modifies this`services
      ensures Valid() && Value() == Start(files, old(Value()), r, mayRefresh)
      ensures error == StartErrorOf(files, old(Value()), r, mayRefresh)
    {
      var unit := services[i].unit;
      if !unit.fromTemplate || unit.unitType != Library || !mayRefresh || r.value == None {
        return None;
      }
      var made := MakeFromTemplate(files, r.name, r.value);
      if made == None {
        return Some(NoTemplate);
      }
      if made.value.Err? {
        return Some(BadTemplate(made.value.error));
      }
      var stopTimeout: StopTimeout := *;
      var renewed := new Service(made.value.value, stopTimeout);
      services := services[i := renewed];
      return None;
    }

    /** The locked part of libsystemd_start_service. */
    method StartService(files: Files, r: Request, mayRefresh: bool) returns (error: Option<StartError>)
      requires Valid()
      modifies this`services
      ensures Valid() && Value() == Start(files, old(Value()), r, mayRefresh)
      ensures error == StartErrorOf(files, old(Value()), r, mayRefresh)
    {
      var i := FindService(r.name);
      if i < |services| {
        error := RefreshLibraryInstance(files, i, r, mayRefresh);
      } else {
        error := InstantiateOnDemand(files, r);
      }
    }

    // -------------------------------------------------------------------------------------------------------------
    // Devices
    // -------------------------------------------------------------------------------------------------------------

    method FindKnownDevice(className: string, name: string) returns (i: nat)
      ensures i == FindDevice(devices, className, name)
    {
      i := 0;
      while i < |devices| && !Matches(devices[i], className, name)
        invariant i <= |devices| && forall j :: 0 <= j < i ==> !Matches(devices[j], className, name)
      {
        i := i + 1;
      }
      Search.FirstIs(DeviceKeys(devices), (className, name), i);
    }

    /** libsystemd_remember_device. */
    method RememberDevice(d: Device)
      modifies this`devices
      ensures Value() == Remember(old(Value()), d)
    {
      var i := FindKnownDevice(d.className, d.name);
      if i == |devices| {
        devices := devices + [d];
      }
    }

    /** libsystemd_forget_device. */
    method ForgetDevice(className: string, name: string)
      modifies this`devices
      ensures Value() == Forget(old(Value()), className, name)
    {
      var i := FindKnownDevice(className, name);
      if i < |devices| {
        devices := devices[..i] + devices[i + 1..];
      }
    }

    /** libsystemd_resolve_device_targets. */
    method ResolveTargets(className: string, deviceName: string, removal: bool) returns (targets: seq<string>)
      ensures targets == Targets(Rules(Value()), className, deviceName, removal)
    {
      targets := [];
      if rules == None {
        return;
      }
      var list := rules.value;
      assert list[..0] == [];
      for i := 0 to |list|
        invariant targets == Targets(list[..i], className, deviceName, removal)
      {
        assert list[..i + 1][..i] == list[..i] && list[..i + 1][i] == list[i];
        var template := if removal then list[i].remove else list[i].start;
        if list[i].className == className && template.Some? {
          var target := Expansion.SubstituteDeviceName(template.value, deviceName);
          targets := targets + [target[..target.Length - 1]];
        }
      }
      assert list[..|list|] == list;
    }

    /** Starts units one after the other. errors has what the lookups reported, which stops none of the others. */
    method StartEach(files: Files, requests: seq<Request>, answers: seq<bool>)
      returns (errors: seq<Option<StartError>>)
      requires Valid()
      modifies this`services
      ensures Valid() && Value() == StartAll(files, old(Value()), requests, answers)
      ensures errors == StartErrors(files, old(Value()), requests, answers, |requests|)
    {
      errors := [];
      ghost var before := Value();
      for i := 0 to |requests|
        invariant Valid() && Value() == StartFirst(files, before, requests, answers, i)
        invariant errors == StartErrors(files, before, requests, answers, i)
      {
        StartFirstIs(files, before, requests, answers, i + 1);
        var error := StartService(files, requests[i], AnswerAt(answers, i));
        errors := errors + [error];
      }
    }

    /** The targets of one device. The answers are those from a place on. */
    method StartTargets(files: Files, targets: seq<string>, value: Option<string>, answers: seq<bool>, from: nat)
      returns (errors: seq<Option<StartError>>)
      requires Valid()
      modifies this`services
      ensures Valid()
      ensures var requests, rest := RequestsFor(targets, value), AnswersFrom(answers, from);
              && Value() == StartAll(files, old(Value()), requests, rest)
              && errors == StartErrors(files, old(Value()), requests, rest, |requests|)
    {
      errors := StartEach(files, RequestsFor(targets, value), AnswersFrom(answers, from));
    }

    /** libsystemd_replay_pending_devices: over a copy of the list, so that what is started may change it. */
    method ReplayPendingDevices(files: Files, answers: seq<bool>)
      requires Valid()
      modifies this`services
      ensures Valid() && Value() == Replay(files, old(Value()), answers)
    {
      ghost var before := Value();
      var copy, used := devices, 0;
      for i := 0 to |copy|
        invariant Valid() && used == |ReplayRequests(before, i)|
        invariant Value() == StartAll(files, before, ReplayRequests(before, i), answers)
      {
        ReplayOneMore(files, before, answers, i);
        var targets := ResolveTargets(copy[i].className, copy[i].name, false);
        var _ := StartTargets(files, targets, copy[i].value, answers, used);
        used := used + |targets|;
      }
    }

    /** errors has what the look-up of each target reported; without any target the C code reports -ENOENT. */
    method NotifyDeviceAdded(files: Files, d: Device, answers: seq<bool>) returns (errors: seq<Option<StartError>>)
      requires Valid()
      modifies this`services, this`devices
      ensures Valid() && Value() == DeviceAdded(files, old(Value()), d, answers)
      ensures var targets := Targets(Rules(old(Value())), d.className, d.name, false);
              errors == StartErrors(files, Remember(old(Value()), d), RequestsFor(targets, d.value), answers, |targets|)
    {
      RememberDevice(d);
      var targets := ResolveTargets(d.className, d.name, false);
      errors := StartTargets(files, targets, d.value, answers, 0);
    }

    /** stops has the names of the units that are stopped before the removal units start. */
    method NotifyDeviceRemoved(files: Files, className: string, name: string, answers: seq<bool>)
      returns (stops: seq<string>)
      requires Valid()
      modifies this`services, this`devices
      ensures Valid() && Value() == DeviceRemoved(files, old(Value()), className, name, answers)
      ensures stops == Targets(Rules(old(Value())), className, name, false)
    {
      var value := None;
      var i := FindKnownDevice(className, name);
      if i < |devices| {
        value := devices[i].value;
      }
      ForgetDevice(className, name);
      stops := ResolveTargets(className, name, false);
      var targets := ResolveTargets(className, name, true);
      var _ := StartTargets(files, targets, value, answers, 0);
    }

    // -------------------------------------------------------------------------------------------------------------
    // Reloads
    // -------------------------------------------------------------------------------------------------------------

    /** One new unit, ignored if its name is taken. */
    method AddService(unit: Unit)
      requires Valid()
      modifies this`services
      ensures Valid()
      ensures UnitsOf(services)
           == old(UnitsOf(services)) + (if old(HasUnit(UnitsOf(services), unit.name)) then [] else [unit])
      ensures old(services) <= services
      ensures forall i :: |old(services)| <= i < |services| ==> fresh(services[i]) && services[i].startingOrder == 0
    {
      var k := FindService(unit.name);
      if k == |services| {
        var stopTimeout: StopTimeout := *;
        var service := new Service(unit, stopTimeout);
        services := services + [service];
      }
    }

    method MergeServices(added: seq<Unit>)
      requires Valid()
      modifies this`services
      ensures Valid() && UnitsOf(services) == AddUnits(old(UnitsOf(services)), added, |added|)
      ensures old(services) <= services
      ensures forall i :: |old(services)| <= i < |services| ==> fresh(services[i]) && services[i].startingOrder == 0
    {
      ghost var units := UnitsOf(services);
      for i := 0 to |added|
        invariant Valid() && UnitsOf(services) == AddUnits(units, added, i)
        invariant old(services) <= services
        invariant forall i :: |old(services)| <= i < |services| ==> fresh(services[i]) && services[i].startingOrder == 0
      {
        AddService(added[i]);
      }
    }

    method MergeTemplates(added: seq<TemplateRef>)
      modifies this`templates
      ensures templates == AddTemplates(old(templates), added, |added|)
    {
      for i := 0 to |added|
        invariant templates == AddTemplates(old(templates), added, i)
      {
        var k := FindFirstTemplate(added[i].prefix);
        if k == |templates| {
          templates := templates + [added[i]];
        }
      }
    }

    /** libsystemd_merge_config_dir_units. */
    method MergeConfigDirUnits(files: Files, mountPoint: string) returns (found: bool)
      requires Valid()
      modifies this`services, this`templates
      ensures Valid() && Value() == MergeUnits(files, old(Value()), mountPoint)
      ensures found <==> ConfigPath(mountPoint, "services") in files.trees
      ensures old(services) <= services
      ensures forall i :: |old(services)| <= i < |services| ==> fresh(services[i]) && services[i].startingOrder == 0
    {
      var path := ConfigPath(mountPoint, "services");
      found := path in files.trees;
      if found {
        var parsed := ParseDir(files.disk, files.trees[path], Some(mountPoint));
        MergeServices(parsed.units);
        MergeTemplates(parsed.templates);
      }
    }

    /** libsystemd_merge_config_dir_rules. */
    method MergeConfigDirRules(files: Files, mountPoint: string) returns (found: bool)
      modifies this`rules
      ensures Value() == MergeRules(files, old(Value()), mountPoint)
      ensures found <==> ConfigPath(mountPoint, "rules") in files.rules
    {
      var path := ConfigPath(mountPoint, "rules");
      found := path in files.rules;
      if found {
        var parsed := ParseRules(files.rules[path], Some(mountPoint));
        assert [] + parsed == parsed;
        rules := match rules case Some(list) => Some(list + parsed) case None => Some(parsed);
      }
    }

    method InstallNewRules(files: Files, dir: string)
      requires Valid() && dir in files.rules
      modifies this`rules
      ensures Valid() && Value() == InstallRules(files, old(Value()), dir)
    {
      var parsed := ParseRules(files.rules[dir], None);
      rules := Some(parsed);
      ghost var base := Value();
      for i := 0 to |configDirs|
        invariant Value() == MergeAllRules(files, base, i)
      {
        var _ := MergeConfigDirRules(files, configDirs[i]);
      }
    }

    /** libsystemd_load_rules. */
    method ReloadRules(files: Files, dir: string, answers: seq<bool>) returns (found: bool)
      requires Valid()
      modifies this`services, this`rules
      ensures Valid() && Value() == LoadRules(files, old(Value()), dir, answers)
      ensures found <==> dir in files.rules
    {
      found := dir in files.rules;
      if found {
        InstallNewRules(files, dir);
        ReplayPendingDevices(files, answers);
      }
    }

    /** The services of a parsed directory, all new. */
    method BuildServices(units: seq<Unit>) returns (built: seq<Service>)
      ensures UnitsOf(built) == units && Relaxation.Distinct(built)
      ensures forall s :: s in built ==> fresh(s) && s.startingOrder == 0
    {
      built := [];
      for i := 0 to |units|
        invariant UnitsOf(built) == units[..i] && Relaxation.Distinct(built)
        invariant forall s :: s in built ==> fresh(s) && s.startingOrder == 0
      {
        var stopTimeout: StopTimeout := *;
        var service := new Service(units[i], stopTimeout);
        built := built + [service];
      }
      assert units[..|units|] == units;
    }

    /** A scan's new generation before it is sorted. */
    method BuildGeneration(files: Files, path: string)
      requires Valid() && path in files.trees
      modifies this`services, this`templates, this`unitsDir
      ensures Valid() && Value() == NewGeneration(files, old(Value()), path)
      ensures forall s :: s in services ==> fresh(s) && s.startingOrder == 0
    {
      var parsed := ParseDir(files.disk, files.trees[path], None);
      services := BuildServices(parsed.units);
      templates := parsed.templates;
      unitsDir := Some(path);
      ghost var base := Value();
      for i := 0 to |configDirs|
        invariant Valid() && Value() == MergeAllUnits(files, base, i)
        invariant forall s :: s in services ==> fresh(s) && s.startingOrder == 0
      {
        var _ := MergeConfigDirUnits(files, configDirs[i]);
      }
    }

    /** libsystemd_resolve_starting_order over the registry. */
    method ResolveOrders()
      requires Valid()
      modifies (set s | s in services)`startingOrder
      ensures Valid()
      ensures Relaxation.OrdersOf(services)
           == StartOrder.Resolve(UnitGraph(UnitsOf(services)), old(Relaxation.OrdersOf(services)))
    {
      ghost var graph, orders := UnitGraph(UnitsOf(services)), Relaxation.OrdersOf(services);
      assert Relaxation.GraphOf(services) == graph;
      Relaxation.ResolveStartingOrder(services);
      StartOrder.PassesMonotone(graph, orders, |graph|);
      forall s | s in services ensures s.startingOrder >= 0 {
        var k :| 0 <= k < |services| && services[k] == s;
        assert orders[k] >= 0 && Relaxation.OrdersOf(services)[k] == s.startingOrder;
      }
    }

    /** The list is sorted by the orders resolved from zero. */
    method SortServices()
      requires Valid() && Relaxation.OrdersOf(services) == StartOrder.Chains(UnitGraph(UnitsOf(services)))
      modifies this`services
      ensures Valid() && IsSortOf(UnitsOf(services), old(UnitsOf(services)))
      ensures SortedWithOrders(services, old(UnitsOf(services)))
      ensures forall s :: s in services ==> s in old(services)
    {
      ghost var units, list := UnitsOf(services), services;
      var sorted, positions := SortByStartingOrder(services);
      SortedServices(list, sorted, positions, Relaxation.OrdersOf(list));
      services := sorted;
      assert Sorts(units, UnitsOf(sorted), positions) && CarryOrders(sorted, units, positions);
    }

    method InstallGeneration(files: Files, path: string)
      requires Valid() && path in files.trees
      modifies this`services, this`templates, this`unitsDir
      ensures Valid() && Value() == InstallScan(files, old(Value()), path, UnitsOf(services))
      ensures IsSortOf(UnitsOf(services), NewGeneration(files, old(Value()), path).units)
      ensures SortedWithOrders(services, NewGeneration(files, old(Value()), path).units)
    {
      BuildGeneration(files, path);
      assert Relaxation.OrdersOf(services) == StartOrder.Zeros(|services|);
      ResolveOrders();
      SortServices();
    }

    /** The services the scan starts, by index, front to back. What starting one does is not part of this class. */
    method ListInOrder(count: nat) returns (started: seq<Service>)
      requires count <= |services|
      ensures started == services[..count]
    {
      started := [];
      for i := 0 to count
        invariant started == services[..i]
      {
        started := started + [services[i]];
      }
    }

    method ReplaceGeneration(files: Files, path: string, answers: seq<bool>) returns (started: seq<Service>)
      requires Valid() && path in files.trees
      modifies this`services, this`templates, this`unitsDir
      ensures Valid() && Value() == Scan(files, old(Value()), path, UnitsOf(started), answers)
      ensures IsSortOf(UnitsOf(started), NewGeneration(files, old(Value()), path).units)
      ensures SortedWithOrders(started, NewGeneration(files, old(Value()), path).units)
    {
      ghost var before := Value();
      InstallGeneration(files, path);
      started := ListInOrder(|services|);
      assert started == services;
      ghost var installed := Value();
      assert installed == InstallScan(files, before, path, UnitsOf(started));
      ReplayPendingDevices(files, answers);
      assert Value() == Replay(files, installed, answers);
    }

    /** libsystemd_scan. previous lists the units to be stopped first and started those to be started then, both in that
        order; each keeps the order it was sorted by. */
    method ScanDirectory(files: Files, path: string, answers: seq<bool>)
      returns (found: bool, previous: seq<Service>, started: seq<Service>)
      requires Valid()
      modifies this`services, this`templates, this`unitsDir
      ensures Valid() && (found <==> path in files.trees)
      ensures !found ==> Value() == old(Value()) && previous == [] && started == []
      ensures found ==>
                && previous == old(services)
                && IsSortOf(UnitsOf(started), NewGeneration(files, old(Value()), path).units)
                && SortedWithOrders(started, NewGeneration(files, old(Value()), path).units)
                && Value() == Scan(files, old(Value()), path, UnitsOf(started), answers)
    {
      found, previous, started := path in files.trees, [], [];
      if found {
        previous := services;
        started := ReplaceGeneration(files, path, answers);
      }
    }

    // -------------------------------------------------------------------------------------------------------------
    // Mount points
    // -------------------------------------------------------------------------------------------------------------

    method CheckLoaded(mountPoint: string) returns (loaded: bool)
      ensures loaded == IsLoaded(Value(), mountPoint)
    {
      loaded := mountPoint in configDirs;
      if unitsDir.Some? {
        var path := ConfigPath(mountPoint, "services");
        var a := TrimmedLength(path);
        var b := TrimmedLength(unitsDir.value);
        loaded := loaded || path[..a] == unitsDir.value[..b];
      }
    }

    /** The services of a mount point in registry order; picks has their places. */
    method CollectFrom(mountPoint: string) returns (list: seq<Service>, ghost picks: seq<nat>)
      ensures PlacedAt(list, services, picks)
      ensures forall a, b :: 0 <= a < b < |picks| ==> picks[a] < picks[b]
      ensures forall i: nat :: i in picks <==> i in From(UnitsOf(services), mountPoint, |services|)
    {
      list, picks := [], [];
      for i := 0 to |services|
        invariant PlacedAt(list, services, picks)
        invariant forall k :: 0 <= k < |picks| ==> picks[k] < i
        invariant forall a, b :: 0 <= a < b < |picks| ==> picks[a] < picks[b]
        invariant forall j: nat :: j in picks <==> j < i && services[j].unit.source == Some(mountPoint)
      {
        if services[i].unit.source == Some(mountPoint) {
          list := list + [services[i]];
          picks := picks + [i];
        }
      }
    }

    /** libsystemd_start_config_dir_services: starts has the places of the started units in the registry. */
    method StartFrom(mountPoint: string) returns (started: seq<Service>, ghost starts: seq<nat>)
      requires Valid()
      modifies (set s | s in services)`startingOrder
      ensures Valid()
      ensures StartsFrom(started, starts, UnitsOf(services), old(Relaxation.OrdersOf(services)), mountPoint)
    {
      ResolveOrders();
      ghost var orders := Relaxation.OrdersOf(services);
      var list, picks := CollectFrom(mountPoint);
      ghost var positions;
      started, positions := SortByStartingOrder(list);
      starts := seq(|positions|, k requires 0 <= k < |positions| => picks[positions[k]]);
      assert Relaxation.OrdersOf(list) == seq(|picks|, k requires 0 <= k < |picks| => orders[picks[k]]);
      PickedArranges(picks, From(UnitsOf(services), mountPoint, |services|), orders, positions, starts);
    }

    /** The locked part of libsystemd_add_config_dir. */
    method InstallConfigDir(files: Files, mountPoint: string) returns (result: int)
      requires Valid()
      modifies this`services, this`templates, this`rules, this`configDirs
      ensures Valid() && Value() == InstallConfig(files, old(Value()), mountPoint)
      ensures result == LoadResult(files, old(Value()), mountPoint)
      ensures old(services) <= services
      ensures forall i :: |old(services)| <= i < |services| ==> fresh(services[i]) && services[i].startingOrder == 0
    {
      var loaded := CheckLoaded(mountPoint);
      if loaded {
        return EALREADY;
      }
      ghost var before := Value();
      configDirs := configDirs + [mountPoint];
      var units := MergeConfigDirUnits(files, mountPoint);
      var rules := MergeConfigDirRules(files, mountPoint);
      if !units && !rules {
        configDirs := configDirs[..|configDirs| - 1];
        assert Value().configDirs == before.configDirs;
        return ENOENT;
      }
      return 0;
    }

    method StartAndReplay(files: Files, mountPoint: string, answers: seq<bool>)
      returns (started: seq<Service>, ghost starts: seq<nat>)
      requires Valid()
      modifies this`services, (set s | s in services)`startingOrder
      ensures Valid() && Value() == Replay(files, old(Value()), answers)
      ensures StartsFrom(started, starts, old(UnitsOf(services)), old(Relaxation.OrdersOf(services)), mountPoint)
    {
      started, starts := StartFrom(mountPoint);
      ReplayPendingDevices(files, answers);
    }

    /** libsystemd_add_config_dir. The new units are started in ascending order of the orders that resolving the whole
        registry from its present orders, and zero for the new units, yields. */
    method LoadConfigDir(files: Files, mountPoint: string, answers: seq<bool>)
      returns (result: int, started: seq<Service>, ghost starts: seq<nat>)
      requires Valid()
      modifies this`services, this`templates, this`rules, this`configDirs, (set s | s in services)`startingOrder
      ensures Valid() && Value() == AddConfigDir(files, old(Value()), mountPoint, answers)
      ensures result == LoadResult(files, old(Value()), mountPoint)
      ensures result != 0 ==> started == []
      ensures result == 0 ==>
                var units := InstallConfig(files, old(Value()), mountPoint).units;
                StartsFrom(started, starts, units, Padded(old(Relaxation.OrdersOf(services)), |units|), mountPoint)
    {
      started, starts := [], [];
      result := InstallConfigDir(files, mountPoint);
      if result == 0 {
        assert Relaxation.OrdersOf(services) == Padded(old(Relaxation.OrdersOf(services)), |services|);
        assert forall s :: s in services ==> s in old(services) || fresh(s);
        started, starts := StartAndReplay(files, mountPoint, answers);
      }
    }

    /** Backwards through the registry: what is from the mount point is taken out, last one first. */
    method TakeServicesFrom(mountPoint: string) returns (removed: seq<Service>)
      requires Valid()
      modifies this`services
      ensures Valid()
      ensures UnitsOf(services) == Kept(old(UnitsOf(services)), old(UnitSources(UnitsOf(services))), mountPoint, 0)
      ensures UnitsOf(removed) == Dropped(old(UnitsOf(services)), old(UnitSources(UnitsOf(services))), mountPoint, 0)
    {
      removed := [];
      ghost var list, sources := services, UnitSources(UnitsOf(services));
      var i := |services|;
      while i > 0
        invariant 0 <= i <= |list| && services == list[..i] + Kept(list, sources, mountPoint, i)
        invariant removed == Dropped(list, sources, mountPoint, i)
      {
        i := i - 1;
        KeptStep(list, sources, mountPoint, i, services);
        if services[i].unit.source == Some(mountPoint) {
          removed := removed + [services[i]];
          services := services[..i] + services[i + 1..];
        }
      }
      assert services == Kept(list, sources, mountPoint, 0);
      KeptDistinct(list, sources, mountPoint);
      UnitsOfKept(list, sources, mountPoint, 0);
    }

    method DropTemplatesFrom(mountPoint: string)
      modifies this`templates
      ensures templates == Kept(old(templates), TemplateSources(old(templates)), mountPoint, 0)
    {
      ghost var list, sources := templates, TemplateSources(templates);
      var i := |templates|;
      while i > 0
        invariant 0 <= i <= |list| && templates == list[..i] + Kept(list, sources, mountPoint, i)
      {
        i := i - 1;
        KeptStep(list, sources, mountPoint, i, templates);
        if templates[i].source == Some(mountPoint) {
          templates := templates[..i] + templates[i + 1..];
        }
      }
    }

    static method RulesWithout(list: seq<Rule>, mountPoint: string) returns (kept: seq<Rule>)
      ensures kept == Kept(list, RuleSources(list), mountPoint, 0)
    {
      kept := list;
      var i := |list|;
      while i > 0
        invariant 0 <= i <= |list| && kept == list[..i] + Kept(list, RuleSources(list), mountPoint, i)
      {
        i := i - 1;
        KeptStep(list, RuleSources(list), mountPoint, i, kept);
        if kept[i].source == Some(mountPoint) {
          kept := kept[..i] + kept[i + 1..];
        }
      }
    }

    method DropRulesFrom(mountPoint: string)
      modifies this`rules
      ensures rules == match old(rules)
                       case Some(list) => Some(Kept(list, RuleSources(list), mountPoint, 0))
                       case None => None
    {
      if rules.Some? {
        var kept := RulesWithout(rules.value, mountPoint);
        rules := Some(kept);
      }
    }

    /** The first entry for the mount point goes. */
    method DropConfigDir(mountPoint: string) returns (found: bool)
      modifies this`configDirs
      ensures found <==> mountPoint in old(configDirs)
      ensures configDirs == if found then WithoutFirst(old(configDirs), mountPoint) else old(configDirs)
    {
      var i := 0;
      while i < |configDirs| && configDirs[i] != mountPoint
        invariant i <= |configDirs| && mountPoint !in configDirs[..i]
      {
        i := i + 1;
      }
      found := i < |configDirs|;
      if found {
        WithoutFirstAt(configDirs, mountPoint, i);
        configDirs := configDirs[..i] + configDirs[i + 1..];
      }
    }

    /** libsystemd_remove_config_dir. stopped has the removed units in the order in which they are stopped. */
    method UnloadConfigDir(mountPoint: string) returns (result: int, stopped: seq<Service>)
      requires Valid()
      modifies this`services, this`templates, this`rules, this`configDirs
      ensures Valid() && Value() == RemoveConfig(old(Value()), mountPoint)
      ensures result == if mountPoint in old(configDirs) then 0 else ENOENT
      ensures UnitsOf(stopped) == Stopped(old(Value()), mountPoint)
    {
      stopped := [];
      var found := DropConfigDir(mountPoint);
      if !found {
        return ENOENT, [];
      }
      stopped := TakeServicesFrom(mountPoint);
      DropTemplatesFrom(mountPoint);
      DropRulesFrom(mountPoint);
      result := 0;
    }
  }
}
