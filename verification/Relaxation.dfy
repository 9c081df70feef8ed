/** The relaxation loop over service objects, proved against the functions of module StartOrder. */
module Relaxation {
  import opened Services
  import opened StartOrder
  import Search

  ghost predicate Distinct(services: seq<Service>) {
    forall i, j :: 0 <= i < j < |services| ==> services[i] != services[j]
  }

  ghost function NodeOf(unit: Unit): Node {
    Node(unit.name, unit.required, unit.after)
  }

  ghost function GraphOf(services: seq<Service>): (g: Graph)
    ensures |g| == |services|
    ensures forall i :: 0 <= i < |g| ==> g[i] == NodeOf(services[i].unit)
  {
    seq(|services|, i requires 0 <= i < |services| => NodeOf(services[i].unit))
  }

  ghost function OrdersOf(services: seq<Service>): (o: seq<int>)
    reads services
    ensures |o| == |services|
    ensures forall i :: 0 <= i < |o| ==> o[i] == services[i].startingOrder
  {
    seq(|services|, i requires 0 <= i < |services| reads services => services[i].startingOrder)
  }

  method FindService(services: seq<Service>, name: string) returns (i: nat)
    ensures i == FindFirst(GraphOf(services), name)
  {
    i := 0;
    while i < |services| && services[i].unit.name != name
      invariant i <= |services|
      invariant forall j :: 0 <= j < i ==> services[j].unit.name != name
    {
      i := i + 1;
    }
    Search.FirstIs(NodeNames(GraphOf(services)), name, i);
  }

  /** libsystemd_dependency_order_visitor over one list of names. */
  method FoldDependencies(services: seq<Service>, names: seq<string>, start: int) returns (max: int)
    ensures max == Fold(GraphOf(services), OrdersOf(services), names, start)
  {
    ghost var g, o := GraphOf(services), OrdersOf(services);
    max := start;
    for k := 0 to |names|
      invariant Fold(g, o, names, start) == Fold(g, o, names[k..], max)
    {
      assert names[k..][0] == names[k] && names[k..][1..] == names[k + 1..];
      var d := FindService(services, names[k]);
      if d < |services| && services[d].startingOrder + 1 > max {
        max := services[d].startingOrder + 1;
      }
    }
    assert names[|names|..] == [];
  }

  /** libsystemd_resolve_service_order_visitor. */
  method RelaxService(services: seq<Service>, i: nat) returns (changed: bool)
    requires Distinct(services) && i < |services|
    modifies {services[i]}`startingOrder
    ensures OrdersOf(services) == Relax(GraphOf(services), old(OrdersOf(services)), i)
    ensures changed <==> OrdersOf(services) != old(OrdersOf(services))
  {
    var unit := services[i].unit;
    ghost var g, o := GraphOf(services), OrdersOf(services);
    var max := FoldDependencies(services, unit.required, 0);
    max := FoldDependencies(services, unit.after, max);
    FoldConcat(g, o, unit.required, unit.after, 0);
    changed := max > services[i].startingOrder;
    if changed {
      services[i].startingOrder := max;
    }
    assert OrdersOf(services) == Relax(g, o, i);
    assert changed ==> OrdersOf(services)[i] != o[i];
  }

  /** Since orders only grow, a pass has changed something exactly when one of its steps has. */
  lemma PassChanges(g: Graph, o: seq<int>, i: nat)
    requires |o| == |g| && i < |g|
    ensures Pass(g, o, i + 1) == Relax(g, Pass(g, o, i), i)
    ensures Pass(g, o, i + 1) != o <==> Pass(g, o, i) != o || Pass(g, o, i + 1) != Pass(g, o, i)
  {
    if Pass(g, o, i + 1) == o {
      UnchangedPrefix(g, o, i + 1, i);
    }
  }

  /** One pass over the whole list. */
  method RelaxAll(services: seq<Service>) returns (changed: bool)
    requires Distinct(services)
    modifies (set s | s in services)`startingOrder
    ensures OrdersOf(services) == Pass(GraphOf(services), old(OrdersOf(services)), |services|)
    ensures changed <==> OrdersOf(services) != old(OrdersOf(services))
  {
    ghost var g, o := GraphOf(services), OrdersOf(services);
    changed := false;
    for i := 0 to |services|
      invariant OrdersOf(services) == Pass(g, o, i)
      invariant changed <==> Pass(g, o, i) != o
    {
      var raised := RelaxService(services, i);
      PassChanges(g, o, i);
      changed := changed || raised;
    }
  }

  /** libsystemd_resolve_starting_order: at most one pass per service, ending early at a pass without change. */
  method ResolveStartingOrder(services: seq<Service>)
    requires Distinct(services)
    modifies (set s | s in services)`startingOrder
    ensures OrdersOf(services) == Resolve(GraphOf(services), old(OrdersOf(services)))
  {
    ghost var g, o := GraphOf(services), OrdersOf(services);
    var i, changed := 0, true;
    while i < |services| && changed
      invariant i <= |services|
      invariant OrdersOf(services) == Passes(g, o, i)
      invariant !changed ==> Stable(g, Passes(g, o, i))
    {
      ghost var before := Passes(g, o, i);
      changed := RelaxAll(services);
      UnchangedPassIsStable(g, before);
      assert Passes(g, o, i + 1) == Pass(g, before, |services|);
      i := i + 1;
    }
    if !changed {
      StopEarly(g, o, i, |services|);
    }
  }
}
