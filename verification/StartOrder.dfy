/** The start order of units, computed by in-place relaxation
    (app/libsystemd/src/serviceapi.c:794-894).

    A registry is a sequence of nodes; a dependency name stands for the first node of that name, and a name that no
    node bears is ignored. The relaxation starts from whatever orders the nodes already carry, because a mount
    resolves the whole registry again without clearing them. */
module StartOrder {
  import Search

  datatype Node = Node(name: string, required: seq<string>, after: seq<string>) {
    /** The names in the order in which they are looked at. */
    function Names(): seq<string> {
      required + after
    }
  }

  type Graph = seq<Node>

  function NodeNames(g: Graph): (names: seq<string>)
    ensures |names| == |g| && forall i :: 0 <= i < |g| ==> names[i] == g[i].name
  {
    seq(|g|, i requires 0 <= i < |g| => g[i].name)
  }

  /** The first node of a name, or |g|. */
  function FindFirst(g: Graph, name: string): (i: nat)
    ensures i <= |g|
    ensures i < |g| ==> g[i].name == name
    ensures forall j :: 0 <= j < i ==> g[j].name != name
  {
    Search.First(NodeNames(g), name)
  }

  ghost predicate Edge(g: Graph, i: nat, d: nat) {
    && i < |g|
    && d < |g|
    && exists k :: 0 <= k < |g[i].Names()| && FindFirst(g, g[i].Names()[k]) == d
  }

  // ---------------------------------------------------------------------------------------------------------------
  // What the relaxation computes
  // ---------------------------------------------------------------------------------------------------------------

  /** The dependency visitor folded over a list of names. */
  function Fold(g: Graph, o: seq<int>, names: seq<string>, max: int): int
    requires |o| == |g|
  {
    if names == [] then max
    else
      var d := FindFirst(g, names[0]);
      Fold(g, o, names[1..], if d < |g| && o[d] + 1 > max then o[d] + 1 else max)
  }

  function Demand(g: Graph, o: seq<int>, i: nat): int
    requires |o| == |g| && i < |g|
  {
    Fold(g, o, g[i].Names(), 0)
  }

  function Relax(g: Graph, o: seq<int>, i: nat): (r: seq<int>)
    requires |o| == |g| && i < |g|
    ensures |r| == |g|
  {
    if Demand(g, o, i) > o[i] then o[i := Demand(g, o, i)] else o
  }

  /** The first k nodes relaxed in list order, each seeing the orders its predecessors have just been given. */
  function Pass(g: Graph, o: seq<int>, k: nat): (r: seq<int>)
    requires |o| == |g| && k <= |g|
    ensures |r| == |g|
  {
    if k == 0 then o else Relax(g, Pass(g, o, k - 1), k - 1)
  }

  function Passes(g: Graph, o: seq<int>, m: nat): (r: seq<int>)
    requires |o| == |g|
    ensures |r| == |g|
  {
    if m == 0 then o else Pass(g, Passes(g, o, m - 1), |g|)
  }

  /** As many passes as there are nodes. Stopping early at a pass without change gives the same orders. */
  function Resolve(g: Graph, o: seq<int>): (r: seq<int>)
    requires |o| == |g|
    ensures |r| == |g|
  {
    Passes(g, o, |g|)
  }

  ghost predicate Stable(g: Graph, o: seq<int>)
    requires |o| == |g|
  {
    forall i :: 0 <= i < |g| ==> Demand(g, o, i) <= o[i]
  }

  // ---------------------------------------------------------------------------------------------------------------
  // The reference definition: weighted longest dependency paths
  // ---------------------------------------------------------------------------------------------------------------

  ghost predicate IsPath(g: Graph, p: seq<nat>) {
    && p != []
    && (forall k :: 0 <= k < |p| ==> p[k] < |g|)
    && (forall k :: 0 <= k < |p| - 1 ==> Edge(g, p[k], p[k + 1]))
  }

  ghost predicate Simple(p: seq<nat>) {
    forall a, b :: 0 <= a < b < |p| ==> p[a] != p[b]
  }

  /** The order the end of the path starts with, plus one for each step to it. */
  ghost function Weight(o: seq<int>, p: seq<nat>): int
    requires p != [] && p[|p| - 1] < |o|
  {
    o[p[|p| - 1]] + |p| - 1
  }

  ghost predicate PathFrom(g: Graph, i: nat, p: seq<nat>) {
    IsPath(g, p) && p[0] == i
  }

  ghost predicate Attained(g: Graph, o: seq<int>, i: nat, v: int)
    requires |o| == |g|
  {
    exists p :: PathFrom(g, i, p) && Weight(o, p) == v
  }

  /** v is the greatest weight of a dependency path from i. */
  ghost predicate IsLongest(g: Graph, o: seq<int>, i: nat, v: int)
    requires |o| == |g|
  {
    && Attained(g, o, i, v)
    && (forall p :: PathFrom(g, i, p) ==> Weight(o, p) <= v)
  }

  ghost predicate ReachesCycle(g: Graph, i: nat) {
    exists p :: PathFrom(g, i, p) && !Simple(p)
  }

  ghost predicate Acyclic(g: Graph) {
    forall i :: 0 <= i < |g| ==> !ReachesCycle(g, i)
  }

  ghost predicate NonNegative(o: seq<int>) {
    forall i :: 0 <= i < |o| ==> o[i] >= 0
  }

  ghost predicate LessEq(a: seq<int>, b: seq<int>) {
    |a| == |b| && forall i :: 0 <= i < |a| ==> a[i] <= b[i]
  }

  function Zeros(n: nat): (o: seq<int>)
    ensures |o| == n && forall i :: 0 <= i < n ==> o[i] == 0
  {
    seq(n, _ => 0)
  }

  // ---------------------------------------------------------------------------------------------------------------
  // One step
  // ---------------------------------------------------------------------------------------------------------------

  lemma {:induction false} FoldBounds(g: Graph, o: seq<int>, names: seq<string>, max: int)
    requires |o| == |g|
    ensures Fold(g, o, names, max) >= max
    ensures forall k :: 0 <= k < |names| ==>
              var d := FindFirst(g, names[k]); d < |g| ==> o[d] + 1 <= Fold(g, o, names, max)
    ensures Fold(g, o, names, max) == max
            || exists k :: 0 <= k < |names| && FindFirst(g, names[k]) < |g|
                           && Fold(g, o, names, max) == o[FindFirst(g, names[k])] + 1
  {
    if names == [] {
    } else {
      var d := FindFirst(g, names[0]);
      var m := if d < |g| && o[d] + 1 > max then o[d] + 1 else max;
      FoldBounds(g, o, names[1..], m);
      var f := Fold(g, o, names, max);
      forall k | 0 <= k < |names|
        ensures var e := FindFirst(g, names[k]); e < |g| ==> o[e] + 1 <= f
      {
        if k > 0 { assert names[k] == names[1..][k - 1]; }
      }
      if f != m {
        var k :| 0 <= k < |names[1..]| && FindFirst(g, names[1..][k]) < |g|
                 && f == o[FindFirst(g, names[1..][k])] + 1;
        assert names[1..][k] == names[k + 1];
      } else if m != max {
        assert FindFirst(g, names[0]) < |g| && f == o[FindFirst(g, names[0])] + 1;
      }
    }
  }

  lemma {:induction false} FoldConcat(g: Graph, o: seq<int>, a: seq<string>, b: seq<string>, max: int)
    requires |o| == |g|
    ensures Fold(g, o, a + b, max) == Fold(g, o, b, Fold(g, o, a, max))
  {
    if a == [] {
      assert a + b == b;
    } else {
      var d := FindFirst(g, a[0]);
      FoldConcat(g, o, a[1..], b, if d < |g| && o[d] + 1 > max then o[d] + 1 else max);
      assert (a + b)[1..] == a[1..] + b;
    }
  }

  /** A node demands one more than each of its dependencies, and no more than one of them calls for. */
  lemma DemandBounds(g: Graph, o: seq<int>, i: nat)
    requires |o| == |g| && i < |g|
    ensures Demand(g, o, i) >= 0
    ensures forall d: nat :: Edge(g, i, d) ==> o[d] + 1 <= Demand(g, o, i)
    ensures Demand(g, o, i) == 0 || exists d: nat :: Edge(g, i, d) && Demand(g, o, i) == o[d] + 1
  {
    FoldBounds(g, o, g[i].Names(), 0);
    if Demand(g, o, i) != 0 {
      var k :| 0 <= k < |g[i].Names()| && FindFirst(g, g[i].Names()[k]) < |g|
               && Demand(g, o, i) == o[FindFirst(g, g[i].Names()[k])] + 1;
      assert Edge(g, i, FindFirst(g, g[i].Names()[k]));
    }
  }

  lemma {:induction false} PassMonotone(g: Graph, o: seq<int>, k: nat)
    requires |o| == |g| && k <= |g|
    ensures LessEq(o, Pass(g, o, k))
  {
    if k > 0 { PassMonotone(g, o, k - 1); }
  }

  /** Orders never decrease, whatever they start from and whether or not there are cycles. */
  lemma {:induction false} PassesMonotone(g: Graph, o: seq<int>, m: nat)
    requires |o| == |g|
    ensures LessEq(o, Passes(g, o, m))
  {
    if m > 0 {
      PassesMonotone(g, o, m - 1);
      PassMonotone(g, Passes(g, o, m - 1), |g|);
    }
  }

  /** One pass moves every order past the previous order of each dependency. */
  lemma {:induction false} PassCovers(g: Graph, o: seq<int>, k: nat, i: nat, d: nat)
    requires |o| == |g| && i < k <= |g| && Edge(g, i, d)
    ensures Pass(g, o, k)[i] >= o[d] + 1
  {
    if i == k - 1 {
      PassMonotone(g, o, k - 1);
      DemandBounds(g, Pass(g, o, k - 1), i);
    } else {
      PassCovers(g, o, k - 1, i, d);
    }
  }

  lemma TailIsPath(g: Graph, p: seq<nat>)
    requires IsPath(g, p) && |p| > 1
    ensures IsPath(g, p[1..])
  {
    forall k | 0 <= k < |p[1..]| - 1 ensures Edge(g, p[1..][k], p[1..][k + 1]) {
      assert Edge(g, p[k + 1], p[k + 2]);
    }
  }

  /** After m passes, paths of at most m steps are accounted for. */
  lemma {:induction false} PassesCover(g: Graph, o: seq<int>, m: nat, p: seq<nat>)
    requires |o| == |g| && IsPath(g, p) && |p| - 1 <= m
    ensures Passes(g, o, m)[p[0]] >= Weight(o, p)
  {
    if |p| == 1 {
      PassesMonotone(g, o, m);
    } else {
      var q := p[1..];
      TailIsPath(g, p);
      PassesCover(g, o, m - 1, q);
      assert Edge(g, p[0], p[1]);
      PassCovers(g, Passes(g, o, m - 1), |g|, p[0], p[1]);
    }
  }

  // ---------------------------------------------------------------------------------------------------------------
  // Every order is the weight of some path
  // ---------------------------------------------------------------------------------------------------------------

  lemma ExtendPath(g: Graph, base: seq<int>, i: nat, d: nat, q: seq<nat>)
    requires |base| == |g| && Edge(g, i, d) && PathFrom(g, d, q)
    ensures PathFrom(g, i, [i] + q) && Weight(base, [i] + q) == Weight(base, q) + 1
  {
    var p := [i] + q;
    assert p[1..] == q;
    forall k | 0 <= k < |p| - 1 ensures Edge(g, p[k], p[k + 1]) {
      if k > 0 { assert Edge(g, q[k - 1], q[k]); }
    }
  }

  lemma TrivialPath(g: Graph, base: seq<int>, i: nat)
    requires |base| == |g| && i < |g|
    ensures PathFrom(g, i, [i]) && Weight(base, [i]) == base[i]
  {
  }

  /** A relaxation leaves an order as it is or sets it to one more than the order of a dependency. */
  lemma RelaxStep(g: Graph, o: seq<int>, j: nat, i: nat) returns (raised: bool, d: nat)
    requires |o| == |g| && NonNegative(o) && j < |g| && i < |g|
    ensures raised ==> Edge(g, i, d) && Relax(g, o, j)[i] == o[d] + 1
    ensures !raised ==> Relax(g, o, j)[i] == o[i]
  {
    raised, d := false, 0;
    if i == j && Demand(g, o, i) > o[i] {
      DemandBounds(g, o, i);
      raised := true;
      d :| Edge(g, i, d) && Demand(g, o, i) == o[d] + 1;
    }
  }

  /** The path behind the order of node i when k nodes of the pass after the first m have been relaxed. */
  lemma {:induction false} PathBehind(g: Graph, base: seq<int>, m: nat, k: nat, i: nat) returns (p: seq<nat>)
    requires |base| == |g| && NonNegative(base) && k <= |g| && i < |g|
    ensures PathFrom(g, i, p) && Weight(base, p) == Pass(g, Passes(g, base, m), k)[i]
    decreases m, k
  {
    var start := Passes(g, base, m);
    if k == 0 && m == 0 {
      p := [i];
      TrivialPath(g, base, i);
    } else if k == 0 {
      p := PathBehind(g, base, m - 1, |g|, i);
    } else {
      var before := Pass(g, start, k - 1);
      assert NonNegative(before) by {
        PassesMonotone(g, base, m);
        PassMonotone(g, start, k - 1);
      }
      var raised, d := RelaxStep(g, before, k - 1, i);
      if raised {
        var q := PathBehind(g, base, m, k - 1, d);
        ExtendPath(g, base, i, d, q);
        p := [i] + q;
      } else {
        p := PathBehind(g, base, m, k - 1, i);
      }
    }
  }

  // ---------------------------------------------------------------------------------------------------------------
  // A path without a repeated node is short
  // ---------------------------------------------------------------------------------------------------------------

  lemma {:induction false} Pigeonhole(p: seq<nat>, n: nat)
    requires Simple(p) && forall k :: 0 <= k < |p| ==> p[k] < n
    ensures |p| <= n
  {
    if n == 0 {
    } else if n - 1 !in p {
      Pigeonhole(p, n - 1);
    } else {
      var k :| 0 <= k < |p| && p[k] == n - 1;
      Pigeonhole(p[..k] + p[k + 1..], n - 1);
    }
  }

  // ---------------------------------------------------------------------------------------------------------------
  // Main results
  // ---------------------------------------------------------------------------------------------------------------

  /** A unit that cannot reach a cycle gets exactly its weighted longest chain, from any non-negative orders, even
      when other units are on cycles. */
  lemma ResolveIsLongest(g: Graph, o: seq<int>, i: nat)
    requires |o| == |g| && NonNegative(o) && i < |g| && !ReachesCycle(g, i)
    ensures IsLongest(g, o, i, Resolve(g, o)[i])
  {
    var longest := PathBehind(g, o, |g|, 0, i);
    forall p | PathFrom(g, i, p) ensures Weight(o, p) <= Resolve(g, o)[i] {
      assert Simple(p);
      Pigeonhole(p, |g|);
      PassesCover(g, o, |g|, p);
    }
  }

  /** Without cycles the fixed point is there before the last of the |g| passes, so that pass changes nothing. */
  lemma ConvergesWithinBound(g: Graph, o: seq<int>, m: nat)
    requires |o| == |g| && NonNegative(o) && Acyclic(g) && m + 1 >= |g|
    ensures Stable(g, Passes(g, o, m))
  {
    var c := Passes(g, o, m);
    forall i | 0 <= i < |g| ensures Demand(g, c, i) <= c[i] {
      DemandBounds(g, c, i);
      PassesMonotone(g, o, m);
      if Demand(g, c, i) > c[i] {
        var d: nat :| Edge(g, i, d) && Demand(g, c, i) == c[d] + 1;
        var q := PathBehind(g, o, m, 0, d);
        ExtendPath(g, o, i, d, q);
        var p := [i] + q;
        assert !ReachesCycle(g, i);
        assert Simple(p);
        Pigeonhole(p, |g|);
        PassesCover(g, o, m, p);
      }
    }
  }

  lemma {:induction false} StablePass(g: Graph, o: seq<int>, k: nat)
    requires |o| == |g| && k <= |g| && Stable(g, o)
    ensures Pass(g, o, k) == o
  {
    if k > 0 { StablePass(g, o, k - 1); }
  }

  lemma {:induction false} UnchangedPrefix(g: Graph, o: seq<int>, k: nat, j: nat)
    requires |o| == |g| && j <= k <= |g| && Pass(g, o, k) == o
    ensures Pass(g, o, j) == o
    decreases k - j
  {
    if j < k {
      PassMonotone(g, o, k - 1);
      assert LessEq(Pass(g, o, k - 1), Pass(g, o, k));
      assert Pass(g, o, k - 1) == o;
      UnchangedPrefix(g, o, k - 1, j);
    }
  }

  lemma UnchangedDemand(g: Graph, o: seq<int>, i: nat)
    requires |o| == |g| && i < |g| && Pass(g, o, |g|) == o
    ensures Demand(g, o, i) <= o[i]
  {
    UnchangedPrefix(g, o, |g|, i);
    UnchangedPrefix(g, o, |g|, i + 1);
    assert Relax(g, o, i)[i] == o[i];
  }

  /** A pass without change has reached the fixed point. */
  lemma {:induction false} UnchangedPassIsStable(g: Graph, o: seq<int>)
    requires |o| == |g|
    ensures Pass(g, o, |g|) == o <==> Stable(g, o)
  {
    if Stable(g, o) {
      StablePass(g, o, |g|);
    }
    if Pass(g, o, |g|) == o {
      forall i: nat | i < |g| ensures Demand(g, o, i) <= o[i] {
        UnchangedDemand(g, o, i);
      }
    }
  }

  lemma {:induction false} StablePasses(g: Graph, o: seq<int>, m: nat)
    requires |o| == |g| && Stable(g, o)
    ensures Passes(g, o, m) == o
  {
    if m > 0 {
      StablePasses(g, o, m - 1);
      StablePass(g, o, |g|);
    }
  }

  lemma {:induction false} StopEarly(g: Graph, o: seq<int>, j: nat, m: nat)
    requires |o| == |g| && j <= m && Stable(g, Passes(g, o, j))
    ensures Passes(g, o, m) == Passes(g, o, j)
  {
    if j < m {
      StopEarly(g, o, j, m - 1);
      StablePass(g, Passes(g, o, j), |g|);
    }
  }

  lemma {:induction false} StableAlongPath(g: Graph, o: seq<int>, p: seq<nat>)
    requires |o| == |g| && Stable(g, o) && IsPath(g, p)
    ensures o[p[0]] >= Weight(o, p)
  {
    if |p| > 1 {
      var q := p[1..];
      TailIsPath(g, p);
      StableAlongPath(g, o, q);
      assert Edge(g, p[0], p[1]);
      DemandBounds(g, o, p[0]);
    }
  }

  lemma LoopIsUnstable(g: Graph, o: seq<int>, p: seq<nat>, a: nat, b: nat)
    requires |o| == |g| && IsPath(g, p) && a < b < |p| && p[a] == p[b]
    ensures !Stable(g, o)
  {
    var loop := p[a..b + 1];
    forall k | 0 <= k < |loop| - 1 ensures Edge(g, loop[k], loop[k + 1]) {
      assert Edge(g, p[a + k], p[a + k + 1]);
    }
    if Stable(g, o) {
      StableAlongPath(g, o, loop);
    }
  }

  /** The bounded loop ends at the fixed point exactly when the dependencies have no cycle. */
  lemma ReachesFixedPointIffAcyclic(g: Graph, o: seq<int>)
    requires |o| == |g| && NonNegative(o)
    ensures Stable(g, Resolve(g, o)) <==> Acyclic(g)
  {
    var r := Resolve(g, o);
    if Acyclic(g) {
      ConvergesWithinBound(g, o, |g|);
    }
    if Stable(g, r) && !Acyclic(g) {
      var i :| 0 <= i < |g| && ReachesCycle(g, i);
      var p :| PathFrom(g, i, p) && !Simple(p);
      var a, b :| 0 <= a < b < |p| && p[a] == p[b];
      LoopIsUnstable(g, r, p, a, b);
    }
  }

  lemma {:induction false} PassBound(g: Graph, o: seq<int>, k: nat, max: int)
    requires |o| == |g| && k <= |g| && max >= 0
    requires forall i :: 0 <= i < |o| ==> o[i] <= max
    ensures forall i :: 0 <= i < |g| ==> Pass(g, o, k)[i] <= max + k
  {
    if k > 0 {
      PassBound(g, o, k - 1, max);
      DemandBounds(g, Pass(g, o, k - 1), k - 1);
    }
  }

  lemma {:induction false} PassesBound(g: Graph, o: seq<int>, m: nat, max: int)
    requires |o| == |g| && max >= 0
    requires forall i :: 0 <= i < |o| ==> o[i] <= max
    ensures forall i :: 0 <= i < |g| ==> Passes(g, o, m)[i] <= max + m * |g|
  {
    if m > 0 {
      PassesBound(g, o, m - 1, max);
      assert (m - 1) * |g| + |g| == m * |g|;
      assert (m - 1) * |g| >= 0;
      PassBound(g, Passes(g, o, m - 1), |g|, max + (m - 1) * |g|);
    }
  }

  /** Cycles or not: orders never decrease and stay within the initial maximum plus |g| squared. */
  lemma ResolveWithinBounds(g: Graph, o: seq<int>, max: int)
    requires |o| == |g| && max >= 0
    requires forall i :: 0 <= i < |o| ==> o[i] <= max
    ensures forall i :: 0 <= i < |g| ==> o[i] <= Resolve(g, o)[i] <= max + |g| * |g|
  {
    PassesMonotone(g, o, |g|);
    PassesBound(g, o, |g|, max);
  }

  // ---------------------------------------------------------------------------------------------------------------
  // Resolving again (a mount resolves a registry that already carries orders)
  // ---------------------------------------------------------------------------------------------------------------

  ghost function Chains(g: Graph): (c: seq<int>)
    ensures |c| == |g|
  {
    Resolve(g, Zeros(|g|))
  }

  lemma JoinPaths(g: Graph, p: seq<nat>, q: seq<nat>)
    requires IsPath(g, p) && IsPath(g, q) && p[|p| - 1] == q[0]
    ensures IsPath(g, p + q[1..]) && (p + q[1..])[0] == p[0]
  {
    var j := p + q[1..];
    forall k | 0 <= k < |j| - 1 ensures Edge(g, j[k], j[k + 1]) {
      if k + 1 < |p| {
        assert Edge(g, p[k], p[k + 1]);
      } else {
        assert j[k] == q[k - |p| + 1] && j[k + 1] == q[k - |p| + 2];
        assert Edge(g, q[k - |p| + 1], q[k - |p| + 2]);
      }
    }
  }

  lemma CycleAhead(g: Graph, p: seq<nat>)
    requires IsPath(g, p) && ReachesCycle(g, p[|p| - 1])
    ensures ReachesCycle(g, p[0])
  {
    var q :| PathFrom(g, p[|p| - 1], q) && !Simple(q);
    var a, b :| 0 <= a < b < |q| && q[a] == q[b];
    JoinPaths(g, p, q);
    var j := p + q[1..];
    assert j[|p| - 1 + a] == q[a] && j[|p| - 1 + b] == q[b];
    assert PathFrom(g, p[0], j) && !Simple(j);
  }

  /** No unit that reaches no cycle carries an order above its longest chain. */
  ghost predicate WithinChains(g: Graph, o: seq<int>)
    requires |o| == |g|
  {
    forall i :: 0 <= i < |g| && !ReachesCycle(g, i) ==> o[i] <= Chains(g)[i]
  }

  /** Resolving from these orders gives every unit that reaches no cycle what resolving from scratch gives it. */
  ghost predicate ResolvesAsFromScratch(g: Graph, o: seq<int>)
    requires |o| == |g|
  {
    forall i :: 0 <= i < |g| && !ReachesCycle(g, i) ==> Resolve(g, o)[i] == Chains(g)[i]
  }

  lemma ResolvedWithinChains(g: Graph, o: seq<int>, i: nat)
    requires |o| == |g| && NonNegative(o) && WithinChains(g, o) && i < |g| && !ReachesCycle(g, i)
    ensures Resolve(g, o)[i] == Chains(g)[i]
  {
    var z := Zeros(|g|);
    ResolveIsLongest(g, o, i);
    ResolveIsLongest(g, z, i);
    var p := PathBehind(g, o, |g|, 0, i);
    var e := p[|p| - 1];
    if ReachesCycle(g, e) {
      CycleAhead(g, p);
    }
    var q := PathBehind(g, z, |g|, 0, e);
    JoinPaths(g, p, q);
    assert PathFrom(g, i, p + q[1..]);
    var p' := PathBehind(g, z, |g|, 0, i);
    assert Weight(o, p') >= Weight(z, p');
  }

  /** Resolving from existing orders gives every unit that reaches no cycle its longest dependency chain, exactly
      when none of these units carries an order above its chain already. */
  lemma StaleOrdersHarmlessIff(g: Graph, o: seq<int>)
    requires |o| == |g| && NonNegative(o)
    ensures ResolvesAsFromScratch(g, o) <==> WithinChains(g, o)
  {
    PassesMonotone(g, o, |g|);
    if WithinChains(g, o) {
      forall i: nat | i < |g| && !ReachesCycle(g, i) ensures Resolve(g, o)[i] == Chains(g)[i] {
        ResolvedWithinChains(g, o, i);
      }
    }
  }

  lemma {:induction false} FindFirstInPrefix(g: Graph, h: Graph, name: string)
    requires FindFirst(g, name) < |g|
    ensures FindFirst(g + h, name) == FindFirst(g, name)
  {
    var i := FindFirst(g, name);
    assert (g + h)[i].name == name;
    assert forall j :: 0 <= j < i ==> (g + h)[j] == g[j];
  }

  lemma PathInPrefix(g: Graph, h: Graph, p: seq<nat>)
    requires IsPath(g, p)
    ensures IsPath(g + h, p)
  {
    var all := g + h;
    forall k | 0 <= k < |p| - 1 ensures Edge(all, p[k], p[k + 1]) {
      assert Edge(g, p[k], p[k + 1]);
      var n :| 0 <= n < |g[p[k]].Names()| && FindFirst(g, g[p[k]].Names()[n]) == p[k + 1];
      FindFirstInPrefix(g, h, g[p[k]].Names()[n]);
      assert all[p[k]].Names()[n] == g[p[k]].Names()[n];
    }
  }

  lemma CycleInPrefix(g: Graph, h: Graph, i: nat)
    requires i < |g| && ReachesCycle(g, i)
    ensures ReachesCycle(g + h, i)
  {
    var p :| PathFrom(g, i, p) && !Simple(p);
    PathInPrefix(g, h, p);
    assert PathFrom(g + h, i, p);
  }

  lemma ChainsGrowWithAppended(g: Graph, h: Graph, i: nat)
    requires i < |g| && !ReachesCycle(g + h, i)
    ensures Chains(g)[i] <= Chains(g + h)[i]
  {
    var p := PathBehind(g, Zeros(|g|), |g|, 0, i);
    PathInPrefix(g, h, p);
    assert PathFrom(g + h, i, p);
    ResolveIsLongest(g + h, Zeros(|g + h|), i);
    assert Weight(Zeros(|g + h|), p) == Chains(g)[i];
  }

  /** Units appended by a mount, with order zero: if no order was above its unit's longest chain before, resolving
      the longer registry is the same as resolving it from scratch, for every unit that reaches no cycle in it. The
      orders this leaves are not above the chains either, so the next mount may begin from them. */
  lemma AppendedUnitsResolveAsFromScratch(g: Graph, h: Graph, o: seq<int>)
    requires |o| == |g| && NonNegative(o) && WithinChains(g, o)
    ensures var appended := o + Zeros(|h|);
            ResolvesAsFromScratch(g + h, appended) && WithinChains(g + h, Resolve(g + h, appended))
  {
    var all := g + h;
    PassesMonotone(all, Zeros(|all|), |all|);
    forall i: nat | i < |all| && !ReachesCycle(all, i) ensures (o + Zeros(|h|))[i] <= Chains(all)[i] {
      if i < |g| {
        if ReachesCycle(g, i) {
          CycleInPrefix(g, h, i);
        }
        ChainsGrowWithAppended(g, h, i);
      }
    }
    StaleOrdersHarmlessIff(all, o + Zeros(|h|));
  }

  // ---------------------------------------------------------------------------------------------------------------
  // Sorting a registry whose orders were resolved before
  // ---------------------------------------------------------------------------------------------------------------

  ghost predicate DistinctNodes(g: Graph) {
    forall i, j :: 0 <= i < j < |g| ==> g[i].name != g[j].name
  }

  /** Node k of h is node f[k] of g, and no two nodes of h are the same one. */
  ghost predicate Embeds(h: Graph, g: Graph, f: seq<nat>) {
    && |f| == |h|
    && (forall k :: 0 <= k < |f| ==> f[k] < |g| && h[k] == g[f[k]])
    && Simple(f)
  }

  lemma EdgeMaps(h: Graph, g: Graph, f: seq<nat>, a: nat, b: nat)
    requires Embeds(h, g, f) && DistinctNodes(g) && Edge(h, a, b)
    ensures Edge(g, f[a], f[b])
  {
    var n :| 0 <= n < |h[a].Names()| && FindFirst(h, h[a].Names()[n]) == b;
    var name := h[a].Names()[n];
    assert g[f[b]].name == name;
    assert FindFirst(g, name) == f[b];
    assert g[f[a]].Names()[n] == name;
  }

  ghost function Mapped(p: seq<nat>, f: seq<nat>): (q: seq<nat>)
    requires forall k :: 0 <= k < |p| ==> p[k] < |f|
    ensures |q| == |p| && forall k :: 0 <= k < |p| ==> q[k] == f[p[k]]
  {
    seq(|p|, k requires 0 <= k < |p| => f[p[k]])
  }

  lemma PathMaps(h: Graph, g: Graph, f: seq<nat>, p: seq<nat>)
    requires Embeds(h, g, f) && DistinctNodes(g) && IsPath(h, p)
    ensures IsPath(g, Mapped(p, f)) && (Simple(Mapped(p, f)) ==> Simple(p))
  {
    var q := Mapped(p, f);
    forall k | 0 <= k < |q| - 1 ensures Edge(g, q[k], q[k + 1]) {
      assert Edge(h, p[k], p[k + 1]);
      EdgeMaps(h, g, f, p[k], p[k + 1]);
    }
  }

  lemma EmbeddedCycle(h: Graph, g: Graph, f: seq<nat>, k: nat)
    requires Embeds(h, g, f) && DistinctNodes(g) && k < |h| && ReachesCycle(h, k)
    ensures ReachesCycle(g, f[k])
  {
    var p :| PathFrom(h, k, p) && !Simple(p);
    PathMaps(h, g, f, p);
    assert PathFrom(g, f[k], Mapped(p, f));
  }

  lemma EmbeddedChainsAreShorter(h: Graph, g: Graph, f: seq<nat>, k: nat)
    requires Embeds(h, g, f) && DistinctNodes(g) && k < |h| && !ReachesCycle(g, f[k])
    ensures Chains(h)[k] <= Chains(g)[f[k]]
  {
    var p := PathBehind(h, Zeros(|h|), |h|, 0, k);
    PathMaps(h, g, f, p);
    assert PathFrom(g, f[k], Mapped(p, f));
    ResolveIsLongest(g, Zeros(|g|), f[k]);
    assert Weight(Zeros(|g|), Mapped(p, f)) == Weight(Zeros(|h|), p);
  }

  /** Each node's place among positions. */
  lemma {:induction false} Inverse(positions: seq<nat>, n: nat) returns (inverse: seq<nat>)
    requires forall i: nat :: i < n ==> i in positions
    ensures |inverse| == n && forall i :: 0 <= i < n ==> inverse[i] < |positions| && positions[inverse[i]] == i
  {
    if n == 0 {
      inverse := [];
    } else {
      var front := Inverse(positions, n - 1);
      assert n - 1 in positions;
      var k: nat :| k < |positions| && positions[k] == n - 1;
      inverse := front + [k];
    }
  }

  /** positions arranges all nodes of g as h. */
  ghost predicate Permutes(h: Graph, g: Graph, positions: seq<nat>) {
    Embeds(h, g, positions) && forall i: nat :: i < |g| ==> i in positions
  }

  lemma PermutedBack(g: Graph, h: Graph, positions: seq<nat>) returns (inverse: seq<nat>)
    requires DistinctNodes(g) && Permutes(h, g, positions)
    ensures DistinctNodes(h) && Embeds(g, h, inverse)
    ensures forall k :: 0 <= k < |h| ==> inverse[positions[k]] == k
  {
    inverse := Inverse(positions, |g|);
    forall k | 0 <= k < |h| ensures inverse[positions[k]] == k {
      assert positions[inverse[positions[k]]] == positions[k];
    }
  }

  /** Rearranging a registry without duplicate names takes the longest chain of every unit that reaches no cycle
      along: a scan sorts the list after it resolved the orders, and still each order is right for the list as it
      stands then. */
  lemma ChainsFollowTheirNodes(g: Graph, h: Graph, positions: seq<nat>, k: nat)
    requires DistinctNodes(g) && Permutes(h, g, positions) && k < |h|
    ensures ReachesCycle(h, k) <==> ReachesCycle(g, positions[k])
    ensures !ReachesCycle(h, k) ==> Chains(h)[k] == Chains(g)[positions[k]]
  {
    var inverse := PermutedBack(g, h, positions);
    if ReachesCycle(h, k) {
      EmbeddedCycle(h, g, positions, k);
    } else if ReachesCycle(g, positions[k]) {
      EmbeddedCycle(g, h, inverse, positions[k]);
    } else {
      EmbeddedChainsAreShorter(h, g, positions, k);
      EmbeddedChainsAreShorter(g, h, inverse, positions[k]);
    }
  }

  /** A mount after a scan: g is the registry the scan resolved, h the same sorted, and extra what was appended
      since. The sorted units carry their orders, or lower ones: a unit that was expanded again carries zero. Every
      unit that reaches no cycle gets what it would get from scratch. */
  lemma MountAfterScanResolvesAsFromScratch(g: Graph, h: Graph, positions: seq<nat>, carried: seq<int>, extra: Graph)
    requires DistinctNodes(g) && Permutes(h, g, positions) && |carried| == |h| && NonNegative(carried)
    requires forall k :: 0 <= k < |h| && !ReachesCycle(h, k) ==> carried[k] <= Chains(g)[positions[k]]
    ensures ResolvesAsFromScratch(h + extra, carried + Zeros(|extra|))
  {
    forall k: nat | k < |h| && !ReachesCycle(h, k) ensures carried[k] <= Chains(h)[k] {
      ChainsFollowTheirNodes(g, h, positions, k);
    }
    AppendedUnitsResolveAsFromScratch(h, extra, carried);
  }

  lemma FoldOne(g: Graph, o: seq<int>, name: string)
    requires |o| == |g|
    ensures Fold(g, o, [name], 0) == var d := FindFirst(g, name); if d < |g| && o[d] + 1 > 0 then o[d] + 1 else 0
  {
    assert [name][1..] == [];
  }

  /** Units taken away by an unmount: an order that counted on one of them stays, and a later mount does not bring it
      down to the longest chain that is left. Here "b" comes after "a", and "a" is taken away. */
  lemma RemovedUnitsLeaveStaleOrders()
    ensures var a, b := Node("a", [], []), Node("b", [], ["a"]);
            Chains([a, b]) == [0, 1] && Chains([b]) == [0] && Resolve([b], [1]) == [1]
  {
    var a, b := Node("a", [], []), Node("b", [], ["a"]);
    var g, h: Graph := [a, b], [b];
    assert g[0].Names() == [] && g[1].Names() == ["a"] && h[0].Names() == ["a"];
    assert FindFirst(g, "a") == 0;
    assert FindFirst(h, "a") == 1 by { assert FindFirst(h[1..], "a") == 0; }
    assert Zeros(2) == [0, 0] && Zeros(1) == [0];
    FoldOne(g, [0, 0], "a");
    FoldOne(g, [0, 1], "a");
    FoldOne(h, [0], "a");
    FoldOne(h, [1], "a");
    assert Fold(g, [0, 0], [], 0) == 0 && Fold(g, [0, 1], [], 0) == 0;
    assert Pass(g, [0, 0], 0) == [0, 0];
    assert Pass(g, [0, 0], 1) == [0, 0];
    assert Demand(g, [0, 0], 1) == 1 && Pass(g, [0, 0], 2) == [0, 1] && Passes(g, [0, 0], 1) == [0, 1] by {
      assert Passes(g, [0, 0], 0) == [0, 0];
    }
    assert Demand(g, [0, 1], 0) == 0 && Demand(g, [0, 1], 1) == 1;
    assert Stable(g, [0, 1]);
    StopEarly(g, [0, 0], 1, 2);
    assert Stable(h, [0]) && Stable(h, [1]);
    StablePasses(h, [0], 1);
    StablePasses(h, [1], 1);
  }

  lemma OnePassIsEnough(g: Graph, o: seq<int>, r: seq<int>)
    requires |o| == |g| > 0 && Pass(g, o, |g|) == r && Stable(g, r)
    ensures Resolve(g, o) == r
  {
    assert Passes(g, o, 1) == Pass(g, Passes(g, o, 0), |g|);
    StopEarly(g, o, 1, |g|);
  }

  const X_AFTER_Y := Node("x", [], ["y"])
  const X := Node("x", [], [])
  const Y := Node("y", [], [])
  const Z_AFTER_X := Node("z", [], ["x"])

  lemma DuplicatesStable()
    ensures Stable([X_AFTER_Y, Y, X, Z_AFTER_X], [1, 0, 0, 2])
  {
    var g: Graph, r := [X_AFTER_Y, Y, X, Z_AFTER_X], [1, 0, 0, 2];
    assert g[0].Names() == ["y"] && g[1].Names() == [] && g[2].Names() == [] && g[3].Names() == ["x"];
    assert FindFirst(g, "x") == 0 && FindFirst(g, "y") == 1 by { assert g[1].name == "y"; }
    FoldOne(g, r, "y");
    FoldOne(g, r, "x");
  }

  lemma DuplicatesPass()
    ensures Pass([X_AFTER_Y, Y, X, Z_AFTER_X], [0, 0, 0, 0], 4) == [1, 0, 0, 2]
  {
    var g: Graph, zeros, p1 := [X_AFTER_Y, Y, X, Z_AFTER_X], [0, 0, 0, 0], [1, 0, 0, 0];
    assert g[0].Names() == ["y"] && g[1].Names() == [] && g[2].Names() == [] && g[3].Names() == ["x"];
    assert FindFirst(g, "x") == 0 && FindFirst(g, "y") == 1 by { assert g[1].name == "y"; }
    FoldOne(g, zeros, "y");
    FoldOne(g, p1, "x");
    assert Pass(g, zeros, 0) == zeros;
    assert Pass(g, zeros, 1) == p1;
    assert Pass(g, zeros, 2) == p1;
    assert Pass(g, zeros, 3) == p1;
  }

  lemma DuplicatesScanned()
    ensures Chains([X_AFTER_Y, Y, X, Z_AFTER_X]) == [1, 0, 0, 2]
  {
    DuplicatesStable();
    DuplicatesPass();
    assert Zeros(4) == [0, 0, 0, 0];
    OnePassIsEnough([X_AFTER_Y, Y, X, Z_AFTER_X], Zeros(4), [1, 0, 0, 2]);
  }

  lemma DuplicatesSorted(o: seq<int>)
    requires o == [0, 0, 1, 1] || o == [0, 0, 1, 2]
    ensures Stable([Y, X, X_AFTER_Y, Z_AFTER_X], o)
  {
    var h: Graph := [Y, X, X_AFTER_Y, Z_AFTER_X];
    assert h[0].Names() == [] && h[1].Names() == [] && h[2].Names() == ["y"] && h[3].Names() == ["x"];
    assert FindFirst(h, "y") == 0 && FindFirst(h, "x") == 1 by { assert h[1].name == "x"; }
    FoldOne(h, o, "y");
    FoldOne(h, o, "x");
  }

  lemma DuplicatesResolved()
    ensures Chains([Y, X, X_AFTER_Y, Z_AFTER_X]) == [0, 0, 1, 1]
  {
    var h: Graph, zeros := [Y, X, X_AFTER_Y, Z_AFTER_X], Zeros(4);
    assert h[0].Names() == [] && h[1].Names() == [] && h[2].Names() == ["y"] && h[3].Names() == ["x"];
    assert FindFirst(h, "y") == 0 && FindFirst(h, "x") == 1 by { assert h[1].name == "x"; }
    assert zeros == [0, 0, 0, 0];
    FoldOne(h, zeros, "y");
    assert Pass(h, zeros, 0) == zeros;
    assert Pass(h, zeros, 1) == zeros;
    assert Pass(h, zeros, 2) == zeros;
    var p3 := Pass(h, zeros, 3);
    assert p3 == [0, 0, 1, 0];
    FoldOne(h, p3, "x");
    assert Pass(h, zeros, 4) == [0, 0, 1, 1];
    DuplicatesSorted([0, 0, 1, 1]);
    OnePassIsEnough(h, zeros, [0, 0, 1, 1]);
  }

  lemma DuplicatesPermute()
    ensures Permutes([Y, X, X_AFTER_Y, Z_AFTER_X], [X_AFTER_Y, Y, X, Z_AFTER_X], [1, 2, 0, 3])
    ensures Arranges([1, 2, 0, 3], {0, 1, 2, 3}, [1, 0, 0, 2])
  {
    var positions: seq<nat> := [1, 2, 0, 3];
    assert positions[0] == 1 && positions[1] == 2 && positions[2] == 0 && positions[3] == 3;
  }

  /** With duplicate names it need not be so. "x" is defined twice, the first time after "y", and "z" comes after
      "x". The scan resolves the list as it was read; sorting may put the other "x" first; and the order "z"
      carries then is above its longest chain, so a later mount does not resolve it as from scratch. */
  lemma DuplicateNamesLeaveStaleOrders()
    ensures var g, h, positions := [X_AFTER_Y, Y, X, Z_AFTER_X], [Y, X, X_AFTER_Y, Z_AFTER_X], [1, 2, 0, 3];
            var carried := [0, 0, 1, 2];
            && Permutes(h, g, positions) && Arranges(positions, {0, 1, 2, 3}, Chains(g))
            && (forall k :: 0 <= k < 4 ==> carried[k] == Chains(g)[positions[k]])
            && Resolve(h, carried) != Chains(h)
  {
    DuplicatesScanned();
    DuplicatesResolved();
    DuplicatesPermute();
    DuplicatesSorted([0, 0, 1, 2]);
    StablePasses([Y, X, X_AFTER_Y, Z_AFTER_X], [0, 0, 1, 2], 4);
    assert [0, 0, 1, 2][3] != [0, 0, 1, 1][3];
  }

  // ---------------------------------------------------------------------------------------------------------------
  // Start sequence
  // ---------------------------------------------------------------------------------------------------------------

  /** s lists each of the given nodes once, in ascending order: what an unspecified sort may return. */
  ghost predicate Arranges(s: seq<nat>, chosen: set<nat>, o: seq<int>) {
    && (forall i :: i in chosen ==> i < |o|)
    && Simple(s)
    && (forall i :: i in s <==> i in chosen)
    && (forall a, b :: 0 <= a < b < |s| ==> s[a] in chosen && s[b] in chosen && o[s[a]] <= o[s[b]])
  }

  /** Whatever subset of the registry is started in ascending order - all of it by a scan, one mount point's units
      by a mount - a unit that reaches no cycle starts after each of its dependencies in the subset, even if other
      units are on cycles. */
  lemma StartsAfterDependencies(g: Graph, o: seq<int>, chosen: set<nat>, s: seq<nat>, a: nat, b: nat)
    requires |o| == |g| && NonNegative(o) && Arranges(s, chosen, Resolve(g, o))
    requires a < |s| && b < |s| && Edge(g, s[b], s[a]) && !ReachesCycle(g, s[b])
    ensures a < b
  {
    ResolveIsLongest(g, o, s[b]);
    var p := PathBehind(g, o, |g|, 0, s[a]);
    ExtendPath(g, o, s[b], s[a], p);
    assert Resolve(g, o)[s[a]] == Weight(o, p);
    assert PathFrom(g, s[b], [s[b]] + p);
    assert Resolve(g, o)[s[a]] < Resolve(g, o)[s[b]];
  }
}
