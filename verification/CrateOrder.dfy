/**
 The order in which workspace crates are published.

 The script builds the dictionary of workspace packages and their in-scope dependencies, rejects
 direct cycles, and then repeatedly removes the packages none of whose dependencies is left, with a
 budget of n * n passes for n packages.
 */
module CrateOrder {
  import opened Wrappers

  datatype Dependency = Dependency(
    name: string, kind: Option<string>, req: string, features: seq<string>, hasPath: bool)

  datatype Package = Package(name: string, manifest: string, dependencies: seq<Dependency>)

  type Graph = map<string, seq<string>>

  /** The dictionaries the script fills; `names` is their insertion order. */
  datatype Workspace = Workspace(
    names: seq<string>, graph: Graph, manifests: map<string, string>, wrong: seq<Dependency>)

  datatype OrderError = Rejected | CycleSuspected(left: seq<string>)

  // ----- loading

  predicate SelfDevDependency(p: Package, d: Dependency) {
    d.kind == Some("dev") && d.name == p.name && "dev-context-only-utils" in d.features && d.hasPath
  }

  predicate PathDevDependency(d: Dependency) {
    d.kind == Some("dev") && d.hasPath && d.req == "*"
  }

  predicate ShouldAdd(p: Package, d: Dependency) {
    && ("solana" <= d.name || "agave" <= d.name)
    && !SelfDevDependency(p, d)
    && !PathDevDependency(d)
  }

  function InScope(p: Package, ds: seq<Dependency>): (r: seq<string>)
    ensures forall n :: n in r <==> exists d :: d in ds && ShouldAdd(p, d) && d.name == n
  {
    if ds == [] then []
    else (if ShouldAdd(p, ds[0]) then [ds[0].name] else []) + InScope(p, ds[1..])
  }

  function WrongIn(p: Package, ds: seq<Dependency>): (r: seq<Dependency>)
    ensures forall d :: d in r <==> d in ds && SelfDevDependency(p, d) && d.req != "*"
  {
    if ds == [] then []
    else (if SelfDevDependency(p, ds[0]) && ds[0].req != "*" then [ds[0]] else []) + WrongIn(p, ds[1..])
  }

  function Add(w: Workspace, p: Package): Workspace {
    Workspace(if p.name in w.graph then w.names else w.names + [p.name],
              w.graph[p.name := InScope(p, p.dependencies)],
              w.manifests[p.name := p.manifest],
              w.wrong + WrongIn(p, p.dependencies))
  }

  function Load(ps: seq<Package>): Workspace {
    if ps == [] then Workspace([], map[], map[], [])
    else Add(Load(ps[..|ps| - 1]), ps[|ps| - 1])
  }

  predicate Distinct(names: seq<string>) {
    forall i, j :: 0 <= i < j < |names| ==> names[i] != names[j]
  }

  /** The dictionaries agree on their keys. */
  ghost predicate Keyed(w: Workspace) {
    && Distinct(w.names)
    && (forall n :: n in w.names <==> n in w.graph)
    && w.manifests.Keys == w.graph.Keys
  }

  lemma {:induction false} LoadedIsKeyed(ps: seq<Package>)
    ensures Keyed(Load(ps))
  {
    if ps != [] { LoadedIsKeyed(ps[..|ps| - 1]); }
  }

  // ----- what is loaded, in terms of the packages themselves

  predicate StartsWith(name: string, start: string) {
    |name| >= |start| && name[..|start|] == start
  }

  /** A dependency on the package itself for its own tests. */
  predicate OnItself(p: Package, d: Dependency) {
    d.kind == Some("dev") && d.hasPath && d.name == p.name && "dev-context-only-utils" in d.features
  }

  /** A dependency that must be published first: one of the workspace's families of crates, unless it
      is a dev-dependency by path that has no version or is on the package itself. */
  predicate MustPrecede(p: Package, d: Dependency) {
    && (StartsWith(d.name, "solana") || StartsWith(d.name, "agave"))
    && !(d.kind == Some("dev") && d.hasPath && d.req == "*")
    && !OnItself(p, d)
  }

  /** Package `i` is the last of its name, whose entry the dictionaries keep. */
  predicate Kept(ps: seq<Package>, i: int) {
    0 <= i < |ps| && forall j :: i < j < |ps| ==> ps[j].name != ps[i].name
  }

  lemma InScopeIsMustPrecede(p: Package, ds: seq<Dependency>, n: string)
    ensures n in InScope(p, ds) <==> exists d :: d in ds && MustPrecede(p, d) && d.name == n
  {
    forall d ensures ShouldAdd(p, d) <==> MustPrecede(p, d) {}
  }

  /** The dictionaries hold, for each name, the last package of that name. */
  lemma {:induction false} LoadedEntry(ps: seq<Package>, i: int)
    requires Kept(ps, i)
    ensures var w := Load(ps);
      && ps[i].name in w.graph && w.graph[ps[i].name] == InScope(ps[i], ps[i].dependencies)
      && ps[i].name in w.manifests && w.manifests[ps[i].name] == ps[i].manifest
    decreases |ps|
  {
    if i < |ps| - 1 { LoadedEntry(ps[..|ps| - 1], i); }
  }

  lemma {:induction false} LoadedName(ps: seq<Package>, n: string)
    ensures n in Load(ps).graph <==> exists i :: Kept(ps, i) && ps[i].name == n
    decreases |ps|
  {
    if ps != [] {
      var k, front := |ps| - 1, ps[..|ps| - 1];
      LoadedName(front, n);
      if ps[k].name == n {
        assert Kept(ps, k);
      } else {
        if i :| Kept(front, i) && front[i].name == n { assert Kept(ps, i) && ps[i].name == n; }
        if i :| Kept(ps, i) && ps[i].name == n { assert Kept(front, i) && front[i].name == n; }
      }
    }
  }

  /** The package's dependencies on itself give no version. */
  ghost predicate Unversioned(p: Package) {
    forall d :: d in p.dependencies && OnItself(p, d) ==> d.req == "*"
  }

  lemma {:induction false} LoadedWrong(ps: seq<Package>)
    ensures Load(ps).wrong == [] <==> forall i :: 0 <= i < |ps| ==> Unversioned(ps[i])
    decreases |ps|
  {
    if ps != [] {
      var k, front := |ps| - 1, ps[..|ps| - 1];
      LoadedWrong(front);
      WrongInIff(ps[k]);
      assert forall i :: 0 <= i < k ==> front[i] == ps[i];
    }
  }

  lemma WrongInIff(p: Package)
    ensures WrongIn(p, p.dependencies) == [] <==> Unversioned(p)
  {
    var wrong := WrongIn(p, p.dependencies);
    if wrong != [] { assert wrong[0] in wrong; }
  }

  /** The edges of the graph are exactly the dependencies that must precede their package. */
  lemma EdgeIff(ps: seq<Package>, i: int, n: string)
    requires Kept(ps, i)
    ensures ps[i].name in Load(ps).graph
    ensures n in Load(ps).graph[ps[i].name] <==>
            exists d :: d in ps[i].dependencies && MustPrecede(ps[i], d) && d.name == n
  {
    LoadedEntry(ps, i);
    InScopeIsMustPrecede(ps[i], ps[i].dependencies, n);
  }

  // ----- chains, layers and cycles

  /** Some chain of `k` dependencies starts at `p` and stays in the workspace. */
  ghost predicate HasChain(g: Graph, p: string, k: nat)
    decreases k
  {
    p in g && (k == 0 || exists d :: d in g[p] && HasChain(g, d, k - 1))
  }

  /** The packages with a chain of `k` dependencies. */
  ghost function Deep(g: Graph, k: nat): (r: set<string>) {
    set p | p in g && HasChain(g, p, k)
  }

  /** The members of `chosen` in dictionary order. */
  ghost function Pick(names: seq<string>, chosen: set<string>): (r: seq<string>)
    ensures forall p :: p in r <==> p in names && p in chosen
  {
    if names == [] then []
    else (if names[0] in chosen then [names[0]] else []) + Pick(names[1..], chosen)
  }

  /** The packages whose longest chain has exactly `k` dependencies, in dictionary order. */
  ghost function Layer(names: seq<string>, g: Graph, k: nat): (r: seq<string>) {
    Pick(names, Deep(g, k) - Deep(g, k + 1))
  }

  /** The first `k` layers, one after the other. */
  ghost function Layers(names: seq<string>, g: Graph, k: nat): seq<string> {
    if k == 0 then [] else Layers(names, g, k - 1) + Layer(names, g, k - 1)
  }

  /** A closed walk along dependencies. */
  ghost predicate Cycle(g: Graph, w: seq<string>) {
    && |w| >= 2 && w[0] == w[|w| - 1]
    && Walk(g, w)
  }

  ghost predicate Walk(g: Graph, w: seq<string>) {
    && (forall i :: 0 <= i < |w| ==> w[i] in g)
    && (forall i :: 0 <= i < |w| - 1 ==> w[i + 1] in g[w[i]])
  }

  ghost predicate Acyclic(g: Graph) {
    forall w :: !Cycle(g, w)
  }

  lemma {:induction false} ShorterChain(g: Graph, p: string, k: nat, j: nat)
    requires HasChain(g, p, k) && j <= k
    ensures HasChain(g, p, j)
    decreases k
  {
    if j > 0 {
      var d :| d in g[p] && HasChain(g, d, k - 1);
      ShorterChain(g, d, k - 1, j - 1);
    }
  }

  /** Going round a cycle gives chains of every length. */
  lemma {:induction false} CycleHasChains(g: Graph, w: seq<string>, i: nat, k: nat)
    requires Cycle(g, w) && i < |w|
    ensures HasChain(g, w[i], k)
    decreases k
  {
    if k > 0 {
      var next := if i + 1 < |w| then i + 1 else 1;
      CycleHasChains(g, w, next, k - 1);
      assert w[next] in g[w[i]];
    }
  }

  lemma {:induction false} ChainIsWalk(g: Graph, p: string, k: nat) returns (w: seq<string>)
    requires HasChain(g, p, k)
    ensures Walk(g, w) && |w| == k + 1 && w[0] == p
    decreases k
  {
    if k == 0 {
      w := [p];
    } else {
      var d :| d in g[p] && HasChain(g, d, k - 1);
      var rest := ChainIsWalk(g, d, k - 1);
      w := [p] + rest;
      assert forall i :: 0 <= i < |w| - 1 ==> w[i + 1] == rest[i] && (i > 0 ==> w[i] == rest[i - 1]);
    }
  }

  lemma {:induction false} DistinctSize(w: seq<string>, all: set<string>)
    requires Distinct(w) && forall x :: x in w ==> x in all
    ensures |w| <= |all|
    decreases |w|
  {
    if w != [] {
      var x := w[0];
      assert x in w;
      forall y | y in w[1..] ensures y in all - {x} { assert y in w; }
      DistinctSize(w[1..], all - {x});
    }
  }

  /** A walk longer than the graph passes some package twice. */
  lemma WalkRepeats(g: Graph, w: seq<string>)
    requires Walk(g, w) && |w| > |g.Keys|
    ensures exists i, j :: 0 <= i < j < |w| && w[i] == w[j]
  {
    if Distinct(w) {
      forall x | x in w ensures x in g.Keys {}
      DistinctSize(w, g.Keys);
    }
  }

  /** In a graph of n packages, a chain of n dependencies must close a cycle. */
  lemma LongChainMakesCycle(g: Graph, p: string)
    requires HasChain(g, p, |g.Keys|)
    ensures !Acyclic(g)
  {
    var w := ChainIsWalk(g, p, |g.Keys|);
    WalkRepeats(g, w);
    var i, j :| 0 <= i < j < |w| && w[i] == w[j];
    assert Cycle(g, w[i..j + 1]);
  }

  /** The graph is acyclic exactly when no package has a chain of `k` dependencies, for any k >= n. */
  lemma AcyclicIffShallow(g: Graph, k: nat)
    requires k >= |g.Keys|
    ensures Acyclic(g) <==> Deep(g, k) == {}
  {
    if Deep(g, k) != {} {
      var p :| p in Deep(g, k);
      ShorterChain(g, p, k, |g.Keys|);
      LongChainMakesCycle(g, p);
    }
    if !Acyclic(g) {
      var w :| Cycle(g, w);
      CycleHasChains(g, w, 0, k);
      assert w[0] in Deep(g, k);
    }
  }

  /** A walk from `p` that comes back to one of its own packages, the one at `i`. */
  ghost predicate Lasso(g: Graph, p: string, w: seq<string>, i: nat) {
    Walk(g, w) && i < |w| - 1 && w[0] == p && w[i] == w[|w| - 1]
  }

  /** A cycle can be reached from `p`. */
  ghost predicate LeadsToCycle(g: Graph, p: string) {
    exists w, i: nat :: Lasso(g, p, w, i)
  }

  lemma {:induction false} LassoHasChains(g: Graph, p: string, w: seq<string>, i: nat, at: nat, k: nat)
    requires Lasso(g, p, w, i) && at < |w|
    ensures HasChain(g, w[at], k)
    decreases k
  {
    if k > 0 {
      var next := if at + 1 < |w| then at + 1 else i + 1;
      LassoHasChains(g, p, w, i, next, k - 1);
      assert w[next] in g[w[at]];
    }
  }

  /** A package has a chain of k >= n dependencies exactly when it leads to a cycle. */
  lemma DeepIffLeadsToCycle(g: Graph, p: string, k: nat)
    requires k >= |g.Keys|
    ensures p in Deep(g, k) <==> LeadsToCycle(g, p)
  {
    if p in Deep(g, k) {
      ShorterChain(g, p, k, |g.Keys|);
      var w := ChainIsWalk(g, p, |g.Keys|);
      WalkRepeats(g, w);
      var i, j :| 0 <= i < j < |w| && w[i] == w[j];
      assert Lasso(g, p, w[..j + 1], i);
    }
    if LeadsToCycle(g, p) {
      var w, i: nat :| Lasso(g, p, w, i);
      LassoHasChains(g, p, w, i, 0, k);
    }
  }

  // ----- what the layers give

  lemma DeeperIsFewer(g: Graph, k: nat)
    ensures Deep(g, k + 1) <= Deep(g, k)
  {
    forall p | p in Deep(g, k + 1) ensures p in Deep(g, k) { ShorterChain(g, p, k + 1, k); }
  }

  lemma {:induction false} PickSplits(names: seq<string>, some: set<string>, fewer: set<string>)
    requires fewer <= some
    ensures multiset(Pick(names, some)) == multiset(Pick(names, some - fewer)) + multiset(Pick(names, fewer))
    decreases |names|
  {
    if names != [] { PickSplits(names[1..], some, fewer); }
  }

  lemma {:induction false} PickAll(names: seq<string>, all: set<string>)
    requires forall n :: n in names ==> n in all
    ensures Pick(names, all) == names
  {
    if names != [] {
      assert names[0] in names;
      PickAll(names[1..], all);
    }
  }

  lemma {:induction false} PickNone(names: seq<string>, none: set<string>)
    requires forall n :: n in names ==> n !in none
    ensures Pick(names, none) == []
  {
    if names != [] {
      assert names[0] in names;
      PickNone(names[1..], none);
    }
  }

  /** What is emitted and what is left always add up to the workspace. */
  lemma {:induction false} LayersAndRest(names: seq<string>, g: Graph, k: nat)
    requires forall n :: n in names ==> n in g
    ensures multiset(Layers(names, g, k)) + multiset(Pick(names, Deep(g, k))) == multiset(names)
    decreases k
  {
    if k == 0 {
      PickAll(names, Deep(g, 0));
    } else {
      LayersAndRest(names, g, k - 1);
      DeeperIsFewer(g, k - 1);
      PickSplits(names, Deep(g, k - 1), Deep(g, k));
    }
  }

  lemma {:induction false} LayersMembers(names: seq<string>, g: Graph, k: nat, p: string)
    requires p in names && p in g
    ensures p in Layers(names, g, k) <==> p !in Deep(g, k)
    decreases k
  {
    if k > 0 {
      LayersMembers(names, g, k - 1, p);
      DeeperIsFewer(g, k - 1);
      var a, b := Deep(g, k - 1), Deep(g, k);
      assert p in Pick(names, a - b) <==> p in a && p !in b;
      assert p in Layers(names, g, k) <==> p in Layers(names, g, k - 1) || p in Pick(names, a - b);
    }
  }

  /** Every workspace dependency of a package comes before it. */
  ghost predicate DependenciesFirst(g: Graph, out: seq<string>) {
    forall i, d :: 0 <= i < |out| && out[i] in g && d in g[out[i]] && d in g ==> d in out[..i]
  }

  lemma {:induction false} LayersPutDependenciesFirst(names: seq<string>, g: Graph, k: nat)
    requires forall n :: n in names <==> n in g
    ensures DependenciesFirst(g, Layers(names, g, k))
    decreases k
  {
    if k > 0 {
      var before, layer := Layers(names, g, k - 1), Layer(names, g, k - 1);
      var out := before + layer;
      LayersPutDependenciesFirst(names, g, k - 1);
      forall i, d | 0 <= i < |out| && out[i] in g && d in g[out[i]] && d in g ensures d in out[..i] {
        if i < |before| {
          assert out[..i] == before[..i] && out[i] == before[i];
        } else {
          assert out[i] in layer;
          DependencyIsShallower(g, out[i], d, k - 1);
          LayersMembers(names, g, k - 1, d);
          assert out[..i] == before + layer[..i - |before|];
        }
      }
    }
  }

  lemma DependencyIsShallower(g: Graph, p: string, d: string, k: nat)
    requires p in g && d in g[p] && !HasChain(g, p, k + 1)
    ensures d !in Deep(g, k)
  {
  }

  /** Once nothing is left, further layers are empty. */
  lemma {:induction false} NoMoreLayers(names: seq<string>, g: Graph, k: nat, n: nat)
    requires k <= n && Deep(g, k) == {}
    ensures Layers(names, g, n) == Layers(names, g, k)
    decreases n - k
  {
    if k < n {
      DeeperIsFewer(g, k);
      PickNone(names, Deep(g, k) - Deep(g, k + 1));
      NoMoreLayers(names, g, k + 1, n);
      assert Layers(names, g, k + 1) == Layers(names, g, k);
    }
  }

  // ----- the script

  method LoadWorkspace(ps: seq<Package>) returns (w: Workspace)
    ensures w == Load(ps) && Keyed(w)
  {
    var names: seq<string>, graph: Graph, manifests: map<string, string>, wrong := [], map[], map[], [];
    for i := 0 to |ps|
      invariant Workspace(names, graph, manifests, wrong) == Load(ps[..i])
    {
      var p := ps[i];
      assert ps[..i + 1][..i] == ps[..i];
      if p.name !in graph { names := names + [p.name]; }
      manifests := manifests[p.name := p.manifest];
      graph := graph[p.name := InScope(p, p.dependencies)];
      wrong := wrong + WrongIn(p, p.dependencies);
    }
    assert ps[..|ps|] == ps;
    LoadedIsKeyed(ps);
    w := Workspace(names, graph, manifests, wrong);
  }

  ghost predicate DirectCycle(g: Graph, p: string, d: string) {
    p in g && d in g && d in g[p] && p in g[d]
  }

  /** The direct circular dependencies the script reports. */
  method DirectCycles(names: seq<string>, g: Graph) returns (found: set<(string, string)>)
    requires forall n :: n in names <==> n in g
    ensures forall p, d :: (p, d) in found <==> DirectCycle(g, p, d)
  {
    found := {};
    for i := 0 to |names|
      invariant forall p, d :: (p, d) in found <==> p in names[..i] && DirectCycle(g, p, d)
    {
      var p := names[i];
      for j := 0 to |g[p]|
        invariant forall q, d :: (q, d) in found <==>
                    DirectCycle(g, q, d) && (q in names[..i] || (q == p && d in g[p][..j]))
      {
        var d := g[p][j];
        if d in g && p in g[d] { found := found + {(p, d)}; }
      }
      assert g[p][..|g[p]|] == g[p];
    }
    assert names[..|names|] == names;
  }

  lemma DirectCycleIsCycle(g: Graph, p: string, d: string)
    requires DirectCycle(g, p, d)
    ensures !Acyclic(g)
  {
    assert Cycle(g, [p, d, p]);
  }

  /** One pass: the packages of `left` none of whose dependencies is in `left`. */
  method Pass(left: seq<string>, g: Graph, ghost names: seq<string>, ghost k: nat)
    returns (deleted: seq<string>, kept: seq<string>)
    requires (forall n :: n in names <==> n in g) && left == Pick(names, Deep(g, k))
    ensures deleted == Layer(names, g, k) && kept == Pick(names, Deep(g, k + 1))
  {
    ghost var gone, stay := Deep(g, k) - Deep(g, k + 1), Deep(g, k + 1);
    DeeperIsFewer(g, k);
    forall p | p in left
      ensures p in g && (p in gone <==> forall d :: d in g[p] ==> d !in left) && (p in gone <==> p !in stay)
    {
      FreeMeansNoLongerChain(names, g, k, p);
    }
    deleted, kept := Divide(left, g, gone, stay);
    PickPicked(names, Deep(g, k), gone);
    PickPicked(names, Deep(g, k), stay);
  }

  /** The loop of a pass, for the set it takes out and the set it keeps. */
  method Divide(left: seq<string>, g: Graph, ghost gone: set<string>, ghost stay: set<string>)
    returns (deleted: seq<string>, kept: seq<string>)
    requires forall p :: p in left ==>
               p in g && (p in gone <==> forall d :: d in g[p] ==> d !in left) && (p in gone <==> p !in stay)
    ensures deleted == Pick(left, gone) && kept == Pick(left, stay)
  {
    deleted, kept := [], [];
    for i := 0 to |left|
      invariant deleted == Pick(left[..i], gone) && kept == Pick(left[..i], stay)
    {
      var p := left[i];
      assert p in left && left[..i + 1] == left[..i] + [p];
      var free := NoneLeft(g[p], left);
      PickAppend(left[..i], p, gone);
      PickAppend(left[..i], p, stay);
      if free { deleted := deleted + [p]; } else { kept := kept + [p]; }
    }
    assert left[..|left|] == left;
  }

  method NoneLeft(dependencies: seq<string>, left: seq<string>) returns (free: bool)
    ensures free <==> forall d :: d in dependencies ==> d !in left
  {
    for j := 0 to |dependencies|
      invariant forall d :: d in dependencies[..j] ==> d !in left
    {
      if dependencies[j] in left { return false; }
    }
    return true;
  }

  lemma FreeMeansNoLongerChain(names: seq<string>, g: Graph, k: nat, p: string)
    requires (forall n :: n in names <==> n in g) && p in Deep(g, k)
    ensures (forall d :: d in g[p] ==> d !in Pick(names, Deep(g, k))) <==> p !in Deep(g, k + 1)
  {
    if d :| d in g[p] && d in Pick(names, Deep(g, k)) { assert HasChain(g, d, k); }
    forall d | HasChain(g, d, k) ensures d in Pick(names, Deep(g, k)) {}
  }

  lemma {:induction false} PickAppend(names: seq<string>, p: string, chosen: set<string>)
    ensures Pick(names + [p], chosen) == Pick(names, chosen) + if p in chosen then [p] else []
    decreases |names|
  {
    if names == [] {
      assert names + [p] == [p] && [p][1..] == [];
    } else {
      assert (names + [p])[1..] == names[1..] + [p];
      PickAppend(names[1..], p, chosen);
    }
  }

  lemma {:induction false} PickPicked(names: seq<string>, some: set<string>, fewer: set<string>)
    requires fewer <= some
    ensures Pick(Pick(names, some), fewer) == Pick(names, fewer)
    decreases |names|
  {
    if names != [] {
      PickPicked(names[1..], some, fewer);
      var rest := Pick(names[1..], some);
      if names[0] in some {
        assert ([names[0]] + rest)[1..] == rest;
      } else {
        assert Pick(names, some) == rest;
      }
    }
  }

  function Budget(n: nat): (r: nat)
    ensures n <= r
  {
    n * n
  }

  /** A package left over after n or more passes gives away a cycle. */
  lemma LeftoverMeansCycle(names: seq<string>, g: Graph, k: nat)
    requires Distinct(names) && (forall n :: n in names <==> n in g)
    requires k >= |names| && Pick(names, Deep(g, k)) != []
    ensures !Acyclic(g)
    ensures forall p :: p in Pick(names, Deep(g, k)) <==> p in g && LeadsToCycle(g, p)
  {
    SameSize(names, g);
    var p := Pick(names, Deep(g, k))[0];
    assert p in Pick(names, Deep(g, k));
    AcyclicIffShallow(g, k);
    forall p ensures p in Pick(names, Deep(g, k)) <==> p in g && LeadsToCycle(g, p) { DeepIffLeadsToCycle(g, p, k); }
  }

  /** Layered ordering with a budget of n * n passes. */
  method Order(names: seq<string>, g: Graph) returns (r: Result<seq<string>, OrderError>)
    requires Distinct(names) && forall n :: n in names <==> n in g
    ensures r.Ok? <==> Acyclic(g)
    ensures r.Ok? ==> r.value == Layers(names, g, |names|)
    ensures r.Err? ==> r.error == CycleSuspected(Pick(names, Deep(g, Budget(|names|))))
    ensures r.Err? ==> forall p :: p in r.error.left <==> p in g && LeadsToCycle(g, p)
  {
    ghost var k;
    r, k := OrderWithin(names, g, Budget(|names|));
    if r.Ok? { NothingLeft(names, g, k); } else { LeftoverMeansCycle(names, g, k); }
  }

  /** The loop over the passes: it stops at the first pass that leaves nothing, or out of budget. */
  method OrderWithin(names: seq<string>, g: Graph, limit: nat) returns (r: Result<seq<string>, OrderError>, ghost k: nat)
    requires forall n :: n in names <==> n in g
    ensures r.Ok? ==> Pick(names, Deep(g, k)) == [] && r.value == Layers(names, g, k)
    ensures r.Err? ==> k == limit && Pick(names, Deep(g, k)) != [] && r.error == CycleSuspected(Pick(names, Deep(g, k)))
  {
    var sorted: seq<string>, left, budget := [], names, limit;
    k := 0;
    PickAll(names, Deep(g, 0));
    while left != []
      invariant budget == limit - k && 0 <= budget
      invariant left == Pick(names, Deep(g, k)) && sorted == Layers(names, g, k)
      decreases budget
    {
      if budget == 0 { return Err(CycleSuspected(left)), k; }
      budget := budget - 1;
      var deleted, kept := Pass(left, g, names, k);
      sorted := sorted + deleted;
      left := kept;
      k := k + 1;
    }
    r := Ok(sorted);
  }

  lemma SameSize(names: seq<string>, g: Graph)
    requires Distinct(names) && forall n :: n in names <==> n in g
    ensures |g.Keys| == |names|
  {
    DistinctSize(names, g.Keys);
    Listed(names, g.Keys);
  }

  lemma {:induction false} Listed(names: seq<string>, all: set<string>)
    requires forall n :: n in all ==> n in names
    ensures |all| <= |names|
    decreases |names|
  {
    if names == [] {
      assert all == {};
    } else {
      forall n | n in all - {names[0]} ensures n in names[1..] {}
      Listed(names[1..], all - {names[0]});
    }
  }

  /** An empty rest after any number of passes: the graph is acyclic and n passes would do. */
  lemma NothingLeft(names: seq<string>, g: Graph, k: nat)
    requires Distinct(names) && (forall n :: n in names <==> n in g) && Pick(names, Deep(g, k)) == []
    ensures Acyclic(g) && Layers(names, g, k) == Layers(names, g, |names|)
  {
    SameSize(names, g);
    assert forall p :: p in Deep(g, k) <==> p in Pick(names, Deep(g, k));
    var top := if k < |names| then |names| else k;
    NoMoreLayers(names, g, k, top);
    DeepStaysEmpty(g, k, top);
    AcyclicIffShallow(g, top);
    AcyclicIffShallow(g, |names|);
    NoMoreLayers(names, g, |names|, top);
  }

  lemma {:induction false} DeepStaysEmpty(g: Graph, k: nat, n: nat)
    requires k <= n && Deep(g, k) == {}
    ensures Deep(g, n) == {}
    decreases n - k
  {
    if k < n {
      DeeperIsFewer(g, k);
      DeepStaysEmpty(g, k + 1, n);
    }
  }

  /** The whole script: succeeds exactly on an acyclic workspace without wrong self dev-dependencies,
      and then lists every package once, after all its workspace dependencies. */
  method GetPackages(ps: seq<Package>) returns (r: Result<seq<(string, string)>, OrderError>)
    ensures r.Ok? <==> (forall i :: 0 <= i < |ps| ==> Unversioned(ps[i])) && Acyclic(Load(ps).graph)
    ensures r.Ok? ==> Lists(ps, r.value) && Respects(ps, Firsts(r.value))
    ensures r.Ok? ==> multiset(Firsts(r.value)) == multiset(Load(ps).names)
    ensures r.Ok? ==> DependenciesFirst(Load(ps).graph, Firsts(r.value))
    ensures r.Ok? ==> Firsts(r.value) == Layers(Load(ps).names, Load(ps).graph, |Load(ps).names|)
    ensures r.Err? && r.error.CycleSuspected? ==>
              forall p :: p in r.error.left <==> p in Load(ps).graph && LeadsToCycle(Load(ps).graph, p)
  {
    var w := LoadWorkspace(ps);
    LoadedWrong(ps);
    var direct := DirectCycles(w.names, w.graph);
    if direct != {} || w.wrong != [] {
      if direct != {} {
        ghost var c :| c in direct;
        DirectCycleIsCycle(w.graph, c.0, c.1);
      }
      return Err(Rejected);
    }
    var ordered := Order(w.names, w.graph);
    if ordered.Err? { return Err(ordered.error); }
    LayersAreAnOrder(w.names, w.graph);
    var out := WithManifests(ordered.value, w.manifests);
    OrderRespects(ps, Firsts(out));
    OrderLists(ps, out);
    return Ok(out);
  }

  method WithManifests(names: seq<string>, manifests: map<string, string>) returns (out: seq<(string, string)>)
    requires forall n :: n in names ==> n in manifests
    ensures Firsts(out) == names
    ensures forall i :: 0 <= i < |out| ==> out[i].0 in manifests && out[i].1 == manifests[out[i].0]
  {
    out := [];
    for i := 0 to |names|
      invariant Firsts(out) == names[..i]
      invariant forall j :: 0 <= j < |out| ==> out[j].0 in manifests && out[j].1 == manifests[out[j].0]
    {
      assert names[..i + 1] == names[..i] + [names[i]];
      out := out + [(names[i], manifests[names[i]])];
    }
  }

  /** In a list of names, `a` comes before every occurrence of `b`. */
  ghost predicate Precedes(out: seq<string>, a: string, b: string) {
    forall y :: 0 <= y < |out| && out[y] == b ==> a in out[..y]
  }

  ghost predicate Named(ps: seq<Package>, n: string) {
    exists j :: 0 <= j < |ps| && ps[j].name == n
  }

  /** Every package comes after those of its dependencies in the workspace that must precede it. */
  ghost predicate Respects(ps: seq<Package>, out: seq<string>) {
    forall i, d :: Kept(ps, i) && d in ps[i].dependencies && MustPrecede(ps[i], d) && Named(ps, d.name) ==>
      Precedes(out, d.name, ps[i].name)
  }

  /** Every package is listed once, with its manifest, and nothing else is. */
  ghost predicate Lists(ps: seq<Package>, out: seq<(string, string)>) {
    && Distinct(Firsts(out))
    && (forall i :: Kept(ps, i) ==> (ps[i].name, ps[i].manifest) in out)
    && (forall k :: 0 <= k < |out| ==> exists i :: Kept(ps, i) && out[k] == (ps[i].name, ps[i].manifest))
  }

  lemma {:induction false} NamedIsKept(ps: seq<Package>, n: string)
    ensures Named(ps, n) <==> exists i :: Kept(ps, i) && ps[i].name == n
    decreases |ps|
  {
    if ps != [] {
      var k, front := |ps| - 1, ps[..|ps| - 1];
      NamedIsKept(front, n);
      if ps[k].name == n {
        assert Kept(ps, k);
      } else {
        if i :| Kept(front, i) && front[i].name == n { assert Kept(ps, i) && ps[i].name == n; }
        if j :| 0 <= j < |ps| && ps[j].name == n { assert front[j].name == n; }
      }
    }
  }

  /** What a successful order means for the packages it was made from. */
  lemma OrderRespects(ps: seq<Package>, out: seq<string>)
    requires DependenciesFirst(Load(ps).graph, out)
    ensures Respects(ps, out)
  {
    forall i, d | Kept(ps, i) && d in ps[i].dependencies && MustPrecede(ps[i], d) && Named(ps, d.name)
      ensures Precedes(out, d.name, ps[i].name)
    {
      EdgeIff(ps, i, d.name);
      NamedIsKept(ps, d.name);
      LoadedName(ps, d.name);
    }
  }

  lemma OrderLists(ps: seq<Package>, out: seq<(string, string)>)
    requires multiset(Firsts(out)) == multiset(Load(ps).names)
    requires forall k :: 0 <= k < |out| ==> out[k].0 in Load(ps).manifests && out[k].1 == Load(ps).manifests[out[k].0]
    ensures Lists(ps, out)
  {
    var w := Load(ps);
    LoadedIsKeyed(ps);
    DistinctByCount(w.names, Firsts(out));
    forall i | Kept(ps, i) ensures (ps[i].name, ps[i].manifest) in out {
      LoadedEntry(ps, i);
      assert ps[i].name in multiset(Firsts(out));
      var k :| 0 <= k < |out| && Firsts(out)[k] == ps[i].name;
      assert out[k] == (ps[i].name, ps[i].manifest);
    }
    forall k | 0 <= k < |out| ensures exists i :: Kept(ps, i) && out[k] == (ps[i].name, ps[i].manifest) {
      LoadedName(ps, out[k].0);
      var i :| Kept(ps, i) && ps[i].name == out[k].0;
      LoadedEntry(ps, i);
      assert out[k] == (ps[i].name, ps[i].manifest);
    }
  }

  /** A list with the same elements as one without repetitions has none either. */
  lemma DistinctByCount(names: seq<string>, out: seq<string>)
    requires Distinct(names) && multiset(out) == multiset(names)
    ensures Distinct(out)
  {
    forall i, j | 0 <= i < j < |out| ensures out[i] != out[j] {
      assert out == out[..j] + [out[j]] + out[j + 1..];
      assert out[i] in out[..j];
      assert out[i] == out[j] ==> multiset(out)[out[j]] >= 2;
      OnceOnly(names, out[j]);
    }
  }

  lemma {:induction false} OnceOnly(names: seq<string>, n: string)
    requires Distinct(names)
    ensures multiset(names)[n] <= 1
    decreases |names|
  {
    if names != [] {
      assert names == [names[0]] + names[1..];
      OnceOnly(names[1..], n);
      if names[0] == n { assert n !in names[1..]; }
    }
  }

  /** Two packages that must precede each other make the graph cyclic. */
  lemma MutualPackages(ps: seq<Package>, i: int, d: Dependency, j: int, e: Dependency)
    requires Kept(ps, i) && Kept(ps, j)
    requires d in ps[i].dependencies && MustPrecede(ps[i], d) && d.name == ps[j].name
    requires e in ps[j].dependencies && MustPrecede(ps[j], e) && e.name == ps[i].name
    ensures !Acyclic(Load(ps).graph)
  {
    EdgeIff(ps, i, d.name);
    EdgeIff(ps, j, e.name);
    DirectCycleIsCycle(Load(ps).graph, ps[i].name, ps[j].name);
  }

  /** In an acyclic workspace the n layers list every package once, dependencies first. */
  lemma LayersAreAnOrder(names: seq<string>, g: Graph)
    requires Distinct(names) && (forall n :: n in names <==> n in g) && Acyclic(g)
    ensures multiset(Layers(names, g, |names|)) == multiset(names)
    ensures forall n :: n in Layers(names, g, |names|) ==> n in g
    ensures DependenciesFirst(g, Layers(names, g, |names|))
  {
    SameSize(names, g);
    AcyclicIffShallow(g, |names|);
    LayersAndRest(names, g, |names|);
    PickNone(names, Deep(g, |names|));
    LayersPutDependenciesFirst(names, g, |names|);
    assert forall n :: n in Layers(names, g, |names|) ==> n in multiset(names);
  }

  /** Pass `k` emits exactly the packages whose longest chain of dependencies has length `k`. */
  lemma LayerIsExactDepth(names: seq<string>, g: Graph, k: nat, p: string)
    requires forall n :: n in names <==> n in g
    ensures p in Layer(names, g, k) <==> HasChain(g, p, k) && forall m: nat :: m > k ==> !HasChain(g, p, m)
  {
    assert p in Deep(g, k) <==> HasChain(g, p, k);
    assert p in Deep(g, k + 1) <==> HasChain(g, p, k + 1);
    if p in Layer(names, g, k) {
      forall m: nat | m > k ensures !HasChain(g, p, m) {
        if HasChain(g, p, m) { ShorterChain(g, p, m, k + 1); }
      }
    }
  }

  function Firsts(out: seq<(string, string)>): seq<string> {
    seq(|out|, i requires 0 <= i < |out| => out[i].0)
  }
}
