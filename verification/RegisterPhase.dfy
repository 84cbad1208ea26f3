/** The register phase: the imports, the entry point, the seeds and the configured functions enter the graph. */
module RegisterPhase {
  import opened Code
  import opened Nodes
  import opened Blocks
  import opened GraphSpec
  import opened FunctionGraphs

  const IMPORT_SIZE: nat := 4

  datatype Added = Added(entry: Addr, size: nat)

  /** The import addresses, the image's entry point (0 for none), the seeds, and the configured functions with their
      sizes, 0 where none is given. */
  datatype Config = Config(imports: seq<Addr>, entry: Addr, seeds: seq<Addr>, functions: seq<Added>) {
    ghost predicate Valid() {
      && entry < LIMIT && (forall a | a in imports + seeds :: a < LIMIT) && (forall f | f in functions :: f.entry < LIMIT)
    }

    /** What is added after the imports, in order. */
    function Adds(): seq<Added> {
      (if entry != 0 then [Added(entry, 0)] else []) + Seeds(seeds) + functions
    }

    /** The size a function is registered with: the first it is added with, and none for an import. */
    function Declared(e: Addr): nat { if e in imports then 0 else First(Adds(), e) }

    /** Each import sealed, and every other function registered with its declared size. */
    ghost function Registered(): Graph { Partial(imports, Adds()) }
  }

  function Seeds(seeds: seq<Addr>): seq<Added> {
    if seeds == [] then [] else Seeds(seeds[..|seeds|-1]) + [Added(seeds[|seeds|-1], 0)]
  }

  function First(adds: seq<Added>, e: Addr): nat {
    if adds == [] then 0 else if adds[0].entry == e then adds[0].size else First(adds[1..], e)
  }

  ghost predicate IsAdded(adds: seq<Added>, e: Addr) { exists x :: x in adds && x.entry == e }

  ghost function SealedImport(e: Addr): Node { Fresh(e, IMPORT_SIZE, Authority.Import).(state := Lifecycle.Sealed) }

  ghost function Partial(imports: seq<Addr>, adds: seq<Added>): Graph {
    map e | e in (set a | a in imports) + (set x | x in adds :: x.entry) ::
      if e in imports then SealedImport(e) else Fresh(e, First(adds, e), Authority.Config)
  }

  /** A graph of sealed imports and functions yet to be discovered. */
  ghost predicate Starting(g: Graph) {
    forall e | e in g :: e < LIMIT && (g[e] == SealedImport(e) || g[e] == Fresh(e, g[e].size, Authority.Config))
  }

  /** The declared sizes of its functions. */
  ghost function SizesOf(g: Graph): map<Addr, nat> { map e | e in g && g[e].authority == Authority.Config :: g[e].size }

  lemma {:induction false} FirstAppend(adds: seq<Added>, x: Added, e: Addr)
    ensures First(adds + [x], e) == if IsAdded(adds, e) then First(adds, e) else if x.entry == e then x.size else 0
  {
    if adds == [] {
      assert [] + [x] == [x] && [x][1..] == [];
    } else {
      assert (adds + [x])[1..] == adds[1..] + [x] && adds == [adds[0]] + adds[1..];
      FirstAppend(adds[1..], x, e);
      if adds[0].entry != e { assert IsAdded(adds, e) <==> IsAdded(adds[1..], e); }
    }
  }

  lemma RegisteredStarts(config: Config)
    requires config.Valid()
    ensures Starting(config.Registered())
    ensures forall e :: (if e in SizesOf(config.Registered()) then SizesOf(config.Registered())[e] else 0) == config.Declared(e)
  {
    SeedsElements(config.seeds);
    forall e | e in config.Registered() ensures e < LIMIT {
      PartialAt(config.imports, config.Adds(), e);
      if e in config.imports {
        assert e in config.imports + config.seeds;
      } else {
        var x :| x in config.Adds() && x.entry == e;
        assert x in Seeds(config.seeds) ==> x.entry in config.imports + config.seeds;
      }
    }
    forall e ensures (if e in SizesOf(config.Registered()) then SizesOf(config.Registered())[e] else 0) == config.Declared(e) {
      NeverAdded(config.Adds(), e);
      PartialAt(config.imports, config.Adds(), e);
    }
    hide Seeds, First;
  }

  lemma PartialAt(imports: seq<Addr>, adds: seq<Added>, e: Addr)
    ensures e in Partial(imports, adds) <==> e in imports || IsAdded(adds, e)
    ensures e in Partial(imports, adds) ==>
      Partial(imports, adds)[e] == if e in imports then SealedImport(e) else Fresh(e, First(adds, e), Authority.Config)
  {
    hide First;
  }

  lemma {:induction false} SeedsElements(seeds: seq<Addr>)
    ensures forall x :: x in Seeds(seeds) <==> x.entry in seeds && x.size == 0
  {
    if seeds != [] {
      SeedsElements(seeds[..|seeds|-1]);
      assert seeds == seeds[..|seeds|-1] + [seeds[|seeds|-1]];
    }
  }

  lemma {:induction false} NeverAdded(adds: seq<Added>, e: Addr)
    ensures !IsAdded(adds, e) ==> First(adds, e) == 0
  {
    if adds != [] {
      assert adds == [adds[0]] + adds[1..];
      NeverAdded(adds[1..], e);
      assert adds[0] in adds;
    }
  }

  /** The size of the first of the configured functions to start at `e`. */
  ghost predicate IsConfiguredSize(functions: seq<Added>, e: Addr, size: nat) {
    exists i: nat ::
      && i < |functions| && functions[i].entry == e && functions[i].size == size
      && forall k: nat | k < i :: functions[k].entry != e
  }

  /** What registration makes of an address: nothing, a sealed import of four bytes, or a function of authority Config with
      no code yet, whose size is 0 for the entry point and the seeds and else the one configured. */
  ghost predicate IsRegistered(config: Config, g: Graph, sizes: map<Addr, nat>, e: Addr) {
    var isSeed := (e == config.entry && e != 0) || e in config.seeds;
    && (e in g <==> e in config.imports || isSeed || exists f :: f in config.functions && f.entry == e)
    && (e in sizes <==> e in g && e !in config.imports)
    && (e in g && e in config.imports ==> g[e] == Node(e, 4, Authority.Import, Lifecycle.Sealed, [], [], {}, [], [], [], []))
    && (e in sizes ==>
          && g[e] == Node(e, sizes[e], Authority.Config, Registered, [], [], {}, [], [], [], [])
          && (if isSeed then sizes[e] == 0 else IsConfiguredSize(config.functions, e, sizes[e])))
  }

  lemma {:induction false} FirstIs(adds: seq<Added>, e: Addr)
    ensures IsAdded(adds, e) ==> IsConfiguredSize(adds, e, First(adds, e))
  {
    if adds != [] && adds[0].entry != e && IsAdded(adds, e) {
      assert adds == [adds[0]] + adds[1..];
      FirstIs(adds[1..], e);
      var i: nat :| i < |adds[1..]| && adds[1..][i].entry == e && adds[1..][i].size == First(adds[1..], e)
        && forall k: nat | k < i :: adds[1..][k].entry != e;
      assert adds[i + 1] == adds[1..][i];
      forall k: nat | k < i + 1 ensures adds[k].entry != e {
        if k > 0 { assert adds[k] == adds[1..][k - 1]; }
      }
    }
  }

  /** Seeds go before the configured functions, and are added with no size. */
  lemma {:induction false} FirstOfTwo(a: seq<Added>, b: seq<Added>, e: Addr)
    ensures First(a + b, e) == if IsAdded(a, e) then First(a, e) else First(b, e)
  {
    if a == [] {
      assert a + b == b;
    } else {
      assert (a + b)[1..] == a[1..] + b && a == [a[0]] + a[1..];
      FirstOfTwo(a[1..], b, e);
      if a[0].entry != e { assert IsAdded(a, e) <==> IsAdded(a[1..], e); } else { assert a[0] in a; }
    }
  }

  lemma {:induction false} ZeroSizes(adds: seq<Added>, e: Addr)
    requires forall x | x in adds :: x.size == 0
    ensures First(adds, e) == 0
  {
    if adds != [] {
      assert adds == [adds[0]] + adds[1..];
      ZeroSizes(adds[1..], e);
    }
  }

  lemma DeclaredIs(config: Config, e: Addr)
    ensures var isSeed := (e == config.entry && e != 0) || e in config.seeds;
      && (IsAdded(config.Adds(), e) <==> isSeed || IsAdded(config.functions, e))
      && First(config.Adds(), e) == if isSeed then 0 else First(config.functions, e)
  {
    var first := (if config.entry != 0 then [Added(config.entry, 0)] else []) + Seeds(config.seeds);
    SeedsElements(config.seeds);
    ZeroSizes(first, e);
    FirstOfTwo(first, config.functions, e);
    assert forall x :: x in config.Adds() <==> x in first || x in config.functions;
    if e in config.seeds { assert Added(e, 0) in first; }
    if e == config.entry && e != 0 { assert Added(e, 0) in first; }
    hide First, Seeds;
  }

  /** Registration in plain terms. */
  lemma RegisteredInPlainTerms(config: Config, e: Addr)
    ensures IsRegistered(config, config.Registered(), SizesOf(config.Registered()), e)
  {
    hide First, Config.Adds, IsConfiguredSize;
    DeclaredIs(config, e);
    FirstIs(config.functions, e);
    PartialAt(config.imports, config.Adds(), e);
    hide Partial;
  }

  /** With no branches parked anywhere, adding a function changes nothing else. */
  lemma AddQuietly(g: Graph, base: Addr, size: nat, authority: Authority)
    requires forall e | e in g :: g[e].unresolved == []
    ensures AddFunction(g, base, size, authority) ==
      if base in g && g[base].authority.Rank() >= authority.Rank() then g else g[base := Fresh(base, size, authority)]
  {
    forall e | e in g ensures g[e].Notified(base) == g[e] {
      assert g[e].tailCalls + [] == g[e].tailCalls;
    }
  }

  lemma ImportNext(imports: seq<Addr>, i: nat)
    requires i < |imports|
    ensures Partial(imports[..i+1], []) == Partial(imports[..i], [])[imports[i] := SealedImport(imports[i])]
    ensures imports[i] in Partial(imports[..i], []) ==> Partial(imports[..i], [])[imports[i]] == SealedImport(imports[i])
  {
    assert imports[..i+1] == imports[..i] + [imports[i]];
  }

  lemma AddNext(imports: seq<Addr>, adds: seq<Added>, i: nat)
    requires i < |adds|
    ensures var g := Partial(imports, adds[..i]);
      && (adds[i].entry in g ==> g[adds[i].entry].authority.Rank() >= Authority.Config.Rank())
      && Partial(imports, adds[..i+1]) ==
         if adds[i].entry in g then g else g[adds[i].entry := Fresh(adds[i].entry, adds[i].size, Authority.Config)]
  {
    var g, g', x := Partial(imports, adds[..i]), Partial(imports, adds[..i+1]), adds[i];
    assert adds[..i+1] == adds[..i] + [x];
    var want := if x.entry in g then g else g[x.entry := Fresh(x.entry, x.size, Authority.Config)];
    PartialAt(imports, adds[..i], x.entry);
    RankOf(imports, adds[..i], x.entry);
    hide *;
    forall e ensures (e in g' <==> e in want) && (e in g' ==> g'[e] == want[e]) {
      AddNextAt(imports, adds[..i], x, e);
    }
  }

  lemma RankOf(imports: seq<Addr>, adds: seq<Added>, e: Addr)
    ensures e in Partial(imports, adds) ==> Partial(imports, adds)[e].authority.Rank() >= Authority.Config.Rank()
  {
    hide First;
  }

  lemma AddNextAt(imports: seq<Addr>, adds: seq<Added>, x: Added, e: Addr)
    ensures var g, g' := Partial(imports, adds), Partial(imports, adds + [x]);
      && (e in g' <==> e in g || e == x.entry)
      && (e in g ==> g'[e] == g[e])
      && (e in g' && e !in g ==> g'[e] == Fresh(x.entry, x.size, Authority.Config))
  {
    hide First, Partial, Fresh, SealedImport, IsAdded;
    PartialAt(imports, adds, e);
    PartialAt(imports, adds + [x], e);
    FirstAppend(adds, x, e);
    AddedAppend(adds, x, e);
  }

  lemma AddedAppend(adds: seq<Added>, x: Added, e: Addr)
    ensures IsAdded(adds + [x], e) <==> IsAdded(adds, e) || x.entry == e
  {
    if IsAdded(adds, e) { var y :| y in adds && y.entry == e; assert y in adds + [x]; }
    assert x in adds + [x];
  }

  lemma PartialQuiet(imports: seq<Addr>, adds: seq<Added>)
    ensures forall e | e in Partial(imports, adds) :: Partial(imports, adds)[e].unresolved == []
    ensures Partial([], []) == map[]
  {
  }

  /** Registers an import and seals it at once. */
  method AddImport(graph: FunctionGraph, a: Addr, ghost before: seq<Addr>)
    requires graph.Valid() && graph.View() == Partial(before, [])
    modifies graph, graph.functions.Values
    ensures graph.Valid() && graph.View() == Partial(before + [a], [])
    ensures fresh(graph.functions.Values - old(graph.functions.Values))
  {
    hide *;
    ghost var g, imports := graph.View(), before + [a];
    assert imports[..|before|] == before && imports[..|before|+1] == imports;
    ImportNext(imports, |before|);
    PartialQuiet(before, []);
    AddQuietly(g, a, IMPORT_SIZE, Authority.Import);
    ImportRank(g, a);
    var node := graph.AddFunction(a, IMPORT_SIZE, Authority.Import);
    SealNode(graph, a, g);
  }

  lemma ImportRank(g: Graph, a: Addr)
    ensures a in g && g[a] == SealedImport(a) ==> g[a].authority.Rank() >= Authority.Import.Rank()
    ensures g[a := SealedImport(a)][a] == SealedImport(a)
    ensures a in g && g[a] == SealedImport(a) ==> g[a := SealedImport(a)] == g
  {
  }

  method SealNode(graph: FunctionGraph, a: Addr, ghost g: Graph)
    requires graph.Valid() && a in graph.functions
    requires graph.View() == g[a := SealedImport(a)] || graph.View() == g[a := Fresh(a, IMPORT_SIZE, Authority.Import)]
    modifies graph.functions.Values
    ensures graph.Valid() && graph.View() == g[a := SealedImport(a)]
  {
    hide *;
    ghost var g1 := graph.View();
    graph.ViewNodes();
    ImportSteps(a);
    assert g1[a] == SealedImport(a) || g1[a] == Fresh(a, IMPORT_SIZE, Authority.Import);
    var node := graph.functions[a];
    StateOf(node);
    if node.state == Registered { node.DiscoverAsImport(); }
    if node.View().CanSeal() { node.Seal(); }
    graph.ViewOf(g, a, SealedImport(a));
  }

  lemma StateOf(n: FunctionNode)
    ensures n.View().state == n.state
  {
  }

  /** A fresh import can be discovered and then sealed, and a sealed one neither. */
  lemma ImportSteps(a: Addr)
    ensures SealedImport(a).state == Lifecycle.Sealed && !SealedImport(a).CanSeal()
    ensures var n := Fresh(a, IMPORT_SIZE, Authority.Import);
      var n1 := n.(state := Lifecycle.Discovered);
      n.state == Registered && n.IsImport() && n1.CanSeal() && n1.Sealed() == SealedImport(a)
  {
    EmptySeals();
  }

  lemma EmptySeals()
    ensures SealedBlocks([]) == []
  {
  }

  /** Registers everything the configuration and the image name, and reports the declared sizes. */
  method Run(config: Config) returns (graph: FunctionGraph, sizes: map<Addr, nat>)
    requires config.Valid()
    ensures fresh(graph) && fresh(graph.functions.Values)
    ensures graph.Valid() && graph.View() == config.Registered() && sizes == SizesOf(graph.View())
    ensures forall e: Addr :: IsRegistered(config, graph.View(), sizes, e)
  {
    hide *;
    graph := new FunctionGraph();
    PartialQuiet([], []);
    var imports := config.imports;
    assert imports[..0] == [];
    for i := 0 to |imports|
      invariant fresh(graph) && fresh(graph.functions.Values) && graph.Valid()
      invariant graph.View() == Partial(imports[..i], [])
    {
      assert imports[..i+1] == imports[..i] + [imports[i]];
      AddImport(graph, imports[i], imports[..i]);
    }
    assert imports[..|imports|] == imports;
    var adds := AddList(config);
    assert adds[..0] == [];
    for i := 0 to |adds|
      invariant fresh(graph) && fresh(graph.functions.Values) && graph.Valid()
      invariant graph.View() == Partial(imports, adds[..i])
    {
      AddNext(imports, adds, i);
      PartialQuiet(imports, adds[..i]);
      AddQuietly(graph.View(), adds[i].entry, adds[i].size, Authority.Config);
      SameOnTie(graph.View(), adds[i].entry, adds[i].size);
      var node := graph.AddFunction(adds[i].entry, adds[i].size, Authority.Config);
    }
    assert adds[..|adds|] == adds;
    AddsAre(config);
    sizes := Sizes(graph);
    forall e: Addr ensures IsRegistered(config, graph.View(), sizes, e) {
      RegisteredInPlainTerms(config, e);
    }
  }

  lemma SameOnTie(g: Graph, e: Addr, size: nat)
    ensures e !in g ==> g[e := Fresh(e, size, Authority.Config)] == g + map[e := Fresh(e, size, Authority.Config)]
  {
  }

  lemma AddsAre(config: Config)
    ensures config.Registered() == Partial(config.imports, config.Adds())
  {
  }

  method AddList(config: Config) returns (adds: seq<Added>)
    ensures adds == config.Adds()
  {
    adds := if config.entry != 0 then [Added(config.entry, 0)] else [];
    ghost var first := adds;
    var seeds := config.seeds;
    SeedsNext([], 0);
    assert first + [] == first && seeds[..0] == [];
    hide Seeds;
    for i := 0 to |seeds|
      invariant adds == first + Seeds(seeds[..i])
    {
      SeedsNext(seeds, i);
      assert (first + Seeds(seeds[..i])) + [Added(seeds[i], 0)] == first + (Seeds(seeds[..i]) + [Added(seeds[i], 0)]);
      adds := adds + [Added(seeds[i], 0)];
    }
    assert seeds[..|seeds|] == seeds;
    adds := adds + config.functions;
  }

  lemma SeedsNext(seeds: seq<Addr>, i: nat)
    ensures Seeds([]) == []
    ensures i < |seeds| ==> Seeds(seeds[..i+1]) == Seeds(seeds[..i]) + [Added(seeds[i], 0)]
  {
    if i < |seeds| { assert seeds[..i+1][..i] == seeds[..i]; }
  }

  method Sizes(graph: FunctionGraph) returns (sizes: map<Addr, nat>)
    requires graph.Valid()
    ensures sizes == SizesOf(graph.View())
  {
    graph.ViewNodes();
    sizes := map e | e in graph.functions && graph.functions[e].authority == Authority.Config :: graph.functions[e].size;
  }
}
