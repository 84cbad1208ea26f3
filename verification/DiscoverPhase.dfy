/** The discover phase: scan every registered function, and every function its calls bring in, to a fixed point. */
module DiscoverPhase {
  import opened Code
  import opened Nodes
  import opened Scanner
  import opened GraphSpec
  import opened FunctionGraphs
  import opened PhaseHelpers

  const MAX_ROUNDS: nat := 64

  lemma RoundCap()
    ensures MAX_ROUNDS == 64
  {
  }

  /** The first loop: rounds until the function count stands still. `settled` is false only at the round cap. */
  method ExpandCalls(ctx: Context, graph: FunctionGraph) returns (lastCount: int, settled: bool)
    requires ctx.Valid() && graph.Valid() && Inv(ctx, graph.View(), {}) && Walked(ctx, graph.View())
    modifies graph, graph.functions.Values
    ensures graph.Valid() && Inv(ctx, graph.View(), {}) && Walked(ctx, graph.View())
    ensures fresh(graph.functions.Values - old(graph.functions.Values))
    ensures lastCount <= |graph.View()| && |old(graph.View())| <= |graph.View()|
    ensures AllTold(ctx, old(graph.View()), graph.View())
    ensures settled ==> AllBlocked(ctx, graph.View(), graph.View().Keys)
    ensures !settled ==> |graph.View()| >= |old(graph.View())| + 63
  {
    hide *;
    RoundCap();
    lastCount, settled := -1, false;
    ghost var g0 := graph.View();
    ghost var before := g0;
    NothingTried(ctx, before);
    AllToldNothing(ctx, before);
    for iter := 0 to MAX_ROUNDS
      invariant graph.Valid() && Inv(ctx, graph.View(), {}) && Walked(ctx, graph.View())
      invariant fresh(graph.functions.Values - old(graph.functions.Values))
      invariant lastCount <= |graph.View()| && |g0| <= |graph.View()|
      invariant AllTold(ctx, g0, graph.View())
      invariant iter > 0 ==> lastCount >= |g0| + iter - 1
      invariant iter > 0 ==> lastCount == |before| && Advanced(ctx, before, graph.View(), RegisteredOf(before))
    {
      var count := |graph.functions|;
      graph.ViewKeys();
      SameSize(graph.View(), graph.functions.Keys);
      assert |graph.functions.Keys| == |graph.functions|;
      if count == lastCount && iter > 0 {
        RoundSettles(ctx, before, graph.View());
        settled := true;
        return;
      }
      lastCount := count;
      before := graph.View();
      var known := graph.functions.Keys;
      var pending := DiscoverPendingFunctions(ctx, graph, known);
      RoundTells(ctx, g0, before, graph.View());
      RoundSettles(ctx, before, graph.View());
      if pending == 0 {
        NoneRegistered(ctx, graph.View());
        settled := true;
        return;
      }
    }
  }

  lemma SameSize(g: Graph, keys: set<Addr>)
    requires g.Keys == keys
    ensures |g| == |keys|
  {
    assert |g.Keys| == |g|;
  }

  /** The second loop, after the vtable scan has added functions. */
  method ExpandVtables(ctx: Context, graph: FunctionGraph, last: int, ghost g0: Graph) returns (settled: bool)
    requires ctx.Valid() && graph.Valid() && Inv(ctx, graph.View(), {}) && Walked(ctx, graph.View()) && last < |graph.View()|
    requires AllTold(ctx, g0, graph.View())
    modifies graph, graph.functions.Values
    ensures graph.Valid() && Inv(ctx, graph.View(), {}) && Walked(ctx, graph.View())
    ensures fresh(graph.functions.Values - old(graph.functions.Values))
    ensures |old(graph.View())| <= |graph.View()| && old(graph.View()).Keys <= graph.View().Keys
    ensures AllTold(ctx, g0, graph.View())
    ensures settled ==> AllBlocked(ctx, graph.View(), graph.View().Keys)
    ensures !settled ==> |graph.View()| >= |old(graph.View())| + 63
  {
    hide *;
    RoundCap();
    settled := false;
    ghost var start := graph.View();
    var lastCount := last;
    for iter := 0 to MAX_ROUNDS
      invariant graph.Valid() && Inv(ctx, graph.View(), {}) && Walked(ctx, graph.View())
      invariant fresh(graph.functions.Values - old(graph.functions.Values))
      invariant lastCount <= |graph.View()| && (iter == 0 ==> lastCount < |graph.View()|)
      invariant |start| <= |graph.View()| && start.Keys <= graph.View().Keys
      invariant AllTold(ctx, g0, graph.View())
      invariant iter > 0 ==> lastCount >= |start| + iter - 1
    {
      graph.ViewKeys();
      var known := graph.functions.Keys;
      ghost var before := graph.View();
      var pending := DiscoverPendingFunctions(ctx, graph, known);
      RoundTells(ctx, g0, before, graph.View());
      RoundSettles(ctx, before, graph.View());
      if pending == 0 {
        NoneRegistered(ctx, graph.View());
        settled := true;
        return;
      }
      graph.ViewKeys();
      SameSize(graph.View(), graph.functions.Keys);
      assert |graph.functions.Keys| == |graph.functions|;
      if |graph.functions| == lastCount {
        settled := true;
        return;
      }
      lastCount := |graph.functions|;
    }
  }

  method AddVtable(ctx: Context, graph: FunctionGraph, slot: Addr) returns (added: bool)
    requires ctx.Valid() && graph.Valid() && Inv(ctx, graph.View(), {}) && Walked(ctx, graph.View()) && slot < LIMIT
    modifies graph, graph.functions.Values
    ensures graph.Valid() && Inv(ctx, graph.View(), {}) && Walked(ctx, graph.View())
    ensures fresh(graph.functions.Values - old(graph.functions.Values))
    ensures |graph.View()| == |old(graph.View())| + (if added then 1 else 0)
    ensures added <==> slot !in old(graph.View()) && RegionContaining(ctx.scanner.codeRegions, slot).Some?
    ensures graph.View() ==
      if added then AddFunction(old(graph.View()), slot, ENTRY_SIZE, Authority.Vtable) else old(graph.View())
    ensures old(graph.View()).Keys <= graph.View().Keys
    ensures slot in graph.View() || RegionContaining(ctx.scanner.codeRegions, slot) == None
  {
    hide *;
    ghost var g := graph.View();
    graph.ViewKeys();
    added := false;
    if slot in graph.functions || RegionContaining(ctx.scanner.codeRegions, slot) == None { return; }
    AdditionGrows(ctx, g, {}, slot, ENTRY_SIZE, Authority.Vtable);
    WalkedGrows(ctx, g, AddFunction(g, slot, ENTRY_SIZE, Authority.Vtable));
    AddedOne(g, slot, ENTRY_SIZE, Authority.Vtable);
    assert AddFunction(g, slot, ENTRY_SIZE, Authority.Vtable).Keys == g.Keys + {slot};
    var node := graph.AddFunction(slot, ENTRY_SIZE, Authority.Vtable);
    added := true;
  }

  /** Entry points from vtable slots inside a code region. */
  method AddVtables(ctx: Context, graph: FunctionGraph, slots: seq<Addr>, ghost from: Graph) returns (newFns: nat)
    requires ctx.Valid() && graph.Valid() && Inv(ctx, graph.View(), {}) && Walked(ctx, graph.View()) && forall s | s in slots :: s < LIMIT
    requires AllTold(ctx, from, graph.View())
    modifies graph, graph.functions.Values
    ensures graph.Valid() && Inv(ctx, graph.View(), {}) && Walked(ctx, graph.View())
    ensures fresh(graph.functions.Values - old(graph.functions.Values)) && AllTold(ctx, from, graph.View())
    ensures |graph.View()| == |old(graph.View())| + newFns
    ensures newFns == 0 ==> graph.View() == old(graph.View())
    ensures old(graph.View()).Keys <= graph.View().Keys && InRegionsAdded(ctx, graph.View(), slots)
  {
    hide *;
    newFns := 0;
    ghost var g0 := graph.View();
    NoSlots(ctx, g0);
    assert slots[..0] == [];
    for i := 0 to |slots|
      invariant graph.Valid() && Inv(ctx, graph.View(), {}) && Walked(ctx, graph.View())
      invariant fresh(graph.functions.Values - old(graph.functions.Values))
      invariant |graph.View()| == |g0| + newFns && AllTold(ctx, from, graph.View())
      invariant newFns == 0 ==> graph.View() == g0
      invariant g0.Keys <= graph.View().Keys && InRegionsAdded(ctx, graph.View(), slots[..i])
    {
      assert slots[i] in slots;
      ghost var g := graph.View();
      var added := AddVtable(ctx, graph, slots[i]);
      SlotAdded(ctx, g, graph.View(), slots, i);
      if added { AdditionTells(ctx, from, g, slots[i], ENTRY_SIZE, Authority.Vtable); }
      if added { newFns := newFns + 1; }
    }
    assert slots[..|slots|] == slots;
  }

  /** Every slot that lies in a code region is an entry point. */
  ghost predicate InRegionsAdded(ctx: Context, g: Graph, slots: seq<Addr>) {
    forall s | s in slots :: s in g || RegionContaining(ctx.scanner.codeRegions, s) == None
  }

  lemma SlotAdded(ctx: Context, g: Graph, g': Graph, slots: seq<Addr>, i: nat)
    requires i < |slots| && InRegionsAdded(ctx, g, slots[..i]) && g.Keys <= g'.Keys
    requires slots[i] in g' || RegionContaining(ctx.scanner.codeRegions, slots[i]) == None
    ensures InRegionsAdded(ctx, g', slots[..i+1])
  {
    assert slots[..i+1] == slots[..i] + [slots[i]];
  }

  lemma StillAdded(ctx: Context, g: Graph, g': Graph, slots: seq<Addr>)
    requires InRegionsAdded(ctx, g, slots) && g.Keys <= g'.Keys
    ensures InRegionsAdded(ctx, g', slots)
  {
  }

  lemma NoSlots(ctx: Context, g: Graph)
    ensures InRegionsAdded(ctx, g, [])
  {
  }

  /** The discover phase. It ends closed: every direct call of every function goes to an entry point or the thunk
      table. Unless a round cap is hit, which takes 63 new functions, the functions still registered are the unstartable ones. */
  method Run(ctx: Context, graph: FunctionGraph, vtableSlots: seq<Addr>) returns (settled: bool)
    requires ctx.Valid() && graph.Valid() && Inv(ctx, graph.View(), {}) && Walked(ctx, graph.View()) && forall s | s in vtableSlots :: s < LIMIT
    modifies graph, graph.functions.Values
    ensures fresh(graph.functions.Values - old(graph.functions.Values))
    ensures graph.Valid() && Inv(ctx, graph.View(), {}) && Walked(ctx, graph.View())
    ensures NoStale(graph.View()) && CallsClosed(ctx, graph.View(), {})
    ensures InRegionsAdded(ctx, graph.View(), vtableSlots)
    ensures AllTold(ctx, old(graph.View()), graph.View()) && AllApart(ctx, old(graph.View()), graph.View())
    ensures settled ==> OnlyUnstartable(ctx, graph.View())
    ensures !settled ==> |graph.View()| >= |old(graph.View())| + 63
  {
    hide *;
    var lastCount;
    lastCount, settled := ExpandCalls(ctx, graph);
    var newFns := AddVtables(ctx, graph, vtableSlots, old(graph.View()));
    if newFns > 0 {
      ghost var g := graph.View();
      settled := ExpandVtables(ctx, graph, lastCount, old(graph.View()));
      StillAdded(ctx, g, graph.View(), vtableSlots);
    }
    InvSays(ctx, graph.View());
    ToldApart(ctx, old(graph.View()), graph.View());
    if settled { SettledExactly(ctx, graph.View()); }
  }

  lemma InvSays(ctx: Context, g: Graph)
    requires Inv(ctx, g, {})
    ensures NoStale(g) && CallsClosed(ctx, g, {})
  {
  }

  /** What the phase discovers keeps clear of the entry points there were when it began. */
  ghost predicate AllApart(ctx: Context, g0: Graph, g: Graph) {
    forall e | e in g && g[e].state != Registered && !g[e].IsImport() && (e in g0 ==> g0[e].state == Registered) ::
      KeepsApart(ctx.scanner.image, g[e], g0.Keys)
  }

  lemma ToldApart(ctx: Context, g0: Graph, g: Graph)
    requires AllTold(ctx, g0, g)
    ensures AllApart(ctx, g0, g)
  {
    hide ToldBetween, KeepsApart;
    forall e | e in g && g[e].state != Registered && !g[e].IsImport() && (e in g0 ==> g0[e].state == Registered)
      ensures KeepsApart(ctx.scanner.image, g[e], g0.Keys)
    {
      ToldKeepsApart(ctx, g[e], g0.Keys, g.Keys);
    }
  }
}
