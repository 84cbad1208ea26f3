/** What discovering one function makes of the graph, in plain terms. */
module DiscoveryStep {
  import opened Code
  import opened Nodes
  import opened Blocks
  import opened Scanner
  import opened GraphSpec
  import opened PhaseHelpers

  /** The edge is that of a branch, call or not, to one of `keys`. */
  ghost predicate ToEntry(keys: set<Addr>, branches: seq<Branch>, x: Edge, isCall: bool) {
    x.target in keys && exists b :: b in branches && b.isCall == isCall && b.site == x.site && b.target == x.target
  }

  /** The parked branch is one of `branches`, flags included, and to none of `keys`. */
  ghost predicate ToNone(keys: set<Addr>, branches: seq<Branch>, j: UnresolvedJump) {
    j.target !in keys && UnresolvedBranch(j.site, j.target, j.isCall, j.isConditional) in branches
  }

  /** From `n` to `n'` the branches were added: a call as a call, a jump as a tail call, and what goes to no entry point
      parked as it is. */
  ghost predicate Placed(keys: set<Addr>, n: Node, n': Node, branches: seq<Branch>) {
    && n' == n.(calls := n'.calls, tailCalls := n'.tailCalls, unresolved := n'.unresolved)
    && (forall x :: x in n'.calls <==> x in n.calls || ToEntry(keys, branches, x, true))
    && (forall x :: x in n'.tailCalls <==> x in n.tailCalls || ToEntry(keys, branches, x, false))
    && (forall j :: j in n'.unresolved <==> j in n.unresolved || ToNone(keys, branches, j))
  }

  lemma {:induction false} JumpsPlaced(g: Graph, f: Addr, branches: seq<Branch>)
    requires f in g
    ensures var g' := JumpAll(g, f, branches);
      && g'.Keys == g.Keys && (forall e | e in g && e != f :: g'[e] == g[e]) && Placed(g.Keys, g[f], g'[f], branches)
  {
    if branches != [] {
      var init, b := branches[..|branches|-1], branches[|branches|-1];
      assert branches == init + [b];
      JumpsPlaced(g, f, init);
      var g1 := JumpAll(g, f, init);
      JumpAddedInPlainTerms(g1, f, b.site, b.target, b.isCall, b.isConditional);
      hide AddJump;
      PlacedMore(g.Keys, g[f], g1[f], init, b, JumpAll(g, f, branches)[f]);
    }
  }

  lemma PlacedMore(keys: set<Addr>, n: Node, n0: Node, init: seq<Branch>, b: Branch, n1: Node)
    requires Placed(keys, n, n0, init)
    requires n1 == n0.(calls := n1.calls, tailCalls := n1.tailCalls, unresolved := n1.unresolved)
    requires n1.calls == n0.calls + (if b.target in keys && b.isCall then [Edge(b.site, b.target)] else [])
    requires n1.tailCalls == n0.tailCalls + (if b.target in keys && !b.isCall then [Edge(b.site, b.target)] else [])
    requires n1.unresolved == n0.unresolved +
      (if b.target in keys then [] else [UnresolvedJump(b.site, b.target, b.isCall, b.isConditional)])
    ensures Placed(keys, n, n1, init + [b])
  {
    var branches := init + [b];
    assert forall k :: k in branches <==> k in init || k == b;
    forall x, isCall ensures ToEntry(keys, branches, x, isCall) <==>
        ToEntry(keys, init, x, isCall) || (x == Edge(b.site, b.target) && isCall == b.isCall && x.target in keys) {
    }
    forall j ensures ToNone(keys, branches, j) <==>
        ToNone(keys, init, j) || (j == UnresolvedJump(b.site, b.target, b.isCall, b.isConditional) && j.target !in keys) {
    }
    hide ToEntry, ToNone;
  }

  // ---------- The callees ----------

  /** Functions of four bytes were added for the targets, except at the thunk table, and nothing happened to `f`. */
  ghost predicate CalleesAdded(g: Graph, g': Graph, targets: seq<Addr>, thunks: Addr, f: Addr)
    requires f in g
  {
    && (forall t :: t in g' <==> t in g || (t in targets && t != thunks))
    && (forall t | t in g' && t !in g :: g'[t] == Node(t, 4, Authority.Discovered, Registered, [], [], {}, [], [], [], []))
    && f in g' && g'[f] == g[f]
  }

  lemma {:induction false} CallsAdd(g: Graph, targets: seq<Addr>, thunks: Addr, f: Addr)
    requires f in g && g[f].unresolved == []
    ensures f in CallAll(g, targets, thunks) && CalleesAdded(g, CallAll(g, targets, thunks), targets, thunks, f)
  {
    if targets != [] {
      var init, t := targets[..|targets|-1], targets[|targets|-1];
      assert targets == init + [t];
      CallsAdd(g, init, thunks, f);
      OneMoreCallee(g, CallAll(g, init, thunks), init, t, thunks, f);
      hide CallOne;
    }
  }

  lemma OneMoreCallee(g: Graph, g1: Graph, init: seq<Addr>, t: Addr, thunks: Addr, f: Addr)
    requires f in g && g[f].unresolved == [] && CalleesAdded(g, g1, init, thunks, f)
    ensures CalleesAdded(g, CallOne(g1, t, thunks), init + [t], thunks, f)
  {
    var g2 := CallOne(g1, t, thunks);
    if !(t in g1 || t == thunks) {
      FreshFour(t);
      assert g2 == AddFunction(g1, t, 4, Authority.Discovered);
      forall x | x in g1 && g1[x].unresolved == [] ensures x in g2 && g2[x] == g1[x] {
        NothingToClaim(g1[x], t);
      }
      assert g2.Keys == g1.Keys + {t} && g2[t] == Node(t, 4, Authority.Discovered, Registered, [], [], {}, [], [], [], []);
    }
    hide CallOne, AddFunction;
    assert forall x :: x in init + [t] <==> x in init || x == t;
  }

  lemma FreshFour(t: Addr)
    ensures Fresh(t, 4, Authority.Discovered) == Node(t, 4, Authority.Discovered, Registered, [], [], {}, [], [], [], [])
  {
  }

  lemma NothingToClaim(n: Node, entry: Addr)
    requires n.unresolved == []
    ensures n.Notified(entry) == n
  {
    assert n.tailCalls + [] == n.tailCalls;
  }

  // ---------- The whole step ----------

  /** From `g` to `g'` the function at `f`, which had neither code nor branches, was discovered with the result `r`: a
      configured function with a size is cut at its end, and one with no block left is left alone. */
  ghost predicate IsDiscovered(g: Graph, g': Graph, f: Addr, thunks: Addr, r: DiscoveryResult)
    requires f in g
  {
    var n := g[f];
    var cut, end := n.authority == Config && n.size != 0, (n.base + n.size) % 0x1_0000_0000;
    if forall b | b in r.blocks :: cut && b.base >= end then g' == g
    else
      && (forall t :: t in g' <==> t in g || (t in r.externalCalls && t != thunks))
      && (forall t | t in g' && t !in g :: g'[t] == Node(t, 4, Authority.Discovered, Registered, [], [], {}, [], [], [], []))
      && var n' := g'[f];
         && n'.base == n.base && n'.authority == n.authority && n'.state == Lifecycle.Discovered
         && n'.instructions == r.instructions
         && (forall a: Addr :: Covered(n'.blocks, a) <==> Covered(r.blocks, a) && (cut ==> a < end))
         && (!cut ==> n'.blocks == r.blocks)
         && n'.jumpTables == r.jumpTables
         && (forall t :: t in n'.labels <==> t in r.labels || exists jt :: jt in r.jumpTables && t in jt.targets)
         && (forall x :: x in n'.calls <==> ToEntry(g'.Keys, r.branches, x, true))
         && (forall x :: x in n'.tailCalls <==> ToEntry(g'.Keys, r.branches, x, false))
         && (forall j :: j in n'.unresolved <==> ToNone(g'.Keys, r.branches, j))
  }

  lemma {:induction false} TablesAre(n: Node, tables: seq<JumpTable>)
    ensures var n' := WithTables(n, tables);
      && n' == n.(labels := n'.labels, jumpTables := n.jumpTables + tables)
      && forall t :: t in n'.labels <==> t in n.labels || exists jt :: jt in tables && t in jt.targets
  {
    if tables != [] {
      var init, last := tables[..|tables|-1], tables[|tables|-1];
      assert tables == init + [last];
      TablesAre(n, init);
      assert (n.jumpTables + init) + [last] == n.jumpTables + tables;
    } else {
      assert n.jumpTables + [] == n.jumpTables;
    }
  }

  lemma {:induction false} CapEmpty(blocks: seq<Block>, end: Addr)
    ensures Cap(blocks, end) == [] <==> forall b | b in blocks :: b.base >= end
  {
    if blocks != [] {
      assert blocks == [blocks[0]] + blocks[1..];
      CapEmpty(blocks[1..], end);
    }
  }

  lemma KeptIs(n: Node, r: DiscoveryResult)
    ensures var cut, end := n.authority == Config && n.size != 0, (n.base + n.size) % 0x1_0000_0000;
      && (Kept(n, r) == [] <==> forall b | b in r.blocks :: cut && b.base >= end)
      && (forall a: Addr :: Covered(Kept(n, r), a) <==> Covered(r.blocks, a) && (cut ==> a < end))
      && (!cut ==> Kept(n, r) == r.blocks)
  {
    var end := Wrap(n.base + n.size);
    CapEmpty(r.blocks, end);
    forall a: Addr ensures Covered(Cap(r.blocks, end), a) <==> Covered(r.blocks, a) && a < end {
      CapCovers(r.blocks, end, a);
    }
    hide Cap, Covered;
    if r.blocks != [] { assert r.blocks[0] in r.blocks; }
  }

  lemma FilledInPlainTerms(n: Node, r: DiscoveryResult)
    requires n == Fresh(n.base, n.size, n.authority)
    ensures var n' := Filled(n, r);
      && n'.base == n.base && n'.authority == n.authority && n'.state == Lifecycle.Discovered
      && n'.instructions == r.instructions && n'.blocks == Kept(n, r) && n'.jumpTables == r.jumpTables
      && n'.calls == [] && n'.tailCalls == [] && n'.unresolved == []
      && (forall t :: t in n'.labels <==> t in r.labels || exists jt :: jt in r.jumpTables && t in jt.targets)
  {
    TablesAre(n.WithBlocks(Kept(n, r), r.instructions, r.labels), r.jumpTables);
    hide Kept, WithTables, Grow;
    assert n.jumpTables + r.jumpTables == r.jumpTables;
  }

  /** Discovering a function that has neither code nor branches yet, from the blocks to the branches. */
  lemma StepInPlainTerms(g: Graph, f: Addr, thunks: Addr, r: DiscoveryResult)
    requires f in g && ScansCode(g[f]) && g[f] == Fresh(g[f].base, g[f].size, g[f].authority)
    ensures IsDiscovered(g, OneStep(g, f, thunks, r), f, thunks, r)
  {
    hide *;
    OneStepCases(g, f, thunks);
    CodeStepCases(g, f, thunks, r);
    if Kept(g[f], r) == [] {
      KeptNothing(g, f, thunks, r);
    } else {
      FilledInPlainTerms(g[f], r);
      var g1 := g[f := Filled(g[f], r)];
      CallsAdd(g1, r.externalCalls, thunks, f);
      var g2 := CallAll(g1, r.externalCalls, thunks);
      JumpsPlaced(g2, f, r.branches);
      var g3 := JumpAll(g2, f, r.branches);
      JoinSteps(g, g1, g2, g3, f, thunks, r);
      Assembled(g, g1[f], g3, f, thunks, r);
    }
  }

  lemma KeptNothing(g: Graph, f: Addr, thunks: Addr, r: DiscoveryResult)
    requires f in g && Kept(g[f], r) == []
    ensures IsDiscovered(g, g, f, thunks, r)
  {
    KeptIs(g[f], r);
    hide Kept, Covered, ToEntry, ToNone;
  }

  lemma Assembled(g: Graph, n1: Node, g3: Graph, f: Addr, thunks: Addr, r: DiscoveryResult)
    requires f in g && f in g3 && Kept(g[f], r) != [] && n1.blocks == Kept(g[f], r)
    requires n1.base == g[f].base && n1.authority == g[f].authority && n1.state == Lifecycle.Discovered
    requires n1.instructions == r.instructions && n1.jumpTables == r.jumpTables
    requires forall t :: t in n1.labels <==> t in r.labels || exists jt :: jt in r.jumpTables && t in jt.targets
    requires g3[f] == n1.(calls := g3[f].calls, tailCalls := g3[f].tailCalls, unresolved := g3[f].unresolved)
    requires forall t :: t in g3 <==> t in g || (t in r.externalCalls && t != thunks)
    requires forall t | t in g3 && t !in g :: g3[t] == Node(t, 4, Authority.Discovered, Registered, [], [], {}, [], [], [], [])
    requires forall x :: x in g3[f].calls <==> ToEntry(g3.Keys, r.branches, x, true)
    requires forall x :: x in g3[f].tailCalls <==> ToEntry(g3.Keys, r.branches, x, false)
    requires forall j :: j in g3[f].unresolved <==> ToNone(g3.Keys, r.branches, j)
    ensures IsDiscovered(g, g3, f, thunks, r)
  {
    KeptIs(g[f], r);
    hide Kept, Covered, ToEntry, ToNone;
  }

  lemma JoinSteps(g: Graph, g1: Graph, g2: Graph, g3: Graph, f: Addr, thunks: Addr, r: DiscoveryResult)
    requires f in g && f in g1 && g1 == g[f := g1[f]] && CalleesAdded(g1, g2, r.externalCalls, thunks, f)
    requires g3.Keys == g2.Keys && (forall e | e in g2 && e != f :: g3[e] == g2[e]) && Placed(g2.Keys, g2[f], g3[f], r.branches)
    requires g1[f].calls == [] && g1[f].tailCalls == [] && g1[f].unresolved == []
    ensures (forall t :: t in g3 <==> t in g || (t in r.externalCalls && t != thunks))
    ensures forall t | t in g3 && t !in g :: g3[t] == Node(t, 4, Authority.Discovered, Registered, [], [], {}, [], [], [], [])
    ensures f in g3 && g3[f] == g1[f].(calls := g3[f].calls, tailCalls := g3[f].tailCalls, unresolved := g3[f].unresolved)
    ensures forall x :: x in g3[f].calls <==> ToEntry(g3.Keys, r.branches, x, true)
    ensures forall x :: x in g3[f].tailCalls <==> ToEntry(g3.Keys, r.branches, x, false)
    ensures forall j :: j in g3[f].unresolved <==> ToNone(g3.Keys, r.branches, j)
  {
    hide ToEntry, ToNone;
  }
}
