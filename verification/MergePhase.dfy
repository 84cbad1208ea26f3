/** The merge phase: retry every parked branch, give the rest a second chance, seal what is ready. */
module MergePhase {
  import opened Code
  import opened Nodes
  import opened Blocks
  import opened GraphSpec
  import opened FunctionGraphs

  const MAX_ROUNDS: nat := 32

  // ---------- The phase as a function of the graph ----------

  /** One round of retries over every function that is not sealed. */
  ghost function ResolvePass(g: Graph): Graph { ResolveSome(g, g.Keys) }

  ghost function ResolveSome(g: Graph, s: set<Addr>): Graph {
    map e | e in g :: if e in s && g[e].state != Sealed then ResolveAll(g.Keys, g[e]) else g[e]
  }

  /** Another function that contains `t`. */
  ghost predicate OwnedElsewhere(g: Graph, e: Addr, t: Addr, o: Addr) {
    Owns(g, o, t) && o != e
  }

  ghost function SecondOne(g: Graph, e: Addr, n: Node, j: UnresolvedJump): Node {
    if exists o :: OwnedElsewhere(g, e, j.target, o) then
      var o :| OwnedElsewhere(g, e, j.target, o);
      n.(tailCalls := n.tailCalls + [Edge(j.site, o)], unresolved := WithoutSite(n.unresolved, j.site))
    else n
  }

  ghost function SecondJumps(g: Graph, e: Addr, n: Node, jumps: seq<UnresolvedJump>): Node {
    if jumps == [] then n else SecondOne(g, e, SecondJumps(g, e, n, jumps[..|jumps|-1]), jumps[|jumps|-1])
  }

  /** A branch into the middle of another function becomes a tail call to it. */
  ghost function SecondSome(g: Graph, s: set<Addr>): Graph {
    map e | e in g :: if e in s && g[e].state != Sealed then SecondJumps(g, e, g[e], g[e].unresolved) else g[e]
  }

  ghost function Merged(g: Graph): Graph {
    var g1 := ResolvePass(g);
    var g2 := SecondSome(g1, g1.Keys);
    SealSome(g2, g2.Keys)
  }

  // ---------- What it seals ----------

  ghost predicate SameExtents(g: Graph, g': Graph) {
    g.Keys == g'.Keys && forall e | e in g :: SameExtent(g[e], g'[e])
  }

  lemma OwnsSame(g: Graph, g': Graph, o: Addr, t: Addr)
    requires SameExtents(g, g')
    ensures Owns(g, o, t) <==> Owns(g', o, t)
  {
  }

  lemma OwnsUnique(g: Graph, o: Addr, o': Addr, t: Addr)
    requires Owns(g, o, t) && Owns(g, o', t)
    ensures o == o'
  {
  }

  ghost predicate SiteOwned(g: Graph, e: Addr, jumps: seq<UnresolvedJump>, site: Addr) {
    exists k, o :: k in jumps && k.site == site && OwnedElsewhere(g, e, k.target, o)
  }

  lemma {:induction false} SecondJumpsEffect(g: Graph, e: Addr, n: Node, jumps: seq<UnresolvedJump>)
    ensures var n' := SecondJumps(g, e, n, jumps);
      && SameExtent(n, n')
      && (forall j :: j in n'.unresolved <==> j in n.unresolved && !SiteOwned(g, e, jumps, j.site))
  {
    if jumps != [] {
      var init, j := jumps[..|jumps|-1], jumps[|jumps|-1];
      assert jumps == init + [j];
      SecondJumpsEffect(g, e, n, init);
      var n0 := SecondJumps(g, e, n, init);
      WithoutSiteElements(n0.unresolved, j.site);
      forall s ensures SiteOwned(g, e, jumps, s) <==>
          SiteOwned(g, e, init, s) || (s == j.site && exists o :: OwnedElsewhere(g, e, j.target, o)) {
        assert forall k :: k in jumps <==> k in init || k == j;
      }
    }
  }

  /** The parked target is in the function's own extent, is an entry point, or lies inside some function. */
  ghost predicate Answered(g: Graph, e: Addr, t: Addr)
    requires e in g
  {
    g[e].ContainsAddress(t) || t in g || exists o :: Owns(g, o, t)
  }

  ghost predicate SiteAnswered(g: Graph, e: Addr, site: Addr)
    requires e in g
  {
    exists k :: k in g[e].unresolved && k.site == site && Answered(g, e, k.target)
  }

  /** What merging leaves parked in a function. */
  lemma MergedUnresolved(g: Graph, e: Addr)
    requires e in g && g[e].state != Sealed
    ensures var g1 := ResolvePass(g);
      var n2 := SecondSome(g1, g1.Keys)[e];
      && SameExtent(g[e], n2)
      && (forall j :: j in n2.unresolved <==> j in g[e].unresolved && !SiteAnswered(g, e, j.site))
  {
    var g1, n := ResolvePass(g), g[e];
    var n1 := g1[e];
    ResolveAllEffect(g.Keys, n, n.unresolved);
    SecondJumpsEffect(g1, e, n1, n1.unresolved);
    PassKeepsExtents(g);
    var n2 := SecondSome(g1, g1.Keys)[e];
    hide ResolvePass, SecondSome, ResolveJumps, SecondJumps, ResolveSome;
    forall j ensures j in n2.unresolved <==> j in n.unresolved && !SiteAnswered(g, e, j.site) {
      if j in n.unresolved && !SiteSettles(g.Keys, n, n.unresolved, j.site) {
        SiteLeft(g, g1, e, j.site);
      } else if j in n.unresolved {
        var k :| k in n.unresolved && k.site == j.site && Settles(g.Keys, n, k.target);
        assert Answered(g, e, k.target);
      }
    }
  }

  lemma PassKeepsExtents(g: Graph)
    ensures SameExtents(g, ResolvePass(g))
  {
    forall e | e in g ensures SameExtent(g[e], ResolvePass(g)[e]) {
      ResolveAllEffect(g.Keys, g[e], g[e].unresolved);
    }
  }

  /** At a site where nothing settled, the second chance sees every jump and answers what is left. */
  lemma SiteLeft(g: Graph, g1: Graph, e: Addr, site: Addr)
    requires SameExtents(g, g1) && e in g
    requires forall j :: j in g1[e].unresolved <==> j in g[e].unresolved && !SiteSettles(g.Keys, g[e], g[e].unresolved, j.site)
    requires !SiteSettles(g.Keys, g[e], g[e].unresolved, site)
    ensures SiteOwned(g1, e, g1[e].unresolved, site) <==> SiteAnswered(g, e, site)
  {
    if SiteOwned(g1, e, g1[e].unresolved, site) {
      var k, o :| k in g1[e].unresolved && k.site == site && OwnedElsewhere(g1, e, k.target, o);
      OwnsSame(g, g1, o, k.target);
      assert Answered(g, e, k.target);
    }
    if SiteAnswered(g, e, site) {
      var k :| k in g[e].unresolved && k.site == site && Answered(g, e, k.target);
      assert !Settles(g.Keys, g[e], k.target);
      var o :| Owns(g, o, k.target);
      OwnsSame(g, g1, o, k.target);
      assert OwnedElsewhere(g1, e, k.target, o);
    }
  }

  /** Merging seals exactly the discovered functions that are imports, or have blocks and an answer at every parked
      site. A settled branch takes every branch parked at its site with it, hence "site". */
  lemma MergeSealsExactly(g: Graph, e: Addr)
    requires e in g && g[e].state != Sealed
    ensures e in Merged(g)
    ensures Merged(g)[e].state == Sealed <==>
      g[e].state == Lifecycle.Discovered
      && (g[e].IsImport() || (g[e].blocks != [] && forall j | j in g[e].unresolved :: SiteAnswered(g, e, j.site)))
  {
    MergedUnresolved(g, e);
    var g1 := ResolvePass(g);
    var n2 := SecondSome(g1, g1.Keys)[e];
    assert n2.unresolved == [] <==> forall j | j in g[e].unresolved :: SiteAnswered(g, e, j.site) by {
      if n2.unresolved != [] { assert n2.unresolved[0] in n2.unresolved; }
    }
    hide ResolvePass, SecondSome;
  }

  /** Where each site has one target, as in every function built by discovery, every parked target must be answered. */
  lemma MergeSealsByTarget(g: Graph, e: Addr)
    requires e in g && g[e].state == Lifecycle.Discovered && !g[e].IsImport()
    requires forall j, k | j in g[e].unresolved && k in g[e].unresolved && j.site == k.site :: j.target == k.target
    ensures e in Merged(g)
    ensures Merged(g)[e].state == Sealed <==> g[e].blocks != [] && forall j | j in g[e].unresolved :: Answered(g, e, j.target)
  {
    MergeSealsExactly(g, e);
    forall j | j in g[e].unresolved ensures SiteAnswered(g, e, j.site) <==> Answered(g, e, j.target) {
    }
  }

  /** Merging changes no function's extent. */
  lemma MergeKeepsContainment(g: Graph, e: Addr, a: Addr)
    requires e in g
    ensures e in Merged(g) && (Merged(g)[e].ContainsAddress(a) <==> g[e].ContainsAddress(a))
  {
    var g1 := ResolvePass(g);
    var g2 := SecondSome(g1, g1.Keys);
    hide ResolvePass, SecondSome, SealedBlocks;
    BeforeSealing(g, e);
    SameExtentContains(g[e], g2[e], a);
    if g2[e].CanSeal() {
      SealKeepsContainment(g2[e], a);
    }
    hide Node.Sealed, Node.CanSeal, Node.ContainsAddress;
  }

  lemma BeforeSealing(g: Graph, e: Addr)
    requires e in g
    ensures var g1 := ResolvePass(g);
      e in g1 && e in SecondSome(g1, g1.Keys) && SameExtent(g[e], SecondSome(g1, g1.Keys)[e])
  {
    if g[e].state != Sealed { MergedUnresolved(g, e); }
  }

  // ---------- What becomes of a function's branches ----------

  /** A branch of `jumps` goes to the address `t` of the function itself. */
  ghost predicate LabelFrom(n: Node, jumps: seq<UnresolvedJump>, t: Addr) {
    n.ContainsAddress(t) && exists j :: j in jumps && j.target == t
  }

  /** The edge comes from a branch of `jumps`, call or not, that leaves the function for an entry point. */
  ghost predicate EdgeFrom(keys: set<Addr>, n: Node, jumps: seq<UnresolvedJump>, x: Edge, isCall: bool) {
    x.target in keys && !n.ContainsAddress(x.target)
    && exists j :: j in jumps && j.isCall == isCall && j.site == x.site && j.target == x.target
  }

  /** The edge goes to the entry point of another function, the nearest one at or below the target of a branch of `jumps`,
      whose extent holds that target. */
  ghost predicate OwnerFrom(g: Graph, e: Addr, jumps: seq<UnresolvedJump>, x: Edge) {
    var o := x.target;
    && o in g && o != e
    && exists j ::
         && j in jumps && j.site == x.site
         && o <= j.target && g[o].ContainsAddress(j.target)
         && forall y | y in g && y <= j.target :: y <= o
  }

  lemma OwnerFromIs(g: Graph, e: Addr, jumps: seq<UnresolvedJump>, x: Edge)
    ensures OwnerFrom(g, e, jumps, x) <==> exists j :: j in jumps && j.site == x.site && OwnedElsewhere(g, e, j.target, x.target)
  {
    if OwnerFrom(g, e, jumps, x) {
      var j :| j in jumps && j.site == x.site && x.target <= j.target && g[x.target].ContainsAddress(j.target)
        && forall y | y in g && y <= j.target :: y <= x.target;
      assert OwnedElsewhere(g, e, j.target, x.target);
    }
  }

  /** From `n` to `n'` the branches of `jumps` were tried. */
  ghost predicate Retried(keys: set<Addr>, n: Node, n': Node, jumps: seq<UnresolvedJump>) {
    && (forall t :: t in n'.labels <==> t in n.labels || LabelFrom(n, jumps, t))
    && (forall x :: x in n'.calls <==> x in n.calls || EdgeFrom(keys, n, jumps, x, true))
    && (forall x :: x in n'.tailCalls <==> x in n.tailCalls || EdgeFrom(keys, n, jumps, x, false))
  }

  lemma {:induction false} ResolveRetries(keys: set<Addr>, n: Node, jumps: seq<UnresolvedJump>)
    ensures Retried(keys, n, ResolveJumps(keys, n, jumps), jumps)
  {
    if jumps != [] {
      var init, j := jumps[..|jumps|-1], jumps[|jumps|-1];
      assert jumps == init + [j];
      ResolveRetries(keys, n, init);
      var n0 := ResolveJumps(keys, n, init);
      ResolveAllEffect(keys, n, init);
      SameExtentContains(n, n0, j.target);
      TriedInPlainTerms(keys, n0, j);
      hide *;
      RetriedMore(keys, n, n0, init, j, ResolveOne(keys, n0, j));
      ResolveLast(keys, n, init, j);
    }
  }

  lemma ResolveLast(keys: set<Addr>, n: Node, init: seq<UnresolvedJump>, j: UnresolvedJump)
    ensures ResolveJumps(keys, n, init + [j]) == ResolveOne(keys, ResolveJumps(keys, n, init), j)
  {
    assert (init + [j])[..|init|] == init;
    hide ResolveOne;
  }

  lemma RetriedMore(keys: set<Addr>, n: Node, n0: Node, init: seq<UnresolvedJump>, j: UnresolvedJump, n1: Node)
    requires Retried(keys, n, n0, init) && IsTried(keys, n0, n1, j)
    requires n0.ContainsAddress(j.target) <==> n.ContainsAddress(j.target)
    ensures Retried(keys, n, n1, init + [j])
  {
    hide Node.ContainsAddress;
    var jumps := init + [j];
    assert forall k :: k in jumps <==> k in init || k == j;
    forall t ensures LabelFrom(n, jumps, t) <==> LabelFrom(n, init, t) || (t == j.target && n.ContainsAddress(t)) {
    }
    forall x, isCall ensures EdgeFrom(keys, n, jumps, x, isCall) <==>
        EdgeFrom(keys, n, init, x, isCall)
        || (x == Edge(j.site, j.target) && isCall == j.isCall && x.target in keys && !n.ContainsAddress(x.target)) {
    }
    hide LabelFrom, EdgeFrom;
  }

  /** From `n` to `n'` the branches of `jumps` got their second chance. */
  ghost predicate Owned(g: Graph, e: Addr, n: Node, n': Node, jumps: seq<UnresolvedJump>) {
    && n'.labels == n.labels && n'.calls == n.calls
    && forall x :: x in n'.tailCalls <==> x in n.tailCalls || OwnerFrom(g, e, jumps, x)
  }

  lemma {:induction false} SecondOwns(g: Graph, e: Addr, n: Node, jumps: seq<UnresolvedJump>)
    ensures Owned(g, e, n, SecondJumps(g, e, n, jumps), jumps)
  {
    if jumps != [] {
      var init, j := jumps[..|jumps|-1], jumps[|jumps|-1];
      assert jumps == init + [j];
      SecondOwns(g, e, n, init);
      hide OwnerFrom, OwnedElsewhere;
      var n0 := SecondJumps(g, e, n, init);
      forall x: Edge ensures OwnerFrom(g, e, jumps, x) <==> OwnerFrom(g, e, init, x) || (x.site == j.site && OwnedElsewhere(g, e, j.target, x.target)) {
        OwnerMore(g, e, init, j, x);
      }
      if o :| OwnedElsewhere(g, e, j.target, o) {
        SecondOneCases(g, e, n0, j, o);
        forall x: Edge ensures x.site == j.site && OwnedElsewhere(g, e, j.target, x.target) <==> x == Edge(j.site, o) {
          OnlyOwner(g, e, j.target, o, x.target);
        }
      }
    }
  }

  lemma OnlyOwner(g: Graph, e: Addr, t: Addr, o: Addr, o': Addr)
    requires OwnedElsewhere(g, e, t, o)
    ensures OwnedElsewhere(g, e, t, o') <==> o' == o
  {
    if OwnedElsewhere(g, e, t, o') { OwnsUnique(g, o, o', t); }
  }

  lemma OwnerMore(g: Graph, e: Addr, init: seq<UnresolvedJump>, j: UnresolvedJump, x: Edge)
    ensures OwnerFrom(g, e, init + [j], x) <==>
      OwnerFrom(g, e, init, x) || (x.site == j.site && OwnedElsewhere(g, e, j.target, x.target))
  {
    OwnerFromIs(g, e, init, x);
    OwnerFromIs(g, e, init + [j], x);
    hide OwnerFrom, OwnedElsewhere;
    assert forall k :: k in init + [j] <==> k in init || k == j;
  }

  /** The branches left after the retries: those at sites where none goes into the function or to an entry point. */
  ghost predicate IsLeft(g: Graph, e: Addr, left: seq<UnresolvedJump>)
    requires e in g
  {
    forall j :: j in left <==>
      j in g[e].unresolved
      && forall k | k in g[e].unresolved && k.site == j.site :: !g[e].ContainsAddress(k.target) && k.target !in g
  }

  /** What merging makes of the branches of a function: labels, calls and tail calls, the second chance for what was left,
      and nothing else. */
  ghost predicate IsMerged(g: Graph, e: Addr, n': Node)
    requires e in g
  {
    var n := g[e];
    exists left :: (
      && IsLeft(g, e, left)
      && n'.base == n.base && n'.size == n.size && n'.authority == n.authority && n'.jumpTables == n.jumpTables
      && (forall t :: t in n'.labels <==> t in n.labels || LabelFrom(n, n.unresolved, t))
      && (forall x :: x in n'.calls <==> x in n.calls || EdgeFrom(g.Keys, n, n.unresolved, x, true))
      && (forall x :: x in n'.tailCalls <==>
            x in n.tailCalls || EdgeFrom(g.Keys, n, n.unresolved, x, false) || OwnerFrom(g, e, left, x)))
  }

  lemma LeftIs(g: Graph, e: Addr)
    requires e in g
    ensures IsLeft(g, e, ResolveAll(g.Keys, g[e]).unresolved)
  {
    var n := g[e];
    ResolveAllEffect(g.Keys, n, n.unresolved);
    forall j: UnresolvedJump
      ensures !SiteSettles(g.Keys, n, n.unresolved, j.site) <==>
        forall k | k in n.unresolved && k.site == j.site :: !n.ContainsAddress(k.target) && k.target !in g
    {
      SiteSettlesIs(g, e, j.site);
    }
    hide SiteSettles, ResolveJumps, Node.ContainsAddress;
  }

  lemma SiteSettlesIs(g: Graph, e: Addr, site: Addr)
    requires e in g
    ensures SiteSettles(g.Keys, g[e], g[e].unresolved, site) <==>
      exists k :: k in g[e].unresolved && k.site == site && (g[e].ContainsAddress(k.target) || k.target in g)
  {
    hide Node.ContainsAddress;
  }

  lemma OwnerSame(g: Graph, g': Graph, e: Addr, jumps: seq<UnresolvedJump>, x: Edge)
    requires SameExtents(g, g')
    ensures OwnerFrom(g, e, jumps, x) <==> OwnerFrom(g', e, jumps, x)
  {
    OwnerFromIs(g, e, jumps, x);
    OwnerFromIs(g', e, jumps, x);
    hide OwnerFrom;
    forall j: UnresolvedJump ensures OwnedElsewhere(g, e, j.target, x.target) <==> OwnedElsewhere(g', e, j.target, x.target) {
      OwnsSame(g, g', x.target, j.target);
    }
    hide Owns, OwnedElsewhere, SameExtents;
  }

  lemma BeforeSealIs(g: Graph, e: Addr)
    requires e in g && g[e].state != Sealed
    ensures var g1 := ResolvePass(g);
      && e in g1 && e in SecondSome(g1, g1.Keys)
      && g1[e] == ResolveAll(g.Keys, g[e]) && g1[e].state != Sealed
      && SecondSome(g1, g1.Keys)[e] == SecondJumps(g1, e, g1[e], g1[e].unresolved)
  {
    PassKeepsExtents(g);
    hide ResolveAll, SecondJumps;
  }

  lemma {:induction false} RetryKeepsTables(keys: set<Addr>, n: Node, jumps: seq<UnresolvedJump>)
    ensures ResolveJumps(keys, n, jumps).jumpTables == n.jumpTables
  {
    if jumps != [] {
      RetryKeepsTables(keys, n, jumps[..|jumps|-1]);
      hide Settles, Node.ContainsAddress, WithoutSite;
    }
  }

  lemma {:induction false} SecondKeepsTables(g: Graph, e: Addr, n: Node, jumps: seq<UnresolvedJump>)
    ensures SecondJumps(g, e, n, jumps).jumpTables == n.jumpTables
  {
    if jumps != [] {
      SecondKeepsTables(g, e, n, jumps[..|jumps|-1]);
      hide OwnedElsewhere, WithoutSite;
    }
  }

  /** Merging settles the branches of every function that is not sealed in the one way, and touches no sealed one. */
  lemma MergedSo(g: Graph, e: Addr)
    requires e in g
    ensures e in Merged(g)
    ensures if g[e].state == Sealed then Merged(g)[e] == g[e] else IsMerged(g, e, Merged(g)[e])
  {
    BeforeSealing(g, e);
    if g[e].state != Sealed {
      BeforeSealIs(g, e);
      MergedBranches(g, e);
    }
    hide ResolveAll, SecondJumps, IsLeft, LabelFrom, EdgeFrom, OwnerFrom, SealedBlocks, ResolvePass;
    var n2 := SecondSome(ResolvePass(g), ResolvePass(g).Keys)[e];
    if g[e].state == Sealed {
      SealedStays(g, e);
    } else {
      hide SecondSome;
      SealedIsMerged(g, e, n2);
    }
  }

  lemma SealedStays(g: Graph, e: Addr)
    requires e in g && g[e].state == Sealed
    ensures e in Merged(g) && Merged(g)[e] == g[e]
  {
  }

  lemma SealedIsMerged(g: Graph, e: Addr, n: Node)
    requires e in g && IsMerged(g, e, n)
    ensures n.CanSeal() ==> IsMerged(g, e, n.Sealed())
  {
    hide IsLeft, LabelFrom, EdgeFrom, OwnerFrom, SealedBlocks;
  }

  lemma MergedBranches(g: Graph, e: Addr)
    requires e in g && g[e].state != Sealed
    ensures var g1 := ResolvePass(g); e in SecondSome(g1, g1.Keys) && IsMerged(g, e, SecondSome(g1, g1.Keys)[e])
  {
    BeforeSealIs(g, e);
    PassKeepsExtents(g);
    BeforeSealing(g, e);
    var g1, n := ResolvePass(g), g[e];
    var n1 := g1[e];
    ResolveRetries(g.Keys, n, n.unresolved);
    RetryKeepsTables(g.Keys, n, n.unresolved);
    SecondOwns(g1, e, n1, n1.unresolved);
    SecondKeepsTables(g1, e, n1, n1.unresolved);
    LeftIs(g, e);
    forall x: Edge ensures OwnerFrom(g1, e, n1.unresolved, x) <==> OwnerFrom(g, e, n1.unresolved, x) {
      OwnerSame(g, g1, e, n1.unresolved, x);
    }
    hide ResolvePass, SecondSome, SecondJumps, ResolveJumps, IsLeft, LabelFrom, EdgeFrom, OwnerFrom;
  }

  // ---------- The phase as it runs ----------

  lemma ResolveNone(g: Graph)
    ensures ResolveSome(g, {}) == g && SecondSome(g, {}) == g
  {
  }

  lemma ResolveOneMore(g: Graph, s: set<Addr>, b: Addr)
    requires b in g && b !in s
    ensures Mutate(ResolveSome(g, s), DoResolve(b)) == ResolveSome(g, s + {b})
    ensures b in ResolveSome(g, s) && ResolveSome(g, s)[b] == g[b] && ResolveSome(g, s).Keys == g.Keys
  {
    hide ResolveAll;
    var g1 := ResolveSome(g, s);
    assert g1.Keys == g.Keys;
    assert Mutate(g1, DoResolve(b)) == if g[b].state != Sealed then g1[b := ResolveAll(g.Keys, g[b])] else g1;
    forall e | e in g ensures Mutate(g1, DoResolve(b))[e] == ResolveSome(g, s + {b})[e] {
    }
  }

  /** Nothing of a resolved graph settles any more. */
  ghost predicate Quiet(g: Graph) {
    forall e | e in g && g[e].state != Sealed :: CountSettled(g.Keys, g[e], g[e].unresolved) == 0
  }

  /** One retry round reaches the fixed point. */
  lemma PassIsQuiet(g: Graph)
    ensures Quiet(ResolvePass(g)) && ResolvePass(ResolvePass(g)) == ResolvePass(g)
  {
    PassKeepsExtents(g);
    forall e | e in g ensures var n := ResolvePass(g)[e];
      n.state != Sealed ==> CountSettled(g.Keys, n, n.unresolved) == 0 && ResolveAll(g.Keys, n) == n
    {
      ResolveTwice(g.Keys, g[e]);
    }
  }

  method ResolveRound(graph: FunctionGraph) returns (changed: nat)
    requires graph.Valid()
    modifies graph.functions.Values
    ensures graph.Valid() && graph.View() == ResolvePass(old(graph.View()))
    ensures Quiet(old(graph.View())) ==> changed == 0
  {
    hide *;
    ghost var g0 := graph.View();
    graph.ViewKeys();
    changed := 0;
    var rest := graph.functions.Keys;
    ghost var done: set<Addr> := {};
    ResolveNone(g0);
    while rest != {}
      invariant graph.Valid() && done + rest == g0.Keys && done !! rest
      invariant graph.View() == ResolveSome(g0, done)
      invariant Quiet(g0) ==> changed == 0
      decreases rest
    {
      var b :| b in rest;
      ResolveOneMore(g0, done, b);
      QuietOne(g0, b);
      rest, done := rest - {b}, done + {b};
      var settled := graph.TryResolveFunction(b);
      changed := changed + settled;
    }
    assert done == g0.Keys;
    PassIsSome(g0);
  }

  lemma PassIsSome(g: Graph)
    ensures ResolvePass(g) == ResolveSome(g, g.Keys)
  {
  }

  lemma QuietOne(g: Graph, b: Addr)
    requires b in g
    ensures Quiet(g) && g[b].state != Sealed ==> CountSettled(g.Keys, g[b], g[b].unresolved) == 0
  {
  }

  lemma SecondKeepsExtents(g: Graph, s: set<Addr>)
    ensures SameExtents(g, SecondSome(g, s))
  {
    forall e | e in g ensures SameExtent(g[e], SecondSome(g, s)[e]) {
      SecondJumpsEffect(g, e, g[e], g[e].unresolved);
    }
  }

  lemma SecondOneMore(g: Graph, s: set<Addr>, b: Addr)
    requires b in g && b !in s
    ensures SecondSome(g, s).Keys == g.Keys && SecondSome(g, s)[b] == g[b]
    ensures SecondSome(g, s + {b}) ==
      if g[b].state != Sealed then SecondSome(g, s)[b := SecondJumps(g, b, g[b], g[b].unresolved)] else SecondSome(g, s)
  {
    hide *;
    var g1, g2 := SecondSome(g, s), SecondSome(g, s + {b});
    SecondKeys(g, s);
    SecondKeys(g, s + {b});
    forall e | e in g1 && e != b ensures g2[e] == g1[e] {
      SecondAt(g, s, e);
      SecondAt(g, s + {b}, e);
    }
    SecondAt(g, s, b);
    SecondAt(g, s + {b}, b);
    OnePlace(g1, g2, b);
  }

  lemma SecondKeys(g: Graph, s: set<Addr>)
    ensures SecondSome(g, s).Keys == g.Keys
  {
    hide SecondJumps;
  }

  lemma SecondAt(g: Graph, s: set<Addr>, e: Addr)
    requires e in g
    ensures e in SecondSome(g, s)
    ensures SecondSome(g, s)[e] == if e in s && g[e].state != Sealed then SecondJumps(g, e, g[e], g[e].unresolved) else g[e]
  {
    hide SecondJumps;
  }

  lemma OnePlace(g1: Graph, g2: Graph, b: Addr)
    requires g2.Keys == g1.Keys && b in g1 && forall e | e in g1 && e != b :: g2[e] == g1[e]
    ensures g2 == g1[b := g2[b]]
    ensures g2[b] == g1[b] ==> g2 == g1
  {
  }

  lemma SecondMore(g: Graph, e: Addr, n: Node, jumps: seq<UnresolvedJump>, i: nat)
    requires i < |jumps|
    ensures SecondJumps(g, e, n, jumps[..i+1]) == SecondOne(g, e, SecondJumps(g, e, n, jumps[..i]), jumps[i])
    ensures SecondJumps(g, e, n, jumps[..0]) == n
    ensures SameExtent(n, SecondJumps(g, e, n, jumps[..i]))
  {
    assert jumps[..i+1][..i] == jumps[..i];
    SecondJumpsEffect(g, e, n, jumps[..i]);
  }

  lemma SecondOneCases(g: Graph, e: Addr, n: Node, j: UnresolvedJump, o: Addr)
    ensures OwnedElsewhere(g, e, j.target, o) ==>
      SecondOne(g, e, n, j) == n.Resolved(Edge(j.site, o), false).(unresolved := WithoutSite(n.unresolved, j.site))
    ensures (forall o' :: !OwnedElsewhere(g, e, j.target, o')) ==> SecondOne(g, e, n, j) == n
  {
    if OwnedElsewhere(g, e, j.target, o) {
      forall o' | OwnedElsewhere(g, e, j.target, o') ensures o' == o {
        OwnsUnique(g, o, o', j.target);
      }
    }
  }

  /** One jump of the second chance. The graph may differ from `g` in branches, not in extents. */
  method SecondJump(graph: FunctionGraph, node: FunctionNode, j: UnresolvedJump, ghost g: Graph)
    requires graph.Valid() && node.base in graph.functions && graph.functions[node.base] == node
    requires SameExtents(g, graph.View())
    modifies node
    ensures node.View() == SecondOne(g, node.base, old(node.View()), j)
  {
    hide SecondOne, SameExtents, Owns, FunctionGraph.Valid, FunctionGraph.View;
    graph.ViewNodes();
    var owner := graph.GetFunctionContaining(j.target);
    forall x ensures Owns(g, x, j.target) <==> Owns(graph.View(), x, j.target) {
      OwnsSame(g, graph.View(), x, j.target);
    }
    if owner == null || owner == node {
      forall x | OwnedElsewhere(g, node.base, j.target, x) ensures false {
        if owner != null { OwnsUnique(g, owner.base, x, j.target); }
      }
      SecondOneCases(g, node.base, node.View(), j, 0);
      return;
    }
    SecondOneCases(g, node.base, node.View(), j, owner.base);
    node.AddEdge(Edge(j.site, owner.base), false);
    node.RemoveUnresolvedJump(j.site);
  }

  method SecondFunction(graph: FunctionGraph, entry: Addr, ghost g: Graph)
    requires graph.Valid() && entry in graph.functions && graph.functions[entry].state != Sealed
    requires SameExtents(g, graph.View()) && graph.functions[entry].View() == g[entry]
    modifies graph.functions.Values
    ensures graph.Valid()
    ensures graph.View() == old(graph.View())[entry := SecondJumps(g, entry, g[entry], g[entry].unresolved)]
  {
    hide *;
    var node := graph.functions[entry];
    var jumps := node.unresolved;
    ghost var g0 := graph.View();
    graph.ViewNodes();
    StateOfView(node);
    SameKeys(g, g0);
    if |jumps| == 0 {
      NoJumps(g, entry, g[entry], jumps);
    } else {
      SecondMore(g, entry, g[entry], jumps, 0);
    }
    for i := 0 to |jumps|
      invariant graph.Valid() && node.View() == SecondJumps(g, entry, g[entry], jumps[..i])
      invariant forall b | b in graph.functions && b != entry :: graph.functions[b].View() == g0[b]
      invariant graph.functions.Keys == g0.Keys && SameExtents(g, graph.View())
    {
      SecondMore(g, entry, g[entry], jumps, i);
      SecondJump(graph, node, jumps[i], g);
      KeyAdded(g0.Keys, entry);
      graph.ViewOf(g0, entry, node.View());
      if i + 1 < |jumps| {
        SecondMore(g, entry, g[entry], jumps, i + 1);
      } else {
        assert jumps[..i+1] == jumps;
        ExtentOfSecond(g, entry, jumps);
      }
      StillSame(g, g0, entry, node.View());
    }
    assert jumps[..|jumps|] == jumps;
    KeyAdded(g0.Keys, entry);
    graph.ViewOf(g0, entry, node.View());
  }

  lemma SameKeys(g: Graph, g': Graph)
    requires SameExtents(g, g')
    ensures g.Keys == g'.Keys
  {
  }

  lemma NoJumps(g: Graph, e: Addr, n: Node, jumps: seq<UnresolvedJump>)
    requires jumps == []
    ensures SecondJumps(g, e, n, jumps[..0]) == n
  {
  }

  lemma KeyAdded(keys: set<Addr>, e: Addr)
    requires e in keys
    ensures keys + {e} == keys
  {
  }

  lemma ExtentOfSecond(g: Graph, e: Addr, jumps: seq<UnresolvedJump>)
    requires e in g
    ensures SameExtent(g[e], SecondJumps(g, e, g[e], jumps))
  {
    SecondJumpsEffect(g, e, g[e], jumps);
  }

  lemma StillSame(g: Graph, g0: Graph, e: Addr, n: Node)
    requires SameExtents(g, g0) && e in g && SameExtent(g[e], n)
    ensures SameExtents(g, g0[e := n])
  {
  }

  method SecondChance(graph: FunctionGraph)
    requires graph.Valid()
    modifies graph.functions.Values
    ensures graph.Valid() && graph.View() == SecondSome(old(graph.View()), old(graph.View()).Keys)
  {
    hide *;
    ghost var g0 := graph.View();
    graph.ViewKeys();
    var rest := graph.functions.Keys;
    ghost var done: set<Addr> := {};
    ResolveNone(g0);
    while rest != {}
      invariant graph.Valid() && done + rest == g0.Keys && done !! rest
      invariant graph.View() == SecondSome(g0, done) && graph.functions.Keys == g0.Keys
      decreases rest
    {
      var b :| b in rest;
      SecondOneMore(g0, done, b);
      SecondKeepsExtents(g0, done);
      graph.ViewNodes();
      StateOfView(graph.functions[b]);
      rest, done := rest - {b}, done + {b};
      if graph.functions[b].state != Sealed {
        SecondFunction(graph, b, g0);
      }
      graph.ViewKeys();
      KeyAdded(g0.Keys, b);
    }
    assert done == g0.Keys;
  }

  lemma StateOfView(node: FunctionNode)
    ensures node.View().state == node.state && node.View().unresolved == node.unresolved
  {
  }

  /** The merge phase. At most two of its rounds ever run. */
  method Run(graph: FunctionGraph) returns (ghost rounds: nat)
    requires graph.Valid()
    modifies graph.functions.Values
    ensures graph.Valid() && graph.View() == Merged(old(graph.View()))
    ensures forall e | e in old(graph.View()) && old(graph.View())[e].state != Sealed :: (
      e in graph.View() && IsMerged(old(graph.View()), e, graph.View()[e]))
    ensures rounds <= 2
  {
    ghost var g0 := graph.View();
    hide ResolvePass, Quiet, SecondSome, SealSome, FunctionGraph.Valid, FunctionGraph.View;
    rounds := 0;
    var iter := 0;
    while iter < MAX_ROUNDS
      invariant graph.Valid() && rounds == iter <= 1
      invariant graph.View() == (if iter == 0 then g0 else ResolvePass(g0))
      decreases MAX_ROUNDS - iter
    {
      PassIsQuiet(g0);
      var changed := ResolveRound(graph);
      rounds := rounds + 1;
      if changed == 0 { break; }
      iter := iter + 1;
    }
    SecondChance(graph);
    var count := graph.SealAllReady();
    forall e | e in g0 && g0[e].state != Sealed ensures e in graph.View() && IsMerged(g0, e, graph.View()[e]) {
      MergedSo(g0, e);
    }
  }
}
