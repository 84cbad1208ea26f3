/** The function graph as a value: what each graph operation does, and what every run of them keeps. */
module GraphSpec {
  import opened Code
  import opened Nodes

  /** Entry point to node. */
  type Graph = map<Addr, Node>

  // ---------- Operations ----------

  /** Every other node that is not sealed claims its branches to `entry`. */
  function NotifyAdded(g: Graph, entry: Addr): Graph {
    map x | x in g :: if x == entry then g[x] else g[x].Notified(entry)
  }

  /** A real addition notifies everyone; an existing node of at least the authority is kept. */
  function AddFunction(g: Graph, base: Addr, size: nat, authority: Authority): Graph {
    if base in g && g[base].authority.Rank() >= authority.Rank() then g
    else NotifyAdded(g[base := Fresh(base, size, authority)], base)
  }

  /** Resolves at once if the target is an entry point, else parks. (The source's import case below the function
      case cannot be reached: an import is a function.) */
  function AddJump(g: Graph, entry: Addr, site: Addr, target: Addr, isCall: bool, isConditional: bool): Graph {
    if entry !in g then g
    else if target in g then g[entry := g[entry].Resolved(Edge(site, target), isCall)]
    else g[entry := g[entry].Parked(UnresolvedJump(site, target, isCall, isConditional))]
  }

  /** The function with the greatest entry point at or below `a`, if it contains `a`. */
  ghost predicate Owns(g: Graph, e: Addr, a: Addr) {
    && e in g && e <= a && g[e].ContainsAddress(a)
    && forall x | x in g && x <= a :: x <= e
  }

  // ---------- The operations in plain terms ----------

  /** From `g` to `g'` a function was added, or was turned away by one of at least its authority. */
  ghost predicate IsFunctionAdded(g: Graph, g': Graph, base: Addr, size: nat, authority: Authority) {
    if base in g && Outlasts(g[base].authority, authority) then g' == g
    else
      && g'.Keys == g.Keys + {base}
      && g'[base] == Node(base, size, authority, Registered, [], [], {}, [], [], [], [])
      && forall x | x in g && x != base :: IsNotified(g[x], g'[x], base)
  }

  /** From `g` to `g'` a branch was added to the function at `entry`: as a call or a tail call where its target is an entry
      point, parked where it is not. */
  ghost predicate IsJumpAdded(g: Graph, g': Graph, entry: Addr, site: Addr, target: Addr, isCall: bool, isConditional: bool) {
    if entry !in g then g' == g
    else
      && g'.Keys == g.Keys
      && (forall x | x in g && x != entry :: g'[x] == g[x])
      && var n, n' := g[entry], g'[entry];
         && n' == n.(calls := n'.calls, tailCalls := n'.tailCalls, unresolved := n'.unresolved)
         && n'.calls == n.calls + (if target in g && isCall then [Edge(site, target)] else [])
         && n'.tailCalls == n.tailCalls + (if target in g && !isCall then [Edge(site, target)] else [])
         && n'.unresolved == n.unresolved + (if target in g then [] else [UnresolvedJump(site, target, isCall, isConditional)])
  }

  /** From `n` to `n'` a parked branch was tried again: it became a label of the function, or a call or tail call, and its
      site is parked no more; or nothing changed. */
  ghost predicate IsTried(keys: set<Addr>, n: Node, n': Node, j: UnresolvedJump) {
    var inside := n.ContainsAddress(j.target);
    var edge := !inside && j.target in keys;
    && n' == n.(labels := n'.labels, calls := n'.calls, tailCalls := n'.tailCalls, unresolved := n'.unresolved)
    && n'.labels == n.labels + (if inside then {j.target} else {})
    && n'.calls == n.calls + (if edge && j.isCall then [Edge(j.site, j.target)] else [])
    && n'.tailCalls == n.tailCalls + (if edge && !j.isCall then [Edge(j.site, j.target)] else [])
    && (forall k :: k in n'.unresolved <==> k in n.unresolved && !(k.site == j.site && (inside || edge)))
  }

  lemma FunctionAddedInPlainTerms(g: Graph, base: Addr, size: nat, authority: Authority)
    ensures IsFunctionAdded(g, AddFunction(g, base, size, authority), base, size, authority)
  {
    if base in g { RanksInOrder(g[base].authority, authority); }
    forall x | x in g && x != base ensures IsNotified(g[x], g[x].Notified(base), base) {
      NotifiedInPlainTerms(g[x], base);
    }
    hide IsNotified, Node.Notified, Authority.Rank, Outlasts;
  }

  lemma JumpAddedInPlainTerms(g: Graph, entry: Addr, site: Addr, target: Addr, isCall: bool, isConditional: bool)
    ensures IsJumpAdded(g, AddJump(g, entry, site, target, isCall, isConditional), entry, site, target, isCall, isConditional)
  {
    if entry in g {
      assert g[entry].calls + [] == g[entry].calls && g[entry].tailCalls + [] == g[entry].tailCalls;
      assert g[entry].unresolved + [] == g[entry].unresolved;
    }
  }

  lemma TriedInPlainTerms(keys: set<Addr>, n: Node, j: UnresolvedJump)
    ensures IsTried(keys, n, ResolveOne(keys, n, j), j)
  {
    WithoutSiteElements(n.unresolved, j.site);
    hide Node.ContainsAddress, WithoutSite;
    assert n.calls + [] == n.calls && n.tailCalls + [] == n.tailCalls && n.labels + {} == n.labels;
  }

  // ---------- No stale parked branch ----------

  /** No unsealed node holds a parked branch to an entry point. */
  ghost predicate NoStale(g: Graph) {
    forall e, j | e in g && g[e].state != Sealed && j in g[e].unresolved :: j.target !in g
  }

  datatype Mutation =
    | DoAddFunction(base: Addr, size: nat, authority: Authority)
    | DoAddJump(entry: Addr, site: Addr, target: Addr, isCall: bool, isConditional: bool)
    | DoRemove(entry: Addr)
    | DoDiscover(entry: Addr, blocks: seq<Block>, instructions: seq<Addr>, labels: set<Addr>)
    | DoResolve(entry: Addr)
    | DoSeal(entry: Addr)

  ghost function Mutate(g: Graph, m: Mutation): Graph {
    match m
    case DoAddFunction(b, size, auth) => AddFunction(g, b, size, auth)
    case DoAddJump(e, s, t, isCall, isCond) => AddJump(g, e, s, t, isCall, isCond)
    case DoRemove(e) => g - {e}
    case DoDiscover(e, blocks, insns, labels) =>
      if e in g && g[e].state == Registered then g[e := g[e].WithBlocks(blocks, insns, labels)] else g
    case DoResolve(e) => if e in g && g[e].state != Sealed then g[e := ResolveAll(g.Keys, g[e])] else g
    case DoSeal(e) => if e in g && g[e].CanSeal() then g[e := g[e].Sealed()] else g
  }

  ghost function MutateAll(g: Graph, ms: seq<Mutation>): Graph {
    if ms == [] then g else Mutate(MutateAll(g, ms[..|ms|-1]), ms[|ms|-1])
  }

  lemma NotifyKeepsNoStale(g: Graph, entry: Addr)
    requires entry in g && g[entry].unresolved == []
    requires forall e, j | e in g && g[e].state != Sealed && j in g[e].unresolved :: j.target !in g || j.target == entry
    ensures NoStale(NotifyAdded(g, entry))
  {
    var g' := NotifyAdded(g, entry);
    forall e, j | e in g' && g'[e].state != Sealed && j in g'[e].unresolved ensures j.target !in g' {
      ClaimElements(g[e].unresolved, entry);
    }
  }

  lemma MutateKeepsNoStale(g: Graph, m: Mutation)
    requires NoStale(g)
    ensures NoStale(Mutate(g, m))
  {
    match m
    case DoAddFunction(b, size, auth) =>
      if !(b in g && g[b].authority.Rank() >= auth.Rank()) {
        NotifyKeepsNoStale(g[b := Fresh(b, size, auth)], b);
      }
    case DoResolve(e) =>
      if e in g && g[e].state != Sealed { ResolveAllEffect(g.Keys, g[e], g[e].unresolved); }
    case _ =>
  }

  /** Over any run of graph operations from the empty graph. */
  lemma {:induction false} RunKeepsNoStale(ms: seq<Mutation>)
    ensures NoStale(MutateAll(map[], ms))
  {
    if ms != [] {
      RunKeepsNoStale(ms[..|ms|-1]);
      MutateKeepsNoStale(MutateAll(map[], ms[..|ms|-1]), ms[|ms|-1]);
    }
  }

  // ---------- Resolution of one function ----------

  /** The parked target can be settled within the function or by an entry point. */
  ghost predicate Settles(keys: set<Addr>, n: Node, target: Addr) {
    n.ContainsAddress(target) || target in keys
  }

  /** One jump of the retry loop: an internal label, else an edge; settled jumps leave with their whole site. */
  ghost function ResolveOne(keys: set<Addr>, n: Node, j: UnresolvedJump): Node {
    if n.ContainsAddress(j.target) then
      n.(labels := n.labels + {j.target}, unresolved := WithoutSite(n.unresolved, j.site))
    else if j.target in keys then
      var n' := n.Resolved(Edge(j.site, j.target), j.isCall);
      n'.(unresolved := WithoutSite(n.unresolved, j.site))
    else n
  }

  ghost function ResolveJumps(keys: set<Addr>, n: Node, jumps: seq<UnresolvedJump>): Node {
    if jumps == [] then n else ResolveOne(keys, ResolveJumps(keys, n, jumps[..|jumps|-1]), jumps[|jumps|-1])
  }

  /** Retrying every parked jump of a function. */
  ghost function ResolveAll(keys: set<Addr>, n: Node): Node { ResolveJumps(keys, n, n.unresolved) }

  /** How many of the jumps the loop settles. */
  ghost function CountSettled(keys: set<Addr>, n: Node, jumps: seq<UnresolvedJump>): nat {
    if jumps == [] then 0
    else CountSettled(keys, n, jumps[..|jumps|-1]) + (if Settles(keys, n, jumps[|jumps|-1].target) then 1 else 0)
  }

  ghost predicate SiteSettles(keys: set<Addr>, n: Node, jumps: seq<UnresolvedJump>, site: Addr) {
    exists k :: k in jumps && k.site == site && Settles(keys, n, k.target)
  }

  lemma {:induction false} WithoutSiteElements(jumps: seq<UnresolvedJump>, site: Addr)
    ensures forall j :: j in WithoutSite(jumps, site) <==> j in jumps && j.site != site
  {
    if jumps != [] {
      WithoutSiteElements(jumps[..|jumps|-1], site);
      assert jumps == jumps[..|jumps|-1] + [jumps[|jumps|-1]];
    }
  }

  ghost predicate SameExtent(n: Node, n': Node) {
    n'.base == n.base && n'.size == n.size && n'.authority == n.authority && n'.state == n.state
    && n'.blocks == n.blocks && n'.instructions == n.instructions
  }

  lemma SameExtentContains(n: Node, n': Node, a: Addr)
    requires SameExtent(n, n')
    ensures n.ContainsAddress(a) <==> n'.ContainsAddress(a)
  {
  }

  /** One jump of the retry loop leaves the extent alone and takes its whole site, if it settles. */
  lemma ResolveOneEffect(keys: set<Addr>, n: Node, j: UnresolvedJump)
    ensures var n' := ResolveOne(keys, n, j);
      && SameExtent(n, n')
      && (forall k :: k in n'.unresolved <==> k in n.unresolved && !(k.site == j.site && Settles(keys, n, j.target)))
  {
    WithoutSiteElements(n.unresolved, j.site);
    hide Node.ContainsAddress;
  }

  lemma SiteSettlesMore(keys: set<Addr>, n: Node, init: seq<UnresolvedJump>, j: UnresolvedJump, s: Addr)
    ensures SiteSettles(keys, n, init + [j], s) <==> SiteSettles(keys, n, init, s) || (s == j.site && Settles(keys, n, j.target))
  {
    hide Settles;
    assert forall k :: k in init + [j] <==> k in init || k == j;
  }

  lemma SettlesSame(keys: set<Addr>, n: Node, n': Node, target: Addr)
    requires SameExtent(n, n')
    ensures Settles(keys, n', target) <==> Settles(keys, n, target)
  {
  }

  /** What is left parked: the jumps at sites where nothing settles. */
  lemma {:induction false} ResolveAllEffect(keys: set<Addr>, n: Node, jumps: seq<UnresolvedJump>)
    ensures var n' := ResolveJumps(keys, n, jumps);
      && SameExtent(n, n')
      && (forall j :: j in n'.unresolved <==> j in n.unresolved && !SiteSettles(keys, n, jumps, j.site))
  {
    hide ResolveOne, Settles;
    if jumps != [] {
      var init, j := jumps[..|jumps|-1], jumps[|jumps|-1];
      assert jumps == init + [j];
      ResolveAllEffect(keys, n, init);
      var n0 := ResolveJumps(keys, n, init);
      SettlesSame(keys, n, n0, j.target);
      ResolveOneEffect(keys, n0, j);
      forall k: UnresolvedJump
        ensures SiteSettles(keys, n, jumps, k.site) <==> SiteSettles(keys, n, init, k.site) || (k.site == j.site && Settles(keys, n, j.target))
      {
        SiteSettlesMore(keys, n, init, j, k.site);
      }
      hide SiteSettles;
    }
  }

  /** A second retry finds nothing to do: one pass reaches the fixed point. */
  lemma {:induction false} NothingSettles(keys: set<Addr>, n: Node, jumps: seq<UnresolvedJump>)
    requires forall j | j in jumps :: !Settles(keys, n, j.target)
    ensures ResolveJumps(keys, n, jumps) == n && CountSettled(keys, n, jumps) == 0
  {
    if jumps != [] {
      NothingSettles(keys, n, jumps[..|jumps|-1]);
      assert jumps[|jumps|-1] in jumps;
    }
  }

  lemma ResolveTwice(keys: set<Addr>, n: Node)
    ensures var n' := ResolveAll(keys, n);
      ResolveAll(keys, n') == n' && CountSettled(keys, n', n'.unresolved) == 0
  {
    var n' := ResolveAll(keys, n);
    ResolveAllEffect(keys, n, n.unresolved);
    hide ResolveJumps;
    forall j | j in n'.unresolved ensures !Settles(keys, n', j.target) {
      assert j in n.unresolved && !SiteSettles(keys, n, n.unresolved, j.site);
      assert Settles(keys, n', j.target) <==> Settles(keys, n, j.target);
    }
    NothingSettles(keys, n', n'.unresolved);
  }

  // ---------- Sealing ----------

  /** The graph with the functions of `s` that can be sealed sealed. */
  ghost function SealSome(g: Graph, s: set<Addr>): Graph {
    map b | b in g :: if b in s && g[b].CanSeal() then g[b].Sealed() else g[b]
  }

  ghost function Ready(g: Graph, s: set<Addr>): set<Addr> { set b | b in s && b in g && g[b].CanSeal() }

  lemma SealNone(g: Graph)
    ensures SealSome(g, g.Keys - g.Keys) == g && Ready(g, g.Keys - g.Keys) == {}
  {
  }

  lemma SealOneMore(g: Graph, s: set<Addr>, b: Addr)
    requires b in g && b !in s
    ensures Mutate(SealSome(g, s), DoSeal(b)) == SealSome(g, s + {b})
    ensures b in SealSome(g, s) && SealSome(g, s)[b] == g[b]
    ensures |Ready(g, s + {b})| == |Ready(g, s)| + (if g[b].CanSeal() then 1 else 0)
  {
    hide Node.Sealed, Node.CanSeal;
    assert Ready(g, s + {b}) == Ready(g, s) + (if g[b].CanSeal() then {b} else {});
    hide Ready;
    MutateIsSeal(SealSome(g, s), b);
    hide Mutate;
  }

  lemma MutateIsSeal(g: Graph, e: Addr)
    ensures Mutate(g, DoSeal(e)) == if e in g && g[e].CanSeal() then g[e := g[e].Sealed()] else g
  {
  }

  // ---------- Order independence ----------

  /** The additions whose order does not matter. */
  datatype Addition =
    | Function(base: Addr, size: nat, authority: Authority)
    | Jump(entry: Addr, site: Addr, target: Addr, isCall: bool, isConditional: bool)

  function Add(g: Graph, a: Addition): Graph {
    match a
    case Function(b, size, auth) => AddFunction(g, b, size, auth)
    case Jump(e, s, t, isCall, isCond) => AddJump(g, e, s, t, isCall, isCond)
  }

  function AddAll(g: Graph, ops: seq<Addition>): Graph {
    if ops == [] then g else Add(AddAll(g, ops[..|ops|-1]), ops[|ops|-1])
  }

  ghost function Edges(n: Node): multiset<Edge> { multiset(n.calls) + multiset(n.tailCalls) }

  /** A branch is added to a function that is there; a function that has branches is not replaced. */
  ghost predicate Allowed(g: Graph, a: Addition) {
    match a
    case Function(b, _, auth) =>
      b in g && g[b].authority.Rank() < auth.Rank() ==> g[b].calls == [] && g[b].tailCalls == [] && g[b].unresolved == []
    case Jump(e, _, _, _, _) => e in g
  }

  ghost predicate AllAllowed(ops: seq<Addition>) {
    ops == [] || (AllAllowed(ops[..|ops|-1]) && Allowed(AddAll(map[], ops[..|ops|-1]), ops[|ops|-1]))
  }

  /** The branches added to `e`. */
  ghost function Branches(ops: seq<Addition>, e: Addr): multiset<Edge> {
    if ops == [] then multiset{}
    else
      var op := ops[|ops|-1];
      Branches(ops[..|ops|-1], e) + (if op.Jump? && op.entry == e then multiset{Edge(op.site, op.target)} else multiset{})
  }

  ghost predicate IsAdded(ops: seq<Addition>, b: Addr) {
    exists op :: op in ops && op.Function? && op.base == b
  }

  /** Branches to entry points are resolved, the others are parked, and together they are `branches`. */
  ghost predicate Sorted(keys: set<Addr>, n: Node, branches: multiset<Edge>) {
    && n.state == Registered
    && Edges(n) + ParkedEdges(n.unresolved) == branches
    && (forall x | x in Edges(n) :: x.target in keys)
    && (forall x | x in ParkedEdges(n.unresolved) :: x.target !in keys)
  }

  lemma NotifiedSorts(keys: set<Addr>, n: Node, entry: Addr, branches: multiset<Edge>)
    requires Sorted(keys, n, branches)
    ensures Sorted(keys + {entry}, n.Notified(entry), branches)
  {
    hide Claimed, Unclaimed, ParkedEdges;
    var n' := n.Notified(entry);
    ClaimSplits(n.unresolved, entry);
    ClaimElements(n.unresolved, entry);
    assert multiset(n'.tailCalls) == multiset(n.tailCalls) + multiset(Claimed(n.unresolved, entry));
    forall x | x in ParkedEdges(n'.unresolved) ensures x.target !in keys + {entry} {
      ParkedEdgesMember(n'.unresolved, x);
      ParkedEdgesMember(n.unresolved, x);
    }
    forall x | x in Edges(n') ensures x.target in keys + {entry} {
      assert x in Edges(n) || x in Claimed(n.unresolved, entry);
    }
  }

  lemma ResolvedSorts(keys: set<Addr>, n: Node, x: Edge, isCall: bool, branches: multiset<Edge>)
    requires Sorted(keys, n, branches) && x.target in keys
    ensures Sorted(keys, n.Resolved(x, isCall), branches + multiset{x})
  {
    assert Edges(n.Resolved(x, isCall)) == Edges(n) + multiset{x};
  }

  lemma ParkedSorts(keys: set<Addr>, n: Node, j: UnresolvedJump, branches: multiset<Edge>)
    requires Sorted(keys, n, branches) && j.target !in keys
    ensures Sorted(keys, n.Parked(j), branches + multiset{Edge(j.site, j.target)})
  {
    ParkedEdgesAppend(n.unresolved, j);
  }

  lemma EmptySorts(keys: set<Addr>, n: Node, branches: multiset<Edge>, base: Addr, size: nat, authority: Authority)
    requires Sorted(keys, n, branches) && n.calls == [] && n.tailCalls == [] && n.unresolved == []
    ensures forall keys': set<Addr> :: Sorted(keys', Fresh(base, size, authority), branches)
  {
  }

  lemma BranchesNeedEntry(ops: seq<Addition>, e: Addr)
    requires AllAllowed(ops) && e !in AddAll(map[], ops)
    ensures Branches(ops, e) == multiset{}
  {
    if ops != [] {
      var init, op := ops[..|ops|-1], ops[|ops|-1];
      BranchesNeedEntry(init, e);
    }
  }

  lemma AddFunctionSorts(g: Graph, ops: seq<Addition>, op: Addition, e: Addr)
    requires AllAllowed(ops) && g == AddAll(map[], ops) && op.Function? && Allowed(g, op)
    requires forall x | x in g :: Sorted(g.Keys, g[x], Branches(ops, x))
    requires e in Add(g, op)
    ensures Sorted(Add(g, op).Keys, Add(g, op)[e], Branches(ops, e))
  {
    hide Sorted, Branches, AddAll, AllAllowed;
    var g' := Add(g, op);
    if !(op.base in g && g[op.base].authority.Rank() >= op.authority.Rank()) {
      assert g'.Keys == g.Keys + {op.base};
      if e != op.base {
        NotifiedSorts(g.Keys, g[e], op.base, Branches(ops, e));
      } else if e in g {
        EmptySorts(g.Keys, g[e], Branches(ops, e), op.base, op.size, op.authority);
      } else {
        BranchesNeedEntry(ops, e);
        FreshSorts(g'.Keys, op.base, op.size, op.authority);
      }
    }
  }

  lemma FreshSorts(keys: set<Addr>, base: Addr, size: nat, authority: Authority)
    ensures Sorted(keys, Fresh(base, size, authority), multiset{})
  {
  }

  lemma BranchesAppend(ops: seq<Addition>, op: Addition, e: Addr)
    ensures Branches(ops + [op], e) ==
      Branches(ops, e) + (if op.Jump? && op.entry == e then multiset{Edge(op.site, op.target)} else multiset{})
  {
    assert (ops + [op])[..|ops|] == ops;
  }

  lemma AddJumpSorts(g: Graph, ops: seq<Addition>, op: Addition, e: Addr)
    requires op.Jump? && op.entry in g && e in g && Sorted(g.Keys, g[e], Branches(ops, e))
    ensures e in Add(g, op) && Add(g, op).Keys == g.Keys
    ensures Sorted(g.Keys, Add(g, op)[e], Branches(ops + [op], e))
  {
    hide Sorted, Branches;
    BranchesAppend(ops, op, e);
    if op.entry == e {
      if op.target in g {
        ResolvedSorts(g.Keys, g[e], Edge(op.site, op.target), op.isCall, Branches(ops, e));
      } else {
        ParkedSorts(g.Keys, g[e], UnresolvedJump(op.site, op.target, op.isCall, op.isConditional), Branches(ops, e));
      }
    } else {
      assert Branches(ops, e) + multiset{} == Branches(ops, e);
    }
  }

  lemma AddSorts(g: Graph, ops: seq<Addition>, op: Addition, e: Addr)
    requires AllAllowed(ops) && g == AddAll(map[], ops) && Allowed(g, op)
    requires forall x | x in g :: Sorted(g.Keys, g[x], Branches(ops, x))
    requires e in Add(g, op)
    ensures Sorted(Add(g, op).Keys, Add(g, op)[e], Branches(ops + [op], e))
  {
    if op.Function? {
      AddFunctionSorts(g, ops, op, e);
      BranchesAppend(ops, op, e);
      assert Branches(ops, e) + multiset{} == Branches(ops, e);
    } else {
      AddJumpSorts(g, ops, op, e);
    }
  }

  lemma AddKeys(g: Graph, op: Addition, b: Addr)
    requires op.Jump? ==> op.entry in g
    ensures b in Add(g, op) <==> b in g || (op.Function? && op.base == b)
  {
  }

  /** The outcome in closed form, for any allowed sequence of additions. */
  lemma {:induction false} AdditionsSort(ops: seq<Addition>)
    requires AllAllowed(ops)
    ensures var g := AddAll(map[], ops);
      && (forall b :: b in g <==> IsAdded(ops, b))
      && forall e | e in g :: Sorted(g.Keys, g[e], Branches(ops, e))
  {
    hide Add, Allowed, Sorted, Branches;
    if ops != [] {
      var init, op := ops[..|ops|-1], ops[|ops|-1];
      AdditionsSort(init);
      assert ops == init + [op];
      var g := AddAll(map[], init);
      forall e | e in Add(g, op) ensures Sorted(Add(g, op).Keys, Add(g, op)[e], Branches(ops, e)) {
        AddSorts(g, init, op, e);
      }
      forall b ensures b in Add(g, op) <==> IsAdded(ops, b) {
        AllowedJump(g, op);
        AddKeys(g, op, b);
        assert IsAdded(ops, b) <==> IsAdded(init, b) || (op.Function? && op.base == b);
      }
    }
  }

  lemma AllowedJump(g: Graph, op: Addition)
    requires Allowed(g, op)
    ensures op.Jump? ==> op.entry in g
  {
  }

  ghost function JumpCount(ops: seq<Addition>, e: Addr, x: Edge): nat {
    JumpsIn(multiset(ops), e, x)
  }

  ghost function JumpsIn(m: multiset<Addition>, e: Addr, x: Edge): nat {
    m[Jump(e, x.site, x.target, true, true)] + m[Jump(e, x.site, x.target, true, false)]
    + m[Jump(e, x.site, x.target, false, true)] + m[Jump(e, x.site, x.target, false, false)]
  }

  lemma JumpsInOneMore(m: multiset<Addition>, op: Addition, e: Addr, x: Edge)
    ensures JumpsIn(m + multiset{op}, e, x) ==
      JumpsIn(m, e, x) + (if op.Jump? && op.entry == e && Edge(op.site, op.target) == x then 1 else 0)
  {
    if op.Jump? { assert op == Jump(op.entry, op.site, op.target, op.isCall, op.isConditional); }
  }

  lemma {:induction false} BranchesCount(ops: seq<Addition>, e: Addr, x: Edge)
    ensures Branches(ops, e)[x] == JumpCount(ops, e, x)
  {
    hide JumpsIn;
    if ops != [] {
      var init, op := ops[..|ops|-1], ops[|ops|-1];
      BranchesCount(init, e, x);
      assert ops == init + [op];
      assert multiset(ops) == multiset(init) + multiset{op};
      JumpsInOneMore(multiset(init), op, e, x);
    } else {
      NoJumpsIn(e, x);
    }
  }

  lemma NoJumpsIn(e: Addr, x: Edge)
    ensures JumpsIn(multiset([]), e, x) == 0
  {
  }

  /** Any two allowed orders of the same additions resolve the same branches of the same functions and leave the
      same branches parked. */
  lemma OrderDoesNotMatter(ops: seq<Addition>, ops': seq<Addition>)
    requires multiset(ops) == multiset(ops') && AllAllowed(ops) && AllAllowed(ops')
    ensures AddAll(map[], ops).Keys == AddAll(map[], ops').Keys
    ensures forall e | e in AddAll(map[], ops) && e in AddAll(map[], ops') ::
      && Edges(AddAll(map[], ops)[e]) == Edges(AddAll(map[], ops')[e])
      && ParkedEdges(AddAll(map[], ops)[e].unresolved) == ParkedEdges(AddAll(map[], ops')[e].unresolved)
  {
    var g, g' := AddAll(map[], ops), AddAll(map[], ops');
    AdditionsSort(ops);
    AdditionsSort(ops');
    forall b ensures b in g <==> b in g' {
      SameAdded(ops, ops', b);
    }
    hide AddAll, AllAllowed, Sorted;
    forall e | e in g && e in g'
      ensures Edges(g[e]) == Edges(g'[e]) && ParkedEdges(g[e].unresolved) == ParkedEdges(g'[e].unresolved)
    {
      SameBranches(ops, ops', e);
      SortedDetermines(g.Keys, g[e], g'[e], Branches(ops, e));
    }
  }

  lemma SameBranches(ops: seq<Addition>, ops': seq<Addition>, e: Addr)
    requires multiset(ops) == multiset(ops')
    ensures Branches(ops, e) == Branches(ops', e)
  {
    forall x ensures Branches(ops, e)[x] == Branches(ops', e)[x] {
      BranchesCount(ops, e, x);
      BranchesCount(ops', e, x);
    }
  }

  lemma SortedDetermines(keys: set<Addr>, n: Node, n': Node, branches: multiset<Edge>)
    requires Sorted(keys, n, branches) && Sorted(keys, n', branches)
    ensures Edges(n) == Edges(n') && ParkedEdges(n.unresolved) == ParkedEdges(n'.unresolved)
  {
    forall x ensures Edges(n)[x] == Edges(n')[x] && ParkedEdges(n.unresolved)[x] == ParkedEdges(n'.unresolved)[x] {
      var all := Edges(n) + ParkedEdges(n.unresolved);
      assert all[x] == branches[x] && (Edges(n') + ParkedEdges(n'.unresolved))[x] == branches[x];
      if x.target in keys {
        assert x !in ParkedEdges(n.unresolved) && x !in ParkedEdges(n'.unresolved);
      } else {
        assert x !in Edges(n) && x !in Edges(n');
      }
    }
  }

  lemma SameAdded(ops: seq<Addition>, ops': seq<Addition>, b: Addr)
    requires multiset(ops) == multiset(ops')
    ensures IsAdded(ops, b) <==> IsAdded(ops', b)
  {
    forall op ensures op in ops <==> op in ops' {
      assert op in ops <==> op in multiset(ops);
      assert op in ops' <==> op in multiset(ops');
    }
  }
}
