/** Discovering one function, and one round of discovery over a graph. */
module PhaseHelpers {
  import opened Code
  import opened Nodes
  import opened Blocks
  import opened Scanner
  import opened GraphSpec
  import opened FunctionGraphs
  import opened Sorting

  const ENTRY_SIZE: nat := 4

  /** What the phase runs on: the scanner, the hand-written tables, the start of the kernel thunk table, and the size
      each configured function was registered with. */
  datatype Context = Context(scanner: FunctionScanner, manual: map<Addr, JumpTable>, thunks: Addr, sizes: map<Addr, nat>) {
    ghost predicate Valid() { scanner.Valid(manual) }

    /** 0 unless the configuration gives the function an extent. */
    function Declared(e: Addr): nat { if e in sizes then sizes[e] else 0 }

    /** The walk can record the entry point. */
    ghost predicate CanStart(e: Addr) { scanner.ScopeFor(e, {}, manual).Recordable(e) }
  }

  /** Why discovery leaves a function registered: its entry cannot be recorded, or its declared extent wraps. */
  ghost predicate Blocked(ctx: Context, n: Node) {
    !n.IsImport() && (!ctx.CanStart(n.base) || (n.authority == Config && n.size != 0 && Wrap(n.base + n.size) <= n.base))
  }

  /** The same of a function at any time, by the size it was registered with. */
  ghost predicate Unstartable(ctx: Context, n: Node) {
    !n.IsImport() &&
    (!ctx.CanStart(n.base) ||
     (n.authority == Config && ctx.Declared(n.base) != 0 && Wrap(n.base + ctx.Declared(n.base)) <= n.base))
  }

  lemma BlockedIsUnstartable(ctx: Context, n: Node)
    requires n.authority == Config ==> n.size == ctx.Declared(n.base)
    ensures Blocked(ctx, n) <==> Unstartable(ctx, n)
  {
    hide Context.CanStart;
  }

  ghost predicate DirectCall(image: Image, a: Addr, t: Addr) {
    Decodes(image, a) && image[a].flow == Flow.Call && t == image[a].target && t != 0
  }

  /** Every direct call of a function goes to an entry point or to the kernel thunk table. */
  ghost predicate CallsLand(ctx: Context, keys: set<Addr>, n: Node) {
    forall a, t | a in n.instructions && DirectCall(ctx.scanner.image, a, t) :: t in keys || t == ctx.thunks
  }

  ghost predicate CallsClosed(ctx: Context, g: Graph, open: set<Addr>) {
    forall e | e in g && e !in open :: CallsLand(ctx, g.Keys, g[e])
  }

  /** A parked branch is the one its site's instruction makes, so each site has one target. */
  ghost predicate SitesAgree(image: Image, g: Graph) {
    forall e, j | e in g && j in g[e].unresolved :: j.site in image && image[j.site].target == j.target
  }

  /** What the phase keeps: 32-bit entry points, each node at its base, no stale parked branch, parked branches as their
      sites make them, closed calls except in the functions of `open`, which are being discovered, and nothing sealed but
      imports. */
  ghost predicate Inv(ctx: Context, g: Graph, open: set<Addr>) {
    && (forall e | e in g :: e < LIMIT && g[e].base == e)
    && NoStale(g)
    && SitesAgree(ctx.scanner.image, g)
    && CallsClosed(ctx, g, open)
    && (forall e | e in g && g[e].state == Registered :: g[e].instructions == [])
    && (forall e | e in g && g[e].state == Lifecycle.Sealed :: g[e].IsImport())
  }

  /** Functions may have been added, and nothing else but branches and labels has changed. */
  ghost predicate Grows(g: Graph, g': Graph, except: set<Addr>) {
    && g.Keys <= g'.Keys
    && (forall e | e in g && e !in except :: SameExtent(g[e], g'[e]) && g[e].labels <= g'[e].labels)
    && (forall e | e in g' && e !in g :: g'[e].state == Registered && g'[e].authority != Config && g'[e].blocks == [])
  }

  lemma GrowsNothing(g: Graph, except: set<Addr>)
    ensures Grows(g, g, except)
  {
  }

  lemma AddedOne(g: Graph, base: Addr, size: nat, authority: Authority)
    requires base !in g
    ensures AddFunction(g, base, size, authority).Keys == g.Keys + {base}
    ensures |AddFunction(g, base, size, authority)| == |g| + 1
  {
    var g' := AddFunction(g, base, size, authority);
    assert |g'.Keys| == |g'| && |g.Keys| == |g|;
  }

  lemma GrowsTransitive(g: Graph, g': Graph, g'': Graph, except: set<Addr>)
    requires Grows(g, g', except) && Grows(g', g'', {})
    ensures Grows(g, g'', except)
  {
    forall e | e in g'' && e !in g ensures g''[e].state == Registered && g''[e].authority != Config && g''[e].blocks == [] {
      if e in g' { assert SameExtent(g'[e], g''[e]); }
    }
  }

  /** A graph that has only grown keeps what the phase keeps, if its parked branches are in order. */
  lemma GrownKeepsInv(ctx: Context, g: Graph, g': Graph, open: set<Addr>)
    requires Inv(ctx, g, open) && Grows(g, g', {}) && NoStale(g') && SitesAgree(ctx.scanner.image, g')
    requires forall e | e in g' && e !in g :: e < LIMIT && g'[e].base == e && g'[e].instructions == []
    ensures Inv(ctx, g', open)
  {
    hide NoStale, SitesAgree, DirectCall;
    assert CallsClosed(ctx, g', open) by {
      forall e | e in g' && e !in open ensures CallsLand(ctx, g'.Keys, g'[e]) {
        if e in g { assert CallsLand(ctx, g.Keys, g[e]) && SameExtent(g[e], g'[e]); }
      }
    }
    hide CallsClosed;
    forall e | e in g' && g'[e].state == Registered ensures g'[e].instructions == [] {
      if e in g { assert SameExtent(g[e], g'[e]); }
    }
  }

  lemma AddedExtents(g: Graph, base: Addr, size: nat, authority: Authority)
    requires base !in g && authority != Config
    ensures var g' := AddFunction(g, base, size, authority);
      && Grows(g, g', {}) && g'.Keys == g.Keys + {base}
      && g'[base].base == base && g'[base].instructions == []
  {
    forall e | e in g ensures SameExtent(g[e], g[e].Notified(base)) && g[e].Notified(base).labels == g[e].labels {
      NotifiedExtent(g[e], base);
    }
    hide Node.Notified, SameExtent;
  }

  lemma NotifiedExtent(n: Node, base: Addr)
    ensures SameExtent(n, n.Notified(base)) && n.Notified(base).labels == n.labels
  {
    hide Claimed, Unclaimed;
  }

  lemma AdditionGrows(ctx: Context, g: Graph, open: set<Addr>, base: Addr, size: nat, authority: Authority)
    requires Inv(ctx, g, open) && base !in g && base < LIMIT && authority != Config
    ensures Inv(ctx, AddFunction(g, base, size, authority), open) && Grows(g, AddFunction(g, base, size, authority), {})
  {
    MutateKeepsNoStale(g, DoAddFunction(base, size, authority));
    AdditionSites(ctx.scanner.image, g, base, size, authority);
    AddedExtents(g, base, size, authority);
    hide SitesAgree, NoStale, AddFunction, Grows, CallsClosed;
    GrownKeepsInv(ctx, g, AddFunction(g, base, size, authority), open);
  }

  lemma AdditionSites(image: Image, g: Graph, base: Addr, size: nat, authority: Authority)
    requires SitesAgree(image, g)
    ensures SitesAgree(image, AddFunction(g, base, size, authority))
  {
    var g' := AddFunction(g, base, size, authority);
    forall e, j | e in g' && j in g'[e].unresolved ensures j.site in image && image[j.site].target == j.target {
      if e in g { ClaimElements(g[e].unresolved, base); }
    }
  }

  lemma JumpSites(image: Image, g: Graph, entry: Addr, site: Addr, target: Addr, isCall: bool, isConditional: bool)
    requires SitesAgree(image, g) && site in image && image[site].target == target
    ensures SitesAgree(image, AddJump(g, entry, site, target, isCall, isConditional))
  {
  }

  lemma JumpGrows(ctx: Context, g: Graph, open: set<Addr>, entry: Addr, site: Addr, target: Addr, isCall: bool, isConditional: bool)
    requires Inv(ctx, g, open) && site in ctx.scanner.image && ctx.scanner.image[site].target == target
    ensures Inv(ctx, AddJump(g, entry, site, target, isCall, isConditional), open)
    ensures Grows(g, AddJump(g, entry, site, target, isCall, isConditional), {})
  {
    JumpSites(ctx.scanner.image, g, entry, site, target, isCall, isConditional);
    MutateKeepsNoStale(g, DoAddJump(entry, site, target, isCall, isConditional));
    JumpExtents(g, entry, site, target, isCall, isConditional);
    MutateIsAddJump(g, entry, site, target, isCall, isConditional);
    hide SitesAgree, NoStale, AddJump, Grows, CallsClosed;
    GrownKeepsInv(ctx, g, AddJump(g, entry, site, target, isCall, isConditional), open);
  }

  lemma JumpExtents(g: Graph, entry: Addr, site: Addr, target: Addr, isCall: bool, isConditional: bool)
    ensures Grows(g, AddJump(g, entry, site, target, isCall, isConditional), {})
    ensures AddJump(g, entry, site, target, isCall, isConditional).Keys == g.Keys
  {
    forall e | e in g ensures SameExtent(g[e], g[e]) { ExtentOfItself(g[e]); }
    if entry in g { SameButBranches(g[entry], Edge(site, target), isCall, UnresolvedJump(site, target, isCall, isConditional)); }
    hide SameExtent, Node.Resolved, Node.Parked;
  }

  lemma MutateIsAddJump(g: Graph, entry: Addr, site: Addr, target: Addr, isCall: bool, isConditional: bool)
    ensures Mutate(g, DoAddJump(entry, site, target, isCall, isConditional)) == AddJump(g, entry, site, target, isCall, isConditional)
  {
  }

  lemma ExtentOfItself(n: Node)
    ensures SameExtent(n, n)
  {
  }

  lemma SameButBranches(n: Node, edge: Edge, isCall: bool, jump: UnresolvedJump)
    ensures SameExtent(n, n.Resolved(edge, isCall)) && n.Resolved(edge, isCall).labels == n.labels
    ensures SameExtent(n, n.Parked(jump)) && n.Parked(jump).labels == n.labels
  {
  }

  // ---------- One function ----------

  /** Blocks cut off at the declared end of a configured function. */
  function Cap(blocks: seq<Block>, end: Addr): seq<Block> {
    if blocks == [] then []
    else
      var b := blocks[0];
      (if b.base >= end then [] else if b.End() > end then [Block(b.base, end - b.base)] else [b]) + Cap(blocks[1..], end)
  }

  /** What is left covered: what was, below the end. */
  lemma {:induction false} CapCovers(blocks: seq<Block>, end: Addr, a: Addr)
    ensures Covered(Cap(blocks, end), a) <==> Covered(blocks, a) && a < end
  {
    if blocks != [] {
      var b := blocks[0];
      var cut: seq<Block> := if b.base >= end then [] else if b.End() > end then [Block(b.base, end - b.base)] else [b];
      CapCovers(blocks[1..], end, a);
      CoveredParts([b], blocks[1..], a);
      CoveredParts(cut, Cap(blocks[1..], end), a);
      assert blocks == [b] + blocks[1..];
      assert Covered([b], a) <==> b.Contains(a) by { assert b in [b]; }
      assert Covered(cut, a) <==> b.Contains(a) && a < end by { if cut != [] { assert cut[0] in cut; } }
    }
  }

  lemma CoveredParts(x: seq<Block>, y: seq<Block>, a: Addr)
    ensures Covered(x + y, a) <==> Covered(x, a) || Covered(y, a)
  {
    if Covered(x, a) { var b :| b in x && b.Contains(a); assert b in x + y; }
    if Covered(y, a) { var b :| b in y && b.Contains(a); assert b in x + y; }
  }

  /** Each block kept starts where a block started, and none runs past the end. */
  lemma {:induction false} CapElements(blocks: seq<Block>, end: Addr)
    ensures forall c :: c in Cap(blocks, end) <==> exists b :: b in blocks && b.base < end && c == Cut(b, end)
  {
    if blocks != [] {
      CapElements(blocks[1..], end);
      var first, rest := blocks[0], blocks[1..];
      forall c ensures c in Cap(blocks, end) <==> exists b :: b in blocks && b.base < end && c == Cut(b, end) {
        assert c in Cap(blocks, end) <==> (first.base < end && c == Cut(first, end)) || c in Cap(rest, end);
        if b :| b in rest && b.base < end && c == Cut(b, end) { assert b in blocks; }
      }
    }
  }

  function Cut(b: Block, end: Addr): Block
    requires b.base < end
  {
    if b.End() > end then Block(b.base, end - b.base) else b
  }

  ghost function Below(d: set<Addr>, end: Addr): set<Addr> { set a | a in d && a < end }

  lemma {:induction false} CapKeepsFirst(blocks: seq<Block>, end: Addr)
    requires exists b :: b in blocks && b.base < end
    ensures Cap(blocks, end) != []
  {
    if blocks[0].base >= end {
      var b :| b in blocks && b.base < end;
      assert b in blocks[1..];
      CapKeepsFirst(blocks[1..], end);
    }
  }

  /** A discovery with blocks has one at the entry; one without found nothing to record there. */
  lemma DiscoveryStarts(sc: Scope, r: DiscoveryResult)
    requires sc.Valid() && IsDiscovery(sc, r) && (|r.blocks| < Scanner.MAX_BLOCKS ==> sc.IsLeastClosed(Found(r)))
    ensures r.blocks == [] ==> !sc.Recordable(sc.entry)
    ensures r.blocks != [] ==> exists b :: b in r.blocks && b.base == sc.entry
  {
    if r.blocks == [] {
      assert !InBlocks(sc.image, r.blocks, sc.entry);
    } else {
      assert InBlocks(sc.image, r.blocks, sc.entry);
      var b :| b in r.blocks && sc.entry in TileStarts(sc.image, b.base, b.End());
      TileBounds(sc.image, b.base, b.End());
      assert b.base in TileStarts(sc.image, b.base, b.End());
      assert InBlocks(sc.image, r.blocks, b.base);
    }
  }

  /** What a discovery leaves in its node. */
  ghost predicate BuiltBy(ctx: Context, known: set<Addr>, n: Node, n': Node, r: DiscoveryResult) {
    && ctx.scanner.ScopeFor(n.base, known, ctx.manual).Valid()
    && IsDiscovery(ctx.scanner.ScopeFor(n.base, known, ctx.manual), r)
    && (|r.blocks| < Scanner.MAX_BLOCKS ==> ctx.scanner.ScopeFor(n.base, known, ctx.manual).IsLeastClosed(Found(r)))
    && n'.state == Lifecycle.Discovered
    && n'.instructions == r.instructions
    && r.labels <= n'.labels
    && n'.blocks == Kept(n, r)
    && n'.blocks != [] && !Blocked(ctx, n)
  }

  /** What discovering a function does to it. */
  ghost predicate Outcome(ctx: Context, known: set<Addr>, n: Node, n': Node) {
    if n.state != Registered then SameExtent(n, n')
    else
      && n'.base == n.base && n'.authority == n.authority
      && (n'.state == Registered ==> SameExtent(n, n') && Blocked(ctx, n'))
      && (n'.state != Registered && !n.IsImport() ==> exists r :: BuiltBy(ctx, known, n, n', r))
  }

  /** The blocks of a discovery, cut at the declared end of the function if it has one. */
  ghost function Extent(ctx: Context, n: Node, r: DiscoveryResult): seq<Block> {
    if n.authority == Config && ctx.Declared(n.base) != 0 then Cap(r.blocks, Wrap(n.base + ctx.Declared(n.base))) else r.blocks
  }

  /** The node holds what some discovery found, cut to its declared extent, and merged if it is sealed. */
  ghost predicate Scanned(ctx: Context, n: Node, known: set<Addr>, r: DiscoveryResult) {
    && ctx.scanner.ScopeFor(n.base, known, ctx.manual).Valid()
    && IsDiscovery(ctx.scanner.ScopeFor(n.base, known, ctx.manual), r)
    && (|r.blocks| < Scanner.MAX_BLOCKS ==> ctx.scanner.ScopeFor(n.base, known, ctx.manual).IsLeastClosed(Found(r)))
    && n.instructions == r.instructions
    && n.blocks == if n.state == Lifecycle.Sealed then SealedBlocks(Extent(ctx, n, r)) else Extent(ctx, n, r)
  }

  /** Every function past registration could be started, has blocks and holds the result of a discovery from its entry; a
      registered one has none yet and still its declared size. */
  ghost predicate Walked(ctx: Context, g: Graph) {
    && (forall e | e in g && g[e].state != Registered && !g[e].IsImport() :: IsScanned(ctx, g[e]))
    && (forall e | e in g && g[e].state == Registered ::
          g[e].blocks == [] && (g[e].authority == Config ==> g[e].size == ctx.Declared(g[e].base)))
  }

  ghost predicate IsScanned(ctx: Context, n: Node) {
    !Unstartable(ctx, n) && n.blocks != [] && exists known, r :: Scanned(ctx, n, known, r)
  }

  lemma SameIsScanned(ctx: Context, n: Node, n': Node)
    requires SameExtent(n, n') && IsScanned(ctx, n)
    ensures IsScanned(ctx, n')
  {
    hide IsDiscovery, SealedBlocks, Cap, Scope.Valid, Scope.IsLeastClosed, Context.CanStart;
    var known, r :| Scanned(ctx, n, known, r);
    assert Scanned(ctx, n', known, r);
  }

  lemma BuiltIsScanned(ctx: Context, known: set<Addr>, n: Node, n': Node)
    requires n.state == Registered && !n.IsImport() && n'.state != Registered && Outcome(ctx, known, n, n')
    requires n.authority == Config ==> n.size == ctx.Declared(n.base)
    ensures IsScanned(ctx, n')
  {
    hide IsDiscovery, SealedBlocks, Cap, Scope.Valid, Scope.IsLeastClosed, Context.CanStart, Blocked;
    BlockedIsUnstartable(ctx, n);
    var r :| BuiltBy(ctx, known, n, n', r);
    assert Scanned(ctx, n', known, r);
  }

  lemma WalkedGrows(ctx: Context, g: Graph, g': Graph)
    requires Walked(ctx, g) && Grows(g, g', {})
    ensures Walked(ctx, g')
  {
    hide IsScanned;
    forall e | e in g' && g'[e].state != Registered && !g'[e].IsImport() ensures IsScanned(ctx, g'[e]) {
      assert e in g && SameExtent(g[e], g'[e]);
      SameIsScanned(ctx, g[e], g'[e]);
    }
  }

  lemma WalkedOne(ctx: Context, known: set<Addr>, g: Graph, g': Graph, f: Addr)
    requires Walked(ctx, g) && Grows(g, g', {f}) && f in g && g[f].state == Registered
    requires Outcome(ctx, known, g[f], g'[f])
    ensures Walked(ctx, g')
  {
    hide IsScanned, BuiltBy, Blocked;
    forall e | e in g' && g'[e].state != Registered && !g'[e].IsImport() ensures IsScanned(ctx, g'[e]) {
      if e == f {
        BuiltIsScanned(ctx, known, g[f], g'[f]);
      } else {
        assert e in g && SameExtent(g[e], g'[e]);
        SameIsScanned(ctx, g[e], g'[e]);
      }
    }
  }

  // ---------- The step, as a function of the graph and the result of the walk ----------

  function WithTables(n: Node, tables: seq<JumpTable>): Node {
    if tables == [] then n
    else
      var before, jt := WithTables(n, tables[..|tables|-1]), tables[|tables|-1];
      before.(labels := before.labels + (set t | t in jt.targets), jumpTables := before.jumpTables + [jt])
  }

  function CallOne(g: Graph, target: Addr, thunks: Addr): Graph {
    if target in g || target == thunks then g else AddFunction(g, target, ENTRY_SIZE, Authority.Discovered)
  }

  function CallAll(g: Graph, targets: seq<Addr>, thunks: Addr): Graph {
    if targets == [] then g else CallOne(CallAll(g, targets[..|targets|-1], thunks), targets[|targets|-1], thunks)
  }

  function JumpAll(g: Graph, f: Addr, branches: seq<Branch>): Graph {
    if branches == [] then g
    else
      var b := branches[|branches|-1];
      AddJump(JumpAll(g, f, branches[..|branches|-1]), f, b.site, b.target, b.isCall, b.isConditional)
  }

  /** The blocks kept of a discovery: all of them, or those of a configured function cut at its declared end. */
  function Kept(n: Node, r: DiscoveryResult): seq<Block> {
    if n.authority == Config && n.size != 0 then Cap(r.blocks, Wrap(n.base + n.size)) else r.blocks
  }

  function Filled(n: Node, r: DiscoveryResult): Node {
    WithTables(n.WithBlocks(Kept(n, r), r.instructions, r.labels), r.jumpTables)
  }

  /** Nothing without blocks; otherwise fill the node, register the callees and add the branches. */
  function CodeStep(g: Graph, f: Addr, thunks: Addr, r: DiscoveryResult): Graph
    requires f in g
  {
    if Kept(g[f], r) == [] then g else JumpAll(CallAll(g[f := Filled(g[f], r)], r.externalCalls, thunks), f, r.branches)
  }

  /** The branches of a node, resolved and parked together. */
  ghost function Total(n: Node): multiset<Edge> { Edges(n) + ParkedEdges(n.unresolved) }

  ghost function BranchEdges(branches: seq<Branch>): multiset<Edge> {
    if branches == [] then multiset{}
    else
      var b := branches[|branches|-1];
      BranchEdges(branches[..|branches|-1]) + multiset{Edge(b.site, b.target)}
  }

  lemma NotifiedTotal(n: Node, entry: Addr)
    ensures Total(n.Notified(entry)) == Total(n)
  {
    hide Claimed, Unclaimed, ParkedEdges;
    ClaimSplits(n.unresolved, entry);
    assert multiset(n.Notified(entry).tailCalls) == multiset(n.tailCalls) + multiset(n.Notified(entry).tailCalls[|n.tailCalls|..]) by {
      assert n.Notified(entry).tailCalls == n.tailCalls + n.Notified(entry).tailCalls[|n.tailCalls|..];
    }
  }

  lemma {:induction false} CallsKeepTotals(g: Graph, targets: seq<Addr>, thunks: Addr, e: Addr)
    requires e in g
    ensures e in CallAll(g, targets, thunks) && Total(CallAll(g, targets, thunks)[e]) == Total(g[e])
  {
    hide Total;
    if targets != [] {
      var before, t := CallAll(g, targets[..|targets|-1], thunks), targets[|targets|-1];
      CallsKeepTotals(g, targets[..|targets|-1], thunks, e);
      NotifiedTotal(before[e], t);
    }
  }

  lemma JumpTotal(g: Graph, f: Addr, b: Branch, e: Addr)
    requires f in g && e in g
    ensures var g' := AddJump(g, f, b.site, b.target, b.isCall, b.isConditional);
      f in g' && e in g' && Total(g'[e]) == Total(g[e]) + (if e == f then multiset{Edge(b.site, b.target)} else multiset{})
  {
    ResolvedTotal(g[f], Edge(b.site, b.target), b.isCall);
    ParkedTotal(g[f], Nodes.UnresolvedJump(b.site, b.target, b.isCall, b.isConditional));
    JumpCases(g, f, b.site, b.target, b.isCall, b.isConditional);
    hide *;
  }

  lemma ResolvedTotal(n: Node, x: Edge, isCall: bool)
    ensures Total(n.Resolved(x, isCall)) == Total(n) + multiset{x}
  {
    assert Edges(n.Resolved(x, isCall)) == Edges(n) + multiset{x};
  }

  lemma ParkedTotal(n: Node, j: Nodes.UnresolvedJump)
    ensures Total(n.Parked(j)) == Total(n) + multiset{Edge(j.site, j.target)}
  {
    ParkedEdgesAppend(n.unresolved, j);
    hide ParkedEdges;
  }

  lemma {:induction false} JumpsAddTotals(g: Graph, f: Addr, branches: seq<Branch>, e: Addr)
    requires f in g && e in g
    ensures var g' := JumpAll(g, f, branches);
      f in g' && e in g' && Total(g'[e]) == Total(g[e]) + (if e == f then BranchEdges(branches) else multiset{})
  {
    hide Total;
    if branches != [] {
      JumpsAddTotals(g, f, branches[..|branches|-1], e);
      JumpTotal(JumpAll(g, f, branches[..|branches|-1]), f, branches[|branches|-1], e);
      hide AddJump;
    }
  }

  lemma {:induction false} TablesKeepTotal(n: Node, tables: seq<JumpTable>)
    ensures Total(WithTables(n, tables)) == Total(n)
  {
    if tables != [] { TablesKeepTotal(n, tables[..|tables|-1]); }
  }

  /** Discovering a function adds exactly the branches of its discovery to it, resolved or parked, and none is lost or
      added anywhere else. */
  lemma StepAddsBranches(g: Graph, f: Addr, thunks: Addr, r: DiscoveryResult, e: Addr)
    requires f in g && e in g
    ensures var g' := CodeStep(g, f, thunks, r);
      e in g' && Total(g'[e]) ==
        Total(g[e]) + (if e == f && Kept(g[f], r) != [] then BranchEdges(r.branches) else multiset{})
  {
    hide Total, Kept;
    if Kept(g[f], r) != [] {
      var n := g[f].WithBlocks(Kept(g[f], r), r.instructions, r.labels);
      assert Total(n) == Total(g[f]) by { BlocksKeepTotal(g[f], Kept(g[f], r), r.instructions, r.labels); }
      TablesKeepTotal(n, r.jumpTables);
      var g1 := g[f := Filled(g[f], r)];
      CallsKeepTotals(g1, r.externalCalls, thunks, e);
      CallsKeepTotals(g1, r.externalCalls, thunks, f);
      JumpsAddTotals(CallAll(g1, r.externalCalls, thunks), f, r.branches, e);
    }
  }

  lemma BlocksKeepTotal(n: Node, bs: seq<Block>, insns: seq<Addr>, ls: set<Addr>)
    ensures Total(n.WithBlocks(bs, insns, ls)) == Total(n)
  {
  }

  method AddCallee(ctx: Context, graph: FunctionGraph, target: Addr, ghost open: set<Addr>)
    requires graph.Valid() && Inv(ctx, graph.View(), open) && target < LIMIT
    modifies graph, graph.functions.Values
    ensures graph.Valid() && Inv(ctx, graph.View(), open) && Grows(old(graph.View()), graph.View(), {})
    ensures fresh(graph.functions.Values - old(graph.functions.Values))
    ensures forall b | b in old(graph.functions) :: b in graph.functions && graph.functions[b] == old(graph.functions)[b]
    ensures target in graph.functions || target == ctx.thunks
    ensures graph.View() == CallOne(old(graph.View()), target, ctx.thunks)
  {
    hide *;
    ghost var g := graph.View();
    graph.ViewKeys();
    GrowsNothing(g, {});
    CallCases(g, target, ctx.thunks);
    if target in graph.functions || target == ctx.thunks { return; }
    AdditionGrows(ctx, g, open, target, ENTRY_SIZE, Authority.Discovered);
    var node := graph.AddFunction(target, ENTRY_SIZE, Authority.Discovered);
  }

  lemma CallCases(g: Graph, target: Addr, thunks: Addr)
    ensures CallOne(g, target, thunks) ==
      if target in g || target == thunks then g else AddFunction(g, target, ENTRY_SIZE, Authority.Discovered)
  {
  }

  lemma CallNext(g: Graph, targets: seq<Addr>, thunks: Addr, i: nat)
    requires i < |targets|
    ensures CallAll(g, targets[..i+1], thunks) == CallOne(CallAll(g, targets[..i], thunks), targets[i], thunks)
  {
    assert targets[..i+1][..i] == targets[..i];
  }

  lemma JumpNext(g: Graph, f: Addr, branches: seq<Branch>, i: nat)
    requires i < |branches|
    ensures var b := branches[i];
      JumpAll(g, f, branches[..i+1]) == AddJump(JumpAll(g, f, branches[..i]), f, b.site, b.target, b.isCall, b.isConditional)
  {
    assert branches[..i+1][..i] == branches[..i];
  }

  lemma NoneToAdd(g: Graph, f: Addr, thunks: Addr)
    ensures CallAll(g, [], thunks) == g && JumpAll(g, f, []) == g
  {
  }

  /** New entry points for the direct calls that leave the function. */
  method AddCallees(ctx: Context, graph: FunctionGraph, targets: seq<Addr>, ghost open: set<Addr>)
    requires graph.Valid() && Inv(ctx, graph.View(), open) && forall t | t in targets :: t < LIMIT
    modifies graph, graph.functions.Values
    ensures graph.Valid() && Inv(ctx, graph.View(), open) && Grows(old(graph.View()), graph.View(), {})
    ensures fresh(graph.functions.Values - old(graph.functions.Values))
    ensures forall b | b in old(graph.functions) :: b in graph.functions && graph.functions[b] == old(graph.functions)[b]
    ensures forall t | t in targets :: t in graph.functions || t == ctx.thunks
    ensures graph.View() == CallAll(old(graph.View()), targets, ctx.thunks)
  {
    hide *;
    ghost var g0 := graph.View();
    GrowsNothing(g0, {});
    NoneToAdd(g0, 0, ctx.thunks);
    assert targets[..0] == [];
    for i := 0 to |targets|
      invariant graph.View() == CallAll(g0, targets[..i], ctx.thunks)
      invariant graph.Valid() && Inv(ctx, graph.View(), open) && Grows(g0, graph.View(), {})
      invariant fresh(graph.functions.Values - old(graph.functions.Values))
      invariant forall b | b in old(graph.functions) :: b in graph.functions && graph.functions[b] == old(graph.functions)[b]
      invariant forall k | 0 <= k < i :: targets[k] in graph.functions || targets[k] == ctx.thunks
    {
      assert targets[i] in targets;
      ghost var g := graph.View();
      CallNext(g0, targets, ctx.thunks, i);
      AddCallee(ctx, graph, targets[i], open);
      GrowsTransitive(g0, g, graph.View(), {});
    }
    assert targets[..|targets|] == targets;
  }

  /** The jump tables of a function, and the labels of their targets. */
  method AddTables(node: FunctionNode, tables: seq<JumpTable>)
    modifies node
    ensures node.View() == WithTables(old(node.View()), tables)
  {
    hide FunctionNode.View;
    ghost var n := node.View();
    assert tables[..0] == [];
    for i := 0 to |tables|
      invariant node.View() == WithTables(n, tables[..i])
    {
      assert tables[..i+1][..i] == tables[..i];
      LabelsOf(node);
      node.AddJumpTable(tables[i]);
    }
    assert tables[..|tables|] == tables;
  }

  lemma LabelsOf(node: FunctionNode)
    ensures node.View().labels == node.labels && node.View().jumpTables == node.jumpTables
    ensures node.View().unresolved == node.unresolved
  {
  }

  lemma {:induction false} TablesKeep(n: Node, tables: seq<JumpTable>)
    ensures var n' := WithTables(n, tables);
      SameExtent(n, n') && n'.unresolved == n.unresolved && n.labels <= n'.labels
  {
    if tables != [] { TablesKeep(n, tables[..|tables|-1]); }
  }

  /** The branches of a function, resolved or parked. */
  method AddBranches(ctx: Context, graph: FunctionGraph, f: Addr, branches: seq<Branch>)
    requires graph.Valid() && Inv(ctx, graph.View(), {}) && f in graph.functions
    requires forall b | b in branches :: b.site in ctx.scanner.image && ctx.scanner.image[b.site].target == b.target
    modifies graph.functions.Values
    ensures graph.Valid() && Inv(ctx, graph.View(), {}) && Grows(old(graph.View()), graph.View(), {})
    ensures graph.View() == JumpAll(old(graph.View()), f, branches)
  {
    hide *;
    ghost var g0 := graph.View();
    GrowsNothing(g0, {});
    graph.ViewKeys();
    NoneToAdd(g0, f, 0);
    assert branches[..0] == [];
    for i := 0 to |branches|
      invariant graph.View() == JumpAll(g0, f, branches[..i])
      invariant graph.Valid() && Inv(ctx, graph.View(), {}) && Grows(g0, graph.View(), {})
      invariant f in graph.functions
    {
      var b := branches[i];
      ghost var g := graph.View();
      JumpNext(g0, f, branches, i);
      assert b in branches;
      JumpGrows(ctx, g, {}, f, b.site, b.target, b.isCall, b.isConditional);
      graph.AddUnresolvedJumpToFunction(f, b.site, b.target, b.isCall, b.isConditional);
      GrowsTransitive(g0, g, graph.View(), {});
    }
    assert branches[..|branches|] == branches;
  }

  /** Setting the blocks of a registered function keeps all but the closure of its own calls. */
  lemma DiscoverOpens(ctx: Context, g: Graph, f: Addr, n: Node)
    requires Inv(ctx, g, {}) && f in g && g[f].state == Registered
    requires n.base == f && n.unresolved == g[f].unresolved && n.state == Lifecycle.Discovered
    ensures Inv(ctx, g[f := n], {f}) && Grows(g, g[f := n], {f})
  {
  }

  /** Once its callees are entry points the function's calls are closed too. */
  lemma CalleesClose(ctx: Context, g: Graph, f: Addr, sc: Scope, r: DiscoveryResult)
    requires Inv(ctx, g, {f}) && f in g && g[f].instructions == r.instructions
    requires sc.Valid() && sc.entry == f && sc.image == ctx.scanner.image && IsDiscovery(sc, r)
    requires forall t | t in r.externalCalls :: t in g || t == ctx.thunks
    ensures Inv(ctx, g, {})
  {
    hide NoStale;
    forall a, t | a in g[f].instructions && DirectCall(ctx.scanner.image, a, t) ensures t in g || t == ctx.thunks {
      assert a in Found(r);
      if t != f {
        assert sc.CallsOut(a, t);
        assert t in r.externalCalls;
      }
    }
  }

  /** The branches of a discovery are those its instructions make. */
  lemma BranchesAreMade(sc: Scope, r: DiscoveryResult)
    requires sc.Valid() && IsDiscovery(sc, r)
    ensures forall b | b in r.branches :: b.site in sc.image && sc.image[b.site].target == b.target
  {
    forall b | b in r.branches ensures b.site in sc.image && sc.image[b.site].target == b.target {
      assert b.site in Found(r) && sc.BranchOf(b.site) == Some(b);
    }
  }

  lemma ExternalCallsAreWords(sc: Scope, r: DiscoveryResult)
    requires sc.Valid() && IsDiscovery(sc, r)
    ensures forall t | t in r.externalCalls :: t < LIMIT
  {
    forall t | t in r.externalCalls ensures t < LIMIT {
      var a :| a in Found(r) && sc.CallsOut(a, t);
    }
  }

  lemma ScopeFacts(ctx: Context, f: Addr, known: set<Addr>)
    requires ctx.Valid() && f < LIMIT
    ensures var sc := ctx.scanner.ScopeFor(f, known, ctx.manual);
      sc.Valid() && sc.entry == f && sc.image == ctx.scanner.image && (sc.Recordable(f) <==> ctx.CanStart(f))
    ensures ctx.scanner.Valid(ctx.manual)
  {
  }

  lemma NoBlocksBlocked(ctx: Context, n: Node, known: set<Addr>, r: DiscoveryResult)
    requires ctx.Valid() && n.base < LIMIT && r.blocks == [] && !n.IsImport()
    requires var sc := ctx.scanner.ScopeFor(n.base, known, ctx.manual);
      IsDiscovery(sc, r) && (|r.blocks| < Scanner.MAX_BLOCKS ==> sc.IsLeastClosed(Found(r)))
    ensures Blocked(ctx, n)
  {
    ScopeFacts(ctx, n.base, known);
    DiscoveryStarts(ctx.scanner.ScopeFor(n.base, known, ctx.manual), r);
  }

  lemma CapEmptyBlocked(ctx: Context, n: Node, known: set<Addr>, r: DiscoveryResult)
    requires ctx.Valid() && n.base < LIMIT && r.blocks != [] && n.authority == Config && n.size != 0 && !n.IsImport()
    requires var sc := ctx.scanner.ScopeFor(n.base, known, ctx.manual);
      IsDiscovery(sc, r) && (|r.blocks| < Scanner.MAX_BLOCKS ==> sc.IsLeastClosed(Found(r)))
    requires Cap(r.blocks, Wrap(n.base + n.size)) == []
    ensures Blocked(ctx, n)
  {
    ScopeFacts(ctx, n.base, known);
    DiscoveryStarts(ctx.scanner.ScopeFor(n.base, known, ctx.manual), r);
    if Wrap(n.base + n.size) > n.base {
      CapKeepsFirst(r.blocks, Wrap(n.base + n.size));
    }
  }

  /** And a function whose discovery keeps a block was not blocked. */
  lemma KeptNotBlocked(ctx: Context, n: Node, known: set<Addr>, r: DiscoveryResult)
    requires ctx.Valid() && n.base < LIMIT && Kept(n, r) != []
    requires var sc := ctx.scanner.ScopeFor(n.base, known, ctx.manual); sc.Valid() && IsDiscovery(sc, r)
    ensures !Blocked(ctx, n)
  {
    var sc := ctx.scanner.ScopeFor(n.base, known, ctx.manual);
    hide *;
    ScopeFacts(ctx, n.base, known);
    BlocksFollow(sc, r);
    KeptIs(n, r);
    if n.authority == Config && n.size != 0 && Wrap(n.base + n.size) <= n.base {
      CapDropsAll(r.blocks, Wrap(n.base + n.size));
    }
    CapNothing(n.base);
    BlockedIs(ctx, n);
  }

  lemma BlockedIs(ctx: Context, n: Node)
    ensures Blocked(ctx, n) <==>
      !n.IsImport() && (!ctx.CanStart(n.base) || (n.authority == Config && n.size != 0 && Wrap(n.base + n.size) <= n.base))
  {
    hide Context.CanStart;
  }

  lemma KeptIs(n: Node, r: DiscoveryResult)
    ensures Kept(n, r) == if n.authority == Config && n.size != 0 then Cap(r.blocks, Wrap(n.base + n.size)) else r.blocks
  {
    hide Cap;
  }

  lemma CapNothing(end: Addr)
    ensures forall e: Addr :: Cap([], e) == []
  {
  }

  /** The blocks of a discovery start at recordable addresses from the entry on. */
  lemma BlocksFollow(sc: Scope, r: DiscoveryResult)
    requires sc.Valid() && IsDiscovery(sc, r)
    ensures r.blocks != [] ==> sc.Recordable(sc.entry)
    ensures forall b | b in r.blocks :: sc.entry <= b.base
  {
    hide Recorded, Scope.Closed;
    forall b | b in r.blocks ensures sc.entry <= b.base {
      assert b.base in TileStarts(sc.image, b.base, b.End());
      assert InBlocks(sc.image, r.blocks, b.base);
    }
  }

  lemma {:induction false} CapDropsAll(blocks: seq<Block>, end: Addr)
    requires forall b | b in blocks :: b.base >= end
    ensures Cap(blocks, end) == []
  {
    if blocks != [] { CapDropsAll(blocks[1..], end); }
  }

  /** An import has nothing to scan: it is discovered and sealed at once. */
  method DiscoverImport(ctx: Context, graph: FunctionGraph, node: FunctionNode, ghost known: set<Addr>)
    requires graph.Valid() && Inv(ctx, graph.View(), {}) && node.base in graph.functions && graph.functions[node.base] == node
    requires node.state == Registered && node.authority == Import
    modifies node
    ensures graph.Valid() && Inv(ctx, graph.View(), {})
    ensures Grows(old(graph.View()), graph.View(), {node.base})
    ensures graph.View() == old(graph.View())[node.base := ImportSealed(old(node.View()))]
    ensures graph.View().Keys == old(graph.View()).Keys
    ensures Outcome(ctx, known, old(graph.View())[node.base], graph.View()[node.base])
  {
    ghost var g0 := graph.View();
    SealImport(graph, node);
    hide *;
    ImportStep(ctx, g0, node.base, graph.View()[node.base], known);
  }

  method SealImport(graph: FunctionGraph, node: FunctionNode)
    requires graph.Valid() && node.base in graph.functions && graph.functions[node.base] == node
    requires node.state == Registered && node.authority == Import
    modifies node
    ensures graph.Valid() && node.base in old(graph.View())
    ensures old(graph.View())[node.base] == old(node.View())
    ensures graph.View() == old(graph.View())[node.base := old(node.View()).(state := Lifecycle.Discovered).Sealed()]
    ensures graph.View().Keys == old(graph.View()).Keys
  {
    hide SealedBlocks;
    ghost var g0 := graph.View();
    graph.ViewNodes();
    node.DiscoverAsImport();
    if node.View().CanSeal() {
      node.Seal();
    }
    hide *;
    assert g0.Keys + {node.base} == g0.Keys;
    graph.ViewOf(g0, node.base, node.View());
  }

  ghost function ImportSealed(n: Node): Node { n.(blocks := SealedBlocks(n.blocks), state := Lifecycle.Sealed) }

  lemma ImportStep(ctx: Context, g: Graph, f: Addr, n: Node, known: set<Addr>)
    requires Inv(ctx, g, {}) && f in g && g[f].state == Registered && g[f].IsImport()
    requires n == g[f].(state := Lifecycle.Discovered).Sealed()
    ensures n == ImportSealed(g[f])
    ensures Inv(ctx, g[f := n], {}) && Grows(g, g[f := n], {f}) && Outcome(ctx, known, g[f], n)
  {
  }

  /** The loop that drops and cuts blocks at the declared end. */
  method CapBlocks(blocks: seq<Block>, end: Addr) returns (r: seq<Block>)
    ensures r == Cap(blocks, end)
    ensures forall a: Addr :: Covered(r, a) <==> Covered(blocks, a) && a < end
  {
    forall a: Addr ensures Covered(Cap(blocks, end), a) <==> Covered(blocks, a) && a < end { CapCovers(blocks, end, a); }
    hide Covered;
    r := [];
    for i := 0 to |blocks|
      invariant r + Cap(blocks[i..], end) == Cap(blocks, end)
    {
      var b := blocks[i];
      assert blocks[i..][1..] == blocks[i+1..];
      ghost var rest := Cap(blocks[i+1..], end);
      if b.base >= end {
        assert [] + rest == rest;
      } else {
        var cut := if b.End() > end then Block(b.base, end - b.base) else b;
        assert r + ([cut] + rest) == (r + [cut]) + rest;
        r := r + [cut];
      }
    }
    assert blocks[|blocks|..] == [];
  }

  /** Discovers one function, registers the functions it calls, and records its branches. */
  method DiscoverOne(ctx: Context, graph: FunctionGraph, known: set<Addr>, f: Addr) returns (ghost r: DiscoveryResult)
    requires ctx.Valid() && graph.Valid() && Inv(ctx, graph.View(), {})
    modifies graph, graph.functions.Values
    ensures graph.Valid() && Inv(ctx, graph.View(), {})
    ensures Grows(old(graph.View()), graph.View(), {f})
    ensures f in old(graph.View()) ==> Outcome(ctx, known, old(graph.View())[f], graph.View()[f])
    ensures fresh(graph.functions.Values - old(graph.functions.Values))
    ensures graph.View() == OneStep(old(graph.View()), f, ctx.thunks, r)
    ensures f in old(graph.View()) && ScansCode(old(graph.View())[f]) ==> Finds(ctx, f, known, r)
  {
    hide *;
    r := DiscoveryResult([], [], {}, [], [], [], []);
    ghost var g0 := graph.View();
    graph.ViewNodes();
    GrowsNothing(g0, {f});
    if f in graph.functions { StateOfView(graph.functions[f]); }
    OneStepCases(g0, f, ctx.thunks);
    if f !in graph.functions { return; }
    var node := graph.functions[f];
    if node.state != Registered {
      NotRegistered(ctx, known, node);
      return;
    }
    if node.authority == Import {
      DiscoverImport(ctx, graph, node, known);
      return;
    }
    r := DiscoverCode(ctx, graph, known, f);
  }

  /** A registered function that is not an import is scanned. */
  predicate ScansCode(n: Node) { n.state == Registered && !n.IsImport() }

  ghost function OneStep(g: Graph, f: Addr, thunks: Addr, r: DiscoveryResult): Graph {
    if f !in g || g[f].state != Registered then g
    else if g[f].IsImport() then g[f := ImportSealed(g[f])]
    else CodeStep(g, f, thunks, r)
  }

  /** A result the scanner may give for the function. */
  ghost predicate Finds(ctx: Context, f: Addr, known: set<Addr>, r: DiscoveryResult) {
    && ctx.scanner.ScopeFor(f, known, ctx.manual).Valid()
    && IsDiscovery(ctx.scanner.ScopeFor(f, known, ctx.manual), r)
    && (|r.blocks| < Scanner.MAX_BLOCKS ==> ctx.scanner.ScopeFor(f, known, ctx.manual).IsLeastClosed(Found(r)))
  }

  lemma OneStepCases(g: Graph, f: Addr, thunks: Addr)
    ensures f !in g || g[f].state != Registered ==> forall r :: OneStep(g, f, thunks, r) == g
    ensures f in g && g[f].state == Registered && g[f].authority == Import ==>
      forall r :: OneStep(g, f, thunks, r) == g[f := ImportSealed(g[f])]
    ensures f in g && g[f].state == Registered && g[f].authority != Import ==>
      forall r :: OneStep(g, f, thunks, r) == CodeStep(g, f, thunks, r)
    ensures f in g ==> (ScansCode(g[f]) <==> g[f].state == Registered && g[f].authority != Import)
  {
    hide CodeStep, ImportSealed;
  }

  lemma StateOfView(n: FunctionNode)
    ensures n.View().state == n.state && n.View().authority == n.authority && n.View().base == n.base
  {
  }

  lemma CodeStepCases(g: Graph, f: Addr, thunks: Addr, r: DiscoveryResult)
    requires f in g
    ensures CodeStep(g, f, thunks, r) ==
      if Kept(g[f], r) == [] then g else JumpAll(CallAll(g[f := Filled(g[f], r)], r.externalCalls, thunks), f, r.branches)
    ensures Kept(g[f], r) ==
      if g[f].authority == Config && g[f].size != 0 then Cap(r.blocks, Wrap(g[f].base + g[f].size)) else r.blocks
    ensures Cap([], 0) == [] && (r.blocks == [] ==> Kept(g[f], r) == [])
  {
  }

  lemma FilledIs(n: Node, r: DiscoveryResult, blocks: seq<Block>)
    requires blocks == Kept(n, r)
    ensures Filled(n, r) == WithTables(n.WithBlocks(blocks, r.instructions, r.labels), r.jumpTables)
  {
  }

  lemma ItFinds(ctx: Context, f: Addr, known: set<Addr>, r: DiscoveryResult)
    requires ctx.scanner.ScopeFor(f, known, ctx.manual).Valid() && IsDiscovery(ctx.scanner.ScopeFor(f, known, ctx.manual), r)
    requires |r.blocks| < Scanner.MAX_BLOCKS ==> ctx.scanner.ScopeFor(f, known, ctx.manual).IsLeastClosed(Found(r))
    ensures Finds(ctx, f, known, r)
  {
  }

  lemma NotRegistered(ctx: Context, known: set<Addr>, node: FunctionNode)
    requires node.state != Registered
    ensures Outcome(ctx, known, node.View(), node.View())
  {
  }

  /** The part of the discovery of one function that scans code. */
  method DiscoverCode(ctx: Context, graph: FunctionGraph, known: set<Addr>, f: Addr) returns (ghost found: DiscoveryResult)
    requires ctx.Valid() && graph.Valid() && Inv(ctx, graph.View(), {})
    requires f in graph.functions && graph.functions[f].state == Registered && graph.functions[f].authority != Import
    modifies graph, graph.functions.Values
    ensures graph.Valid() && Inv(ctx, graph.View(), {})
    ensures Grows(old(graph.View()), graph.View(), {f}) && f in old(graph.View()) && f in graph.View()
    ensures Outcome(ctx, known, old(graph.View())[f], graph.View()[f])
    ensures fresh(graph.functions.Values - old(graph.functions.Values))
    ensures graph.View() == CodeStep(old(graph.View()), f, ctx.thunks, found) && Finds(ctx, f, known, found)
  {
    hide *;
    ghost var g0 := graph.View();
    graph.ViewNodes();
    GrowsNothing(g0, {f});
    var node := graph.functions[f];
    NodeFacts(ctx, g0, f, node);
    var declared := if node.authority == Config then node.size else 0;
    ScopeFacts(ctx, f, known);
    var r := ctx.scanner.DiscoverBlocks(f, known, ctx.manual);
    found := r;
    ItFinds(ctx, f, known, r);
    CodeStepCases(g0, f, ctx.thunks, r);
    if |r.blocks| == 0 {
      NoBlocksBlocked(ctx, g0[f], known, r);
      StillRegistered(ctx, g0, f, known);
      return;
    }
    var blocks := r.blocks;
    if declared != 0 {
      blocks := CapBlocks(blocks, Wrap(f + declared));
      if |blocks| == 0 {
        CapEmptyBlocked(ctx, g0[f], known, r);
        StillRegistered(ctx, g0, f, known);
        return;
      }
    }
    FillNode(ctx, graph, node, known, r, blocks);
    ghost var g1 := graph.View();
    AddFound(ctx, graph, known, f, g0[f], r);
    GrowsTransitive(g0, g1, graph.View(), {f});
    BuiltOutcome(ctx, known, g0[f], graph.View()[f], r);
  }

  /** Registers the callees a discovery found and adds its branches. */
  method AddFound(ctx: Context, graph: FunctionGraph, known: set<Addr>, f: Addr, ghost n: Node, r: DiscoveryResult)
    requires ctx.Valid() && graph.Valid() && f < LIMIT && f in graph.View() && Inv(ctx, graph.View(), {f})
    requires var sc := ctx.scanner.ScopeFor(f, known, ctx.manual); sc.Valid() && IsDiscovery(sc, r)
    requires Built(ctx, known, n, graph.View()[f], r)
    modifies graph, graph.functions.Values
    ensures graph.Valid() && Inv(ctx, graph.View(), {}) && Grows(old(graph.View()), graph.View(), {})
    ensures fresh(graph.functions.Values - old(graph.functions.Values))
    ensures f in graph.View() && Built(ctx, known, n, graph.View()[f], r)
    ensures graph.View() == JumpAll(CallAll(old(graph.View()), r.externalCalls, ctx.thunks), f, r.branches)
  {
    hide *;
    ghost var g1 := graph.View();
    graph.ViewKeys();
    ScopeFacts(ctx, f, known);
    ghost var sc := ctx.scanner.ScopeFor(f, known, ctx.manual);
    ExternalCallsAreWords(sc, r);
    AddCallees(ctx, graph, r.externalCalls, {f});
    ghost var g2 := graph.View();
    graph.ViewKeys();
    StillBuilt(ctx, g1, g2, n, f, known, r);
    CalleesClose(ctx, g2, f, sc, r);
    BranchesAreMade(sc, r);
    AddBranches(ctx, graph, f, r.branches);
    StillBuilt(ctx, g2, graph.View(), n, f, known, r);
    GrowsTransitive(g1, g2, graph.View(), {});
  }

  lemma NodeFacts(ctx: Context, g: Graph, f: Addr, node: FunctionNode)
    requires Inv(ctx, g, {}) && f in g && g[f] == node.View() && node.state == Registered && node.authority != Import
    ensures f < LIMIT && g[f].base == f == node.base && g[f].authority == node.authority && g[f].size == node.size
    ensures g[f].state == Registered && !g[f].IsImport()
  {
  }

  lemma StillRegistered(ctx: Context, g: Graph, f: Addr, known: set<Addr>)
    requires f in g && g[f].state == Registered && Blocked(ctx, g[f])
    ensures Outcome(ctx, known, g[f], g[f])
  {
  }

  ghost predicate Built(ctx: Context, known: set<Addr>, n: Node, n': Node, r: DiscoveryResult) {
    n'.base == n.base && n'.authority == n.authority && n'.state == Lifecycle.Discovered && BuiltBy(ctx, known, n, n', r)
  }

  lemma StillBuilt(ctx: Context, g: Graph, g': Graph, n: Node, f: Addr, known: set<Addr>, r: DiscoveryResult)
    requires f in g && Built(ctx, known, n, g[f], r) && Grows(g, g', {})
    ensures f in g' && Built(ctx, known, n, g'[f], r) && g'[f].instructions == r.instructions
  {
  }

  lemma BuiltOutcome(ctx: Context, known: set<Addr>, n: Node, n': Node, r: DiscoveryResult)
    requires n.state == Registered && Built(ctx, known, n, n', r)
    ensures Outcome(ctx, known, n, n')
  {
  }

  /** Moves a registered function to discovered with the blocks, labels and tables of its discovery. */
  method FillNode(ctx: Context, graph: FunctionGraph, node: FunctionNode, ghost known: set<Addr>, r: DiscoveryResult, blocks: seq<Block>)
    requires ctx.Valid() && graph.Valid() && Inv(ctx, graph.View(), {})
    requires node.base in graph.functions && graph.functions[node.base] == node && node.base < LIMIT
    requires node.state == Registered && node.View().state == Registered && blocks != []
    requires var sc := ctx.scanner.ScopeFor(node.base, known, ctx.manual);
      sc.Valid() && IsDiscovery(sc, r) && (|r.blocks| < Scanner.MAX_BLOCKS ==> sc.IsLeastClosed(Found(r)))
    requires node.View().base == node.base
    requires blocks == Kept(node.View(), r)
    modifies node
    ensures graph.View() == old(graph.View())[node.base := Filled(old(node.View()), r)]
    ensures graph.Valid() && Inv(ctx, graph.View(), {node.base})
    ensures Grows(old(graph.View()), graph.View(), {node.base})
    ensures node.base in graph.View() && Built(ctx, known, old(node.View()), graph.View()[node.base], r)
  {
    hide *;
    ghost var g0, n0 := graph.View(), node.View();
    graph.ViewNodes();
    KeptNotBlocked(ctx, n0, known, r);
    node.Discover(blocks, r.instructions, r.labels);
    ghost var n1 := node.View();
    AddTables(node, r.jumpTables);
    TablesKeep(n1, r.jumpTables);
    LabelsOf(node);
    FilledIs(n0, r, blocks);
    NodeFilled(ctx, known, n0, n1, node, r, blocks);
    DiscoverOpens(ctx, g0, node.base, node.View());
    assert g0.Keys + {node.base} == g0.Keys;
    graph.ViewOf(g0, node.base, node.View());
  }

  lemma NodeFilled(ctx: Context, known: set<Addr>, n0: Node, n1: Node, node: FunctionNode, r: DiscoveryResult, blocks: seq<Block>)
    requires n1 == n0.WithBlocks(blocks, r.instructions, r.labels) && node.base == n0.base
    requires SameExtent(n1, node.View()) && n1.labels <= node.labels && n1.unresolved == node.unresolved
    requires var sc := ctx.scanner.ScopeFor(n0.base, known, ctx.manual);
      sc.Valid() && IsDiscovery(sc, r) && (|r.blocks| < Scanner.MAX_BLOCKS ==> sc.IsLeastClosed(Found(r)))
    requires blocks == Kept(n0, r) && blocks != [] && !Blocked(ctx, n0)
    ensures Built(ctx, known, n0, node.View(), r)
    ensures node.View().unresolved == n0.unresolved && node.View().state == Lifecycle.Discovered && node.View().base == n0.base
  {
  }

  // ---------- Where new functions come from ----------

  /** One of its instructions calls `t`. */
  ghost predicate Calls(ctx: Context, n: Node, t: Addr) {
    exists a :: a in n.instructions && DirectCall(ctx.scanner.image, a, t)
  }

  /** Every new function is one that `f` calls. */
  ghost predicate SprungFrom(ctx: Context, g: Graph, g': Graph, f: Addr) {
    forall e | e in g' && e !in g :: IsCallee(ctx, g', f, e)
  }

  ghost predicate IsCallee(ctx: Context, g: Graph, f: Addr, e: Addr)
    requires e in g
  {
    g[e].authority == Authority.Discovered && e != ctx.thunks && f in g && Calls(ctx, g[f], e)
  }

  /** Every new function is one that some function of `tried` calls. */
  ghost predicate Sprung(ctx: Context, g: Graph, g': Graph, tried: set<Addr>) {
    forall e | e in g' && e !in g :: exists f :: f in tried && IsCallee(ctx, g', f, e)
  }

  lemma {:induction false} CallAllAdds(g: Graph, targets: seq<Addr>, thunks: Addr)
    ensures var g' := CallAll(g, targets, thunks);
      && (forall e :: e in g' <==> e in g || (e in targets && e != thunks))
      && (forall e | e in g' && e !in g :: g'[e].authority == Authority.Discovered)
      && (forall e | e in g :: SameExtent(g[e], g'[e]))
  {
    if targets != [] {
      var init, t := targets[..|targets|-1], targets[|targets|-1];
      assert targets == init + [t];
      CallAllAdds(g, init, thunks);
      CallOneAdds(CallAll(g, init, thunks), t, thunks);
      hide CallOne, SameExtent;
      var g1, g' := CallAll(g, init, thunks), CallAll(g, targets, thunks);
      forall e | e in g ensures SameExtent(g[e], g'[e]) { ExtentAgain(g[e], g1[e], g'[e]); }
      forall e | e in g' && e !in g ensures g'[e].authority == Authority.Discovered {
        if e in g1 { ExtentAuthority(g1[e], g'[e]); }
      }
    } else {
      forall e | e in g ensures SameExtent(g[e], g[e]) { ExtentOfItself(g[e]); }
    }
  }

  lemma CallOneAdds(g: Graph, t: Addr, thunks: Addr)
    ensures var g' := CallOne(g, t, thunks);
      && (forall e :: e in g' <==> e in g || (e == t && t != thunks))
      && (forall e | e in g' && e !in g :: g'[e].authority == Authority.Discovered)
      && (forall e | e in g :: SameExtent(g[e], g'[e]))
  {
    forall e | e in g ensures SameExtent(g[e], g[e]) && SameExtent(g[e], g[e].Notified(t)) {
      ExtentOfItself(g[e]);
      NotifiedExtent(g[e], t);
    }
    hide SameExtent, Node.Notified;
  }

  lemma ExtentAgain(n: Node, n': Node, n'': Node)
    requires SameExtent(n, n') && SameExtent(n', n'')
    ensures SameExtent(n, n'')
  {
  }

  lemma ExtentAuthority(n: Node, n': Node)
    requires SameExtent(n, n')
    ensures n'.authority == n.authority && n'.instructions == n.instructions
  {
  }

  lemma {:induction false} JumpAllKeeps(g: Graph, f: Addr, branches: seq<Branch>)
    ensures JumpAll(g, f, branches).Keys == g.Keys
    ensures forall e | e in g :: SameExtent(g[e], JumpAll(g, f, branches)[e])
  {
    if branches != [] {
      var init, b := branches[..|branches|-1], branches[|branches|-1];
      JumpAllKeeps(g, f, init);
      var g1, g' := JumpAll(g, f, init), JumpAll(g, f, branches);
      JumpExtents(g1, f, b.site, b.target, b.isCall, b.isConditional);
      hide AddJump, SameExtent;
      forall e | e in g ensures SameExtent(g[e], g'[e]) { ExtentAgain(g[e], g1[e], g'[e]); }
    } else {
      forall e | e in g ensures SameExtent(g[e], g[e]) { ExtentOfItself(g[e]); }
    }
  }

  lemma CalleesAreCalled(ctx: Context, f: Addr, known: set<Addr>, r: DiscoveryResult, n: Node)
    requires ctx.Valid() && f < LIMIT && Finds(ctx, f, known, r) && n.instructions == r.instructions
    ensures forall t | t in r.externalCalls :: Calls(ctx, n, t)
  {
    ScopeFacts(ctx, f, known);
    var sc := ctx.scanner.ScopeFor(f, known, ctx.manual);
    forall t | t in r.externalCalls ensures Calls(ctx, n, t) {
      var a :| a in Found(r) && sc.CallsOut(a, t);
      assert a in n.instructions && DirectCall(ctx.scanner.image, a, t);
    }
  }

  /** Discovering a function registers functions it calls, and none else. */
  lemma StepSprings(ctx: Context, known: set<Addr>, g: Graph, f: Addr, r: DiscoveryResult)
    requires ctx.Valid() && f < LIMIT && (f in g && ScansCode(g[f]) ==> Finds(ctx, f, known, r))
    ensures SprungFrom(ctx, g, OneStep(g, f, ctx.thunks, r), f)
  {
    OneStepCases(g, f, ctx.thunks);
    if f in g && ScansCode(g[f]) {
      CodeStepSprings(ctx, known, g, f, r);
    }
    hide OneStep, IsCallee, ScansCode;
  }

  lemma CodeStepSprings(ctx: Context, known: set<Addr>, g: Graph, f: Addr, r: DiscoveryResult)
    requires ctx.Valid() && f < LIMIT && f in g && Finds(ctx, f, known, r)
    ensures SprungFrom(ctx, g, CodeStep(g, f, ctx.thunks, r), f)
  {
    hide *;
    CodeStepCases(g, f, ctx.thunks, r);
    var n := Filled(g[f], r);
    var g1 := g[f := n];
    var g2 := CallAll(g1, r.externalCalls, ctx.thunks);
    var g' := JumpAll(g2, f, r.branches);
    FilledInstructions(g[f], r);
    CallAllAdds(g1, r.externalCalls, ctx.thunks);
    JumpAllKeeps(g2, f, r.branches);
    ExtentAuthority(g1[f], g2[f]);
    ExtentAuthority(g2[f], g'[f]);
    CalleesAreCalled(ctx, f, known, r, g'[f]);
    if Kept(g[f], r) != [] {
      forall e | e in g' && e !in g ensures IsCallee(ctx, g', f, e) {
        assert e in r.externalCalls && e != ctx.thunks;
        ExtentAuthority(g2[e], g'[e]);
        CalleeIs(ctx, g', f, e);
      }
    }
    SprungIs(ctx, g, CodeStep(g, f, ctx.thunks, r), f);
  }

  lemma FilledInstructions(n: Node, r: DiscoveryResult)
    ensures Filled(n, r).instructions == r.instructions
  {
    TablesKeep(n.WithBlocks(Kept(n, r), r.instructions, r.labels), r.jumpTables);
    hide WithTables, Kept;
  }

  lemma CalleeIs(ctx: Context, g: Graph, f: Addr, e: Addr)
    requires e in g && g[e].authority == Authority.Discovered && e != ctx.thunks && f in g && Calls(ctx, g[f], e)
    ensures IsCallee(ctx, g, f, e)
  {
  }

  lemma SprungIs(ctx: Context, g: Graph, g': Graph, f: Addr)
    ensures SprungFrom(ctx, g, g', f) <==> forall e | e in g' && e !in g :: IsCallee(ctx, g', f, e)
  {
    hide IsCallee;
  }

  lemma SprungNothing(ctx: Context, g: Graph)
    ensures Sprung(ctx, g, g, {})
  {
  }

  lemma SprungOne(ctx: Context, g0: Graph, g: Graph, g': Graph, tried: set<Addr>, f: Addr)
    requires Sprung(ctx, g0, g, tried) && SprungFrom(ctx, g, g', f) && Grows(g, g', {f}) && f in g0 && f !in tried
    ensures Sprung(ctx, g0, g', tried + {f})
  {
    hide IsCallee;
    forall e | e in g' && e !in g0 ensures exists x :: x in tried + {f} && IsCallee(ctx, g', x, e) {
      if e in g {
        var x :| x in tried && IsCallee(ctx, g, x, e);
        CalleeStays(ctx, g, g', x, e, f);
        assert x in tried + {f};
      } else {
        assert IsCallee(ctx, g', f, e) && f in tried + {f};
      }
    }
  }

  lemma CalleeStays(ctx: Context, g: Graph, g': Graph, x: Addr, e: Addr, f: Addr)
    requires e in g && IsCallee(ctx, g, x, e) && Grows(g, g', {f}) && x != f && e != f
    ensures e in g' && IsCallee(ctx, g', x, e)
  {
    assert SameExtent(g[x], g'[x]) && SameExtent(g[e], g'[e]);
  }

  // ---------- What a discovery was told ----------

  /** The function holds the result of a discovery that was told the entry points `known`, and its branches, resolved or
      parked. */
  ghost predicate DiscoveredWith(ctx: Context, n: Node, known: set<Addr>) {
    exists r :: Scanned(ctx, n, known, r) && BranchEdges(r.branches) <= Total(n)
  }

  lemma StillDiscovered(ctx: Context, n: Node, n': Node, known: set<Addr>)
    requires DiscoveredWith(ctx, n, known) && SameExtent(n, n') && Total(n') == Total(n)
    ensures DiscoveredWith(ctx, n', known)
  {
    hide Total, BranchEdges, IsDiscovery, SealedBlocks, Cap, Scope.Valid, Scope.IsLeastClosed;
    var r :| Scanned(ctx, n, known, r) && BranchEdges(r.branches) <= Total(n);
    assert Scanned(ctx, n', known, r);
  }

  /** Every other function keeps its branches through a step. */
  lemma StepKeepsTotals(g: Graph, f: Addr, thunks: Addr, r: DiscoveryResult, e: Addr)
    requires e in g && e != f
    ensures e in OneStep(g, f, thunks, r) && Total(OneStep(g, f, thunks, r)[e]) == Total(g[e])
  {
    hide Total, CodeStep;
    if f in g { StepAddsBranches(g, f, thunks, r, e); }
    EmptyUnion(Total(g[e]));
  }

  lemma EmptyUnion(m: multiset<Edge>)
    ensures m + multiset{} == m
  {
  }

  /** A function that a step takes past registration was discovered with the entry points the step was told. */
  lemma StepDiscovers(ctx: Context, known: set<Addr>, g: Graph, f: Addr, r: DiscoveryResult)
    requires f in g && ScansCode(g[f]) && Finds(ctx, f, known, r) && g[f].base == f
    requires g[f].authority == Config ==> g[f].size == ctx.Declared(f)
    ensures f in CodeStep(g, f, ctx.thunks, r)
    ensures var n := CodeStep(g, f, ctx.thunks, r)[f]; n.state != Registered ==> DiscoveredWith(ctx, n, known)
  {
    hide *;
    CodeStepCases(g, f, ctx.thunks, r);
    StepAddsBranches(g, f, ctx.thunks, r, f);
    RegisteredState(g[f]);
    if Kept(g[f], r) != [] {
      var g1 := g[f := Filled(g[f], r)];
      var g2 := CallAll(g1, r.externalCalls, ctx.thunks);
      CallAllAdds(g1, r.externalCalls, ctx.thunks);
      JumpAllKeeps(g2, f, r.branches);
      var n := JumpAll(g2, f, r.branches)[f];
      ExtentAgain(g1[f], g2[f], n);
      FilledIsScanned(ctx, known, g[f], n, r);
      MoreIsEnough(BranchEdges(r.branches), Total(g[f]));
      IsDiscoveredWith(ctx, n, known, r);
    }
  }

  lemma RegisteredState(n: Node)
    ensures ScansCode(n) <==> n.state == Registered && !n.IsImport()
  {
  }

  lemma MoreIsEnough(a: multiset<Edge>, b: multiset<Edge>)
    ensures a <= b + a
  {
  }

  lemma IsDiscoveredWith(ctx: Context, n: Node, known: set<Addr>, r: DiscoveryResult)
    requires Scanned(ctx, n, known, r) && BranchEdges(r.branches) <= Total(n)
    ensures DiscoveredWith(ctx, n, known)
  {
    hide Scanned, Total, BranchEdges;
  }

  lemma FilledIsScanned(ctx: Context, known: set<Addr>, n0: Node, n: Node, r: DiscoveryResult)
    requires Finds(ctx, n0.base, known, r) && (n0.authority == Config ==> n0.size == ctx.Declared(n0.base))
    requires SameExtent(Filled(n0, r), n)
    ensures Scanned(ctx, n, known, r)
  {
    TablesKeep(n0.WithBlocks(Kept(n0, r), r.instructions, r.labels), r.jumpTables);
    hide WithTables, Cap, IsDiscovery, Scope.Valid, Scope.IsLeastClosed, Grow;
  }

  /** What a round did with the entry points `known`: the functions of `tried` that it took past registration were
      discovered with them, and the others kept their branches. */
  ghost predicate Told(ctx: Context, g: Graph, g': Graph, tried: set<Addr>, known: set<Addr>) {
    && (forall e | e in tried && e in g' && g'[e].state != Registered && !g'[e].IsImport() :: DiscoveredWith(ctx, g'[e], known))
    && KeepsTotals(g, g', tried)
  }

  ghost predicate KeepsTotals(g: Graph, g': Graph, except: set<Addr>) {
    forall e | e in g && e !in except :: e in g' && Total(g'[e]) == Total(g[e])
  }

  lemma ToldNothing(ctx: Context, g: Graph, known: set<Addr>)
    ensures Told(ctx, g, g, {}, known)
  {
  }

  lemma ToldOne(ctx: Context, g0: Graph, g: Graph, f: Addr, r: DiscoveryResult, tried: set<Addr>, known: set<Addr>)
    requires Told(ctx, g0, g, tried, known) && Walked(ctx, g) && Inv(ctx, g, {}) && f in g && f in g0 && f !in tried
    requires g[f].state == Registered && (ScansCode(g[f]) ==> Finds(ctx, f, known, r))
    requires var g' := OneStep(g, f, ctx.thunks, r); Grows(g, g', {f}) && Outcome(ctx, known, g[f], g'[f])
    ensures Told(ctx, g0, OneStep(g, f, ctx.thunks, r), tried + {f}, known)
  {
    var g' := OneStep(g, f, ctx.thunks, r);
    hide *;
    ToldItself(ctx, g, f, r, known);
    forall e | e in tried && e in g' && g'[e].state != Registered && !g'[e].IsImport()
      ensures DiscoveredWith(ctx, g'[e], known)
    {
      ToldBefore(ctx, g0, g, f, r, tried, known, e);
    }
    ToldTotals(ctx, g0, g, tried, known);
    TotalsKept(g0, g, f, r, ctx.thunks, tried);
    ToldWhen(ctx, g0, g', tried + {f}, known);
  }

  lemma ToldBefore(ctx: Context, g0: Graph, g: Graph, f: Addr, r: DiscoveryResult, tried: set<Addr>, known: set<Addr>, e: Addr)
    requires Told(ctx, g0, g, tried, known) && f !in tried && e in tried
    requires var g' := OneStep(g, f, ctx.thunks, r); Grows(g, g', {f}) && e in g' && g'[e].state != Registered && !g'[e].IsImport()
    ensures DiscoveredWith(ctx, OneStep(g, f, ctx.thunks, r)[e], known)
  {
    var g' := OneStep(g, f, ctx.thunks, r);
    hide OneStep, Grows, Total, DiscoveredWith, SameExtent, KeepsTotals;
    StepBack(g, g', e, f);
    StepKeepsTotals(g, f, ctx.thunks, r, e);
    StillDiscovered(ctx, g[e], g'[e], known);
  }

  lemma ToldTotals(ctx: Context, g0: Graph, g: Graph, tried: set<Addr>, known: set<Addr>)
    requires Told(ctx, g0, g, tried, known)
    ensures KeepsTotals(g0, g, tried)
  {
  }

  lemma TotalsKept(g0: Graph, g: Graph, f: Addr, r: DiscoveryResult, thunks: Addr, tried: set<Addr>)
    requires KeepsTotals(g0, g, tried)
    ensures KeepsTotals(g0, OneStep(g, f, thunks, r), tried + {f})
  {
    hide OneStep, Total;
    forall e | e in g0 && e !in tried + {f} ensures e in OneStep(g, f, thunks, r) && Total(OneStep(g, f, thunks, r)[e]) == Total(g0[e]) {
      StepKeepsTotals(g, f, thunks, r, e);
    }
  }

  lemma ToldWhen(ctx: Context, g0: Graph, g: Graph, tried: set<Addr>, known: set<Addr>)
    requires KeepsTotals(g0, g, tried)
    requires forall e | e in tried && e in g && g[e].state != Registered && !g[e].IsImport() :: DiscoveredWith(ctx, g[e], known)
    ensures Told(ctx, g0, g, tried, known)
  {
    hide KeepsTotals, DiscoveredWith;
  }

  lemma ToldItself(ctx: Context, g: Graph, f: Addr, r: DiscoveryResult, known: set<Addr>)
    requires Walked(ctx, g) && Inv(ctx, g, {}) && f in g
    requires g[f].state == Registered && (ScansCode(g[f]) ==> Finds(ctx, f, known, r))
    requires var g' := OneStep(g, f, ctx.thunks, r); Grows(g, g', {f}) && Outcome(ctx, known, g[f], g'[f])
    ensures var g' := OneStep(g, f, ctx.thunks, r);
      f in g' && (g'[f].state != Registered && !g'[f].IsImport() ==> DiscoveredWith(ctx, g'[f], known))
  {
    hide *;
    var g' := OneStep(g, f, ctx.thunks, r);
    TryFacts(ctx, g, f);
    OneStepCases(g, f, ctx.thunks);
    RegisteredState(g[f]);
    GrowsHas(g, g', f);
    SameAuthority(ctx, known, g[f], g'[f]);
    ImportIs(g[f]);
    ImportIs(g'[f]);
    if ScansCode(g[f]) { StepDiscovers(ctx, known, g, f, r); }
  }

  lemma GrowsHas(g: Graph, g': Graph, f: Addr)
    requires Grows(g, g', {f}) && f in g
    ensures f in g'
  {
  }

  lemma ImportIs(n: Node)
    ensures n.IsImport() <==> n.authority == Import
  {
  }

  lemma StepBack(g: Graph, g': Graph, e: Addr, f: Addr)
    requires Grows(g, g', {f}) && e != f && e in g' && g'[e].state != Registered
    ensures e in g && SameExtent(g[e], g'[e]) && g[e].state == g'[e].state && g[e].authority == g'[e].authority
  {
  }

  lemma TryFacts(ctx: Context, g: Graph, f: Addr)
    requires Walked(ctx, g) && Inv(ctx, g, {}) && f in g && g[f].state == Registered
    ensures g[f].base == f && (g[f].authority == Config ==> g[f].size == ctx.Declared(f))
  {
  }

  /** The function was discovered with entry points that include `low` and are among `high`. */
  ghost predicate ToldBetween(ctx: Context, n: Node, low: set<Addr>, high: set<Addr>) {
    exists known: set<Addr> :: low <= known <= high && DiscoveredWith(ctx, n, known)
  }

  /** Every function discovered since `g0` was told all entry points of `g0`, and none but entry points of `g`. */
  ghost predicate AllTold(ctx: Context, g0: Graph, g: Graph) {
    && g0.Keys <= g.Keys
    && forall e | e in g && g[e].state != Registered && !g[e].IsImport() && (e in g0 ==> g0[e].state == Registered) ::
         ToldBetween(ctx, g[e], g0.Keys, g.Keys)
  }

  lemma ToldStays(ctx: Context, n: Node, n': Node, low: set<Addr>, high: set<Addr>, high': set<Addr>)
    requires ToldBetween(ctx, n, low, high) && high <= high' && SameExtent(n, n') && Total(n') == Total(n)
    ensures ToldBetween(ctx, n', low, high')
  {
    hide Total, DiscoveredWith, SameExtent;
    var known: set<Addr> :| low <= known <= high && DiscoveredWith(ctx, n, known);
    StillDiscovered(ctx, n, n', known);
  }

  lemma AllToldNothing(ctx: Context, g: Graph)
    ensures AllTold(ctx, g, g)
  {
  }

  /** A round that is told all entry points keeps that. */
  lemma RoundTells(ctx: Context, g0: Graph, g: Graph, g': Graph)
    requires AllTold(ctx, g0, g) && Told(ctx, g, g', RegisteredOf(g), g.Keys) && Advanced(ctx, g, g', RegisteredOf(g))
    ensures AllTold(ctx, g0, g')
  {
    hide Total, ToldBetween, DiscoveredWith, AllBlocked;
    forall e | e in g' && g'[e].state != Registered && !g'[e].IsImport() && (e in g0 ==> g0[e].state == Registered)
      ensures ToldBetween(ctx, g'[e], g0.Keys, g'.Keys)
    {
      assert e in g;
      if e in RegisteredOf(g) {
        NowTold(ctx, g'[e], g0.Keys, g.Keys, g'.Keys);
      } else {
        assert SameExtent(g[e], g'[e]);
        ToldStays(ctx, g[e], g'[e], g0.Keys, g.Keys, g'.Keys);
      }
    }
  }

  lemma NowTold(ctx: Context, n: Node, low: set<Addr>, known: set<Addr>, high: set<Addr>)
    requires DiscoveredWith(ctx, n, known) && low <= known <= high
    ensures ToldBetween(ctx, n, low, high)
  {
    hide DiscoveredWith;
  }

  lemma AdditionTells(ctx: Context, g0: Graph, g: Graph, base: Addr, size: nat, authority: Authority)
    requires AllTold(ctx, g0, g) && base !in g && authority != Config
    ensures AllTold(ctx, g0, AddFunction(g, base, size, authority))
  {
    hide AddFunction, Total, ToldBetween, SameExtent, AllTold, Node.IsImport;
    AddedExtents(g, base, size, authority);
    AddedTotals(g, base, size, authority);
    StillTold(ctx, g0, g, AddFunction(g, base, size, authority), base);
  }

  lemma AddedTotals(g: Graph, base: Addr, size: nat, authority: Authority)
    requires base !in g
    ensures forall e | e in g :: e in AddFunction(g, base, size, authority) && Total(AddFunction(g, base, size, authority)[e]) == Total(g[e])
    ensures AddFunction(g, base, size, authority)[base].state == Registered
  {
    hide Total;
    forall e | e in g ensures Total(g[e].Notified(base)) == Total(g[e]) { NotifiedTotal(g[e], base); }
  }

  lemma StillTold(ctx: Context, g0: Graph, g: Graph, g': Graph, base: Addr)
    requires AllTold(ctx, g0, g) && base !in g && g'.Keys == g.Keys + {base} && g'[base].state == Registered
    requires forall e | e in g :: SameExtent(g[e], g'[e]) && Total(g'[e]) == Total(g[e])
    ensures AllTold(ctx, g0, g')
  {
    hide Total, ToldBetween;
    forall e | e in g' && g'[e].state != Registered && !g'[e].IsImport() && (e in g0 ==> g0[e].state == Registered)
      ensures ToldBetween(ctx, g'[e], g0.Keys, g'.Keys)
    {
      assert e in g && SameExtent(g[e], g'[e]);
      ToldStays(ctx, g[e], g'[e], g0.Keys, g.Keys, g'.Keys);
    }
  }

  /** Of the entry points of others, in plain terms: a direct jump to one is an edge or a parked branch, and one is among
      the function's instructions only where another of them runs into it. */
  ghost predicate KeepsApart(image: Image, n: Node, others: set<Addr>) {
    && (forall a | a in n.instructions && a in image && image[a].target != 0 && image[a].target in others &&
          image[a].target != n.base && (image[a].flow == ConditionalBranch || image[a].flow == UnconditionalBranch) ::
          || Edge(a, image[a].target) in n.calls || Edge(a, image[a].target) in n.tailCalls
          || (exists j :: j in n.unresolved && j.site == a && j.target == image[a].target))
    && (forall t | t in n.instructions && t in others && t != n.base ::
          exists a :: a in n.instructions && RunsInto(image, a, t))
  }

  ghost predicate RunsInto(image: Image, a: Addr, t: Addr) {
    a in image && a + image[a].length == t && image[a].flow != Flow.Return && image[a].flow != UnconditionalBranch &&
    image[a].flow != IndirectBranch
  }

  lemma ToldKeepsApart(ctx: Context, n: Node, low: set<Addr>, high: set<Addr>)
    requires ToldBetween(ctx, n, low, high)
    ensures KeepsApart(ctx.scanner.image, n, low)
  {
    hide DiscoveredWith, KeepsApart;
    var known: set<Addr> :| low <= known <= high && DiscoveredWith(ctx, n, known);
    DiscoveredKeepsApart(ctx, n, known);
    FewerApart(ctx.scanner.image, n, known, low);
  }

  lemma FewerApart(image: Image, n: Node, others: set<Addr>, fewer: set<Addr>)
    requires KeepsApart(image, n, others) && fewer <= others
    ensures KeepsApart(image, n, fewer)
  {
    hide RunsInto;
  }

  lemma DiscoveredKeepsApart(ctx: Context, n: Node, known: set<Addr>)
    requires DiscoveredWith(ctx, n, known)
    ensures KeepsApart(ctx.scanner.image, n, known)
  {
    hide Total, BranchEdges, IsDiscovery, SealedBlocks, Cap, Scope.Valid, Scope.IsLeastClosed;
    var r :| Scanned(ctx, n, known, r) && BranchEdges(r.branches) <= Total(n);
    var sc := ctx.scanner.ScopeFor(n.base, known, ctx.manual);
    InPlainTerms(sc, r);
    hide ListsAre, InstructionsAre;
    PlainKeepsApart(ctx.scanner.image, n, known, sc.funcEnd, sc.tableOf, r);
  }

  lemma PlainKeepsApart(image: Image, n: Node, known: set<Addr>, end: Addr, table: Addr -> Option<JumpTable>, r: DiscoveryResult)
    requires BranchesAre(image, n.base, end, known, r) && AllComeAfter(image, n.base, known, table, r)
    requires n.instructions == r.instructions && BranchEdges(r.branches) <= Total(n)
    ensures KeepsApart(image, n, known)
  {
    hide Total, BranchEdges;
    forall a | a in n.instructions && a in image && image[a].target != 0 && image[a].target in known &&
      image[a].target != n.base && (image[a].flow == ConditionalBranch || image[a].flow == UnconditionalBranch)
      ensures Edge(a, image[a].target) in Total(n)
    {
      var b := UnresolvedBranch(a, image[a].target, false, image[a].flow == ConditionalBranch);
      assert IsBranch(image, n.base, end, known, r, b);
      BranchIsEdge(r.branches, b);
    }
    forall x | x in Total(n) ensures x in n.calls || x in n.tailCalls || exists j :: j in n.unresolved && j.site == x.site && j.target == x.target {
      TotalMember(n, x);
    }
    hide BranchesAre;
    forall t | t in n.instructions && t in known && t != n.base ensures exists a :: a in n.instructions && RunsInto(image, a, t) {
      var a :| a in r.instructions && ComesAfter(image, known, table, a, t);
      assert RunsInto(image, a, t);
    }
  }

  lemma {:induction false} BranchIsEdge(branches: seq<Branch>, b: Branch)
    requires b in branches
    ensures Edge(b.site, b.target) in BranchEdges(branches)
  {
    if b != branches[|branches|-1] {
      assert branches == branches[..|branches|-1] + [branches[|branches|-1]];
      BranchIsEdge(branches[..|branches|-1], b);
    }
  }

  lemma TotalMember(n: Node, x: Edge)
    requires x in Total(n)
    ensures x in n.calls || x in n.tailCalls || exists j :: j in n.unresolved && j.site == x.site && j.target == x.target
  {
    if x in ParkedEdges(n.unresolved) { ParkedMember(n.unresolved, x); }
    hide ParkedEdges;
  }

  lemma {:induction false} ParkedMember(jumps: seq<Nodes.UnresolvedJump>, x: Edge)
    requires x in ParkedEdges(jumps)
    ensures exists j :: j in jumps && j.site == x.site && j.target == x.target
  {
    var last := jumps[|jumps|-1];
    if Edge(last.site, last.target) != x {
      ParkedMember(jumps[..|jumps|-1], x);
    }
  }

  // ---------- Rounds ----------

  /** Every function of `s` that is still registered is blocked. */
  ghost predicate AllBlocked(ctx: Context, g: Graph, s: set<Addr>) {
    forall e | e in s && e in g && g[e].state == Registered :: Blocked(ctx, g[e])
  }

  /** Between rounds: functions may have been added and functions of `tried` discovered. */
  ghost predicate Advanced(ctx: Context, g: Graph, g': Graph, tried: set<Addr>) {
    && Grows(g, g', tried) && AllBlocked(ctx, g', tried)
    && (forall e | e in g && e in g' :: g'[e].authority == g[e].authority && g'[e].base == g[e].base)
  }

  ghost function RegisteredOf(g: Graph): set<Addr> { set e | e in g && g[e].state == Registered }

  lemma BlockedSame(ctx: Context, n: Node, n': Node)
    requires SameExtent(n, n') && n.state == Registered && Blocked(ctx, n)
    ensures Blocked(ctx, n')
  {
  }

  lemma OutcomeBlocked(ctx: Context, known: set<Addr>, n: Node, n': Node)
    requires Outcome(ctx, known, n, n') && n'.state == Registered && n.state == Registered
    ensures Blocked(ctx, n')
  {
  }

  lemma AdvanceOne(ctx: Context, known: set<Addr>, g0: Graph, g: Graph, g': Graph, tried: set<Addr>, f: Addr)
    requires Advanced(ctx, g0, g, tried) && Grows(g, g', {f}) && f in g0 && f !in tried && tried <= g0.Keys
    requires f in g && g[f].state == Registered && Outcome(ctx, known, g[f], g'[f])
    ensures Advanced(ctx, g0, g', tried + {f})
  {
    hide Outcome, Blocked;
    var more := tried + {f};
    AdvanceGrows(g0, g, g', tried, f);
    SameAuthority(ctx, known, g[f], g'[f]);
    forall e | e in g0 && e in g' ensures g'[e].authority == g0[e].authority && g'[e].base == g0[e].base {
      assert e in g && (e != f ==> SameExtent(g[e], g'[e]));
    }
    forall e | e in more && e in g' && g'[e].state == Registered ensures Blocked(ctx, g'[e]) {
      if e == f {
        OutcomeBlocked(ctx, known, g[f], g'[f]);
      } else {
        assert e in g && SameExtent(g[e], g'[e]);
        BlockedSame(ctx, g[e], g'[e]);
      }
    }
  }

  lemma AdvanceGrows(g0: Graph, g: Graph, g': Graph, tried: set<Addr>, f: Addr)
    requires Grows(g0, g, tried) && Grows(g, g', {f}) && f in g0
    ensures Grows(g0, g', tried + {f})
  {
    forall e | e in g' && e !in g0 ensures g'[e].state == Registered && g'[e].authority != Config && g'[e].blocks == [] {
      if e in g { assert SameExtent(g[e], g'[e]); }
    }
  }

  lemma SameAuthority(ctx: Context, known: set<Addr>, n: Node, n': Node)
    requires Outcome(ctx, known, n, n')
    ensures n'.authority == n.authority && n'.base == n.base
  {
  }

  method PendingFunctions(graph: FunctionGraph) returns (pending: set<Addr>)
    requires graph.Valid()
    ensures pending == RegisteredOf(graph.View())
  {
    graph.ViewNodes();
    pending := set b | b in graph.functions && graph.functions[b].state == Registered;
  }

  /** Tries every function that is registered when the round starts, and says how many. */
  method DiscoverPendingFunctions(ctx: Context, graph: FunctionGraph, known: set<Addr>) returns (count: nat)
    requires ctx.Valid() && graph.Valid() && Inv(ctx, graph.View(), {}) && Walked(ctx, graph.View())
    modifies graph, graph.functions.Values
    ensures graph.Valid() && Inv(ctx, graph.View(), {}) && Walked(ctx, graph.View())
    ensures fresh(graph.functions.Values - old(graph.functions.Values))
    ensures Advanced(ctx, old(graph.View()), graph.View(), RegisteredOf(old(graph.View())))
    ensures Sprung(ctx, old(graph.View()), graph.View(), RegisteredOf(old(graph.View())))
    ensures Told(ctx, old(graph.View()), graph.View(), RegisteredOf(old(graph.View())), known)
    ensures count == |RegisteredOf(old(graph.View()))|
    ensures count == 0 ==> graph.View() == old(graph.View()) && RegisteredOf(graph.View()) == {}
  {
    hide *;
    ghost var g0 := graph.View();
    var pending := PendingFunctions(graph);
    count := |pending|;
    assert count == 0 ==> pending == {};
    RegisteredFacts(g0);
    NothingTried(ctx, g0);
    SprungNothing(ctx, g0);
    ToldNothing(ctx, g0, known);
    var rest := pending;
    ghost var tried: set<Addr> := {};
    while rest != {}
      invariant rest <= pending && tried == pending - rest
      invariant graph.Valid() && Inv(ctx, graph.View(), {}) && Walked(ctx, graph.View())
      invariant fresh(graph.functions.Values - old(graph.functions.Values))
      invariant Advanced(ctx, g0, graph.View(), tried) && Sprung(ctx, g0, graph.View(), tried)
      invariant Told(ctx, g0, graph.View(), tried, known)
      invariant count == 0 ==> graph.View() == g0
      decreases rest
    {
      var f :| f in rest;
      ghost var g := graph.View();
      Untried(ctx, g0, g, tried, f);
      ghost var r := DiscoverOne(ctx, graph, known, f);
      WalkedOne(ctx, known, g, graph.View(), f);
      AdvanceOne(ctx, known, g0, g, graph.View(), tried, f);
      EntryIsWord(ctx, g, f);
      StepSprings(ctx, known, g, f, r);
      SprungOne(ctx, g0, g, graph.View(), tried, f);
      ToldOne(ctx, g0, g, f, r, tried, known);
      rest, tried := rest - {f}, tried + {f};
    }
    assert tried == pending;
  }

  lemma EntryIsWord(ctx: Context, g: Graph, f: Addr)
    requires Inv(ctx, g, {}) && f in g
    ensures f < LIMIT
  {
  }

  lemma RegisteredFacts(g: Graph)
    ensures forall e | e in RegisteredOf(g) :: e in g && g[e].state == Registered
  {
  }

  lemma NothingTried(ctx: Context, g: Graph)
    ensures Advanced(ctx, g, g, {})
  {
  }

  lemma Untried(ctx: Context, g0: Graph, g: Graph, tried: set<Addr>, f: Addr)
    requires Advanced(ctx, g0, g, tried) && f in g0 && g0[f].state == Registered && f !in tried
    ensures f in g && g[f].state == Registered
  {
  }

  lemma WasTried(ctx: Context, g: Graph, g': Graph, e: Addr)
    requires Advanced(ctx, g, g', RegisteredOf(g)) && e in g && e in g' && g'[e].state == Registered
    ensures e in RegisteredOf(g)
  {
  }

  /** The registered functions are the unstartable ones. */
  ghost predicate OnlyUnstartable(ctx: Context, g: Graph) {
    forall e | e in g :: g[e].state == Registered <==> Unstartable(ctx, g[e])
  }

  lemma SettledExactly(ctx: Context, g: Graph)
    requires Walked(ctx, g) && AllBlocked(ctx, g, g.Keys)
    ensures OnlyUnstartable(ctx, g)
  {
    forall e | e in g ensures g[e].state == Registered <==> Unstartable(ctx, g[e]) {
      UnstartableOrNot(ctx, g, e);
    }
    hide Unstartable;
  }

  /** A registered function is unstartable exactly when it is blocked, and any other is not unstartable. */
  lemma UnstartableOrNot(ctx: Context, g: Graph, e: Addr)
    requires Walked(ctx, g) && e in g
    ensures g[e].state == Registered ==> (Blocked(ctx, g[e]) <==> Unstartable(ctx, g[e]))
    ensures g[e].state != Registered ==> !Unstartable(ctx, g[e])
  {
    if g[e].state == Registered { BlockedIsUnstartable(ctx, g[e]); }
    hide Blocked, Scanned, Context.CanStart;
  }

  /** Came into the graph in one round over `g`, in which nothing tries it: a function tried in that round calls it. */
  ghost predicate Late(ctx: Context, g: Graph, g': Graph, e: Addr) {
    e !in g && e != ctx.thunks && exists f :: f in RegisteredOf(g) && f in g' && Calls(ctx, g'[f], e)
  }

  /** After one round a function is registered exactly when it is unstartable or came in late. */
  lemma RoundLeaves(ctx: Context, g: Graph, g': Graph, e: Addr)
    requires Walked(ctx, g) && Walked(ctx, g') && CallsClosed(ctx, g', {})
    requires Advanced(ctx, g, g', RegisteredOf(g)) && Sprung(ctx, g, g', RegisteredOf(g))
    ensures Late(ctx, g, g', e) ==> e in g' && g'[e].state == Registered && g'[e].authority == Authority.Discovered
    ensures e in g' ==> (g'[e].state == Registered <==> Unstartable(ctx, g'[e]) || Late(ctx, g, g', e))
  {
    if Late(ctx, g, g', e) { LateIsIn(ctx, g, g', e); }
    if e in g' {
      UnstartableOrNot(ctx, g', e);
      if e in g {
        if g'[e].state == Registered { WasTried(ctx, g, g', e); }
      } else {
        SprungIsLate(ctx, g, g', e);
      }
    }
    hide Walked, CallsClosed, Sprung, Late, Unstartable, Blocked, Calls;
  }

  lemma LateIsIn(ctx: Context, g: Graph, g': Graph, e: Addr)
    requires CallsClosed(ctx, g', {}) && Grows(g, g', RegisteredOf(g)) && Sprung(ctx, g, g', RegisteredOf(g)) && Late(ctx, g, g', e)
    ensures e in g' && g'[e].state == Registered && g'[e].authority == Authority.Discovered
  {
    var f :| f in RegisteredOf(g) && f in g' && Calls(ctx, g'[f], e);
    assert CallsLand(ctx, g'.Keys, g'[f]);
    var x :| x in RegisteredOf(g) && IsCallee(ctx, g', x, e);
  }

  lemma SprungIsLate(ctx: Context, g: Graph, g': Graph, e: Addr)
    requires Grows(g, g', RegisteredOf(g)) && Sprung(ctx, g, g', RegisteredOf(g)) && e in g' && e !in g
    ensures Late(ctx, g, g', e) && g'[e].state == Registered
  {
    var x :| x in RegisteredOf(g) && IsCallee(ctx, g', x, e);
    hide Calls;
  }

  /** A round that adds no function leaves only blocked functions registered. */
  lemma RoundSettles(ctx: Context, g: Graph, g': Graph)
    requires Advanced(ctx, g, g', RegisteredOf(g))
    ensures |g| <= |g'| && g.Keys <= g'.Keys
    ensures |g'| == |g| ==> AllBlocked(ctx, g', g'.Keys)
  {
    assert g.Keys <= g'.Keys;
    KeysGrow(g, g');
    if |g'| == |g| {
      forall e | e in g' && g'[e].state == Registered ensures Blocked(ctx, g'[e]) {
        assert e in g;
        WasTried(ctx, g, g', e);
      }
    }
  }

  lemma KeysGrow(g: Graph, g': Graph)
    requires g.Keys <= g'.Keys
    ensures |g| <= |g'| && (|g'| == |g| ==> g'.Keys == g.Keys)
  {
    SubsetSize(g.Keys, g'.Keys);
    assert |g.Keys| == |g| && |g'.Keys| == |g'|;
  }

  lemma SubsetSize(a: set<Addr>, b: set<Addr>)
    requires a <= b
    ensures |a| <= |b| && (|a| == |b| ==> a == b)
  {
    assert b == a + (b - a);
    assert |b| == |a| + |b - a|;
    if |a| == |b| { assert b - a == {}; }
  }

  lemma NoneRegistered(ctx: Context, g: Graph)
    requires RegisteredOf(g) == {}
    ensures AllBlocked(ctx, g, g.Keys)
  {
    assert forall e | e in g && g[e].state == Registered :: e in RegisteredOf(g);
  }
}
