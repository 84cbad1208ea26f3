/** From discovery to C: what the phases leave in the graph is what the emitter's theorem asks for. */
module Pipeline {
  import opened Code
  import opened Sorting
  import opened Nodes
  import opened Blocks
  import opened Scanner
  import opened Emitter
  import opened Simulation
  import opened Divergence
  import opened GraphSpec
  import opened PhaseHelpers
  import DiscoverPhase
  import RegisterPhase
  import opened MergePhase
  import opened FunctionGraphs
  import GapFill
  import CodeScan
  import Validate

  /** Merging leaves every function with the result of its discovery, its blocks merged if it is sealed. */
  lemma MergeKeepsWalked(ctx: Context, g: Graph)
    requires Walked(ctx, g)
    ensures Walked(ctx, Merged(g))
  {
    hide Merged, IsScanned;
    MergedKeys(g);
    var g' := Merged(g);
    forall e | e in g' ensures StaysWalked(ctx, g'[e]) {
      MergedNode(g, e);
      MergedWalked(ctx, g[e], g'[e]);
    }
  }

  /** What `Walked` asks of one node. */
  ghost predicate StaysWalked(ctx: Context, n: Node) {
    && (n.state != Registered && !n.IsImport() ==> IsScanned(ctx, n))
    && (n.state == Registered ==> n.blocks == [] && (n.authority == Config ==> n.size == ctx.Declared(n.base)))
  }

  lemma MergedWalked(ctx: Context, n: Node, n': Node)
    requires StaysWalked(ctx, n) && (SameExtent(n, n') || WasSealed(n, n'))
    ensures StaysWalked(ctx, n')
  {
    hide IsScanned;
    if n'.state != Registered && !n'.IsImport() { MergedScanned(ctx, n, n'); }
  }

  lemma MergedKeys(g: Graph)
    ensures Merged(g).Keys == g.Keys
  {
    var g1 := ResolvePass(g);
    PassKeepsExtents(g);
    SecondKeepsExtents(g1, g1.Keys);
    hide ResolvePass, SecondSome, SameExtent;
  }

  /** A merged node has its extent, or was sealed. */
  lemma MergedNode(g: Graph, e: Addr)
    requires e in g && e in Merged(g)
    ensures SameExtent(g[e], Merged(g)[e]) || WasSealed(g[e], Merged(g)[e])
  {
    var g1 := ResolvePass(g);
    var g2 := SecondSome(g1, g1.Keys);
    BeforeSealing(g, e);
    hide ResolvePass, SecondSome, SealedBlocks;
  }

  ghost predicate WasSealed(n: Node, n': Node) {
    && n.state == Lifecycle.Discovered && n'.state == Lifecycle.Sealed && n'.blocks == SealedBlocks(n.blocks)
    && n'.base == n.base && n'.authority == n.authority && n'.instructions == n.instructions
  }

  lemma MergedScanned(ctx: Context, n: Node, n': Node)
    requires n.state != Registered ==> n.IsImport() || IsScanned(ctx, n)
    requires n'.state != Registered && !n'.IsImport() && (SameExtent(n, n') || WasSealed(n, n'))
    ensures IsScanned(ctx, n')
  {
    SealedBlocksCorrect(n.blocks);
    hide IsDiscovery, SealedBlocks, Cap, Scope.Valid, Scope.IsLeastClosed, Context.CanStart, Separated, Covered, Grown;
    var known, r :| Scanned(ctx, n, known, r);
    assert Scanned(ctx, n', known, r);
  }

  /** The instructions of a function: those of its discovery, below the end its configuration declares if it does. */
  ghost function Kernel(ctx: Context, n: Node): set<Addr> {
    if IsCut(ctx, n) then Below(Elements(n.instructions), CutEnd(ctx, n)) else Elements(n.instructions)
  }

  predicate IsCut(ctx: Context, n: Node) { n.authority == Config && ctx.Declared(n.base) != 0 }

  function CutEnd(ctx: Context, n: Node): Addr { Wrap(n.base + ctx.Declared(n.base)) }

  /** A function past registration whose instructions do not overlap. */
  ghost predicate IsPlain(ctx: Context, g: Graph, e: Addr) {
    && e in g && g[e].base == e && g[e].state != Registered && !g[e].IsImport()
    && AllDecode(ctx.scanner.image, Elements(g[e].instructions))
    && NoOverlap(ctx.scanner.image, Elements(g[e].instructions))
  }

  /** Such a function that was sealed. */
  ghost predicate Emittable(ctx: Context, g: Graph, e: Addr) { IsPlain(ctx, g, e) && g[e].state == Lifecycle.Sealed }

  /** What an unsealed function holds, and what a sealed one was merged from, is what the emitter's theorems ask for. */
  lemma PlainIsTranslatable(ctx: Context, g: Graph, e: Addr) returns (known: set<Addr>, r: DiscoveryResult)
    requires Walked(ctx, g) && IsPlain(ctx, g, e)
    ensures Finds(ctx, e, known, r) && Found(r) == Elements(g[e].instructions)
    ensures g[e].blocks == if g[e].state == Lifecycle.Sealed then SealedBlocks(Extent(ctx, g[e], r)) else Extent(ctx, g[e], r)
    ensures Translatable(ctx.scanner.image, e, Extent(ctx, g[e], r), Kernel(ctx, g[e]))
  {
    hide IsDiscovery, SealedBlocks, Cap, NoOverlap, AllDecode, Scope.Valid, Scope.IsLeastClosed, Wrap, Context.CanStart;
    assert IsScanned(ctx, g[e]);
    known, r :| Scanned(ctx, g[e], known, r);
    assert Found(r) == Elements(g[e].instructions);
    if Extent(ctx, g[e], r) == [] { SealedEmpty(); }
    FoundIsTranslatable(ctx, g[e], known, r);
  }

  lemma EmittableIsTranslatable(ctx: Context, g: Graph, e: Addr) returns (known: set<Addr>, r: DiscoveryResult)
    requires Walked(ctx, g) && Emittable(ctx, g, e)
    ensures Finds(ctx, e, known, r) && Found(r) == Elements(g[e].instructions)
    ensures g[e].blocks == SealedBlocks(Extent(ctx, g[e], r))
    ensures Translatable(ctx.scanner.image, e, Extent(ctx, g[e], r), Kernel(ctx, g[e]))
  {
    known, r := PlainIsTranslatable(ctx, g, e);
    hide *;
  }

  lemma FoundIsTranslatable(ctx: Context, n: Node, known: set<Addr>, r: DiscoveryResult)
    requires Finds(ctx, n.base, known, r) && Found(r) == Elements(n.instructions) && Extent(ctx, n, r) != []
    requires AllDecode(ctx.scanner.image, Found(r)) && NoOverlap(ctx.scanner.image, Found(r))
    ensures Translatable(ctx.scanner.image, n.base, Extent(ctx, n, r), Kernel(ctx, n))
  {
    var sc := ctx.scanner.ScopeFor(n.base, known, ctx.manual);
    var blocks, d := Extent(ctx, n, r), Kernel(ctx, n);
    hide *;
    ScopeIs(ctx, n.base, known, r);
    DiscoveryFacts(sc, r);
    KernelIs(ctx, n, r);
    if r.blocks == [] { CutNothing(ctx, n, r); }
    if IsCut(ctx, n) { CapSpans(sc.image, r.blocks, Found(r), CutEnd(ctx, n)); }
    FirstIsInside(sc.image, blocks, d);
    BelowKeeps(Found(r), d, sc.entry, if IsCut(ctx, n) then CutEnd(ctx, n) else 0);
    LessOverlap(sc.image, Found(r), d);
    IsTranslatable(sc.image, sc.entry, blocks, d);
  }

  /** The cut blocks of a function are made of its instructions below the cut; the cut may fall inside one of them. */
  lemma CapSpans(image: Image, blocks: seq<Block>, d: set<Addr>, end: Addr)
    requires AllDecode(image, d) && Spans(image, blocks, d)
    ensures AllDecode(image, Below(d, end)) && Spans(image, Cap(blocks, end), Below(d, end))
  {
    hide AllDecode, Cap, Cut, Covered, InInsn;
    BelowDecodes(image, d, end);
    forall c | c in Cap(blocks, end) ensures c.size > 0 && c.base in Below(d, end) {
      CapStart(blocks, end, c);
    }
    forall x: Addr | Covered(Cap(blocks, end), x) ensures InInsn(image, Below(d, end), x) {
      CapCovers(blocks, end, x);
      InsnBelow(image, d, end, x);
    }
    forall a | a in Below(d, end) ensures Covered(Cap(blocks, end), a) {
      CapCovers(blocks, end, a);
    }
  }

  lemma BelowDecodes(image: Image, d: set<Addr>, end: Addr)
    requires AllDecode(image, d)
    ensures AllDecode(image, Below(d, end))
  {
  }

  lemma CapStart(blocks: seq<Block>, end: Addr, c: Block)
    requires c in Cap(blocks, end)
    ensures c.base < end && exists b :: b in blocks && b.base == c.base && (b.size > 0 ==> c.size > 0)
  {
    CapElements(blocks, end);
    hide Cap;
    var b :| b in blocks && b.base < end && c == Cut(b, end);
    assert b.base == c.base;
  }

  lemma InsnBelow(image: Image, d: set<Addr>, end: Addr, x: Addr)
    requires AllDecode(image, d) && AllDecode(image, Below(d, end)) && InInsn(image, d, x) && x < end
    ensures InInsn(image, Below(d, end), x)
  {
    var a :| a in d && a <= x < EndOf(image, a);
    assert a in Below(d, end);
  }

  lemma ScopeIs(ctx: Context, f: Addr, known: set<Addr>, r: DiscoveryResult)
    requires Finds(ctx, f, known, r)
    ensures var sc := ctx.scanner.ScopeFor(f, known, ctx.manual);
      sc.entry == f && sc.image == ctx.scanner.image && sc.Valid() && IsDiscovery(sc, r)
  {
    hide IsDiscovery, Scope.Valid, Scope.IsLeastClosed;
  }

  lemma KernelIs(ctx: Context, n: Node, r: DiscoveryResult)
    requires Found(r) == Elements(n.instructions)
    ensures Kernel(ctx, n) == if IsCut(ctx, n) then Below(Found(r), CutEnd(ctx, n)) else Found(r)
    ensures Extent(ctx, n, r) == if IsCut(ctx, n) then Cap(r.blocks, CutEnd(ctx, n)) else r.blocks
  {
    hide Below, Cap, Found, Elements;
  }

  /** A nonempty part below an end still holds the least address. */
  lemma BelowKeeps(d: set<Addr>, d': set<Addr>, entry: Addr, end: Addr)
    requires entry in d && (forall a | a in d :: entry <= a) && d' != {} && (d' == d || d' == Below(d, end))
    ensures d' <= d && entry in d' && forall a | a in d' :: entry <= a
  {
    var a :| a in d';
  }

  lemma IsTranslatable(image: Image, entry: Addr, blocks: seq<Block>, d: set<Addr>)
    requires ValidImage(image) && AllDecode(image, d) && NoOverlap(image, d) && Spans(image, blocks, d)
    requires entry in d && forall a | a in d :: entry <= a
    ensures Translatable(image, entry, blocks, d)
  {
  }

  lemma DiscoveryFacts(sc: Scope, r: DiscoveryResult)
    requires sc.Valid() && IsDiscovery(sc, r)
    ensures ValidImage(sc.image) && AllDecode(sc.image, Found(r)) && Spans(sc.image, r.blocks, Found(r))
    ensures r.blocks != [] ==> sc.entry in Found(r)
    ensures forall a | a in Found(r) :: sc.entry <= a
  {
    assert AllDecode(sc.image, Found(r));
    TiledSpans(sc.image, r.blocks, Found(r));
    hide TiledBy, Recorded, Scope.Closed, ValidImage, Spans;
  }

  lemma CutNothing(ctx: Context, n: Node, r: DiscoveryResult)
    requires r.blocks == []
    ensures Extent(ctx, n, r) == []
  {
  }

  lemma LessOverlap(image: Image, d: set<Addr>, d': set<Addr>)
    requires AllDecode(image, d) && NoOverlap(image, d) && d' <= d
    ensures AllDecode(image, d') && NoOverlap(image, d')
  {
  }

  lemma FirstIsInside(image: Image, blocks: seq<Block>, d: set<Addr>)
    requires AllDecode(image, d) && Spans(image, blocks, d) && blocks != []
    ensures d != {}
  {
    assert blocks[0] in blocks && blocks[0].base in d;
  }

  lemma SealedEmpty()
    ensures SealedBlocks([]) == []
  {
  }

  /** Every sealed function of a graph the phases built runs like its guest code, cut at its declared end: a guest run of
      `n` instructions that does not go astray is matched by a run of its emitted body, whatever its labels. */
  lemma SealedRunsLikeGuest<S>(ctx: Context, g: Graph, e: Addr, named: set<Addr>, labels: set<Addr>, m: Machine<S>, s: S,
                               n: nat)
    returns (steps: nat)
    requires Walked(ctx, g) && Emittable(ctx, g, e)
    ensures steps <= 2 * n && AllDecode(ctx.scanner.image, Kernel(ctx, g[e]))
    ensures var guest := GuestRun(ctx.scanner.image, Kernel(ctx, g[e]), m, At(e, s, []), n);
      var host := HostRun(Body(ctx.scanner.image, named, labels, g[e].blocks), m, Running(0, s, []), steps);
      && (guest.Exited? ==> host == Done(guest.exit, guest.s, guest.trace))
      && (guest.At? ==> n <= steps && host.Running? && host.s == guest.s && host.trace == guest.trace)
  {
    var known, r := EmittableIsTranslatable(ctx, g, e);
    hide *;
    TranslatableMeans(ctx.scanner.image, e, Extent(ctx, g[e], r), Kernel(ctx, g[e]));
    steps := BodySimulatesGuest(ctx.scanner.image, e, Extent(ctx, g[e], r), Kernel(ctx, g[e]), named, labels, m, s, n);
  }

  /** And exactly when that function stays on course, under any machine its guest never goes astray and its body never
      does anything the guest does not. */
  lemma SealedFollowsExactly<S(!new)>(ctx: Context, g: Graph, e: Addr, named: set<Addr>, labels: set<Addr>, s0: S)
    requires Walked(ctx, g) && Emittable(ctx, g, e)
    ensures var image, d := ctx.scanner.image, Kernel(ctx, g[e]);
      && AllDecode(image, d)
      && (StaysOnCourse(image, d, e) <==>
          forall m: Machine<S>, s: S, n: nat :: GuestRun(image, d, m, At(e, s, []), n) != Astray)
      && (StaysOnCourse(image, d, e) <==>
          forall m: Machine<S>, s: S :: BodyFollows(image, e, d, Body(image, named, labels, g[e].blocks), m, s))
  {
    var known, r := EmittableIsTranslatable(ctx, g, e);
    hide *;
    TranslatableMeans(ctx.scanner.image, e, Extent(ctx, g[e], r), Kernel(ctx, g[e]));
    NeverAstrayExactly(ctx.scanner.image, Kernel(ctx, g[e]), e, s0);
    BodyFollowsExactly(ctx.scanner.image, e, Extent(ctx, g[e], r), Kernel(ctx, g[e]), named, labels, s0);
  }

  /** Then the body finishes exactly when the guest leaves, with the same exit, state and trace. */
  lemma SealedExitsAgree<S(!new)>(ctx: Context, g: Graph, e: Addr, named: set<Addr>, labels: set<Addr>, m: Machine<S>,
                                  s: S, x: Exit, s': S, trace: seq<Event>)
    requires Walked(ctx, g) && Emittable(ctx, g, e) && StaysOnCourse(ctx.scanner.image, Kernel(ctx, g[e]), e)
    ensures AllDecode(ctx.scanner.image, Kernel(ctx, g[e]))
    ensures
      (exists n :: GuestRun(ctx.scanner.image, Kernel(ctx, g[e]), m, At(e, s, []), n) == Exited(x, s', trace)) <==>
      (exists k :: HostRun(Body(ctx.scanner.image, named, labels, g[e].blocks), m, Running(0, s, []), k) == Done(x, s', trace))
  {
    var known, r := EmittableIsTranslatable(ctx, g, e);
    hide *;
    ExitsAgree(ctx.scanner.image, e, Extent(ctx, g[e], r), Kernel(ctx, g[e]), named, labels, m, s, x, s', trace);
  }

  /** A cut takes soundness from the instructions that fall through to its end or past it, and from no other. */
  lemma SoundBelow(image: Image, d: set<Addr>, end: Addr, a: Addr)
    ensures Sound(image, Below(d, end), a) <==> Sound(image, d, a) && (MayFall(image, a) ==> EndOf(image, a) < end)
  {
  }

  function FallingImage(): Image { map[16 := Insn(2, Next, 0, true), 18 := Insn(1, Flow.Return, 0, true)] }

  /** A declared end that cuts off a return: the guest falls past the end, and the body falls off its own. */
  lemma CutFallsOff(m: Machine<int>, s: int)
    ensures var image, blocks, d := FallingImage(), Cap([Block(16, 3)], 18), Below({16, 18}, 18);
      && Translatable(image, 16, [Block(16, 3)], {16, 18}) && StaysOnCourse(image, {16, 18}, 16)
      && Translatable(image, 16, blocks, d) && !StaysOnCourse(image, d, 16)
      && GuestRun(image, d, m, At(16, s, []), 1) == Astray
      && HostRun(Body(image, {}, {}, SealedBlocks(blocks)), m, Running(0, s, []), 2) == Done(FellOff, m.exec(16, s), [Ran(16)])
  {
    FallingWhole();
    FallingCut();
    FallingBody();
    FallingRuns(m, s);
    hide *;
  }

  lemma FallingWhole()
    ensures Translatable(FallingImage(), 16, [Block(16, 3)], {16, 18})
    ensures StaysOnCourse(FallingImage(), {16, 18}, 16)
  {
    hide *;
    FallingInsns();
    FallingSpans();
    FallingSound();
    IsTranslatable(FallingImage(), 16, [Block(16, 3)], {16, 18});
    AllSound(FallingImage(), {16, 18}, 16);
  }

  lemma FallingSound()
    ensures var image, d := FallingImage(), {16, 18};
      AllDecode(image, d) && NoOverlap(image, d) && forall a | a in d :: Sound(image, d, a)
  {
    FallingInsns();
    hide FallingImage, MayFall;
  }

  lemma FallingInsns()
    ensures var image := FallingImage();
      && ValidImage(image) && Decodes(image, 16) && Decodes(image, 18) && EndOf(image, 16) == 18 && EndOf(image, 18) == 19
      && image[16].lowered && image[18].lowered && MayFall(image, 16) && !MayFall(image, 18)
  {
  }

  lemma FallingSpans()
    ensures AllDecode(FallingImage(), {16, 18}) && Spans(FallingImage(), [Block(16, 3)], {16, 18})
  {
    var image, blocks := FallingImage(), [Block(16, 3)];
    FallingInsns();
    hide FallingImage;
    assert forall b | b in blocks :: b == blocks[0];
    assert blocks[0].Contains(16) && blocks[0].Contains(18);
    forall x: Addr | Covered(blocks, x) ensures InInsn(image, {16, 18}, x) {
      assert if x < 18 then 16 <= x < EndOf(image, 16) else 18 <= x < EndOf(image, 18);
    }
  }

  lemma AllSound(image: Image, d: set<Addr>, entry: Addr)
    requires forall a | a in d :: Sound(image, d, a)
    ensures StaysOnCourse(image, d, entry)
  {
    hide Sound, Reaches;
    forall a | Reaches(image, d, entry, a) ensures Sound(image, d, a) {
      ReachedIsInside(image, d, entry, a);
    }
  }

  lemma FallingCut()
    ensures Cap([Block(16, 3)], 18) == [Block(16, 2)] && Below({16, 18}, 18) == {16}
    ensures Translatable(FallingImage(), 16, [Block(16, 2)], {16}) && !StaysOnCourse(FallingImage(), {16}, 16)
  {
    var image, blocks := FallingImage(), [Block(16, 2)];
    assert Cap([Block(16, 3)], 18) == blocks by { assert [Block(16, 3)][1..] == []; }
    FallingInsns();
    hide FallingImage, Cap;
    assert forall b | b in blocks :: b == blocks[0];
    assert blocks[0].Contains(16);
    forall x: Addr | Covered(blocks, x) ensures InInsn(image, {16}, x) {
      assert 16 <= x < EndOf(image, 16);
    }
    ReachesEntry(image, {16}, 16);
    assert !Sound(image, {16}, 16);
    hide Reaches, Covered, InInsn;
  }

  lemma FallingBody()
    ensures Body(FallingImage(), {}, {}, SealedBlocks([Block(16, 2)])) == [Plain(16), Leave]
  {
    var image, blocks := FallingImage(), [Block(16, 2)];
    FallingCut();
    EmittedIsValid(image, 16, blocks, {16}, {}, {});
    var f := Emitted(image, blocks, {}, {});
    OnlyOrder(f.addrs, [16]);
  }

  lemma FallingRuns(m: Machine<int>, s: int)
    ensures AllDecode(FallingImage(), {16}) && GuestRun(FallingImage(), {16}, m, At(16, s, []), 1) == Astray
    ensures HostRun([Plain(16), Leave], m, Running(0, s, []), 2) == Done(FellOff, m.exec(16, s), [Ran(16)])
  {
    var body := [Plain(16), Leave];
    assert HostRun(body, m, Running(0, s, []), 1) == Running(1, m.exec(16, s), [Ran(16)]);
  }

  /** After the phases a discovered function ends sealed exactly when it has blocks and every parked target is answered:
      a site has one target, the one its instruction names. */
  lemma SealedByTarget(ctx: Context, g: Graph, e: Addr)
    requires SitesAgree(ctx.scanner.image, g) && e in g && g[e].state == Lifecycle.Discovered && !g[e].IsImport()
    ensures e in Merged(g)
    ensures Merged(g)[e].state == Sealed <==> g[e].blocks != [] && forall j | j in g[e].unresolved :: Answered(g, e, j.target)
  {
    MergeSealsByTarget(g, e);
  }

  /** The graph the register phase leaves is what the other phases start from. */
  lemma RegisteredIsReady(ctx: Context, g: Graph)
    requires RegisterPhase.Starting(g) && ctx.sizes == RegisterPhase.SizesOf(g)
    ensures Inv(ctx, g, {}) && Walked(ctx, g)
  {
  }

  ghost predicate AllByTarget(filled: Graph) {
    forall e | e in filled && filled[e].state == Lifecycle.Discovered && !filled[e].IsImport() ::
      e in Merged(filled) &&
      (Merged(filled)[e].state == Sealed <==>
       filled[e].blocks != [] && forall j | j in filled[e].unresolved :: Answered(filled, e, j.target))
  }

  lemma ByTarget(ctx: Context, filled: Graph)
    requires SitesAgree(ctx.scanner.image, filled)
    ensures AllByTarget(filled)
  {
    forall e | e in filled && filled[e].state == Lifecycle.Discovered && !filled[e].IsImport()
      ensures e in Merged(filled) &&
        (Merged(filled)[e].state == Sealed <==>
         filled[e].blocks != [] && forall j | j in filled[e].unresolved :: Answered(filled, e, j.target))
    {
      SealedByTarget(ctx, filled, e);
    }
  }

  /** What becomes of every function, given the graph `gapped` that the last round of discoveries starts from, the graph
      `found` that it leaves and the graph `filled` after the clean-up: it stays registered if it is unstartable or only that
      round's discoveries call it, and is sealed if it is an import, or not left registered and all its parked targets
      are answered. */
  ghost predicate Ends(ctx: Context, gapped: Graph, found: Graph, filled: Graph, g: Graph) {
    && g.Keys == filled.Keys
    && (forall e | Late(ctx, gapped, found, e) :: e in g)
    && forall e | e in g ::
         && (g[e].state == Registered <==> Unstartable(ctx, g[e]) || Late(ctx, gapped, found, e))
         && (g[e].state == Lifecycle.Sealed <==>
             g[e].IsImport() || (!Unstartable(ctx, g[e]) && !Late(ctx, gapped, found, e) && AllAnswered(filled, e)))
  }

  ghost predicate AllAnswered(g: Graph, e: Addr)
    requires e in g
  {
    forall j | j in g[e].unresolved :: Answered(g, e, j.target)
  }

  lemma EndsSo(ctx: Context, gapped: Graph, found: Graph, filled: Graph)
    requires GapFill.LeavesRegistered(ctx, gapped, found, filled) && GapFill.OnlyImportsSealed(filled)
    requires Walked(ctx, filled) && SitesAgree(ctx.scanner.image, filled)
    ensures Ends(ctx, gapped, found, filled, Merged(filled))
  {
    MergedKeys(filled);
    var g := Merged(filled);
    hide Merged, Unstartable, Late, AllAnswered, Walked, SitesAgree;
    forall e | e in g
      ensures g[e].state == Registered <==> Unstartable(ctx, g[e]) || Late(ctx, gapped, found, e)
      ensures g[e].state == Lifecycle.Sealed <==>
        g[e].IsImport() || (!Unstartable(ctx, g[e]) && !Late(ctx, gapped, found, e) && AllAnswered(filled, e))
    {
      EndsOne(ctx, filled, e);
      ImportStarts(ctx, filled[e]);
    }
  }

  lemma ImportStarts(ctx: Context, n: Node)
    ensures n.IsImport() ==> !Unstartable(ctx, n) && n.authority != Authority.Discovered
  {
  }

  /** Merging leaves registered functions registered, seals imports, and of the others those whose targets are answered. */
  lemma EndsOne(ctx: Context, filled: Graph, e: Addr)
    requires Walked(ctx, filled) && SitesAgree(ctx.scanner.image, filled) && GapFill.OnlyImportsSealed(filled)
    requires e in filled
    ensures e in Merged(filled)
    ensures var n, n' := filled[e], Merged(filled)[e];
      && (Unstartable(ctx, n') <==> Unstartable(ctx, n)) && n'.authority == n.authority
      && (n'.state == Registered <==> n.state == Registered)
      && (n.state != Registered ==> (n'.state == Lifecycle.Sealed <==> n.IsImport() || AllAnswered(filled, e)))
  {
    MergedKeys(filled);
    MergedNode(filled, e);
    UnstartableSame(ctx, filled[e], Merged(filled)[e]);
    if filled[e].state == Lifecycle.Discovered {
      MergeSealsExactly(filled, e);
      if !filled[e].IsImport() {
        SealedByTarget(ctx, filled, e);
        assert IsScanned(ctx, filled[e]) && filled[e].blocks != [];
      }
    }
    hide Merged, Unstartable, SitesAgree, Walked, IsScanned, SiteAnswered, Answered;
  }

  lemma UnstartableSame(ctx: Context, n: Node, n': Node)
    requires SameExtent(n, n') || WasSealed(n, n')
    ensures (Unstartable(ctx, n') <==> Unstartable(ctx, n)) && n'.authority == n.authority
  {
    hide SealedBlocks, Context.CanStart;
  }

  // ---------- The gate ----------

  lemma {:induction false} MeetsInsns(image: Image, d: set<Addr>, lo: Addr, hi: Addr)
    requires ValidImage(image) && AllDecode(image, d) && NoOverlap(image, d) && (lo < hi ==> lo in d)
    requires forall x | lo <= x < hi :: InInsn(image, d, x)
    ensures forall a: Addr :: Validate.Meets(image, lo, hi, a) <==> a in d && lo <= a < hi
    decreases hi - lo
  {
    if lo < hi {
      var next := EndOf(image, lo);
      if next < hi { NextInsn(image, d, lo); }
      MeetsInsns(image, d, next, hi);
      forall a: Addr ensures Validate.Meets(image, lo, hi, a) <==> a in d && lo <= a < hi {
        assert Validate.Meets(image, lo, hi, a) <==> a == lo || Validate.Meets(image, next, hi, a);
      }
    }
  }

  lemma NextInsn(image: Image, d: set<Addr>, lo: Addr)
    requires AllDecode(image, d) && NoOverlap(image, d) && lo in d && InInsn(image, d, EndOf(image, lo)) && ValidImage(image)
    ensures EndOf(image, lo) in d
  {
    var next := EndOf(image, lo);
    var a :| a in d && a <= next < EndOf(image, a);
    assert a == next;
  }

  lemma SealedSpans(image: Image, blocks: seq<Block>, d: set<Addr>)
    requires AllDecode(image, d) && Spans(image, blocks, d)
    ensures Spans(image, SealedBlocks(blocks), d)
  {
    SealedBlocksCorrect(blocks);
    hide SealedBlocks, Separated, Covered, InInsn;
    forall m | m in SealedBlocks(blocks) ensures m.size > 0 && m.base in d {
      assert Grown(m, blocks);
      var b :| b in blocks && b.base == m.base && b.size <= m.size;
    }
  }

  /** The gate walks exactly the instructions of a function. */
  lemma PlainMeets(ctx: Context, g: Graph, e: Addr, b: Block)
    requires Walked(ctx, g) && IsPlain(ctx, g, e) && e in g && b in g[e].blocks
    ensures ValidImage(ctx.scanner.image)
    ensures forall a: Addr :: Validate.Meets(ctx.scanner.image, b.base, b.End(), a) <==> a in Kernel(ctx, g[e]) && b.Contains(a)
  {
    hide *;
    var known, r := PlainIsTranslatable(ctx, g, e);
    var image, d := ctx.scanner.image, Kernel(ctx, g[e]);
    TranslatableSpans(image, e, Extent(ctx, g[e], r), d);
    if g[e].state == Lifecycle.Sealed { SealedSpans(image, Extent(ctx, g[e], r), d); }
    SpansAt(image, g[e].blocks, d, b);
    MeetsInsns(image, d, b.base, b.End());
    forall a: Addr ensures b.base <= a < b.End() <==> b.Contains(a) { ContainsIs(b, a); }
  }

  lemma ContainsIs(b: Block, a: Addr)
    ensures b.Contains(a) <==> b.base <= a < b.End()
  {
  }

  lemma TranslatableSpans(image: Image, entry: Addr, blocks: seq<Block>, d: set<Addr>)
    requires Translatable(image, entry, blocks, d)
    ensures ValidImage(image) && AllDecode(image, d) && NoOverlap(image, d) && Spans(image, blocks, d)
  {
    hide Spans;
  }

  lemma SpansAt(image: Image, blocks: seq<Block>, d: set<Addr>, b: Block)
    requires AllDecode(image, d) && Spans(image, blocks, d) && b in blocks
    ensures b.base in d && forall x: Addr | b.base <= x < b.End() :: InInsn(image, d, x)
  {
    hide InInsn;
    forall x: Addr | b.base <= x < b.End() ensures InInsn(image, d, x) {
      assert b.Contains(x);
    }
  }

  lemma PlainCovers(ctx: Context, g: Graph, e: Addr, a: Addr)
    requires Walked(ctx, g) && IsPlain(ctx, g, e) && e in g && a in Kernel(ctx, g[e])
    ensures exists b :: b in g[e].blocks && b.Contains(a)
  {
    hide *;
    var known, r := PlainIsTranslatable(ctx, g, e);
    var image, d := ctx.scanner.image, Kernel(ctx, g[e]);
    TranslatableSpans(image, e, Extent(ctx, g[e], r), d);
    if g[e].state == Lifecycle.Sealed { SealedSpans(image, Extent(ctx, g[e], r), d); }
    SpansCover(image, g[e].blocks, d, a);
  }

  lemma SpansCover(image: Image, blocks: seq<Block>, d: set<Addr>, a: Addr)
    requires AllDecode(image, d) && Spans(image, blocks, d) && a in d
    ensures exists b :: b in blocks && b.Contains(a)
  {
  }

  /** Every direct call and unconditional jump among a function's instructions lands. */
  ghost predicate AllLand(ctx: Context, g: Graph, e: Addr)
    requires e in g
  {
    forall a | a in Kernel(ctx, g[e]) && Validate.IsChecked(ctx.scanner.image, a) :: Validate.Lands(g, e, ctx.scanner.image[a].target)
  }

  lemma FunctionGate(ctx: Context, g: Graph, e: Addr)
    requires ValidImage(ctx.scanner.image) && Walked(ctx, g) && IsPlain(ctx, g, e)
    ensures Validate.FunctionClean(ctx.scanner.image, g, e) <==> AllLand(ctx, g, e)
  {
    var image := ctx.scanner.image;
    assert !g[e].IsImport();
    forall b | b in g[e].blocks
      ensures forall a: Addr :: Validate.Meets(image, b.base, b.End(), a) <==> a in Kernel(ctx, g[e]) && b.Contains(a)
    {
      PlainMeets(ctx, g, e, b);
    }
    forall a | a in Kernel(ctx, g[e]) ensures exists b :: b in g[e].blocks && b.Contains(a) {
      PlainCovers(ctx, g, e, a);
    }
    hide Kernel, Walked, IsPlain, Validate.Meets, Validate.Lands, Validate.IsChecked, ValidImage, Block.Contains;
    if Validate.FunctionClean(image, g, e) {
      forall a | a in Kernel(ctx, g[e]) && Validate.IsChecked(image, a) ensures Validate.Lands(g, e, image[a].target) {
        var b :| b in g[e].blocks && b.Contains(a);
        assert Validate.BlockClean(image, g, e, b.base, b.End());
        assert Validate.Meets(image, b.base, b.End(), a);
      }
    }
  }

  /** The gate passes a graph of such functions exactly when every direct call and unconditional jump in them lands. What
      is left registered has no instructions, so it is never looked at, and calls to it land. */
  lemma GateExactly(ctx: Context, g: Graph)
    requires ValidImage(ctx.scanner.image) && Walked(ctx, g)
    requires forall e | e in g && !g[e].IsImport() && g[e].state != Registered :: IsPlain(ctx, g, e)
    ensures Validate.Clean(ctx.scanner.image, g) <==>
      forall e | e in g && !g[e].IsImport() && g[e].state != Registered :: AllLand(ctx, g, e)
  {
    hide AllLand, Validate.FunctionClean, IsPlain, IsScanned;
    Validate.CleanIs(ctx.scanner.image, g);
    forall e | e in g
      ensures Validate.FunctionClean(ctx.scanner.image, g, e) <==>
        g[e].IsImport() || g[e].state == Registered || AllLand(ctx, g, e)
    {
      if g[e].IsImport() || g[e].state == Registered {
        NothingToCheck(ctx, g, e);
      } else {
        FunctionGate(ctx, g, e);
      }
    }
    hide Validate.Clean;
  }

  lemma NothingToCheck(ctx: Context, g: Graph, e: Addr)
    requires ValidImage(ctx.scanner.image) && Walked(ctx, g) && e in g && (g[e].IsImport() || g[e].state == Registered)
    ensures Validate.FunctionClean(ctx.scanner.image, g, e)
  {
    hide IsScanned, Validate.BlockClean;
  }

  /** Every direct call of the result goes to an entry point, to the thunk table, or to a gap function that was dropped. */
  ghost predicate CallsSettle(ctx: Context, found: Graph, g: Graph) {
    forall e, t | e in g && Calls(ctx, g[e], t) :: t in g || t == ctx.thunks || t in GapFill.Absorbed(found)
  }

  lemma CallsSettled(ctx: Context, found: Graph, filled: Graph)
    requires CallsClosed(ctx, found, {}) && filled == found - GapFill.Absorbed(found)
    ensures CallsSettle(ctx, found, Merged(filled))
  {
    MergedKeys(filled);
    var g := Merged(filled);
    hide Merged, GapFill.Absorbed, DirectCall;
    forall e, t | e in g && Calls(ctx, g[e], t) ensures t in g || t == ctx.thunks || t in GapFill.Absorbed(found) {
      MergedNode(filled, e);
      assert g[e].instructions == found[e].instructions;
      assert CallsLand(ctx, found.Keys, found[e]);
    }
  }

  // ---------- A function that comes too late ----------

  /** A call over the end of its segment, into the middle of the next one, where code starts after padding. */
  function LateImage(): Image {
    map[100 := Insn(5, Flow.Call, 112, true), 105 := Insn(1, Flow.Return, 0, true),
        106 := Insn(6, Next, 0, true), 112 := Insn(1, Flow.Return, 0, true)]
  }

  function LateContext(): Context {
    Context(FunctionScanner(LateImage(), [CodeRegion(100, 113)], (a, r, e, f) => None), map[], 0, map[])
  }

  /** An oracle that sees no exception data. */
  function AllCode(): (set<Addr>, Addr) -> bool { (keys, a) => false }

  /** Gap filling starts a function at each segment. */
  lemma LateGapped()
    ensures LateContext().Valid()
    ensures var gapped := GapFill.Gapped(LateContext(), map[], AllCode());
      100 in gapped && gapped[100] == Fresh(100, 6, Authority.GapFill) && 112 !in gapped
  {
    hide *;
    LateSegments();
    LateRegions();
    LateFirst();
    LateSecond();
    var empty: Graph := map[];
    assert empty.Keys == {};
    GapFill.GappedIs(LateContext(), empty, AllCode());
    OneRegion(LateContext(), empty, AllCode(), {}, CodeRegion(100, 113));
    TwoSegments(empty, AllCode(), CodeRegion(100, 106), CodeRegion(106, 113));
  }

  lemma OneRegion(ctx: Context, g: Graph, looksLikeData: (set<Addr>, Addr) -> bool, known: set<Addr>, region: CodeRegion)
    requires ctx.Valid()
    ensures GapFill.FillRegions(ctx, g, looksLikeData, known, [region]) ==
      GapFill.FillAll(g, looksLikeData, GapFill.Segments(ctx, known, region))
  {
    hide *;
    GapFill.FillRegionsNext(ctx, g, looksLikeData, known, [region], 0);
    GapFill.NoRegions(ctx, g, looksLikeData, known);
    assert [region][..0] == [] && [region][..1] == [region];
  }

  lemma TwoSegments(g: Graph, looksLikeData: (set<Addr>, Addr) -> bool, first: CodeRegion, second: CodeRegion)
    requires first.start < first.end && second.start < second.end
    ensures GapFill.FillAll(g, looksLikeData, [first, second]) ==
      GapFill.FillOne(GapFill.FillOne(g, looksLikeData, first), looksLikeData, second)
  {
    hide *;
    var segments := [first, second];
    GapFill.FillAllNext(g, looksLikeData, segments, 0);
    GapFill.FillAllNext(g, looksLikeData, segments, 1);
    assert segments[..2] == segments;
  }

  lemma LateRegions()
    ensures LateContext().scanner.codeRegions == [CodeRegion(100, 113)]
  {
  }

  lemma LateSegments()
    ensures LateContext().Valid() && LateContext().scanner.image == LateImage()
    ensures GapFill.Segments(LateContext(), {}, CodeRegion(100, 113)) == [CodeRegion(100, 106), CodeRegion(106, 113)]
  {
    LateSplit();
    LateValid();
    hide LateContext, LateImage, GapFill.Split;
  }

  lemma LateValid()
    ensures LateContext().Valid() && LateContext().scanner.image == LateImage()
  {
  }

  lemma LateInsns()
    ensures var image := LateImage();
      && ValidImage(image) && 100 in image && 105 in image && 106 in image && 112 in image
      && image[100].flow == Flow.Call && image[100].length == 5 && image[105].flow == Flow.Return && image[105].length == 1
      && image[106].flow == Next && image[106].length == 6 && image[112].flow == Flow.Return && image[112].length == 1
  {
  }

  lemma LateSplit()
    ensures ValidImage(LateImage())
    ensures GapFill.Split(LateImage(), {}, 100, 100, 113) == [CodeRegion(100, 106), CodeRegion(106, 113)]
  {
    var image := LateImage();
    LateInsns();
    hide *;
    GapFill.SplitStep(image, {}, 100, 100, 113);
    GapFill.SplitStep(image, {}, 100, 105, 113);
    GapFill.SplitStep(image, {}, 106, 106, 113);
    GapFill.SplitStep(image, {}, 106, 112, 113);
    GapFill.SplitEnd(image, {}, 113, 113, 113);
  }

  lemma LateFirst()
    ensures GapFill.FillOne(map[], AllCode(), CodeRegion(100, 106)) == map[100 := Fresh(100, 6, Authority.GapFill)]
  {
    GapFill.GapCases(map[], AllCode(), CodeRegion(100, 106));
    RegisterPhase.AddQuietly(map[], 100, 6, Authority.GapFill);
  }

  lemma LateSecond()
    ensures var g: Graph := map[100 := Fresh(100, 6, Authority.GapFill)];
      var g' := GapFill.FillOne(g, AllCode(), CodeRegion(106, 113));
      100 in g' && g'[100] == g[100] && 112 !in g'
  {
    var g: Graph := map[100 := Fresh(100, 6, Authority.GapFill)];
    GapFill.GapCases(g, AllCode(), CodeRegion(106, 113));
    RegisterPhase.AddQuietly(g, 106, 7, Authority.GapFill);
    hide AddFunction, GapFill.FillOne;
  }

  /** So the function it calls enters the graph in the round itself, and stays registered though its entry is code. */
  lemma LateCallee(found: Graph, g: Graph)
    requires var ctx, gapped := LateContext(), GapFill.Gapped(LateContext(), map[], AllCode());
      && Advanced(ctx, gapped, found, RegisteredOf(gapped)) && Walked(ctx, found)
      && GapFill.LeavesRegistered(ctx, gapped, found, g)
    ensures LateContext().CanStart(112) && 112 in g && g[112].state == Registered && g[112].authority == Authority.Discovered
  {
    hide *;
    LateGapped();
    LateStarts();
    var gapped := GapFill.Gapped(LateContext(), map[], AllCode());
    LateCalls(gapped, found);
    LateIs(LateContext(), gapped, found, g);
  }

  lemma LateStarts()
    ensures LateContext().CanStart(100) && LateContext().CanStart(112)
    ensures DirectCall(LateContext().scanner.image, 100, 112)
  {
  }

  lemma LateCalls(gapped: Graph, found: Graph)
    requires Advanced(LateContext(), gapped, found, RegisteredOf(gapped)) && Walked(LateContext(), found)
    requires 100 in gapped && gapped[100] == Fresh(100, 6, Authority.GapFill) && 112 !in gapped
    ensures Late(LateContext(), gapped, found, 112)
  {
    var ctx := LateContext();
    LateStarts();
    hide LateContext, Context.CanStart, IsDiscovery, SealedBlocks, Scope.Valid, Scope.IsLeastClosed, DirectCall;
    assert 100 in RegisteredOf(gapped) && 100 in found && found[100].authority == Authority.GapFill;
    assert found[100].state != Registered;
    assert IsScanned(ctx, found[100]);
    var known, r :| Scanned(ctx, found[100], known, r);
    if r.blocks == [] { SealedEmpty(); }
    EntryFound(ctx, found[100], known, r);
    assert 100 in found[100].instructions;
    assert Calls(ctx, found[100], 112);
    LateThunks();
  }

  lemma EntryFound(ctx: Context, n: Node, known: set<Addr>, r: DiscoveryResult)
    requires Scanned(ctx, n, known, r) && r.blocks != []
    ensures n.base in n.instructions
  {
    var sc := ctx.scanner.ScopeFor(n.base, known, ctx.manual);
    assert sc.entry in Found(r);
    hide Scope.Valid, Scope.IsLeastClosed, SealedBlocks, Extent, IsDiscovery;
  }

  lemma LateThunks()
    ensures LateContext().thunks == 0
  {
  }

  lemma LateIs(ctx: Context, gapped: Graph, found: Graph, g: Graph)
    requires GapFill.LeavesRegistered(ctx, gapped, found, g) && Late(ctx, gapped, found, 112) && ctx.CanStart(112)
    ensures 112 in g && g[112].state == Registered && g[112].authority == Authority.Discovered
  {
    hide Late, Context.CanStart;
  }

  /** Filling the gaps of that image and merging leaves the function registered, so its code is never emitted, and the
      gate passes: the call to it lands at an entry point. */
  method LeaveLate() returns (graph: FunctionGraph, passes: bool)
    ensures graph.Valid() && 112 in graph.View() && graph.View()[112].state == Registered
    ensures LateContext().CanStart(112) && graph.View()[112].authority == Authority.Discovered
    ensures passes
  {
    hide *;
    graph := new FunctionGraph();
    LateGapped();
    EmptyIsReady(LateContext());
    ghost var found := GapFill.Run(LateContext(), graph, AllCode());
    ghost var filled := graph.View();
    LateCallee(found, filled);
    EndsOne(LateContext(), filled, 112);
    ghost var rounds := MergePhase.Run(graph);
    LateValid();
    LateValidImage();
    passes := Validate.Run(LateImage(), graph, 0);
    LateIsClean(graph.View());
  }

  lemma EmptyIsReady(ctx: Context)
    ensures Inv(ctx, map[], {}) && Walked(ctx, map[])
  {
  }

  lemma LateValidImage()
    ensures ValidImage(LateImage())
    ensures forall a | Validate.IsChecked(LateImage(), a) :: LateImage()[a].target == 112
  {
  }

  lemma LateIsClean(g: Graph)
    requires ValidImage(LateImage()) && 112 in g
    requires forall a | Validate.IsChecked(LateImage(), a) :: LateImage()[a].target == 112
    ensures Validate.Clean(LateImage(), g)
  {
    hide LateImage, Validate.Meets, Validate.IsChecked;
    forall e, lo: Addr, hi: Addr | e in g ensures Validate.BlockClean(LateImage(), g, e, lo, hi) {
      assert Validate.Lands(g, e, 112);
    }
    hide Validate.BlockClean;
  }

  // ---------- The whole analysis ----------

  /** Discovery, gap filling and merging in a row: discovery ends closed and, unless it meets its cap, with only unstartable
      functions registered; gap filling keeps what was there; it is known which functions end registered and which sealed;
      and every function past registration ends up with the result of a discovery from its entry, with its blocks merged
      if it was sealed. */
  method Analyse(ctx: Context, graph: FunctionGraph, vtableSlots: seq<Addr>, looksLikeData: (set<Addr>, Addr) -> bool)
    returns (settled: bool, ghost discovered: Graph, ghost found: Graph, ghost filled: Graph)
    requires ctx.Valid() && graph.Valid() && Inv(ctx, graph.View(), {}) && Walked(ctx, graph.View())
    requires forall s | s in vtableSlots :: s < LIMIT
    modifies graph, graph.functions.Values
    ensures CallsClosed(ctx, discovered, {}) && NoStale(discovered) && (settled ==> OnlyUnstartable(ctx, discovered))
    ensures GapFill.KeepsSolid(discovered, filled) && NoStale(filled) && AllByTarget(filled)
    ensures graph.Valid() && graph.View() == Merged(filled) && Walked(ctx, graph.View())
    ensures Ends(ctx, GapFill.Gapped(ctx, discovered, looksLikeData), found, filled, graph.View())
    ensures CallsSettle(ctx, found, graph.View())
    ensures AllTold(ctx, old(graph.View()), discovered) && DiscoverPhase.AllApart(ctx, old(graph.View()), discovered)
    ensures GapFill.RoundApart(ctx, GapFill.Gapped(ctx, discovered, looksLikeData), filled)
  {
    hide *;
    settled := DiscoverPhase.Run(ctx, graph, vtableSlots);
    discovered := graph.View();
    found := GapFill.Run(ctx, graph, looksLikeData);
    filled := graph.View();
    EndsSo(ctx, GapFill.Gapped(ctx, discovered, looksLikeData), found, filled);
    CallsSettled(ctx, found, filled);
    MergeKeepsWalked(ctx, filled);
    ByTarget(ctx, filled);
    ghost var rounds := MergePhase.Run(graph);
  }

  /** What the analysis is given: the decoded image and its executable sections, the scan's settings, the exception
      handlers, detected and hand-written jump tables, the kernel thunk table, the configured functions, the vtable slots
      and the test for exception data. */
  datatype Program = Program(
    image: Image, sections: seq<CodeScan.Section>, minNullRun: nat, threshold: nat, handlers: set<Addr>,
    detect: (Addr, CodeRegion, Addr, Addr) -> Option<JumpTable>, manual: map<Addr, JumpTable>, thunks: Addr,
    config: RegisterPhase.Config, vtableSlots: seq<Addr>, looksLikeData: (set<Addr>, Addr) -> bool)
  {
    ghost predicate Valid() {
      && ValidImage(image) && config.Valid()
      && (forall s | s in sections :: s.End() < LIMIT)
      && (forall s | s in vtableSlots :: s < LIMIT)
      && (forall a | a in manual :: forall t | t in manual[a].targets :: t < LIMIT)
      && forall a, r, e, f | detect(a, r, e, f).Some? :: forall t | t in detect(a, r, e, f).value.targets :: t < LIMIT
    }

    function CodeRegions(): seq<CodeRegion> { CodeScan.CodeRegions(sections, CodeScan.MinNull(minNullRun), handlers) }

    function Scanner(): FunctionScanner { FunctionScanner(image, CodeRegions(), detect) }
  }

  lemma ScannerIsValid(p: Program)
    requires p.Valid()
    ensures p.Scanner().Valid(p.manual) && p.Scanner() == FunctionScanner(p.image, p.CodeRegions(), p.detect)
    ensures p.CodeRegions() == CodeScan.CodeRegions(p.sections, CodeScan.MinNull(p.minNullRun), p.handlers)
    ensures p.config.Valid() && ValidImage(p.image) && forall s | s in p.vtableSlots :: s < LIMIT
  {
    forall r | r in p.CodeRegions() ensures r.end < LIMIT {
      CodeScan.RegionsInSections(p.sections, CodeScan.MinNull(p.minNullRun), p.handlers, r);
    }
    hide Program.CodeRegions, CodeScan.CodeRegions, CodeScan.MinNull, RegisterPhase.Config.Valid, ValidImage;
  }

  /** All the phases in a row, from the configuration and the sections to the gate. */
  method Run(p: Program, errors: nat)
    returns (graph: FunctionGraph, ctx: Context, settled: bool, passes: bool,
             ghost discovered: Graph, ghost found: Graph, ghost filled: Graph)
    requires p.Valid()
    ensures ctx.scanner == p.Scanner() && ctx.manual == p.manual && ctx.thunks == p.thunks && ctx.Valid()
    ensures forall e :: ctx.Declared(e) == p.config.Declared(e)
    ensures CallsClosed(ctx, discovered, {}) && NoStale(discovered) && (settled ==> OnlyUnstartable(ctx, discovered))
    ensures GapFill.KeepsSolid(discovered, filled) && NoStale(filled) && AllByTarget(filled)
    ensures graph.Valid() && graph.View() == Merged(filled) && Walked(ctx, graph.View())
    ensures Ends(ctx, GapFill.Gapped(ctx, discovered, p.looksLikeData), found, filled, graph.View())
    ensures CallsSettle(ctx, found, graph.View())
    ensures DiscoverPhase.AllApart(ctx, p.config.Registered(), discovered)
    ensures GapFill.RoundApart(ctx, GapFill.Gapped(ctx, discovered, p.looksLikeData), filled)
    ensures forall e | e in graph.View() :: graph.View()[e].base == e
    ensures ValidImage(p.image) && (passes <==> errors == 0 && Validate.Clean(p.image, graph.View()))
  {
    hide *;
    ScannerIsValid(p);
    var sizes, code, data;
    graph, sizes := RegisterPhase.Run(p.config);
    code, data := CodeScan.Run(p.sections, p.minNullRun, p.threshold, p.handlers);
    ctx := Context(FunctionScanner(p.image, code, p.detect), p.manual, p.thunks, sizes);
    RegisterPhase.RegisteredStarts(p.config);
    RegisteredIsReady(ctx, graph.View());
    DeclaredAgrees(ctx, p.config);
    settled, discovered, found, filled := Analyse(ctx, graph, p.vtableSlots, p.looksLikeData);
    passes := Validate.Run(p.image, graph, errors);
    BasesAgree(graph);
  }

  lemma BasesAgree(graph: FunctionGraph)
    requires graph.Valid()
    ensures forall e | e in graph.View() :: graph.View()[e].base == e
  {
    hide *;
    graph.ViewNodes();
    forall e | e in graph.View() ensures graph.View()[e].base == e { BaseOfView(graph.functions[e]); }
  }

  lemma DeclaredAgrees(ctx: Context, config: RegisterPhase.Config)
    requires config.Valid() && ctx.sizes == RegisterPhase.SizesOf(config.Registered())
    ensures forall e :: ctx.Declared(e) == config.Declared(e)
    ensures ctx.Valid() <==> ctx.scanner.Valid(ctx.manual)
  {
    RegisterPhase.RegisteredStarts(config);
  }
}
