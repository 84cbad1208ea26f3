/** The gap-fill phase: what no function covers yet becomes functions too, and the ones that turn out to lie inside
    others are dropped again. */
module GapFill {
  import opened Code
  import opened Nodes
  import opened Scanner
  import opened GraphSpec
  import opened FunctionGraphs
  import opened PhaseHelpers
  import opened Sorting

  // ---------- Splitting a region at its terminators ----------

  predicate Decodable(image: Image, a: Addr) { a in image && image[a].flow != Invalid }

  /** The next address of a linear walk. */
  function NextOf(image: Image, a: Addr): (n: Addr)
    requires ValidImage(image)
    ensures a < n
  {
    if Decodable(image, a) then EndOf(image, a) else a + 1
  }

  /** A return, or a jump to another known function, ends a segment; a jump to the segment's own start does not. */
  predicate CutsAfter(image: Image, known: set<Addr>, segStart: Addr, a: Addr) {
    Decodable(image, a) &&
    (image[a].flow == Flow.Return ||
     (image[a].flow == UnconditionalBranch && image[a].target != 0 && image[a].target != segStart && image[a].target in known))
  }

  /** The segments of a region from `addr` on, given the start of the open one. */
  function Split(image: Image, known: set<Addr>, segStart: Addr, addr: Addr, end: Addr): seq<CodeRegion>
    requires ValidImage(image)
    decreases end - addr
  {
    if addr >= end then if segStart < end then [CodeRegion(segStart, end)] else []
    else
      var next := NextOf(image, addr);
      if CutsAfter(image, known, segStart, addr) then [CodeRegion(segStart, next)] + Split(image, known, next, next, end)
      else Split(image, known, segStart, next, end)
  }

  /** Nonempty segments that start before `end`, end to end from `start` to `end` or past it. */
  ghost predicate Chain(s: seq<CodeRegion>, start: Addr, end: Addr) {
    && (s == [] <==> start >= end)
    && (s != [] ==> s[0].start == start && s[|s|-1].end >= end)
    && (forall i | 0 <= i < |s| :: s[i].start < s[i].end && s[i].start < end)
    && (forall i | 0 < i < |s| :: s[i].start == s[i-1].end)
  }

  /** The segments leave no gap and do not overlap. */
  lemma {:induction false} SplitChains(image: Image, known: set<Addr>, segStart: Addr, addr: Addr, end: Addr)
    requires ValidImage(image) && segStart <= addr
    ensures var s := Split(image, known, segStart, addr, end);
      && Chain(s, segStart, end)
      && (s != [] ==> if addr < end then s[0].end > addr else s[0].end == end)
    decreases end - addr
  {
    hide *;
    if addr < end {
      var next := NextOf(image, addr);
      SplitStep(image, known, segStart, addr, end);
      if CutsAfter(image, known, segStart, addr) {
        SplitChains(image, known, next, next, end);
        ChainFirst(CodeRegion(segStart, next), Split(image, known, next, next, end), end);
      } else {
        SplitChains(image, known, segStart, next, end);
        ChainStarts(Split(image, known, segStart, next, end), segStart, end);
      }
    } else {
      SplitEnd(image, known, segStart, addr, end);
      ChainLast(segStart, end);
    }
  }

  lemma ChainFirst(first: CodeRegion, rest: seq<CodeRegion>, end: Addr)
    requires first.start < first.end && first.start < end && Chain(rest, first.end, end)
    ensures Chain([first] + rest, first.start, end)
  {
  }

  lemma ChainLast(start: Addr, end: Addr)
    ensures Chain(if start < end then [CodeRegion(start, end)] else [], start, end)
  {
  }

  lemma ChainStarts(s: seq<CodeRegion>, start: Addr, end: Addr)
    requires Chain(s, start, end)
    ensures s != [] ==> s[0].start == start && start < end
    ensures s == [] ==> start >= end
  {
  }

  /** A linear walk from `lo` comes to `a`. */
  predicate Visits(image: Image, lo: Addr, a: Addr)
    requires ValidImage(image)
    decreases a - lo
  {
    lo == a || (lo < a && Visits(image, NextOf(image, lo), a))
  }

  /** `a` is in the segment, which ends after it if it cuts there, and ends there before the region does only then. */
  ghost predicate CutRight(image: Image, known: set<Addr>, seg: CodeRegion, a: Addr, end: Addr)
    requires ValidImage(image)
  {
    var next := if a in image && image[a].flow != Invalid then a + image[a].length else a + 1;
    var cuts := a in image &&
      (image[a].flow == Flow.Return ||
       (image[a].flow == UnconditionalBranch && image[a].target != 0 && image[a].target != seg.start && image[a].target in known));
    && seg.start <= a < seg.end
    && (cuts ==> seg.end == next)
    && (seg.end == next < end ==> cuts)
  }

  /** Segments are cut exactly after the terminators the linear walk meets. */
  lemma {:induction false} SplitCuts(image: Image, known: set<Addr>, segStart: Addr, addr: Addr, end: Addr, a: Addr)
    returns (seg: CodeRegion)
    requires ValidImage(image) && segStart <= addr && a < end && Visits(image, addr, a)
    ensures seg in Split(image, known, segStart, addr, end) && CutRight(image, known, seg, a, end)
    decreases end - addr
  {
    var next := NextOf(image, addr);
    var s := Split(image, known, segStart, addr, end);
    if CutsAfter(image, known, segStart, addr) {
      if addr == a { seg := s[0]; } else { seg := SplitCuts(image, known, next, next, end, a); }
    } else if addr == a {
      SplitChains(image, known, segStart, next, end);
      seg := s[0];
    } else {
      seg := SplitCuts(image, known, segStart, next, end, a);
    }
  }

  method SplitOnTerminators(image: Image, region: CodeRegion, known: set<Addr>) returns (segments: seq<CodeRegion>)
    requires ValidImage(image)
    ensures segments == Split(image, known, region.start, region.start, region.end)
    ensures Chain(segments, region.start, region.end)
  {
    hide *;
    segments := [];
    var segStart: Addr, addr: Addr := region.start, region.start;
    SplitChains(image, known, segStart, addr, region.end);
    ghost var all := Split(image, known, segStart, addr, region.end);
    while addr < region.end
      invariant segStart <= addr && segments + Split(image, known, segStart, addr, region.end) == all
      decreases region.end - addr
    {
      SplitStep(image, known, segStart, addr, region.end);
      if !(addr in image) || image[addr].flow == Invalid {
        addr := addr + 1;
      } else {
        var insn := image[addr];
        var cut := insn.flow == Flow.Return ||
                   (insn.flow == UnconditionalBranch && insn.target != 0 && insn.target != segStart && insn.target in known);
        var next := addr + insn.length;
        if cut {
          segments := Append(segments, segStart, next, Split(image, known, next, next, region.end));
          segStart := next;
        }
        addr := next;
      }
    }
    SplitEnd(image, known, segStart, addr, region.end);
    if segStart < region.end { segments := segments + [CodeRegion(segStart, region.end)]; }
  }

  method Append(segments: seq<CodeRegion>, segStart: Addr, next: Addr, ghost rest: seq<CodeRegion>) returns (r: seq<CodeRegion>)
    requires segStart < next
    ensures r + rest == segments + ([CodeRegion(segStart, next)] + rest)
  {
    r := segments;
    if next > segStart { r := segments + [CodeRegion(segStart, next)]; }
  }

  lemma SplitStep(image: Image, known: set<Addr>, segStart: Addr, addr: Addr, end: Addr)
    requires ValidImage(image) && addr < end
    ensures var next := NextOf(image, addr);
      Split(image, known, segStart, addr, end) ==
      if CutsAfter(image, known, segStart, addr) then [CodeRegion(segStart, next)] + Split(image, known, next, next, end)
      else Split(image, known, segStart, next, end)
    ensures addr < NextOf(image, addr) == if addr in image && image[addr].flow != Invalid then addr + image[addr].length else addr + 1
    ensures CutsAfter(image, known, segStart, addr) <==>
      (addr in image && image[addr].flow != Invalid &&
       (image[addr].flow == Flow.Return ||
        (image[addr].flow == UnconditionalBranch && image[addr].target != 0 && image[addr].target != segStart &&
         image[addr].target in known)))
  {
  }

  lemma SplitEnd(image: Image, known: set<Addr>, segStart: Addr, addr: Addr, end: Addr)
    requires ValidImage(image) && addr >= end
    ensures Split(image, known, segStart, addr, end) == if segStart < end then [CodeRegion(segStart, end)] else []
  {
  }

  // ---------- Filling the gaps ----------

  /** A gap function is added where no function is or reaches, unless the bytes look like exception data. */
  ghost predicate IsGap(g: Graph, looksLikeData: (set<Addr>, Addr) -> bool, a: Addr) {
    a !in g && (forall o :: !Owns(g, o, a)) && !looksLikeData(g.Keys, a)
  }

  ghost function FillOne(g: Graph, looksLikeData: (set<Addr>, Addr) -> bool, seg: CodeRegion): Graph
    requires seg.start < seg.end
  {
    if IsGap(g, looksLikeData, seg.start) then AddFunction(g, seg.start, seg.end - seg.start, Authority.GapFill) else g
  }

  /** The segments of a region, one after the other. */
  ghost function FillAll(g: Graph, looksLikeData: (set<Addr>, Addr) -> bool, segments: seq<CodeRegion>): Graph
    requires forall seg | seg in segments :: seg.start < seg.end
  {
    if segments == [] then g else FillOne(FillAll(g, looksLikeData, segments[..|segments|-1]), looksLikeData, segments[|segments|-1])
  }

  ghost function Segments(ctx: Context, known: set<Addr>, region: CodeRegion): (s: seq<CodeRegion>)
    requires ctx.Valid()
    ensures forall seg | seg in s :: seg.start < seg.end && seg.start < region.end
  {
    SplitChains(ctx.scanner.image, known, region.start, region.start, region.end);
    Split(ctx.scanner.image, known, region.start, region.start, region.end)
  }

  /** Every region in turn. */
  ghost function FillRegions(ctx: Context, g: Graph, looksLikeData: (set<Addr>, Addr) -> bool, known: set<Addr>,
                             regions: seq<CodeRegion>): Graph
    requires ctx.Valid()
  {
    if regions == [] then g
    else FillAll(FillRegions(ctx, g, looksLikeData, known, regions[..|regions|-1]), looksLikeData,
                 Segments(ctx, known, regions[|regions|-1]))
  }

  lemma FillAllNext(g: Graph, looksLikeData: (set<Addr>, Addr) -> bool, segments: seq<CodeRegion>, i: nat)
    requires i < |segments| && forall seg | seg in segments :: seg.start < seg.end
    ensures FillAll(g, looksLikeData, segments[..i+1]) == FillOne(FillAll(g, looksLikeData, segments[..i]), looksLikeData, segments[i])
    ensures FillAll(g, looksLikeData, segments[..0]) == g && segments[..|segments|] == segments
  {
    assert segments[..i+1][..i] == segments[..i];
  }

  lemma FillRegionsNext(ctx: Context, g: Graph, looksLikeData: (set<Addr>, Addr) -> bool, known: set<Addr>,
                        regions: seq<CodeRegion>, i: nat)
    requires ctx.Valid() && i < |regions|
    ensures FillRegions(ctx, g, looksLikeData, known, regions[..i+1]) ==
      FillAll(FillRegions(ctx, g, looksLikeData, known, regions[..i]), looksLikeData, Segments(ctx, known, regions[i]))
  {
    assert regions[..i+1][..i] == regions[..i];
  }

  lemma GapCases(g: Graph, looksLikeData: (set<Addr>, Addr) -> bool, seg: CodeRegion)
    requires seg.start < seg.end
    ensures FillOne(g, looksLikeData, seg) ==
      if seg.start !in g && (forall o :: !Owns(g, o, seg.start)) && !looksLikeData(g.Keys, seg.start)
      then AddFunction(g, seg.start, seg.end - seg.start, Authority.GapFill) else g
  {
    hide AddFunction;
  }

  method FillSegment(ctx: Context, graph: FunctionGraph, looksLikeData: (set<Addr>, Addr) -> bool, seg: CodeRegion)
    requires ctx.Valid() && graph.Valid() && Inv(ctx, graph.View(), {}) && Walked(ctx, graph.View())
    requires seg.start < seg.end && seg.start < LIMIT
    modifies graph, graph.functions.Values
    ensures graph.Valid() && Inv(ctx, graph.View(), {}) && Walked(ctx, graph.View())
    ensures fresh(graph.functions.Values - old(graph.functions.Values))
    ensures Grows(old(graph.View()), graph.View(), {})
    ensures graph.View() == FillOne(old(graph.View()), looksLikeData, seg)
    ensures var g, a := old(graph.View()), seg.start;
      if a in g || (exists o :: Owns(g, o, a)) || looksLikeData(g.Keys, a) then graph.View() == g
      else IsFunctionAdded(g, graph.View(), a, seg.end - a, Authority.GapFill)
  {
    hide *;
    ghost var g := graph.View();
    graph.ViewKeys();
    GrowsNothing(g, {});
    GapCases(g, looksLikeData, seg);
    if seg.start in graph.functions { return; }
    var owner := graph.GetFunctionContaining(seg.start);
    if owner != null { return; }
    if looksLikeData(graph.functions.Keys, seg.start) { return; }
    AdditionGrows(ctx, g, {}, seg.start, seg.end - seg.start, Authority.GapFill);
    WalkedGrows(ctx, g, AddFunction(g, seg.start, seg.end - seg.start, Authority.GapFill));
    var node := graph.AddFunction(seg.start, seg.end - seg.start, Authority.GapFill);
  }

  /** Functions that are not gap functions stay, and those past registration keep their blocks. */
  ghost predicate KeepsSolid(g: Graph, g': Graph) {
    forall e | e in g && g[e].authority != Authority.GapFill ::
      && e in g' && g'[e].authority == g[e].authority
      && (g[e].state != Registered ==> SameExtent(g[e], g'[e]))
  }

  lemma GrowthKeepsSolid(g: Graph, g': Graph, g'': Graph)
    requires KeepsSolid(g, g') && Grows(g', g'', {})
    ensures KeepsSolid(g, g'')
  {
    forall e | e in g && g[e].authority != Authority.GapFill ensures e in g'' && SameExtent(g'[e], g''[e]) {
      assert e in g';
    }
  }

  lemma RoundKeepsSolid(ctx: Context, g: Graph, g': Graph, g'': Graph)
    requires KeepsSolid(g, g') && Advanced(ctx, g', g'', RegisteredOf(g'))
    ensures KeepsSolid(g, g'')
  {
    hide AllBlocked;
    forall e | e in g && g[e].authority != Authority.GapFill
      ensures e in g'' && g''[e].authority == g[e].authority && (g[e].state != Registered ==> SameExtent(g[e], g''[e]))
    {
      assert e in g' && e in g'';
      if g[e].state != Registered { assert e !in RegisteredOf(g'); }
    }
  }

  method FillRegion(ctx: Context, graph: FunctionGraph, looksLikeData: (set<Addr>, Addr) -> bool, region: CodeRegion,
                    known: set<Addr>, ghost g0: Graph)
    requires ctx.Valid() && graph.Valid() && Inv(ctx, graph.View(), {}) && Walked(ctx, graph.View())
    requires region in ctx.scanner.codeRegions && KeepsSolid(g0, graph.View())
    modifies graph, graph.functions.Values
    ensures graph.Valid() && Inv(ctx, graph.View(), {}) && Walked(ctx, graph.View()) && KeepsSolid(g0, graph.View())
    ensures fresh(graph.functions.Values - old(graph.functions.Values))
    ensures graph.View() == FillAll(old(graph.View()), looksLikeData, Segments(ctx, known, region))
  {
    hide *;
    RegionFacts(ctx, known, region);
    var segments := SplitOnTerminators(ctx.scanner.image, region, known);
    ghost var g1 := graph.View();
    FillNone(g1, looksLikeData);
    assert segments[..0] == [];
    for i := 0 to |segments|
      invariant graph.View() == FillAll(g1, looksLikeData, segments[..i])
      invariant graph.Valid() && Inv(ctx, graph.View(), {}) && Walked(ctx, graph.View()) && KeepsSolid(g0, graph.View())
      invariant fresh(graph.functions.Values - old(graph.functions.Values))
    {
      ghost var g := graph.View();
      FillAllNext(g1, looksLikeData, segments, i);
      FillSegment(ctx, graph, looksLikeData, segments[i]);
      GrowthKeepsSolid(g0, g, graph.View());
    }
    assert segments[..|segments|] == segments;
  }

  lemma RegionFacts(ctx: Context, known: set<Addr>, region: CodeRegion)
    requires ctx.Valid() && region in ctx.scanner.codeRegions
    ensures ValidImage(ctx.scanner.image) && region.end < LIMIT
    ensures Segments(ctx, known, region) == Split(ctx.scanner.image, known, region.start, region.start, region.end)
  {
    hide Split;
  }

  lemma FillNone(g: Graph, looksLikeData: (set<Addr>, Addr) -> bool)
    ensures FillAll(g, looksLikeData, []) == g
  {
  }

  // ---------- Dropping absorbed gap functions ----------

  /** The binary search over the extents of the other functions, in entry order. */
  function Search(solid: seq<CodeRegion>, lo: int, hi: int, a: Addr): bool
    requires 0 <= lo <= hi + 1 <= |solid|
    decreases hi - lo + 1
  {
    if lo > hi then false
    else
      var mid := (lo + hi) / 2;
      if solid[mid].start > a then Search(solid, lo, mid - 1, a)
      else if a >= solid[mid].end then Search(solid, mid + 1, hi, a)
      else true
  }

  /** The indices the halving of lo..hi looks at on its way to just after `p`. */
  predicate Probes(lo: int, hi: int, p: int, i: int)
    decreases hi - lo + 1
  {
    lo <= hi &&
    var mid := (lo + hi) / 2;
    i == mid || if mid > p then Probes(lo, mid - 1, p, i) else Probes(mid + 1, hi, p, i)
  }

  /** `p` is the last of lo..hi that starts at or below `a`, or just below `lo` if none does. */
  ghost predicate LastStart(solid: seq<CodeRegion>, lo: int, hi: int, a: Addr, p: int) {
    && 0 <= lo <= hi + 1 <= |solid| && lo - 1 <= p <= hi
    && forall i | lo <= i <= hi :: solid[i].start <= a <==> i <= p
  }

  /** The search finds `a` exactly when an extent it looks at, at or before the last that starts by then, holds it. */
  lemma {:induction false} SearchFinds(solid: seq<CodeRegion>, lo: int, hi: int, a: Addr, p: int)
    requires LastStart(solid, lo, hi, a, p)
    ensures Search(solid, lo, hi, a) <==> exists i :: lo <= i <= p && Probes(lo, hi, p, i) && solid[i].Contains(a)
    decreases hi - lo + 1
  {
    if lo <= hi {
      var mid := (lo + hi) / 2;
      ProbesWithin(lo, mid - 1, p);
      ProbesWithin(mid + 1, hi, p);
      if solid[mid].start > a {
        SearchFinds(solid, lo, mid - 1, a, p);
      } else if a >= solid[mid].end {
        SearchFinds(solid, mid + 1, hi, a, p);
      } else {
        assert Probes(lo, hi, p, mid) && solid[mid].Contains(a);
      }
    }
  }

  lemma {:induction false} ProbesWithin(lo: int, hi: int, p: int)
    ensures forall i :: Probes(lo, hi, p, i) ==> lo <= i <= hi
    decreases hi - lo + 1
  {
    if lo <= hi {
      ProbesWithin(lo, (lo + hi) / 2 - 1, p);
      ProbesWithin((lo + hi) / 2 + 1, hi, p);
    }
  }

  /** It always looks at that last extent. */
  lemma {:induction false} ProbesLast(lo: int, hi: int, p: int)
    requires lo <= p <= hi
    ensures Probes(lo, hi, p, p)
    decreases hi - lo + 1
  {
    var mid := (lo + hi) / 2;
    if mid > p { ProbesLast(lo, mid - 1, p); }
    if mid < p { ProbesLast(mid + 1, hi, p); }
  }

  /** So what the last extent to start holds is found; and where extents end in the order they start, whatever any of
      them holds. */
  lemma LastIsFound(solid: seq<CodeRegion>, a: Addr, p: int)
    requires LastStart(solid, 0, |solid| - 1, a, p)
    ensures 0 <= p && a < solid[p].end ==> Search(solid, 0, |solid| - 1, a)
    ensures (forall i, j | 0 <= i < j < |solid| :: solid[i].end <= solid[j].end) && (exists i :: 0 <= i < |solid| && solid[i].Contains(a)) ==>
            Search(solid, 0, |solid| - 1, a)
  {
    SearchFinds(solid, 0, |solid| - 1, a, p);
    if 0 <= p { ProbesLast(0, |solid| - 1, p); }
    hide Probes, Search;
  }

  method InsideSolid(solid: seq<CodeRegion>, a: Addr) returns (inside: bool)
    ensures inside == Search(solid, 0, |solid| - 1, a)
  {
    var lo, hi := 0, |solid| - 1;
    while lo <= hi
      invariant 0 <= lo <= hi + 1 <= |solid| && Search(solid, lo, hi, a) == Search(solid, 0, |solid| - 1, a)
    {
      var mid := (lo + hi) / 2;
      if solid[mid].start > a {
        hi := mid - 1;
      } else if a >= solid[mid].end {
        lo := mid + 1;
      } else {
        return true;
      }
    }
    return false;
  }

  /** The extents of the functions at these entries that are not gap functions. */
  function SolidOf(g: Graph, bases: seq<Addr>): seq<CodeRegion> {
    if bases == [] then []
    else
      var e := bases[|bases|-1];
      SolidOf(g, bases[..|bases|-1]) +
      (if e in g && g[e].authority != Authority.GapFill then [CodeRegion(e, g[e].End())] else [])
  }

  lemma {:induction false} HasLast(keys: set<Addr>)
    requires keys != {}
    ensures exists m :: m in keys && forall x | x in keys :: x <= m
    decreases keys
  {
    var a :| a in keys;
    var rest := keys - {a};
    if rest == {} {
      forall x | x in keys ensures x <= a { assert x !in rest; }
    } else {
      HasLast(rest);
      var m :| m in rest && forall x | x in rest :: x <= m;
      var last := if a < m then m else a;
      forall x | x in keys ensures x <= last { assert x == a || x in rest; }
      assert last in keys;
    }
  }

  /** The entry points in order. */
  ghost function Index(keys: set<Addr>): (r: seq<Addr>)
    ensures Ascends(r) && forall x :: x in r <==> x in keys
    decreases keys
  {
    if keys == {} then []
    else
      HasLast(keys);
      var m :| m in keys && forall x | x in keys :: x <= m;
      var before := Index(keys - {m});
      assert forall i | 0 <= i < |before| :: before[i] in before;
      before + [m]
  }

  /** The extents of the functions that are not gap functions, in entry order. */
  ghost function Solid(g: Graph): seq<CodeRegion> { SolidOf(g, Index(g.Keys)) }

  /** The gap functions the search finds inside another function. */
  ghost function Absorbed(g: Graph): set<Addr> {
    set a | a in g && g[a].authority == Authority.GapFill && Search(Solid(g), 0, |Solid(g)| - 1, a)
  }

  ghost predicate IsSolid(g: Graph, e: Addr) { e in g && g[e].authority != Authority.GapFill }

  ghost predicate StartsAscend(s: seq<CodeRegion>) {
    forall i, j | 0 <= i < j < |s| :: s[i].start < s[j].start
  }

  ghost predicate IsExtent(g: Graph, bases: seq<Addr>, c: CodeRegion) {
    c.start in bases && IsSolid(g, c.start) && c.end == g[c.start].End()
  }

  lemma {:induction false} SolidFacts(g: Graph, bases: seq<Addr>)
    requires Ascends(bases)
    ensures var s := SolidOf(g, bases);
      StartsAscend(s) && (forall c :: c in s <==> IsExtent(g, bases, c))
  {
    if bases != [] {
      var n := |bases| - 1;
      var e := bases[n];
      SolidFacts(g, bases[..n]);
      SolidLast(g, bases[..n], e);
      hide *;
      assert bases == bases[..n] + [e];
      StartsGrow(g, SolidOf(g, bases[..n]), bases[..n], e);
      ExtentsGrow(g, SolidOf(g, bases[..n]), bases[..n], e);
    }
  }

  lemma StartsGrow(g: Graph, s: seq<CodeRegion>, bases: seq<Addr>, e: Addr)
    requires StartsAscend(s) && (forall c :: c in s <==> IsExtent(g, bases, c)) && Ascends(bases + [e])
    ensures StartsAscend(s + [CodeRegion(e, if e in g then g[e].End() else 0)]) && StartsAscend(s + [])
  {
    forall i | 0 <= i < |s| ensures s[i].start < e {
      assert s[i] in s && IsExtent(g, bases, s[i]);
      var k :| 0 <= k < |bases| && bases[k] == s[i].start;
      assert (bases + [e])[k] == bases[k] && (bases + [e])[|bases|] == e;
    }
    hide IsExtent;
    assert s + [] == s;
  }

  lemma ExtentsGrow(g: Graph, s: seq<CodeRegion>, bases: seq<Addr>, e: Addr)
    requires forall c :: c in s <==> IsExtent(g, bases, c)
    ensures var more := if e in g && g[e].authority != Authority.GapFill then [CodeRegion(e, g[e].End())] else [];
      forall c :: c in s + more <==> IsExtent(g, bases + [e], c)
  {
    hide Node.End;
  }

  /** An absorbed function starts inside another. */
  lemma AbsorbedIsInside(g: Graph, a: Addr)
    requires a in Absorbed(g)
    ensures exists e: Addr :: IsSolid(g, e) && e <= a < g[e].End()
  {
    var s := Solid(g);
    SolidFacts(g, Index(g.Keys));
    hide SolidOf, Index;
    var p := LastOf(s, a, |s|);
    SearchFinds(s, 0, |s| - 1, a, p);
    var i :| 0 <= i <= p && Probes(0, |s| - 1, p, i) && s[i].Contains(a);
    assert s[i] in s && IsExtent(g, Index(g.Keys), s[i]);
  }

  /** A gap function inside the last other function to start at or before it is absorbed. */
  lemma InsideLastIsAbsorbed(g: Graph, a: Addr, e: Addr)
    requires a in g && g[a].authority == Authority.GapFill && IsSolid(g, e) && e <= a < g[e].End()
    requires forall x: Addr | IsSolid(g, x) && x <= a :: x <= e
    ensures a in Absorbed(g)
  {
    var s := Solid(g);
    SolidFacts(g, Index(g.Keys));
    var p := LastOf(s, a, |s|);
    LastHolds(g, s, a, p, e);
    hide Search, Probes, SolidOf, Index, LastStart;
    LastIsFound(s, a, p);
  }

  lemma LastHolds(g: Graph, s: seq<CodeRegion>, a: Addr, p: int, e: Addr)
    requires s == Solid(g) && LastStart(s, 0, |s| - 1, a, p) && IsSolid(g, e) && e <= a < g[e].End()
    requires forall x: Addr | IsSolid(g, x) && x <= a :: x <= e
    ensures 0 <= p && a < s[p].end
  {
    SolidFacts(g, Index(g.Keys));
    hide SolidOf;
    assert IsExtent(g, Index(g.Keys), CodeRegion(e, g[e].End()));
    var k :| 0 <= k < |s| && s[k] == CodeRegion(e, g[e].End());
    assert k <= p;
    assert s[p] in s && IsExtent(g, Index(g.Keys), s[p]);
    assert k == p;
  }

  lemma {:induction false} LastOf(s: seq<CodeRegion>, a: Addr, n: nat) returns (p: int)
    requires n <= |s| && StartsAscend(s)
    ensures LastStart(s, 0, n - 1, a, p)
  {
    if n == 0 || s[n-1].start <= a { p := n - 1; } else { p := LastOf(s, a, n - 1); }
  }

  /** Three configured functions whose entries do not decode, so that they stay registered at their declared sizes: the
      first reaches over the other two. And a gap function inside it. */
  function Nested(): Graph {
    map[100 := Fresh(100, 100, Authority.Config), 110 := Fresh(110, 10, Authority.Config),
        130 := Fresh(130, 10, Authority.Config), 150 := Fresh(150, 4, Authority.GapFill)]
  }

  /** The gap function survives the clean-up: the halving never looks at the first. */
  lemma NestedExtentIsMissed()
    ensures var g := Nested();
      IsSolid(g, 100) && g[100].ContainsAddress(150) && g[150].authority == Authority.GapFill && 150 in g - Absorbed(g)
  {
    var g := Nested();
    var bases: seq<Addr> := [100, 110, 130, 150];
    NestedFacts();
    OnlyOrder(Index(g.Keys), bases);
    NestedSolid();
    var solid := [CodeRegion(100, 200), CodeRegion(110, 120), CodeRegion(130, 140)];
    assert !Search(solid, 3, 2, 150);
    assert !Search(solid, 2, 2, 150);
  }

  lemma NestedFacts()
    ensures var g := Nested();
      && g.Keys == {100, 110, 130, 150}
      && (forall e | e in g && e != 150 :: IsSolid(g, e)) && !IsSolid(g, 150)
      && g[100].End() == 200 && g[110].End() == 120 && g[130].End() == 140
  {
  }

  lemma NestedSolid()
    ensures SolidOf(Nested(), [100, 110, 130, 150]) == [CodeRegion(100, 200), CodeRegion(110, 120), CodeRegion(130, 140)]
  {
    NestedFacts();
    hide SolidOf, Nested;
    var g := Nested();
    SolidEmpty(g);
    SolidLast(g, [], 100);
    SolidLast(g, [100], 110);
    SolidLast(g, [100, 110], 130);
    SolidLast(g, [100, 110, 130], 150);
    assert [] + [100] == [100] && [100] + [110] == [100, 110] && [100, 110] + [130] == [100, 110, 130];
    assert [100, 110, 130] + [150] == [100, 110, 130, 150];
  }

  lemma SolidLast(g: Graph, bases: seq<Addr>, e: Addr)
    ensures SolidOf(g, bases + [e]) == SolidOf(g, bases) +
      (if e in g && g[e].authority != Authority.GapFill then [CodeRegion(e, g[e].End())] else [])
  {
    assert (bases + [e])[..|bases|] == bases;
  }

  /** The function containing an entry point is the one that starts there: no gap function is ever found to lie in
      an earlier one. */
  lemma EntryOwnsItself(g: Graph, o: Addr, a: Addr)
    requires a in g && Owns(g, o, a)
    ensures o == a
  {
  }

  lemma SolidNext(g: Graph, bases: seq<Addr>, i: nat)
    requires i < |bases| && bases[i] in g
    ensures SolidOf(g, bases[..i+1]) == SolidOf(g, bases[..i]) +
      (if g[bases[i]].authority != Authority.GapFill then [CodeRegion(bases[i], g[bases[i]].End())] else [])
    ensures SolidOf(g, bases[..0]) == [] && bases[..|bases|] == bases
  {
    assert bases[..i+1][..i] == bases[..i];
  }

  method SolidExtents(graph: FunctionGraph) returns (solid: seq<CodeRegion>)
    requires graph.Valid()
    ensures solid == SolidOf(graph.View(), graph.bases)
  {
    hide *;
    ghost var g := graph.View();
    var bases := graph.bases;
    solid := [];
    assert bases[..0] == [] && SolidOf(g, []) == [] by { SolidEmpty(g); }
    for i := 0 to |bases|
      invariant solid == SolidOf(g, bases[..i])
    {
      IndexedNode(graph, i);
      var n := graph.functions[bases[i]];
      SolidNext(g, bases, i);
      if n.authority != Authority.GapFill { solid := solid + [CodeRegion(bases[i], Wrap(n.base + n.size))]; }
    }
    assert bases[..|bases|] == bases;
  }

  lemma SolidEmpty(g: Graph)
    ensures SolidOf(g, []) == []
  {
  }

  lemma IndexedNode(graph: FunctionGraph, i: nat)
    requires graph.Valid() && i < |graph.bases|
    ensures var b := graph.bases[i];
      && b in graph.functions && b in graph.View() && graph.functions[b].base == b
      && graph.View()[b].authority == graph.functions[b].authority
      && graph.View()[b].End() == Wrap(graph.functions[b].base + graph.functions[b].size)
  {
    graph.ViewNodes();
    assert graph.bases[i] in graph.bases;
  }

  lemma IndexedAbsorbed(graph: FunctionGraph)
    requires graph.Valid()
    ensures forall a | a in Absorbed(graph.View()) :: a in graph.bases
  {
    graph.ViewKeys();
  }

  /** The sorted index of the graph is the index of its entry points. */
  lemma IndexIs(graph: FunctionGraph)
    requires graph.Valid()
    ensures SolidOf(graph.View(), graph.bases) == Solid(graph.View())
  {
    graph.ViewKeys();
    OnlyOrder(graph.bases, Index(graph.View().Keys));
  }

  lemma AbsorbedCases(g: Graph, a: Addr)
    requires a in g
    ensures a in Absorbed(g) <==> g[a].authority == Authority.GapFill && Search(Solid(g), 0, |Solid(g)| - 1, a)
  {
  }

  /** Collects the gap functions that start inside another function, and none else. */
  method FindAbsorbed(graph: FunctionGraph, solid: seq<CodeRegion>) returns (drop: set<Addr>)
    requires graph.Valid() && solid == Solid(graph.View())
    ensures drop == Absorbed(graph.View())
  {
    hide *;
    ghost var g := graph.View();
    var bases := graph.bases;
    drop := {};
    for i := 0 to |bases|
      invariant forall a :: a in drop <==> a in bases[..i] && a in Absorbed(g)
    {
      var a := bases[i];
      assert bases[..i+1] == bases[..i] + [a];
      IndexedNode(graph, i);
      AbsorbedCases(g, a);
      if graph.functions[a].authority == Authority.GapFill {
        var inside := InsideSolid(solid, a);
        if inside {
          drop := drop + {a};
        } else {
          var container := graph.GetFunctionContaining(a);
          var earlier := container != null && container.authority == Authority.GapFill && container.base < a;
          if container != null { EntryOwnsItself(g, container.base, a); }
          if earlier { drop := drop + {a}; }
        }
      }
    }
    assert bases[..|bases|] == bases;
    IndexedAbsorbed(graph);
  }

  /** Drops the gap functions that start inside another function, and none else. */
  method CleanupAbsorbed(graph: FunctionGraph)
    requires graph.Valid()
    modifies graph
    ensures graph.Valid() && graph.View() == old(graph.View()) - Absorbed(old(graph.View()))
    ensures graph.functions.Values <= old(graph.functions.Values)
  {
    hide *;
    var solid := SolidExtents(graph);
    IndexIs(graph);
    var drop := FindAbsorbed(graph, solid);
    RemoveAll(graph, drop);
  }

  method RemoveAll(graph: FunctionGraph, drop: set<Addr>)
    requires graph.Valid()
    modifies graph
    ensures graph.Valid() && graph.View() == old(graph.View()) - drop
    ensures graph.functions.Values <= old(graph.functions.Values)
  {
    hide *;
    ghost var g := graph.View();
    var rest := drop;
    assert g - (drop - rest) == g;
    while rest != {}
      invariant graph.Valid() && rest <= drop && graph.View() == g - (drop - rest)
      invariant graph.functions.Values <= old(graph.functions.Values)
      decreases rest
    {
      var a :| a in rest;
      var removed := graph.RemoveFunction(a);
      assert g - (drop - rest) - {a} == g - (drop - (rest - {a}));
      rest := rest - {a};
    }
    assert drop - rest == drop;
  }

  lemma CleaningKeeps(ctx: Context, g0: Graph, g: Graph)
    requires NoStale(g) && SitesAgree(ctx.scanner.image, g) && Walked(ctx, g) && KeepsSolid(g0, g)
    ensures var g' := g - Absorbed(g);
      NoStale(g') && SitesAgree(ctx.scanner.image, g') && Walked(ctx, g') && KeepsSolid(g0, g')
  {
    hide IsScanned, Search, SameExtent;
  }

  /** The address is an entry point, inside some function, or once looked like data. */
  ghost predicate Accounted(g: Graph, looksLikeData: (set<Addr>, Addr) -> bool, a: Addr) {
    || a in g
    || (exists o :: o in g && g[o].ContainsAddress(a))
    || (exists keys: set<Addr> :: keys <= g.Keys && looksLikeData(keys, a))
  }

  lemma AccountedGrows(g: Graph, g': Graph, looksLikeData: (set<Addr>, Addr) -> bool, a: Addr)
    requires Grows(g, g', {}) && Accounted(g, looksLikeData, a)
    ensures Accounted(g', looksLikeData, a)
  {
    if o :| o in g && g[o].ContainsAddress(a) {
      assert SameExtent(g[o], g'[o]);
      SameExtentContains(g[o], g'[o], a);
    }
    hide Node.ContainsAddress;
  }

  lemma FillOneAccounts(g: Graph, looksLikeData: (set<Addr>, Addr) -> bool, seg: CodeRegion)
    requires seg.start < seg.end
    ensures Grows(g, FillOne(g, looksLikeData, seg), {}) && Accounted(FillOne(g, looksLikeData, seg), looksLikeData, seg.start)
  {
    GapCases(g, looksLikeData, seg);
    GrowsNothing(g, {});
    if seg.start !in g { AddedExtents(g, seg.start, seg.end - seg.start, Authority.GapFill); }
    hide FillOne, AddFunction, Grows;
    if o :| Owns(g, o, seg.start) { assert o in g && g[o].ContainsAddress(seg.start); }
    hide Owns, Node.ContainsAddress;
  }

  lemma {:induction false} FillAllAccounts(g: Graph, looksLikeData: (set<Addr>, Addr) -> bool, segments: seq<CodeRegion>)
    requires forall seg | seg in segments :: seg.start < seg.end
    ensures Grows(g, FillAll(g, looksLikeData, segments), {})
    ensures forall seg | seg in segments :: Accounted(FillAll(g, looksLikeData, segments), looksLikeData, seg.start)
  {
    hide FillOne, Grows, Accounted;
    if segments == [] {
      GrowsNothing(g, {});
    } else {
      var init, last := segments[..|segments|-1], segments[|segments|-1];
      assert segments == init + [last];
      FillAllAccounts(g, looksLikeData, init);
      var g1, g' := FillAll(g, looksLikeData, init), FillAll(g, looksLikeData, segments);
      FillOneAccounts(g1, looksLikeData, last);
      GrowsTransitive(g, g1, g', {});
      forall seg | seg in segments ensures Accounted(g', looksLikeData, seg.start) {
        if seg in init { AccountedGrows(g1, g', looksLikeData, seg.start); }
      }
    }
  }

  lemma {:induction false} FillRegionsAccounts(ctx: Context, g: Graph, looksLikeData: (set<Addr>, Addr) -> bool,
                                               known: set<Addr>, regions: seq<CodeRegion>, region: CodeRegion, seg: CodeRegion)
    requires ctx.Valid() && region in regions && seg in Segments(ctx, known, region)
    ensures Accounted(FillRegions(ctx, g, looksLikeData, known, regions), looksLikeData, seg.start)
  {
    hide FillAll, Segments, Accounted, Grows, Context.Valid;
    var init, last := regions[..|regions|-1], regions[|regions|-1];
    assert regions == init + [last];
    var g1, g' := FillRegions(ctx, g, looksLikeData, known, init), FillRegions(ctx, g, looksLikeData, known, regions);
    FillAllAccounts(g1, looksLikeData, Segments(ctx, known, last));
    if region in init {
      FillRegionsAccounts(ctx, g, looksLikeData, known, init, region, seg);
      AccountedGrows(g1, g', looksLikeData, seg.start);
    }
  }

  /** Filling leaves no gap: every segment of every code region starts at an entry point, inside some function or at
      what looked like data. */
  lemma NoGapIsLeft(ctx: Context, g: Graph, looksLikeData: (set<Addr>, Addr) -> bool, region: CodeRegion, seg: CodeRegion)
    requires ctx.Valid() && region in ctx.scanner.codeRegions && seg in Segments(ctx, g.Keys, region)
    ensures Accounted(Gapped(ctx, g, looksLikeData), looksLikeData, seg.start)
  {
    FillRegionsAccounts(ctx, g, looksLikeData, g.Keys, ctx.scanner.codeRegions, region, seg);
    hide FillRegions, Segments, Accounted;
  }

  method FillAllRegions(ctx: Context, graph: FunctionGraph, looksLikeData: (set<Addr>, Addr) -> bool)
    requires ctx.Valid() && graph.Valid() && Inv(ctx, graph.View(), {}) && Walked(ctx, graph.View())
    modifies graph, graph.functions.Values
    ensures graph.Valid() && Inv(ctx, graph.View(), {}) && Walked(ctx, graph.View())
    ensures KeepsSolid(old(graph.View()), graph.View())
    ensures fresh(graph.functions.Values - old(graph.functions.Values))
    ensures graph.View() ==
      FillRegions(ctx, old(graph.View()), looksLikeData, old(graph.functions.Keys), ctx.scanner.codeRegions)
  {
    hide *;
    ghost var g0 := graph.View();
    SolidSelf(g0);
    var callables := graph.functions.Keys;
    var regions := ctx.scanner.codeRegions;
    assert regions[..0] == [];
    NoRegions(ctx, g0, looksLikeData, callables);
    for i := 0 to |regions|
      invariant graph.View() == FillRegions(ctx, g0, looksLikeData, callables, regions[..i])
      invariant graph.Valid() && Inv(ctx, graph.View(), {}) && Walked(ctx, graph.View()) && KeepsSolid(g0, graph.View())
      invariant fresh(graph.functions.Values - old(graph.functions.Values))
    {
      FillRegionsNext(ctx, g0, looksLikeData, callables, regions, i);
      FillRegion(ctx, graph, looksLikeData, regions[i], callables, g0);
    }
    assert regions[..|regions|] == regions;
  }

  /** The graph the round of the phase starts from. */
  ghost function Gapped(ctx: Context, g: Graph, looksLikeData: (set<Addr>, Addr) -> bool): Graph
    requires ctx.Valid()
  {
    FillRegions(ctx, g, looksLikeData, g.Keys, ctx.scanner.codeRegions)
  }

  /** The functions left registered are those still there that are unstartable, and all that only the round's discoveries call:
      nothing tries those again. */
  ghost predicate LeavesRegistered(ctx: Context, gapped: Graph, found: Graph, g: Graph) {
    && (forall e | Late(ctx, gapped, found, e) :: e in g && g[e].authority == Authority.Discovered)
    && (forall e | e in g :: g[e].state == Registered <==> Unstartable(ctx, g[e]) || Late(ctx, gapped, found, e))
  }

  lemma CleaningLeaves(ctx: Context, gapped: Graph, found: Graph)
    requires Walked(ctx, gapped) && Walked(ctx, found) && CallsClosed(ctx, found, {})
    requires Advanced(ctx, gapped, found, RegisteredOf(gapped)) && Sprung(ctx, gapped, found, RegisteredOf(gapped))
    ensures LeavesRegistered(ctx, gapped, found, found - Absorbed(found))
  {
    hide *;
    forall e
      ensures Late(ctx, gapped, found, e) ==> e in found && StillThere(found, e) && found[e].authority == Authority.Discovered
      ensures e in found ==> (found[e].state == Registered <==> Unstartable(ctx, found[e]) || Late(ctx, gapped, found, e))
    {
      RoundLeaves(ctx, gapped, found, e);
      if e in found && found[e].authority == Authority.Discovered { NotAbsorbed(found, e); }
    }
    LeavesIs(ctx, gapped, found);
  }

  ghost predicate StillThere(g: Graph, e: Addr) { e in g && e !in Absorbed(g) }

  lemma NotAbsorbed(g: Graph, e: Addr)
    requires e in g && g[e].authority == Authority.Discovered
    ensures StillThere(g, e)
  {
    AbsorbedCases(g, e);
    hide Absorbed;
  }

  lemma LeavesIs(ctx: Context, gapped: Graph, found: Graph)
    requires forall e | Late(ctx, gapped, found, e) :: StillThere(found, e) && e in found && found[e].authority == Authority.Discovered
    requires forall e | e in found :: found[e].state == Registered <==> Unstartable(ctx, found[e]) || Late(ctx, gapped, found, e)
    ensures LeavesRegistered(ctx, gapped, found, found - Absorbed(found))
  {
    hide Late, Unstartable, Absorbed;
  }

  lemma InvClosed(ctx: Context, g: Graph)
    requires Inv(ctx, g, {})
    ensures CallsClosed(ctx, g, {})
    ensures forall e | e in g && g[e].state == Lifecycle.Sealed :: g[e].IsImport()
  {
  }

  /** The gap-fill phase: it fills every region, gives every registered function one discovery and drops the absorbed
      gap functions. Solid functions keep their entry, authority and, once discovered, their blocks; every function past
      registration holds a discovery from its entry; no unsealed one holds a stale branch; and which are left registered
      is known. */
  method Run(ctx: Context, graph: FunctionGraph, looksLikeData: (set<Addr>, Addr) -> bool)
    returns (ghost found: Graph)
    requires ctx.Valid() && graph.Valid() && Inv(ctx, graph.View(), {}) && Walked(ctx, graph.View())
    modifies graph, graph.functions.Values
    ensures graph.Valid() && NoStale(graph.View()) && Walked(ctx, graph.View())
    ensures SitesAgree(ctx.scanner.image, graph.View())
    ensures KeepsSolid(old(graph.View()), graph.View())
    ensures var gapped := Gapped(ctx, old(graph.View()), looksLikeData);
      && Advanced(ctx, gapped, found, RegisteredOf(gapped)) && Walked(ctx, found) && CallsClosed(ctx, found, {})
      && graph.View() == found - Absorbed(found)
      && LeavesRegistered(ctx, gapped, found, graph.View())
    ensures OnlyImportsSealed(graph.View())
    ensures RoundApart(ctx, Gapped(ctx, old(graph.View()), looksLikeData), graph.View())
    ensures fresh(graph.functions.Values - old(graph.functions.Values))
  {
    hide *;
    ghost var g0 := graph.View();
    graph.ViewKeys();
    FillAllRegions(ctx, graph, looksLikeData);
    var known := set b | b in graph.functions && graph.functions[b].authority != Authority.GapFill;
    ghost var g1 := graph.View();
    KnownAre(graph, known);
    var tried := DiscoverPendingFunctions(ctx, graph, known);
    RoundKeepsSolid(ctx, g0, g1, graph.View());
    InvNoStale(ctx, graph.View());
    found := graph.View();
    InvClosed(ctx, found);
    GappedIs(ctx, g0, looksLikeData);
    CleaningKeeps(ctx, g0, found);
    CleaningLeaves(ctx, g1, found);
    ToldRound(ctx, g1, found);
    SealedSubset(found, Absorbed(found));
    CleanupAbsorbed(graph);
  }

  /** The entry points that are not gap functions. */
  ghost function Solids(g: Graph): set<Addr> { set e | e in g && g[e].authority != Authority.GapFill }

  lemma KnownAre(graph: FunctionGraph, known: set<Addr>)
    requires graph.Valid() && known == set b | b in graph.functions && graph.functions[b].authority != Authority.GapFill
    ensures known == Solids(graph.View())
  {
    graph.ViewNodes();
    forall b | b in graph.functions ensures graph.View()[b].authority == graph.functions[b].authority {
      BaseOfView(graph.functions[b]);
    }
    hide FunctionGraph.View, FunctionGraph.Valid;
  }

  /** The functions discovered in the round keep clear of all entry points there were but those of gap functions. */
  ghost predicate RoundApart(ctx: Context, gapped: Graph, g: Graph) {
    forall e | e in gapped && gapped[e].state == Registered && e in g && g[e].state != Registered && !g[e].IsImport() ::
      KeepsApart(ctx.scanner.image, g[e], (set x | x in gapped && gapped[x].authority != Authority.GapFill))
  }

  lemma ToldRound(ctx: Context, gapped: Graph, found: Graph)
    requires Told(ctx, gapped, found, RegisteredOf(gapped), Solids(gapped))
    ensures RoundApart(ctx, gapped, found - Absorbed(found))
  {
    var g := found - Absorbed(found);
    hide Absorbed, Total, KeepsApart, DiscoveredWith;
    forall e | e in gapped && gapped[e].state == Registered && e in g && g[e].state != Registered && !g[e].IsImport()
      ensures KeepsApart(ctx.scanner.image, g[e], Solids(gapped))
    {
      assert e in RegisteredOf(gapped);
      DiscoveredKeepsApart(ctx, found[e], Solids(gapped));
    }
  }

  ghost predicate OnlyImportsSealed(g: Graph) {
    forall e | e in g && g[e].state == Lifecycle.Sealed :: g[e].IsImport()
  }

  lemma SealedSubset(g: Graph, drop: set<Addr>)
    requires forall e | e in g && g[e].state == Lifecycle.Sealed :: g[e].IsImport()
    ensures OnlyImportsSealed(g - drop)
  {
  }

  lemma GappedIs(ctx: Context, g: Graph, looksLikeData: (set<Addr>, Addr) -> bool)
    requires ctx.Valid()
    ensures Gapped(ctx, g, looksLikeData) == FillRegions(ctx, g, looksLikeData, g.Keys, ctx.scanner.codeRegions)
  {
  }

  lemma NoRegions(ctx: Context, g: Graph, looksLikeData: (set<Addr>, Addr) -> bool, known: set<Addr>)
    requires ctx.Valid()
    ensures FillRegions(ctx, g, looksLikeData, known, []) == g
  {
  }

  lemma SolidSelf(g: Graph)
    ensures KeepsSolid(g, g)
  {
  }

  lemma InvNoStale(ctx: Context, g: Graph)
    requires Inv(ctx, g, {})
    ensures NoStale(g) && SitesAgree(ctx.scanner.image, g)
  {
  }
}
