/** The build-time gate: every direct call and jump of a discovered function must land in some function. */
module Validate {
  import opened Code
  import opened Nodes
  import opened GraphSpec
  import opened FunctionGraphs

  /** A linear walk of [lo, hi) comes to an instruction at `a`. It stops where nothing is mapped. */
  predicate Meets(image: Image, lo: Addr, hi: Addr, a: Addr)
    requires ValidImage(image)
    decreases hi - lo
  {
    lo < hi && lo in image && (lo == a || Meets(image, EndOf(image, lo), hi, a))
  }

  /** Only direct calls and unconditional jumps are looked at. */
  predicate IsChecked(image: Image, a: Addr) {
    a in image && image[a].target != 0 && (image[a].flow == Flow.Call || image[a].flow == UnconditionalBranch)
  }

  /** The target lies within the bounds of the function itself, is an entry point or lies in some function. */
  ghost predicate Lands(g: Graph, e: Addr, t: Addr)
    requires e in g
  {
    g[e].base <= t < g[e].End() || t in g || exists o :: Owns(g, o, t)
  }

  ghost predicate BlockClean(image: Image, g: Graph, e: Addr, lo: Addr, hi: Addr)
    requires ValidImage(image) && e in g
  {
    forall a | Meets(image, lo, hi, a) && IsChecked(image, a) :: Lands(g, e, image[a].target)
  }

  ghost predicate FunctionClean(image: Image, g: Graph, e: Addr)
    requires ValidImage(image) && e in g
  {
    g[e].IsImport() || forall b | b in g[e].blocks :: BlockClean(image, g, e, b.base, b.End())
  }

  ghost predicate Clean(image: Image, g: Graph)
    requires ValidImage(image)
  {
    forall e | e in g :: FunctionClean(image, g, e)
  }

  /** The last function to start at or before the address contains it. */
  ghost predicate LiesInside(g: Graph, t: Addr) {
    exists o ::
      && o in g && o <= t && g[o].ContainsAddress(t)
      && forall x | x in g && x <= t :: x <= o
  }

  lemma OwnedIsInside(g: Graph, t: Addr)
    ensures LiesInside(g, t) <==> exists o :: Owns(g, o, t)
  {
    hide Node.ContainsAddress;
    if LiesInside(g, t) {
      var o :| o in g && o <= t && g[o].ContainsAddress(t) && forall x | x in g && x <= t :: x <= o;
      assert Owns(g, o, t);
    }
  }

  /** The gate in plain terms: each instruction a walk of a block comes to that calls or jumps to an address, in a function
      that is no import, names one within the function's bounds, an entry point, or one inside some function. */
  ghost predicate AllLand(image: Image, g: Graph)
    requires ValidImage(image)
  {
    forall e, b | e in g && g[e].authority != Import && b in g[e].blocks :: BlockLands(image, g, e, b.base, b.base + b.size)
  }

  ghost predicate BlockLands(image: Image, g: Graph, e: Addr, lo: Addr, hi: Addr)
    requires ValidImage(image) && e in g
  {
    forall a |
      && Meets(image, lo, hi, a) && a in image && image[a].target != 0
      && (image[a].flow == Flow.Call || image[a].flow == UnconditionalBranch) :: (
        var t := image[a].target;
        g[e].base <= t < (g[e].base + g[e].size) % 0x1_0000_0000 || t in g || LiesInside(g, t))
  }

  lemma BlockInPlainTerms(image: Image, g: Graph, e: Addr, lo: Addr, hi: Addr)
    requires ValidImage(image) && e in g
    ensures BlockClean(image, g, e, lo, hi) <==> BlockLands(image, g, e, lo, hi)
  {
    forall t: Addr
      ensures Lands(g, e, t) <==> g[e].base <= t < (g[e].base + g[e].size) % 0x1_0000_0000 || t in g || LiesInside(g, t)
    {
      LandsIs(g, e, t);
      OwnedIsInside(g, t);
    }
    hide Lands, LiesInside, Meets;
  }

  lemma CleanInPlainTerms(image: Image, g: Graph)
    requires ValidImage(image)
    ensures Clean(image, g) <==> AllLand(image, g)
  {
    forall e, b: Block | e in g
      ensures BlockClean(image, g, e, b.base, b.End()) <==> BlockLands(image, g, e, b.base, b.base + b.size)
    {
      BlockInPlainTerms(image, g, e, b.base, b.End());
    }
    hide BlockClean, BlockLands;
  }

  lemma BlockNext(image: Image, g: Graph, e: Addr, lo: Addr, hi: Addr)
    requires ValidImage(image) && e in g && lo < hi && lo in image
    ensures BlockClean(image, g, e, lo, hi) <==>
      (IsChecked(image, lo) ==> Lands(g, e, image[lo].target)) && BlockClean(image, g, e, EndOf(image, lo), hi)
  {
    assert forall a :: Meets(image, lo, hi, a) <==> lo == a || Meets(image, EndOf(image, lo), hi, a);
    hide IsChecked, Lands, Meets;
  }

  lemma BlockEnds(image: Image, g: Graph, e: Addr, lo: Addr, hi: Addr)
    requires ValidImage(image) && e in g && (lo >= hi || lo !in image)
    ensures BlockClean(image, g, e, lo, hi)
  {
  }

  method Landed(graph: FunctionGraph, node: FunctionNode, t: Addr) returns (resolved: bool)
    requires graph.Valid() && node.base in graph.functions && graph.functions[node.base] == node
    ensures node.base in graph.View() && (resolved <==> Lands(graph.View(), node.base, t))
  {
    hide *;
    graph.ViewNodes();
    BoundsOf(node, t);
    LandsIs(graph.View(), node.base, t);
    var inside := node.ContainsAddress(t);
    var owner := graph.GetFunctionContaining(t);
    resolved := inside || (node.base <= t < Wrap(node.base + node.size)) || t in graph.functions || owner != null;
  }

  lemma BoundsOf(node: FunctionNode, t: Addr)
    ensures node.View().base == node.base && node.View().End() == Wrap(node.base + node.size)
    ensures node.View().ContainsAddress(t) ==> node.base <= t < Wrap(node.base + node.size)
  {
  }

  lemma LandsIs(g: Graph, e: Addr, t: Addr)
    requires e in g
    ensures Lands(g, e, t) <==> g[e].base <= t < g[e].End() || t in g || exists o :: Owns(g, o, t)
  {
    hide Owns;
  }

  /** Reports the instructions of one block that land nowhere. */
  method CheckBlock(image: Image, graph: FunctionGraph, node: FunctionNode, lo: Addr, hi: Addr, errors: nat)
    returns (total: nat)
    requires ValidImage(image) && graph.Valid() && node.base in graph.functions && graph.functions[node.base] == node
    ensures node.base in graph.View() && total >= errors
    ensures total == errors <==> BlockClean(image, graph.View(), node.base, lo, hi)
  {
    hide *;
    graph.ViewNodes();
    total := errors;
    var p := lo;
    while p < hi && p in image
      invariant p >= lo && total >= errors
      invariant total == errors && BlockClean(image, graph.View(), node.base, p, hi) <==>
        BlockClean(image, graph.View(), node.base, lo, hi)
      decreases hi - p
    {
      BlockNext(image, graph.View(), node.base, p, hi);
      CheckedIs(image, p);
      var insn := image[p];
      if insn.target != 0 && (insn.flow == Flow.Call || insn.flow == UnconditionalBranch) {
        var resolved := Landed(graph, node, insn.target);
        if !resolved { total := total + 1; }
      }
      Onward(image, p);
      p := p + insn.length;
    }
    BlockEnds(image, graph.View(), node.base, p, hi);
  }

  lemma CheckedIs(image: Image, a: Addr)
    ensures IsChecked(image, a) <==>
      a in image && image[a].target != 0 && (image[a].flow == Flow.Call || image[a].flow == UnconditionalBranch)
  {
  }

  lemma Onward(image: Image, a: Addr)
    requires ValidImage(image) && a in image
    ensures EndOf(image, a) == a + image[a].length > a
  {
  }

  method CheckFunction(image: Image, graph: FunctionGraph, node: FunctionNode, errors: nat) returns (total: nat)
    requires ValidImage(image) && graph.Valid() && node.base in graph.functions && graph.functions[node.base] == node
    ensures node.base in graph.View() && total >= errors
    ensures total == errors <==> FunctionClean(image, graph.View(), node.base)
  {
    hide *;
    graph.ViewNodes();
    FunctionIs(image, graph.View(), node);
    total := errors;
    if node.authority == Import { return; }
    var blocks := node.blocks;
    for i := 0 to |blocks|
      invariant total >= errors
      invariant total == errors <==> forall k | 0 <= k < i :: BlockClean(image, graph.View(), node.base, blocks[k].base, blocks[k].End())
    {
      total := CheckBlock(image, graph, node, blocks[i].base, blocks[i].End(), total);
    }
  }

  lemma FunctionIs(image: Image, g: Graph, node: FunctionNode)
    requires ValidImage(image) && node.base in g && g[node.base] == node.View()
    ensures FunctionClean(image, g, node.base) <==>
      node.authority == Import ||
      forall k | 0 <= k < |node.blocks| :: BlockClean(image, g, node.base, node.blocks[k].base, node.blocks[k].End())
  {
    hide BlockClean;
  }

  /** The gate passes exactly when nothing was reported before it and every function is clean. */
  method Run(image: Image, graph: FunctionGraph, errors: nat) returns (passes: bool)
    requires ValidImage(image) && graph.Valid()
    ensures passes <==> errors == 0 && Clean(image, graph.View())
    ensures passes <==> errors == 0 && AllLand(image, graph.View())
  {
    hide *;
    graph.ViewNodes();
    var total, rest := errors, graph.functions.Keys;
    while rest != {}
      invariant rest <= graph.functions.Keys && total >= errors
      invariant total == errors <==> forall e | e in graph.View() && e !in rest :: FunctionClean(image, graph.View(), e)
      decreases rest
    {
      var e :| e in rest;
      total := CheckFunction(image, graph, graph.functions[e], total);
      rest := rest - {e};
    }
    passes := total == 0;
    CleanIs(image, graph.View());
    CleanInPlainTerms(image, graph.View());
  }

  lemma CleanIs(image: Image, g: Graph)
    requires ValidImage(image)
    ensures Clean(image, g) <==> forall e | e in g :: FunctionClean(image, g, e)
  {
    hide FunctionClean;
  }
}
