/** The function graph as the mutable container it is, each method tied to its value-level operation. */
module FunctionGraphs {
  import opened Code
  import opened Nodes
  import G = GraphSpec

  ghost predicate SortedIndex(bases: seq<Addr>) {
    forall i, j | 0 <= i < j < |bases| :: bases[i] < bases[j]
  }

  /** The sorted base index with one more base. */
  method InsertBase(bases: seq<Addr>, b: Addr) returns (r: seq<Addr>)
    requires SortedIndex(bases)
    ensures SortedIndex(r) && forall x :: x in r <==> x in bases || x == b
  {
    var i := 0;
    while i < |bases| && bases[i] < b
      invariant 0 <= i <= |bases| && forall k | 0 <= k < i :: bases[k] < b
    {
      i := i + 1;
    }
    if i < |bases| && bases[i] == b {
      r := bases;
    } else {
      InsertedIndex(bases, i, b);
      r := bases[..i] + [b] + bases[i..];
    }
  }

  lemma InsertedIndex(bases: seq<Addr>, i: nat, b: Addr)
    requires SortedIndex(bases) && i <= |bases|
    requires (forall k | 0 <= k < i :: bases[k] < b) && (i < |bases| ==> b < bases[i])
    ensures var r := bases[..i] + [b] + bases[i..];
      SortedIndex(r) && forall x :: x in r <==> x in bases || x == b
  {
    var low, high := bases[..i], bases[i..];
    assert bases == low + high;
    SortedParts(bases, i);
    assert i > 0 ==> low[|low|-1] == bases[i-1] && bases[i-1] < b;
    assert i < |bases| ==> high[0] == bases[i];
    hide SortedIndex;
    SortedOne(b);
    SortedJoin(low, [b]);
    SortedJoin(low + [b], high);
    InsertedElements(low, b, high);
  }

  lemma SortedOne(b: Addr)
    ensures SortedIndex([b])
  {
  }

  lemma SortedParts(bases: seq<Addr>, i: nat)
    requires SortedIndex(bases) && i <= |bases|
    ensures SortedIndex(bases[..i]) && SortedIndex(bases[i..])
  {
  }

  lemma SortedJoin(x: seq<Addr>, y: seq<Addr>)
    requires SortedIndex(x) && SortedIndex(y) && (x == [] || y == [] || x[|x|-1] < y[0])
    ensures SortedIndex(x + y)
  {
    forall j, k | 0 <= j < k < |x + y| ensures (x + y)[j] < (x + y)[k] {
      if j < |x| <= k {
        assert x[j] <= x[|x|-1] && y[0] <= y[k - |x|];
      }
    }
  }

  lemma InsertedElements(low: seq<Addr>, b: Addr, high: seq<Addr>)
    ensures forall x :: x in low + [b] + high <==> x in low + high || x == b
  {
    forall x ensures x in low + [b] + high <==> x in low + high || x == b {
      assert x in low + high <==> x in low || x in high;
    }
  }

  lemma AddFunctionCases(g: G.Graph, base: Addr, size: nat, authority: Authority)
    ensures Fresh(base, size, authority).base == base
    ensures G.AddFunction(g, base, size, authority) ==
      if base in g && g[base].authority.Rank() >= authority.Rank() then g
      else G.NotifyAdded(g[base := Fresh(base, size, authority)], base)
  {
  }

  lemma JumpCases(g: G.Graph, entry: Addr, site: Addr, target: Addr, isCall: bool, isConditional: bool)
    ensures G.AddJump(g, entry, site, target, isCall, isConditional) ==
      if entry !in g then g
      else g[entry := if target in g then g[entry].Resolved(Edge(site, target), isCall)
                      else g[entry].Parked(UnresolvedJump(site, target, isCall, isConditional))]
  {
  }

  lemma CanSealIs(n: Node)
    ensures n.CanSeal() <==>
      n.state == Lifecycle.Discovered && (n.authority == Import || (n.blocks != [] && n.unresolved == []))
  {
  }

  lemma SealCases(g: G.Graph, entry: Addr)
    ensures G.Mutate(g, G.DoSeal(entry)) == if entry in g && g[entry].CanSeal() then g[entry := g[entry].Sealed()] else g
  {
  }

  lemma NotifiedSealed(n: FunctionNode, entry: Addr)
    ensures n.state == Lifecycle.Sealed ==> n.View().Notified(entry) == n.View()
  {
  }

  lemma BaseOfView(node: FunctionNode)
    ensures node.View().base == node.base && node.View().authority == node.authority
  {
  }

  method RemoveBase(bases: seq<Addr>, b: Addr) returns (r: seq<Addr>)
    requires SortedIndex(bases)
    ensures SortedIndex(r) && forall x :: x in r <==> x in bases && x != b
  {
    r := [];
    for i := 0 to |bases|
      invariant SortedIndex(r)
      invariant forall x :: x in r <==> x in bases[..i] && x != b
    {
      if bases[i] != b {
        assert forall k | 0 <= k < |r| :: r[k] in r;
        r := r + [bases[i]];
      }
    }
    assert bases[..|bases|] == bases;
  }

  /** Retrying jumps does not change what settles. */
  lemma SameSettles(keys: set<Addr>, n: Node, jumps: seq<UnresolvedJump>, target: Addr)
    ensures G.Settles(keys, G.ResolveJumps(keys, n, jumps), target) <==> G.Settles(keys, n, target)
  {
    hide *;
    G.ResolveAllEffect(keys, n, jumps);
    G.SettlesSame(keys, n, G.ResolveJumps(keys, n, jumps), target);
  }

  lemma ResolveStart(keys: set<Addr>, n: Node)
    ensures G.ResolveJumps(keys, n, n.unresolved[..0]) == n && G.CountSettled(keys, n, n.unresolved[..0]) == 0
  {
  }

  lemma ResolveMore(keys: set<Addr>, n: Node, jumps: seq<UnresolvedJump>, i: nat)
    requires i < |jumps|
    ensures G.ResolveJumps(keys, n, jumps[..i+1]) == G.ResolveOne(keys, G.ResolveJumps(keys, n, jumps[..i]), jumps[i])
    ensures G.CountSettled(keys, n, jumps[..i+1]) == G.CountSettled(keys, n, jumps[..i]) + (if G.Settles(keys, n, jumps[i].target) then 1 else 0)
    ensures G.Settles(keys, G.ResolveJumps(keys, n, jumps[..i]), jumps[i].target) <==> G.Settles(keys, n, jumps[i].target)
  {
    assert jumps[..i+1][..i] == jumps[..i];
    SameSettles(keys, n, jumps[..i], jumps[i].target);
  }

  lemma ResolvedGraph(g: G.Graph, entry: Addr)
    requires entry in g && g[entry].state != Lifecycle.Sealed
    ensures G.Mutate(g, G.DoResolve(entry)) == g[entry := G.ResolveJumps(g.Keys, g[entry], g[entry].unresolved)]
  {
  }

  lemma ResolveCases(g: G.Graph, entry: Addr)
    ensures entry !in g || g[entry].state == Lifecycle.Sealed ==> G.Mutate(g, G.DoResolve(entry)) == g
  {
  }

  lemma ParkedOfView(node: FunctionNode)
    ensures node.View().unresolved == node.unresolved && node.View().state == node.state
  {
  }

  class FunctionGraph {
    var functions: map<Addr, FunctionNode>
    var bases: seq<Addr>

    ghost predicate Valid()
      reads this
    {
      && (forall b | b in functions :: functions[b].base == b)
      && SortedIndex(bases)
      && (forall b :: b in bases <==> b in functions)
    }

    /** The graph as a value. */
    ghost function View(): G.Graph
      reads this, functions.Values
    {
      map b | b in functions :: functions[b].View()
    }

    lemma ViewNodes()
      requires Valid()
      ensures View().Keys == functions.Keys && forall b | b in functions :: b in View() && functions[b].View() == View()[b] && functions[b].base == b
    {
    }

    lemma ViewOf(g0: G.Graph, entry: Addr, n: Node)
      requires functions.Keys == g0.Keys + {entry} && functions[entry].View() == n
      requires forall b | b in functions && b != entry :: functions[b].View() == g0[b]
      ensures View() == g0[entry := n]
    {
    }

    lemma ViewKeys()
      ensures View().Keys == functions.Keys
    {
    }

    constructor ()
      ensures Valid() && View() == map[] && functions == map[]
    {
      functions, bases := map[], [];
    }

    /** Tells every other node that is not sealed about a new function. */
    method NotifyFunctionAdded(node: FunctionNode)
      requires Valid() && node.base in functions && functions[node.base] == node
      modifies functions.Values
      ensures Valid() && View() == G.NotifyAdded(old(View()), node.base)
    {
      hide *;
      ViewNodes();
      ghost var g0 := View();
      var rest := functions.Keys;
      while rest != {}
        invariant Valid() && rest <= functions.Keys == g0.Keys
        invariant forall b | b in functions ::
          functions[b].View() == (if b in rest || b == node.base then g0[b] else g0[b].Notified(node.base))
        decreases rest
      {
        var b :| b in rest;
        rest := rest - {b};
        var n := functions[b];
        ViewNodes();
        NotifiedSealed(n, node.base);
        if n != node && n.state != Lifecycle.Sealed {
          n.TryResolveAgainst(node.base);
        }
      }
      NotifiedView(g0, node.base);
    }

    lemma NotifiedView(g0: G.Graph, entry: Addr)
      requires functions.Keys == g0.Keys
      requires forall b | b in functions :: functions[b].View() == (if b == entry then g0[b] else g0[b].Notified(entry))
      ensures View() == G.NotifyAdded(g0, entry)
    {
    }

    /** Enters a node in the dictionary and the sorted index, in place of any node at its base. */
    method Insert(node: FunctionNode)
      requires Valid()
      modifies this
      ensures Valid() && functions == old(functions)[node.base := node]
      ensures View() == old(View())[node.base := node.View()]
    {
      hide View, FunctionNode.View;
      ghost var g0 := View();
      ViewNodes();
      bases := InsertBase(bases, node.base);
      functions := functions[node.base := node];
      ViewOf(g0, node.base, node.View());
    }

    /** The higher authority wins; the existing node is kept on a tie. */
    method AddFunction(base: Addr, size: nat, authority: Authority) returns (node: FunctionNode)
      requires Valid()
      modifies this, functions.Values
      ensures Valid() && View() == G.AddFunction(old(View()), base, size, authority)
      ensures G.IsFunctionAdded(old(View()), View(), base, size, authority)
      ensures functions == old(functions)[base := node]
      ensures fresh(functions.Values - old(functions.Values))
    {
      hide *;
      ViewNodes();
      AddFunctionCases(View(), base, size, authority);
      G.FunctionAddedInPlainTerms(View(), base, size, authority);
      if base in functions {
        BaseOfView(functions[base]);
        if functions[base].authority.Rank() >= authority.Rank() {
          node := functions[base];
          assert functions == functions[base := node];
          return;
        }
      }
      node := new FunctionNode(base, size, authority);
      BaseOfView(node);
      Insert(node);
      NotifyFunctionAdded(node);
    }

    method RemoveFunction(entry: Addr) returns (removed: bool)
      requires Valid()
      modifies this
      ensures Valid() && View() == old(View()) - {entry} && (removed <==> entry in old(functions))
      ensures functions.Values <= old(functions.Values)
    {
      hide View, FunctionNode.View;
      ghost var g0 := View();
      ViewNodes();
      removed := entry in functions;
      if removed {
        functions := functions - {entry};
        bases := RemoveBase(bases, entry);
        ViewWithout(g0, entry);
      } else {
        assert g0 - {entry} == g0;
      }
    }

    lemma ViewWithout(g0: G.Graph, entry: Addr)
      requires functions.Keys == g0.Keys - {entry}
      requires forall b | b in functions :: functions[b].View() == g0[b]
      ensures View() == g0 - {entry}
    {
    }

    /** Binary search of the sorted base index for the last base at or below `a`, then a containment test. */
    method GetFunctionContaining(a: Addr) returns (r: FunctionNode?)
      requires Valid()
      ensures r != null ==> r.base in functions && functions[r.base] == r && G.Owns(View(), r.base, a)
      ensures r == null ==> forall e :: !G.Owns(View(), e, a)
    {
      var lo, hi, found := 0, |bases| - 1, -1;
      while lo <= hi
        invariant 0 <= lo <= hi + 1 <= |bases| && found == lo - 1
        invariant forall k | 0 <= k < lo :: bases[k] <= a
        invariant forall k | hi < k < |bases| :: a < bases[k]
      {
        var mid := (lo + hi) / 2;
        if bases[mid] <= a {
          found := mid;
          lo := mid + 1;
        } else {
          hi := mid - 1;
        }
      }
      if found < 0 {
        assert forall e | e in functions :: a < e;
        return null;
      }
      var e := bases[found];
      assert forall x | x in functions && x <= a :: x <= e;
      var candidate := functions[e];
      var inside := candidate.ContainsAddress(a);
      r := if inside then candidate else null;
      assert View()[e] == candidate.View();
      forall x | G.Owns(View(), x, a) ensures x == e {
        assert x in functions && e in View();
      }
    }

    method AddUnresolvedJumpToFunction(entry: Addr, site: Addr, target: Addr, isCall: bool, isConditional: bool)
      requires Valid()
      modifies functions.Values
      ensures Valid() && View() == G.AddJump(old(View()), entry, site, target, isCall, isConditional)
      ensures G.IsJumpAdded(old(View()), View(), entry, site, target, isCall, isConditional)
    {
      ghost var g0 := View();
      ViewNodes();
      JumpCases(g0, entry, site, target, isCall, isConditional);
      G.JumpAddedInPlainTerms(g0, entry, site, target, isCall, isConditional);
      hide *;
      if entry !in functions { return; }
      var node := functions[entry];
      if target in functions {
        node.AddEdge(Edge(site, target), isCall);
      } else {
        node.AddUnresolvedJump(UnresolvedJump(site, target, isCall, isConditional));
      }
      assert g0.Keys + {entry} == g0.Keys;
      ViewOf(g0, entry, node.View());
    }

    /** One round of the retry loop. */
    method ResolveJump(node: FunctionNode, jump: UnresolvedJump) returns (settled: bool)
      modifies node
      ensures node.View() == G.ResolveOne(functions.Keys, old(node.View()), jump)
      ensures G.IsTried(functions.Keys, old(node.View()), node.View(), jump)
      ensures settled <==> G.Settles(functions.Keys, old(node.View()), jump.target)
    {
      G.TriedInPlainTerms(functions.Keys, node.View(), jump);
      hide G.IsTried;
      settled := node.TryResolveAsInternalLabel(jump.target);
      if settled {
        node.RemoveUnresolvedJump(jump.site);
      } else if jump.target in functions {
        node.AddEdge(Edge(jump.site, jump.target), jump.isCall);
        node.RemoveUnresolvedJump(jump.site);
        settled := true;
      }
    }

    /** Retries every parked branch of a function, and says how many were settled. */
    method TryResolveFunction(entry: Addr) returns (resolved: nat)
      requires Valid()
      modifies functions.Values
      ensures Valid() && View() == G.Mutate(old(View()), G.DoResolve(entry))
      ensures var g := old(View());
        resolved == if entry in g && g[entry].state != Lifecycle.Sealed
          then G.CountSettled(g.Keys, g[entry], g[entry].unresolved) else 0
    {
      hide *;
      resolved := 0;
      ghost var g0 := View();
      ViewNodes();
      ResolveCases(g0, entry);
      if entry in functions { ParkedOfView(functions[entry]); }
      if entry !in functions || functions[entry].state == Lifecycle.Sealed { return; }
      var node := functions[entry];
      var jumps := node.unresolved;
      ghost var n0 := g0[entry];
      ResolveStart(g0.Keys, n0);
      for i := 0 to |jumps|
        invariant Valid() && node.View() == G.ResolveJumps(g0.Keys, n0, jumps[..i])
        invariant resolved == G.CountSettled(g0.Keys, n0, jumps[..i])
        invariant forall b | b in functions && b != entry :: functions[b].View() == g0[b]
      {
        ResolveMore(g0.Keys, n0, jumps, i);
        var settled := ResolveJump(node, jumps[i]);
        if settled { resolved := resolved + 1; }
      }
      assert jumps[..|jumps|] == jumps;
      assert g0.Keys + {entry} == g0.Keys;
      ViewOf(g0, entry, node.View());
      ResolvedGraph(g0, entry);
    }

    method TrySealFunction(entry: Addr) returns (done: bool)
      requires Valid()
      modifies functions.Values
      ensures Valid() && View() == G.Mutate(old(View()), G.DoSeal(entry))
      ensures done <==> entry in old(View()) && old(View())[entry].CanSeal()
      ensures var g := old(View());
        done <==> entry in g && g[entry].state == Lifecycle.Discovered
                  && (g[entry].authority == Import || (g[entry].blocks != [] && g[entry].unresolved == []))
    {
      hide *;
      ghost var g0 := View();
      ViewNodes();
      SealCases(g0, entry);
      if entry in g0 { CanSealIs(g0[entry]); }
      done := entry in functions && functions[entry].View().CanSeal();
      if done {
        functions[entry].Seal();
        assert g0.Keys + {entry} == g0.Keys;
        ViewOf(g0, entry, functions[entry].View());
      }
    }

    /** Seals every function that can be sealed. */
    method SealAllReady() returns (count: nat)
      requires Valid()
      modifies functions.Values
      ensures Valid() && View() == G.SealSome(old(View()), old(View()).Keys)
      ensures count == |G.Ready(old(View()), old(View()).Keys)|
    {
      hide *;
      count := 0;
      var rest := functions.Keys;
      ghost var g0 := View();
      ViewKeys();
      G.SealNone(g0);
      while rest != {}
        invariant Valid() && rest <= g0.Keys
        invariant View() == G.SealSome(g0, g0.Keys - rest)
        invariant count == |G.Ready(g0, g0.Keys - rest)|
        decreases rest
      {
        var b :| b in rest;
        G.SealOneMore(g0, g0.Keys - rest, b);
        assert (g0.Keys - rest) + {b} == g0.Keys - (rest - {b});
        rest := rest - {b};
        var done := TrySealFunction(b);
        if done { count := count + 1; }
      }
      assert g0.Keys - rest == g0.Keys;
    }
  }
}
