/** A function of the graph: its lifecycle, its blocks and its parked branches. */
module Nodes {
  import opened Code
  import opened Blocks

  datatype Authority = GapFill | Discovered | Vtable | Helper | Pdata | Config | Import {
    function Rank(): nat {
      match this
      case GapFill => 0
      case Discovered => 1
      case Vtable => 2
      case Helper => 3
      case Pdata => 4
      case Config => 5
      case Import => 6
    }
  }

  /** A function of the first authority is kept when one of the second is added at its entry point. */
  predicate Outlasts(there: Authority, added: Authority) {
    match there
    case Import => true
    case Config => added != Import
    case Pdata => added != Import && added != Config
    case Helper => added == Helper || added == Vtable || added == Authority.Discovered || added == GapFill
    case Vtable => added == Vtable || added == Authority.Discovered || added == GapFill
    case Discovered => added == Authority.Discovered || added == GapFill
    case GapFill => added == GapFill
  }

  lemma RanksInOrder(a: Authority, b: Authority)
    ensures a.Rank() >= b.Rank() <==> Outlasts(a, b)
  {
  }

  datatype Lifecycle = Registered | Discovered | Sealed

  /** A resolved branch: where it is and the entry point it goes to. */
  datatype Edge = Edge(site: Addr, target: Addr)

  datatype UnresolvedJump = UnresolvedJump(site: Addr, target: Addr, isCall: bool, isConditional: bool)

  /** The value of a node. */
  datatype Node = Node(
    base: Addr, size: nat, authority: Authority, state: Lifecycle,
    blocks: seq<Block>, instructions: seq<Addr>, labels: set<Addr>,
    calls: seq<Edge>, tailCalls: seq<Edge>, jumpTables: seq<JumpTable>, unresolved: seq<UnresolvedJump>)
  {
    function End(): Addr { Wrap(base + size) }

    predicate IsImport() { authority == Import }

    ghost predicate ContainsAddress(a: Addr) {
      base <= a < End() && (blocks == [] || Covered(blocks, a) || authority == Config || authority == Pdata)
    }

    predicate CanSeal() {
      state == Lifecycle.Discovered && (IsImport() || (blocks != [] && unresolved == []))
    }

    /** Discovered -> Sealed. */
    function Sealed(): Node
      requires CanSeal()
    {
      this.(blocks := SealedBlocks(blocks), state := Lifecycle.Sealed)
    }

    /** Registered -> Discovered. */
    function WithBlocks(bs: seq<Block>, insns: seq<Addr>, ls: set<Addr>): Node {
      this.(blocks := bs, instructions := insns, labels := ls, size := Grow(base, size, bs), state := Lifecycle.Discovered)
    }

    function Resolved(edge: Edge, isCall: bool): Node {
      if isCall then this.(calls := calls + [edge]) else this.(tailCalls := tailCalls + [edge])
    }

    function Parked(jump: UnresolvedJump): Node { this.(unresolved := unresolved + [jump]) }

    /** After a function entered the graph at `entry`: its parked branches there become tail calls, last first. */
    function Notified(entry: Addr): Node {
      if state == Lifecycle.Sealed then this
      else this.(tailCalls := tailCalls + Claimed(unresolved, entry), unresolved := Unclaimed(unresolved, entry))
    }
  }

  function Fresh(base: Addr, size: nat, authority: Authority): Node {
    Node(base, size, authority, Registered, [], [], {}, [], [], [], [])
  }

  /** The size after every block that runs past the end has pushed the end out. */
  function Grow(base: Addr, size: nat, blocks: seq<Block>): nat
  {
    if blocks == [] then size
    else
      var s := Grow(base, size, blocks[..|blocks|-1]);
      var b := blocks[|blocks|-1];
      if b.End() > Wrap(base + s) then Wrap(b.End() + LIMIT - Wrap(base)) else s
  }

  lemma GrowNothing(base: Addr, size: nat)
    ensures Grow(base, size, []) == size
  {
  }

  lemma GrowMore(base: Addr, size: nat, blocks: seq<Block>, i: nat)
    requires i < |blocks|
    ensures var s, b := Grow(base, size, blocks[..i]), blocks[i];
      Grow(base, size, blocks[..i+1]) == if b.End() > Wrap(base + s) then Wrap(b.End() + LIMIT - Wrap(base)) else s
  {
    assert blocks[..i+1][..i] == blocks[..i];
  }

  function Claimed(jumps: seq<UnresolvedJump>, entry: Addr): seq<Edge> {
    if jumps == [] then []
    else
      var j := jumps[|jumps|-1];
      (if j.target == entry then [Edge(j.site, entry)] else []) + Claimed(jumps[..|jumps|-1], entry)
  }

  function Unclaimed(jumps: seq<UnresolvedJump>, entry: Addr): seq<UnresolvedJump> {
    if jumps == [] then []
    else
      var j := jumps[|jumps|-1];
      Unclaimed(jumps[..|jumps|-1], entry) + (if j.target == entry then [] else [j])
  }

  /** The parked branches as (site, target). */
  ghost function ParkedEdges(jumps: seq<UnresolvedJump>): multiset<Edge> {
    if jumps == [] then multiset{}
    else
      var j := jumps[|jumps|-1];
      ParkedEdges(jumps[..|jumps|-1]) + multiset{Edge(j.site, j.target)}
  }

  lemma {:induction false} ClaimElements(jumps: seq<UnresolvedJump>, entry: Addr)
    ensures forall e | e in Claimed(jumps, entry) :: e.target == entry
    ensures forall j :: j in Unclaimed(jumps, entry) <==> j in jumps && j.target != entry
  {
    if jumps != [] {
      var init, j := jumps[..|jumps|-1], jumps[|jumps|-1];
      ClaimElements(init, entry);
      assert jumps == init + [j];
    }
  }

  /** Claiming moves exactly the branches to `entry` from parked to resolved. */
  lemma {:induction false} ClaimSplits(jumps: seq<UnresolvedJump>, entry: Addr)
    ensures multiset(Claimed(jumps, entry)) + ParkedEdges(Unclaimed(jumps, entry)) == ParkedEdges(jumps)
  {
    if jumps != [] {
      var init, j := jumps[..|jumps|-1], jumps[|jumps|-1];
      ClaimSplits(init, entry);
      if j.target != entry {
        ParkedEdgesAppend(Unclaimed(init, entry), j);
        assert Claimed(jumps, entry) == Claimed(init, entry);
      } else {
        assert Unclaimed(jumps, entry) == Unclaimed(init, entry);
      }
    }
  }

  lemma ParkedEdgesAppend(jumps: seq<UnresolvedJump>, j: UnresolvedJump)
    ensures ParkedEdges(jumps + [j]) == ParkedEdges(jumps) + multiset{Edge(j.site, j.target)}
  {
    assert (jumps + [j])[..|jumps|] == jumps;
  }

  lemma {:induction false} ParkedEdgesMember(jumps: seq<UnresolvedJump>, e: Edge)
    ensures e in ParkedEdges(jumps) <==> exists j :: j in jumps && Edge(j.site, j.target) == e
  {
    if jumps != [] {
      ParkedEdgesMember(jumps[..|jumps|-1], e);
      assert jumps == jumps[..|jumps|-1] + [jumps[|jumps|-1]];
    }
  }

  /** Sealing changes the block list but not the addresses the function contains. */
  lemma SealKeepsContainment(n: Node, a: Addr)
    requires n.CanSeal()
    ensures n.Sealed().ContainsAddress(a) <==> n.ContainsAddress(a)
    ensures Separated(n.Sealed().blocks)
  {
    SealedBlocksCorrect(n.blocks);
  }

  lemma WrapSmall(n: nat)
    requires n < LIMIT
    ensures Wrap(n) == n && Wrap(n + LIMIT) == n
  {
  }

  lemma {:induction false} GrowBounds(base: Addr, size: nat, blocks: seq<Block>)
    requires base + size < LIMIT
    requires forall b | b in blocks :: base <= b.base && b.End() < LIMIT
    ensures size <= Grow(base, size, blocks) && base + Grow(base, size, blocks) < LIMIT
    ensures forall b | b in blocks :: b.End() <= base + Grow(base, size, blocks)
  {
    if blocks != [] {
      var init, b := blocks[..|blocks|-1], blocks[|blocks|-1];
      assert blocks == init + [b];
      GrowBounds(base, size, init);
      WrapSmall(base + Grow(base, size, init));
      WrapSmall(base);
      WrapSmall(b.End() - base);
      hide Wrap;
    }
  }

  /** The size of a discovered function is the least that holds the size before and every block. */
  lemma {:induction false} GrowIsLeast(base: Addr, size: nat, blocks: seq<Block>)
    requires base + size < LIMIT
    requires forall b | b in blocks :: base <= b.base && b.End() < LIMIT
    ensures Grow(base, size, blocks) == size || exists b :: b in blocks && b.End() == base + Grow(base, size, blocks)
  {
    if blocks != [] {
      var init, b := blocks[..|blocks|-1], blocks[|blocks|-1];
      assert blocks == init + [b];
      GrowIsLeast(base, size, init);
      GrowBounds(base, size, init);
      WrapSmall(base + Grow(base, size, init));
      WrapSmall(base);
      WrapSmall(b.End() - base);
      hide Wrap;
    }
  }

  /** `n'` is `n` after a function entered the graph at `entry`: unless it is sealed, its parked branches there, and no
      others, have become tail calls. */
  ghost predicate IsNotified(n: Node, n': Node, entry: Addr) {
    if n.state == Lifecycle.Sealed then n' == n
    else
      && n' == n.(tailCalls := n'.tailCalls, unresolved := n'.unresolved)
      && (forall j :: j in n'.unresolved <==> j in n.unresolved && j.target != entry)
      && exists added ::
           && n'.tailCalls == n.tailCalls + added
           && (forall x | x in added :: x.target == entry)
           && multiset(added) + ParkedEdges(n'.unresolved) == ParkedEdges(n.unresolved)
  }

  lemma NotifiedInPlainTerms(n: Node, entry: Addr)
    ensures IsNotified(n, n.Notified(entry), entry)
  {
    ClaimElements(n.unresolved, entry);
    ClaimSplits(n.unresolved, entry);
    hide Claimed, Unclaimed, ParkedEdges;
    assert n.state != Lifecycle.Sealed ==> n.Notified(entry).tailCalls == n.tailCalls + Claimed(n.unresolved, entry);
  }

  /** A discovered function that declares no trusted size contains exactly the addresses of its blocks. */
  lemma DiscoveredContains(n: Node, bs: seq<Block>, insns: seq<Addr>, ls: set<Addr>, a: Addr)
    requires n.authority != Config && n.authority != Pdata && n.base + n.size < LIMIT
    requires bs != [] && forall b | b in bs :: n.base <= b.base && b.End() < LIMIT
    ensures n.WithBlocks(bs, insns, ls).ContainsAddress(a) <==> Covered(bs, a)
  {
    GrowBounds(n.base, n.size, bs);
  }

  /** The object the graph mutates. */
  class FunctionNode {
    const base: Addr
    const authority: Authority
    var size: nat
    var state: Lifecycle
    var blocks: seq<Block>
    var instructions: seq<Addr>
    var labels: set<Addr>
    var calls: seq<Edge>
    var tailCalls: seq<Edge>
    var jumpTables: seq<JumpTable>
    var unresolved: seq<UnresolvedJump>

    function View(): Node
      reads this
    {
      Node(base, size, authority, state, blocks, instructions, labels, calls, tailCalls, jumpTables, unresolved)
    }

    constructor (base: Addr, size: nat, authority: Authority)
      ensures View() == Fresh(base, size, authority)
    {
      this.base, this.size, this.authority := base, size, authority;
      state, blocks, instructions, labels := Registered, [], [], {};
      calls, tailCalls, jumpTables, unresolved := [], [], [], [];
    }

    method Discover(bs: seq<Block>, insns: seq<Addr>, ls: set<Addr>)
      requires state == Registered && (View().IsImport() || bs != [])
      modifies this
      ensures View() == old(View()).WithBlocks(bs, insns, ls)
    {
      hide Grow;
      blocks, instructions, labels := bs, insns, ls;
      GrowNothing(base, size);
      assert bs[..0] == [];
      for i := 0 to |bs|
        invariant size == Grow(base, old(size), bs[..i])
        invariant View() == old(View()).(blocks := bs, instructions := insns, labels := ls, size := size)
      {
        GrowMore(base, old(size), bs, i);
        if bs[i].End() > Wrap(base + size) {
          size := Wrap(bs[i].End() + LIMIT - Wrap(base));
        }
      }
      assert bs[..|bs|] == bs;
      state := Lifecycle.Discovered;
    }

    method DiscoverAsImport()
      requires state == Registered && View().IsImport()
      modifies this
      ensures View() == old(View()).(state := Lifecycle.Discovered)
    {
      state := Lifecycle.Discovered;
    }

    method Seal()
      requires View().CanSeal()
      modifies this
      ensures View() == old(View()).Sealed()
    {
      blocks := MergeBlocks(blocks);
      state := Lifecycle.Sealed;
    }

    method ContainsAddress(a: Addr) returns (r: bool)
      ensures r <==> View().ContainsAddress(a)
      ensures r <==> base <= a < (base + size) % 0x1_0000_0000
                     && (blocks == [] || authority in {Config, Pdata} || exists b :: b in blocks && b.base <= a < b.base + b.size)
    {
      if a < base || a >= Wrap(base + size) { return false; }
      if |blocks| == 0 { return true; }
      for i := 0 to |blocks|
        invariant forall k | 0 <= k < i :: !blocks[k].Contains(a)
      {
        if blocks[i].Contains(a) {
          assert Covered(blocks, a);
          return true;
        }
      }
      return authority == Config || authority == Pdata;
    }

    method AddEdge(edge: Edge, isCall: bool)
      modifies this
      ensures View() == old(View()).Resolved(edge, isCall)
    {
      if isCall { calls := calls + [edge]; } else { tailCalls := tailCalls + [edge]; }
    }

    method AddJumpTable(jt: JumpTable)
      modifies this
      ensures View() == old(View()).(labels := old(labels) + (set t | t in jt.targets), jumpTables := old(jumpTables) + [jt])
    {
      labels := labels + (set t | t in jt.targets);
      jumpTables := jumpTables + [jt];
    }

    method AddUnresolvedJump(jump: UnresolvedJump)
      modifies this
      ensures View() == old(View()).Parked(jump)
    {
      unresolved := unresolved + [jump];
    }

    /** Removes every parked branch at a site. */
    method RemoveUnresolvedJump(site: Addr)
      modifies this
      ensures View() == old(View()).(unresolved := WithoutSite(old(unresolved), site))
    {
      unresolved := WithoutSite(unresolved, site);
    }

    method TryResolveAsInternalLabel(target: Addr) returns (r: bool)
      modifies this
      ensures r <==> old(View()).ContainsAddress(target)
      ensures View() == if r then old(View()).(labels := old(labels) + {target}) else old(View())
    {
      r := ContainsAddress(target);
      if r { labels := labels + {target}; }
    }

    /** A new function entered the graph: claim every branch parked on its entry, from the last to the first. */
    method TryResolveAgainst(entry: Addr)
      modifies this
      ensures View() == old(View()).Notified(entry)
    {
      if state == Lifecycle.Sealed { return; }
      NotifiedIs(View(), entry);
      ghost var jumps, edges := unresolved, tailCalls;
      var i := |unresolved|;
      AgainstStart(jumps, edges, entry);
      hide Node.Notified, Against, Claimed, Unclaimed;
      while i > 0
        invariant 0 <= i <= |jumps| && Against(jumps, edges, entry, i, unresolved, tailCalls)
        invariant View() == old(View()).(tailCalls := tailCalls, unresolved := unresolved)
      {
        i := i - 1;
        AgainstStep(jumps, edges, entry, i, unresolved, tailCalls);
        var j := unresolved[i];
        if j.target == entry {
          tailCalls := tailCalls + [Edge(j.site, entry)];
          unresolved := unresolved[..i] + unresolved[i+1..];
        }
      }
      AgainstEnd(jumps, edges, entry, unresolved, tailCalls);
    }
  }

  lemma NotifiedIs(n: Node, entry: Addr)
    ensures n.state != Lifecycle.Sealed ==>
      n.Notified(entry) == n.(tailCalls := n.tailCalls + Claimed(n.unresolved, entry), unresolved := Unclaimed(n.unresolved, entry))
  {
  }

  /** How far the removal loop is: the parked branches below `i` and those kept above it, and the edges so far. */
  ghost predicate Against(jumps: seq<UnresolvedJump>, edges: seq<Edge>, entry: Addr, i: nat, parked: seq<UnresolvedJump>,
                          now: seq<Edge>)
    requires i <= |jumps|
  {
    parked == jumps[..i] + Skipped(jumps, i, entry) && edges + Claimed(jumps, entry) == now + Claimed(jumps[..i], entry)
  }

  lemma AgainstStart(jumps: seq<UnresolvedJump>, edges: seq<Edge>, entry: Addr)
    ensures Against(jumps, edges, entry, |jumps|, jumps, edges)
  {
    hide Claimed, Skipped;
    SkippedEnd(jumps, entry);
    assert jumps[..|jumps|] == jumps;
  }

  lemma AgainstStep(jumps: seq<UnresolvedJump>, edges: seq<Edge>, entry: Addr, i: nat, parked: seq<UnresolvedJump>,
                    now: seq<Edge>)
    requires i < |jumps| && Against(jumps, edges, entry, i + 1, parked, now)
    ensures i < |parked| && parked[i] == jumps[i]
    ensures if jumps[i].target == entry
      then Against(jumps, edges, entry, i, parked[..i] + parked[i+1..], now + [Edge(jumps[i].site, entry)])
      else Against(jumps, edges, entry, i, parked, now)
  {
    hide Claimed, Skipped;
    SkippedNext(jumps, i, entry);
    DropOne(jumps, i, Skipped(jumps, i + 1, entry));
    ClaimNext(now, jumps, i, entry);
  }

  lemma AgainstEnd(jumps: seq<UnresolvedJump>, edges: seq<Edge>, entry: Addr, parked: seq<UnresolvedJump>, now: seq<Edge>)
    requires Against(jumps, edges, entry, 0, parked, now)
    ensures parked == Unclaimed(jumps, entry) && now == edges + Claimed(jumps, entry)
  {
    NothingClaimed(jumps, entry);
    SkippedAll(jumps, entry);
    hide Claimed, Unclaimed, Skipped;
    assert jumps[..0] + Skipped(jumps, 0, entry) == Skipped(jumps, 0, entry);
    assert now + [] == now;
  }

  lemma ClaimNext(edges: seq<Edge>, jumps: seq<UnresolvedJump>, i: nat, entry: Addr)
    requires i < |jumps|
    ensures edges + Claimed(jumps[..i+1], entry) ==
      (if jumps[i].target == entry then edges + [Edge(jumps[i].site, entry)] else edges) + Claimed(jumps[..i], entry)
  {
    assert jumps[..i+1][..i] == jumps[..i];
  }

  /** Element `i` of the first `i + 1` elements and some more, and what is left without it. */
  lemma DropOne<T>(s: seq<T>, i: nat, rest: seq<T>)
    requires i < |s|
    ensures var all := s[..i+1] + rest;
      && all == s[..i] + ([s[i]] + rest)
      && all[i] == s[i] && all[..i] + all[i+1..] == s[..i] + rest
  {
  }

  lemma SkippedNext(jumps: seq<UnresolvedJump>, i: nat, entry: Addr)
    requires i < |jumps|
    ensures Skipped(jumps, i, entry) ==
      (if jumps[i].target == entry then [] else [jumps[i]]) + Skipped(jumps, i + 1, entry)
  {
  }

  lemma SkippedEnd(jumps: seq<UnresolvedJump>, entry: Addr)
    ensures Skipped(jumps, |jumps|, entry) == []
  {
  }

  lemma NothingClaimed(jumps: seq<UnresolvedJump>, entry: Addr)
    ensures jumps[..0] == [] && Claimed(jumps[..0], entry) == []
  {
  }

  lemma {:induction false} SkippedFrom(jumps: seq<UnresolvedJump>, n: nat, entry: Addr)
    requires n <= |jumps|
    ensures Unclaimed(jumps[..n], entry) + Skipped(jumps, n, entry) == Skipped(jumps, 0, entry)
  {
    hide *;
    UnclaimedNext(jumps, n, entry);
    if n > 0 {
      SkippedFrom(jumps, n - 1, entry);
      SkippedNext(jumps, n - 1, entry);
      var j := if jumps[n-1].target == entry then [] else [jumps[n-1]];
      Regroup(Unclaimed(jumps[..n-1], entry), j, Skipped(jumps, n, entry));
    } else {
      assert [] + Skipped(jumps, 0, entry) == Skipped(jumps, 0, entry);
    }
  }

  lemma Regroup<T>(a: seq<T>, b: seq<T>, c: seq<T>)
    ensures a + (b + c) == (a + b) + c
  {
  }

  lemma SkippedAll(jumps: seq<UnresolvedJump>, entry: Addr)
    ensures Skipped(jumps, 0, entry) == Unclaimed(jumps, entry)
  {
    hide *;
    SkippedFrom(jumps, |jumps|, entry);
    SkippedEnd(jumps, entry);
    assert jumps[..|jumps|] == jumps;
    assert Unclaimed(jumps, entry) + [] == Unclaimed(jumps, entry);
  }

  lemma UnclaimedNext(jumps: seq<UnresolvedJump>, n: nat, entry: Addr)
    requires n <= |jumps|
    ensures Unclaimed(jumps[..0], entry) == []
    ensures n > 0 ==> Unclaimed(jumps[..n], entry) == Unclaimed(jumps[..n-1], entry) + (if jumps[n-1].target == entry then [] else [jumps[n-1]])
  {
    if n > 0 { assert jumps[..n][..n-1] == jumps[..n-1]; }
  }

  /** The branches at or after index `i` not to `entry`. */
  ghost function Skipped(jumps: seq<UnresolvedJump>, i: nat, entry: Addr): seq<UnresolvedJump>
    requires i <= |jumps|
    decreases |jumps| - i
  {
    if i == |jumps| then []
    else (if jumps[i].target == entry then [] else [jumps[i]]) + Skipped(jumps, i + 1, entry)
  }

  function WithoutSite(jumps: seq<UnresolvedJump>, site: Addr): seq<UnresolvedJump> {
    if jumps == [] then []
    else WithoutSite(jumps[..|jumps|-1], site) + (if jumps[|jumps|-1].site == site then [] else [jumps[|jumps|-1]])
  }
}
