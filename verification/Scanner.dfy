/** Block discovery: a worklist walk over the instructions reachable from an entry point. */
module Scanner {
  import opened Code
  import opened Sorting

  const MAX_BLOCKS: nat := 4096

  /** Size of the stand-in region for an entry point that no region contains. */
  const DEFAULT_EXTENT: nat := 0x100000

  datatype Branch = UnresolvedBranch(site: Addr, target: Addr, isCall: bool, isConditional: bool)

  datatype DiscoveryResult = DiscoveryResult(
    blocks: seq<Block>, instructions: seq<Addr>, labels: set<Addr>,
    externalCalls: seq<Addr>, tailCalls: seq<Addr>, branches: seq<Branch>, jumpTables: seq<JumpTable>)
  {
    /** The lists after the instruction at `a` is recorded. */
    function Record(sc: Scope, a: Addr): DiscoveryResult
      requires Decodes(sc.image, a)
    {
      var insn := sc.image[a];
      this.(
        instructions := instructions + [a],
        externalCalls := externalCalls + (if sc.CallsOut(a, insn.target) then [insn.target] else []),
        tailCalls := tailCalls + (if sc.TailCalls(a, insn.target) then [insn.target] else []),
        branches := branches + (if sc.BranchOf(a).Some? then [sc.BranchOf(a).value] else []),
        jumpTables := jumpTables + (if insn.flow == IndirectBranch && sc.tableOf(a).Some? then [sc.tableOf(a).value] else []))
    }
  }

  /** What one discovery is given: the extent it may walk, the entry points it must not enter by a branch,
      and the jump table (hand-written or detected) of each indirect jump. */
  datatype Scope = Scope(image: Image, entry: Addr, funcEnd: Addr, known: set<Addr>, tableOf: Addr -> Option<JumpTable>) {
    ghost predicate Valid() {
      && ValidImage(image)
      && entry < LIMIT
      && forall a | tableOf(a).Some? :: forall t | t in tableOf(a).value.targets :: t < LIMIT
    }

    predicate Within(a: Addr) { entry <= a < funcEnd }

    predicate IsInternalTarget(t: Addr) { entry <= t < funcEnd && (t == entry || t !in known) }

    predicate AcceptsTableTarget(t: Addr) { t != 0 && (t == entry || t !in known) }

    /** The walk records an instruction here once it gets here. */
    predicate Recordable(a: Addr) { Within(a) && Decodes(image, a) }

    /** Where control can go next without leaving the function, as far as the analysis can tell. */
    ghost predicate Leads(a: Addr, t: Addr)
      requires Decodes(image, a)
    {
      var insn := image[a];
      (t == EndOf(image, a) && !EndsBlock(insn.flow))
      || ((insn.flow == UnconditionalBranch || insn.flow == ConditionalBranch)
          && t == insn.target && t != 0 && IsInternalTarget(t))
      || (insn.flow == IndirectBranch && tableOf(a).Some? && t in tableOf(a).value.targets && AcceptsTableTarget(t))
    }

    /** Contains the entry, if it can be recorded, and whatever it leads to that can be recorded. */
    ghost predicate Closed(s: set<Addr>) {
      && (Recordable(entry) ==> entry in s)
      && forall a, t | a in s && Decodes(image, a) && Leads(a, t) && Recordable(t) :: t in s
    }

    /** The least closed set of recordable addresses: reachability. */
    ghost predicate IsLeastClosed(d: set<Addr>) {
      && (forall a | a in d :: Recordable(a))
      && Closed(d)
      && forall s: set<Addr> | Closed(s) :: d <= s
    }

    /** The addresses queued (and labelled) on visiting `a`, in order. */
    function Queued(a: Addr): seq<Addr>
      requires Decodes(image, a)
    {
      var insn := image[a];
      match insn.flow
      case UnconditionalBranch => if insn.target != 0 && IsInternalTarget(insn.target) then [insn.target] else []
      case ConditionalBranch =>
        (if insn.target != 0 && IsInternalTarget(insn.target) then [insn.target] else [])
        + (if IsInternalTarget(EndOf(image, a)) then [EndOf(image, a)] else [])
      case IndirectBranch => if tableOf(a).Some? then Accepted(tableOf(a).value.targets) else []
      case _ => []
    }

    function Accepted(targets: seq<Addr>): seq<Addr> {
      if targets == [] then []
      else (if AcceptsTableTarget(targets[0]) then [targets[0]] else []) + Accepted(targets[1..])
    }

    /** The branch record left by `a`: direct calls, and direct jumps the walk does not follow. */
    function BranchOf(a: Addr): Option<Branch>
      requires Decodes(image, a)
    {
      var insn := image[a];
      if insn.target == 0 then None
      else if insn.flow == Flow.Call then Some(UnresolvedBranch(a, insn.target, true, false))
      else if insn.flow == ConditionalBranch && !IsInternalTarget(insn.target) then
        Some(UnresolvedBranch(a, insn.target, false, true))
      else if insn.flow == UnconditionalBranch && !IsInternalTarget(insn.target) then
        Some(UnresolvedBranch(a, insn.target, false, false))
      else None
    }

    predicate CallsOut(a: Addr, t: Addr)
      requires Decodes(image, a)
    {
      image[a].flow == Flow.Call && t == image[a].target && t != 0 && t != entry
    }

    predicate TailCalls(a: Addr, t: Addr)
      requires Decodes(image, a)
    {
      image[a].flow == UnconditionalBranch && t == image[a].target && t != 0 && !IsInternalTarget(t)
    }

    predicate HasTable(a: Addr, jt: JumpTable)
      requires Decodes(image, a)
    {
      image[a].flow == IndirectBranch && tableOf(a) == Some(jt)
    }
  }

  predicate EndsBlock(flow: Flow) {
    flow == Return || flow == UnconditionalBranch || flow == IndirectBranch
  }

  /** The state of a walk: the bookkeeping sets, the queue, and the result lists so far. */
  datatype Walk = Walk(visited: set<Addr>, starts: set<Addr>, worklist: seq<Addr>, result: DiscoveryResult) {
    function Enqueue(t: Addr): Walk {
      var w := this.(result := result.(labels := result.labels + {t}));
      if t in visited || t in starts then w else w.(starts := starts + {t}, worklist := worklist + [t])
    }

    function EnqueueAll(ts: seq<Addr>): Walk
      decreases |ts|
    {
      if ts == [] then this else Enqueue(ts[0]).EnqueueAll(ts[1..])
    }

    /** The state after visiting the instruction at `a`. */
    function Visit(sc: Scope, a: Addr): Walk
      requires Decodes(sc.image, a)
    {
      this.(visited := visited + {a}, result := result.Record(sc, a)).EnqueueAll(sc.Queued(a))
    }
  }

  // ---------- What every step of the walk keeps ----------

  /** Everything reachable is visited, queued, or about to be visited (`pending`). */
  ghost predicate Closing(sc: Scope, w: Walk, pending: set<Addr>) {
    && (forall a | a in w.visited :: sc.Recordable(a))
    && sc.entry in w.starts
    && (forall a, t | a in w.visited && sc.Leads(a, t) && sc.Recordable(t) ::
          t in w.visited || t in w.starts || t in pending)
    && (forall b | b in w.starts && sc.Recordable(b) :: b in w.visited || b in w.worklist || b in pending)
  }

  /** Nothing unreachable is. */
  ghost predicate Reached(sc: Scope, w: Walk, pending: set<Addr>) {
    forall s: set<Addr> | sc.Closed(s) ::
      forall t | sc.Recordable(t) && (t in w.visited || t in w.starts || t in pending) :: t in s
  }

  ghost predicate InBlocks(image: Image, blocks: seq<Block>, a: Addr)
    requires ValidImage(image)
  {
    exists b :: b in blocks && a in TileStarts(image, b.base, b.End())
  }

  /** The finished blocks and the open one, [lo, hi), are made of exactly the visited instructions. */
  ghost predicate BlocksTiled(sc: Scope, w: Walk, lo: Addr, hi: Addr)
    requires sc.Valid()
  {
    var blocks := w.result.blocks;
    && (forall b | b in blocks :: b.size > 0 && Tiled(sc.image, b.base, b.End()))
    && Tiled(sc.image, lo, hi)
    && (forall a :: a in w.visited <==>
          a in TileStarts(sc.image, lo, hi) || InBlocks(sc.image, blocks, a))
    && (forall b | b in blocks :: b.base in w.visited)
    && Distinct((b: Block) => b.base, blocks)
    && (forall a :: a in w.result.instructions <==> a in w.visited)
  }

  /** The result lists hold exactly the records of the visited instructions. */
  ghost predicate Recorded(sc: Scope, visited: set<Addr>, r: DiscoveryResult)
    requires forall a | a in visited :: Decodes(sc.image, a)
  {
    && (forall b :: b in r.branches <==> b.site in visited && sc.BranchOf(b.site) == Some(b))
    && (forall t :: t in r.externalCalls <==> exists a :: a in visited && sc.CallsOut(a, t))
    && (forall t :: t in r.tailCalls <==> exists a :: a in visited && sc.TailCalls(a, t))
    && (forall jt :: jt in r.jumpTables <==> exists a :: a in visited && sc.HasTable(a, jt))
    && (forall t :: t in r.labels <==> exists a :: a in visited && t in sc.Queued(a))
  }

  lemma {:induction false} EnqueueAllEffect(w: Walk, ts: seq<Addr>)
    ensures var w' := w.EnqueueAll(ts);
      && w'.visited == w.visited
      && w'.result == w.result.(labels := w.result.labels + (set t | t in ts))
      && (forall t :: t in w'.starts <==> t in w.starts || (t in ts && t !in w.visited))
      && w.worklist <= w'.worklist
      && (forall t | t in w'.starts && t !in w.starts :: t in w'.worklist)
      && (forall t | t in w'.worklist :: t in w.worklist || t in w'.starts)
    decreases |ts|
  {
    if ts != [] {
      EnqueueAllEffect(w.Enqueue(ts[0]), ts[1..]);
      assert ts == [ts[0]] + ts[1..];
      var x := w.Enqueue(ts[0]);
      var w' := w.EnqueueAll(ts);
      assert w'.result.labels == w.result.labels + (set t | t in ts);
      assert forall u | u in x.worklist :: u in w'.worklist;
    }
  }

  lemma {:induction false} AcceptedElements(sc: Scope, ts: seq<Addr>)
    ensures forall t :: t in sc.Accepted(ts) <==> t in ts && sc.AcceptsTableTarget(t)
  {
    if ts != [] {
      AcceptedElements(sc, ts[1..]);
      assert ts == [ts[0]] + ts[1..];
    }
  }

  /** What is queued is led to, and what is led to is queued or is the next instruction of the walk. */
  lemma QueuedIsLed(sc: Scope, a: Addr)
    requires Decodes(sc.image, a)
    ensures forall t | t in sc.Queued(a) && sc.Recordable(t) :: sc.Leads(a, t)
    ensures forall t | sc.Leads(a, t) :: t in sc.Queued(a) || (t == EndOf(sc.image, a) && !EndsBlock(sc.image[a].flow))
  {
    if sc.image[a].flow == IndirectBranch && sc.tableOf(a).Some? {
      AcceptedElements(sc, sc.tableOf(a).value.targets);
    }
  }

  ghost function Pending(sc: Scope, a: Addr): set<Addr>
    requires Decodes(sc.image, a)
  {
    if EndsBlock(sc.image[a].flow) then {} else {EndOf(sc.image, a)}
  }

  lemma VisitKeepsClosing(sc: Scope, w: Walk, a: Addr)
    requires Closing(sc, w, {a}) && sc.Recordable(a)
    ensures Closing(sc, w.Visit(sc, a), Pending(sc, a))
  {
    var w' := w.Visit(sc, a);
    QueuedIsLed(sc, a);
    VisitSets(sc, w, a);
    forall x, t | x in w'.visited && sc.Leads(x, t) && sc.Recordable(t)
      ensures t in w'.visited || t in w'.starts || t in Pending(sc, a)
    {
    }
  }

  lemma VisitSets(sc: Scope, w: Walk, a: Addr)
    requires Decodes(sc.image, a)
    ensures var w' := w.Visit(sc, a);
      && w'.visited == w.visited + {a}
      && (forall t :: t in w'.starts <==> t in w.starts || (t in sc.Queued(a) && t !in w.visited + {a}))
      && w.worklist <= w'.worklist
      && (forall t | t in w'.starts && t !in w.starts :: t in w'.worklist)
      && w'.result == w.result.Record(sc, a).(labels := w.result.labels + (set t | t in sc.Queued(a)))
  {
    EnqueueAllEffect(w.(visited := w.visited + {a}, result := w.result.Record(sc, a)), sc.Queued(a));
  }

  lemma VisitKeepsReached(sc: Scope, w: Walk, a: Addr)
    requires Closing(sc, w, {a}) && Reached(sc, w, {a}) && sc.Recordable(a)
    ensures Reached(sc, w.Visit(sc, a), Pending(sc, a))
  {
    var w' := w.Visit(sc, a);
    VisitSets(sc, w, a);
    QueuedIsLed(sc, a);
    forall s: set<Addr>, t | sc.Closed(s) && sc.Recordable(t) && (t in w'.visited || t in w'.starts || t in Pending(sc, a))
      ensures t in s
    {
      assert a in s;
      if t in sc.Queued(a) || t in Pending(sc, a) {
        assert sc.Leads(a, t);
      }
    }
  }

  lemma VisitKeepsTiled(sc: Scope, w: Walk, lo: Addr, a: Addr)
    requires sc.Valid() && BlocksTiled(sc, w, lo, a) && Decodes(sc.image, a)
    ensures BlocksTiled(sc, w.Visit(sc, a), lo, EndOf(sc.image, a))
  {
    VisitSets(sc, w, a);
    TileExtend(sc.image, lo, a);
    var w' := w.Visit(sc, a);
    forall x ensures x in w'.visited <==>
          x in TileStarts(sc.image, lo, EndOf(sc.image, a)) || InBlocks(sc.image, w.result.blocks, x)
    {
      assert x in w'.visited <==> x in w.visited || x == a;
    }
  }

  lemma VisitKeepsRecorded(sc: Scope, w: Walk, a: Addr)
    requires Closing(sc, w, {a}) && sc.Recordable(a) && Recorded(sc, w.visited, w.result)
    ensures forall x | x in w.Visit(sc, a).visited :: Decodes(sc.image, x)
    ensures Recorded(sc, w.Visit(sc, a).visited, w.Visit(sc, a).result)
  {
    VisitSets(sc, w, a);
    hide Walk.Visit;
    RecordKeepsRecorded(sc, w.visited, w.result, a);
  }

  /** Each list gets what its instruction leaves. */
  lemma RecordIs(sc: Scope, r: DiscoveryResult, a: Addr)
    requires Decodes(sc.image, a)
    ensures var r' := r.Record(sc, a);
      && r'.labels == r.labels && r'.blocks == r.blocks
      && (forall t :: t in r'.externalCalls <==> t in r.externalCalls || sc.CallsOut(a, t))
      && (forall t :: t in r'.tailCalls <==> t in r.tailCalls || sc.TailCalls(a, t))
      && (forall jt :: jt in r'.jumpTables <==> jt in r.jumpTables || sc.HasTable(a, jt))
      && (forall b :: b in r'.branches <==> b in r.branches || (b.site == a && sc.BranchOf(a) == Some(b)))
  {
  }

  /** The records of one more instruction. */
  lemma RecordKeepsRecorded(sc: Scope, visited: set<Addr>, r: DiscoveryResult, a: Addr)
    requires Decodes(sc.image, a) && (forall x | x in visited :: Decodes(sc.image, x)) && Recorded(sc, visited, r)
    ensures Recorded(sc, visited + {a}, r.Record(sc, a).(labels := r.labels + (set t | t in sc.Queued(a))))
  {
    RecordIs(sc, r, a);
    hide Scope.Queued, Scope.CallsOut, Scope.TailCalls, Scope.HasTable, Scope.BranchOf, DiscoveryResult.Record;
    var r', v := r.Record(sc, a).(labels := r.labels + (set t | t in sc.Queued(a))), visited + {a};
    forall t ensures t in r'.externalCalls <==> exists x :: x in v && sc.CallsOut(x, t) {
      if t in r'.externalCalls && t !in r.externalCalls { assert sc.CallsOut(a, t); }
    }
    forall t ensures t in r'.tailCalls <==> exists x :: x in v && sc.TailCalls(x, t) {
      if t in r'.tailCalls && t !in r.tailCalls { assert sc.TailCalls(a, t); }
    }
    forall jt ensures jt in r'.jumpTables <==> exists x :: x in v && sc.HasTable(x, jt) {
      if jt in r'.jumpTables && jt !in r.jumpTables { assert sc.HasTable(a, jt); }
    }
    forall t ensures t in r'.labels <==> exists x :: x in v && t in sc.Queued(x) {
      if t in r'.labels && t !in r.labels { assert t in sc.Queued(a); }
    }
  }

  // ---------- Termination: each address is queued at most once ----------

  ghost predicate IsWord(a: Addr) { a < LIMIT }

  ghost function Words(): set<Addr> { set a: Addr | a < LIMIT && IsWord(a) }

  /** Queue entries still to come: those queued now and the addresses never queued. */
  ghost function Remaining(w: Walk): nat { |w.worklist| + |Words() - w.starts| }

  lemma {:induction false} EnqueueAllKeepsRemaining(w: Walk, ts: seq<Addr>)
    requires forall t | t in ts :: t < LIMIT
    ensures Remaining(w.EnqueueAll(ts)) == Remaining(w)
    decreases |ts|
  {
    if ts != [] {
      var x := w.Enqueue(ts[0]);
      assert ts[0] in ts && IsWord(ts[0]);
      if x.starts != w.starts {
        assert Words() - x.starts == (Words() - w.starts) - {ts[0]};
      }
      assert forall t | t in ts[1..] :: t in ts;
      EnqueueAllKeepsRemaining(x, ts[1..]);
    }
  }

  lemma VisitKeepsRemaining(sc: Scope, w: Walk, a: Addr)
    requires sc.Valid() && Decodes(sc.image, a)
    ensures Remaining(w.Visit(sc, a)) == Remaining(w)
  {
    if sc.image[a].flow == IndirectBranch && sc.tableOf(a).Some? {
      AcceptedElements(sc, sc.tableOf(a).value.targets);
    }
    var w' := w.Visit(sc, a);
    var v := w.(visited := w.visited + {a}, result := w.result.Record(sc, a));
    VisitSets(sc, w, a);
    assert w' == v.EnqueueAll(sc.Queued(a));
    EnqueueAllKeepsRemaining(v, sc.Queued(a));
  }

  // ---------- The walk ----------

  ghost predicate WalkInv(sc: Scope, w: Walk, pending: set<Addr>, lo: Addr, hi: Addr)
    requires sc.Valid()
  {
    && Closing(sc, w, pending)
    && Reached(sc, w, pending)
    && BlocksTiled(sc, w, lo, hi)
    && Recorded(sc, w.visited, w.result)
    && EntryFirst(sc, w, pending)
    && AllEntered(sc, w, pending)
    && forall t | t in w.worklist :: t in w.starts
  }

  /** How the walk got to `x`: it is the entry, a label, or what some recorded instruction falls through to. */
  ghost predicate Entered(sc: Scope, d: set<Addr>, labels: set<Addr>, x: Addr) {
    x == sc.entry || x in labels || exists a :: a in d && FallsTo(sc.image, a, x)
  }

  predicate FallsTo(image: Image, a: Addr, x: Addr) { a in image && EndOf(image, a) == x && !EndsBlock(image[a].flow) }

  ghost predicate AllEntered(sc: Scope, w: Walk, pending: set<Addr>) {
    forall x | x in w.visited || x in w.starts || x in pending :: Entered(sc, w.visited, w.result.labels, x)
  }

  lemma VisitKeepsEntered(sc: Scope, w: Walk, a: Addr)
    requires AllEntered(sc, w, {a}) && Decodes(sc.image, a)
    ensures AllEntered(sc, w.Visit(sc, a), Pending(sc, a))
  {
    VisitSets(sc, w, a);
    var w' := w.Visit(sc, a);
    RecordKeepsLabels(sc, w.result, a);
    hide Walk.Visit, Scope.Queued, DiscoveryResult.Record;
    forall x | x in w'.visited || x in w'.starts || x in Pending(sc, a)
      ensures Entered(sc, w'.visited, w'.result.labels, x)
    {
      if x in Pending(sc, a) {
        assert a in w'.visited && FallsTo(sc.image, a, x);
      } else if x !in w.starts && x in sc.Queued(a) {
        assert x in w'.result.labels;
      } else {
        EnteredGrows(sc, w.visited, w'.visited, w.result.labels, w'.result.labels, x);
      }
    }
  }

  lemma RecordKeepsLabels(sc: Scope, r: DiscoveryResult, a: Addr)
    requires Decodes(sc.image, a)
    ensures r.Record(sc, a).labels == r.labels
  {
  }

  lemma EnteredGrows(sc: Scope, d: set<Addr>, d': set<Addr>, labels: set<Addr>, labels': set<Addr>, x: Addr)
    requires Entered(sc, d, labels, x) && d <= d' && labels <= labels'
    ensures Entered(sc, d', labels', x)
  {
  }

  /** The entry is the first instruction visited. */
  ghost predicate EntryFirst(sc: Scope, w: Walk, pending: set<Addr>) {
    if w.visited == {} then w.starts == {sc.entry} && pending <= {sc.entry} else sc.entry in w.visited
  }

  lemma VisitKeepsInv(sc: Scope, w: Walk, lo: Addr, a: Addr)
    requires sc.Valid() && sc.Within(a) && Decodes(sc.image, a) && WalkInv(sc, w, {a}, lo, a)
    ensures WalkInv(sc, w.Visit(sc, a), Pending(sc, a), lo, EndOf(sc.image, a))
    ensures Remaining(w.Visit(sc, a)) == Remaining(w)
    ensures a in sc.image && a < EndOf(sc.image, a) && a < sc.funcEnd
    ensures Pending(sc, a) == if EndsBlock(sc.image[a].flow) then {} else {EndOf(sc.image, a)}
    ensures w.Visit(sc, a).result.blocks == w.result.blocks && w.visited <= w.Visit(sc, a).visited
  {
    VisitSets(sc, w, a);
    VisitKeepsClosing(sc, w, a);
    VisitKeepsReached(sc, w, a);
    VisitKeepsTiled(sc, w, lo, a);
    VisitKeepsRecorded(sc, w, a);
    VisitKeepsRemaining(sc, w, a);
    VisitKeepsEntered(sc, w, a);
    VisitQueuesStarts(sc, w, a);
  }

  lemma VisitQueuesStarts(sc: Scope, w: Walk, a: Addr)
    requires Decodes(sc.image, a) && forall t | t in w.worklist :: t in w.starts
    ensures forall t | t in w.Visit(sc, a).worklist :: t in w.Visit(sc, a).starts
  {
    var w' := w.Visit(sc, a);
    VisitSets(sc, w, a);
    var v := w.(visited := w.visited + {a}, result := w.result.Record(sc, a));
    assert w' == v.EnqueueAll(sc.Queued(a));
    EnqueueAllEffect(v, sc.Queued(a));
  }

  /** The body of the inner loop: record the instruction at `a` and queue its targets. */
  method VisitInsn(sc: Scope, w: Walk, a: Addr) returns (w': Walk)
    requires Decodes(sc.image, a)
    ensures w' == w.Visit(sc, a)
  {
    var r := RecordInsn(sc, w.result, a);
    w' := FollowInsn(sc, w.(visited := w.visited + {a}, result := r), a);
  }

  method RecordInsn(sc: Scope, r: DiscoveryResult, a: Addr) returns (r': DiscoveryResult)
    requires Decodes(sc.image, a)
    ensures r' == r.Record(sc, a)
  {
    var insn := sc.image[a];
    r' := r.(instructions := r.instructions + [a]);
    if insn.flow == Flow.Call {
      if insn.target != 0 {
        r' := r'.(branches := r'.branches + [UnresolvedBranch(a, insn.target, true, false)]);
        if insn.target != sc.entry {
          r' := r'.(externalCalls := r'.externalCalls + [insn.target]);
        }
      }
    } else if insn.flow == ConditionalBranch {
      if insn.target != 0 && !sc.IsInternalTarget(insn.target) {
        r' := r'.(branches := r'.branches + [UnresolvedBranch(a, insn.target, false, true)]);
      }
    } else if insn.flow == UnconditionalBranch {
      if insn.target != 0 && !sc.IsInternalTarget(insn.target) {
        r' := r'.(tailCalls := r'.tailCalls + [insn.target],
                  branches := r'.branches + [UnresolvedBranch(a, insn.target, false, false)]);
      }
    } else if insn.flow == IndirectBranch {
      if sc.tableOf(a).Some? {
        r' := r'.(jumpTables := r'.jumpTables + [sc.tableOf(a).value]);
      }
    }
  }

  method FollowInsn(sc: Scope, w: Walk, a: Addr) returns (w': Walk)
    requires Decodes(sc.image, a)
    ensures w' == w.EnqueueAll(sc.Queued(a))
  {
    var insn := sc.image[a];
    var next := EndOf(sc.image, a);
    w' := w;
    if insn.flow == ConditionalBranch {
      if insn.target != 0 && sc.IsInternalTarget(insn.target) {
        w' := w'.Enqueue(insn.target);
      }
      if sc.IsInternalTarget(next) {
        w' := w'.Enqueue(next);
      }
      EnqueueTwo(w, insn.target, next);
      assert [insn.target] + [] == [insn.target] && [] + [next] == [next];
    } else if insn.flow == UnconditionalBranch {
      if insn.target != 0 && sc.IsInternalTarget(insn.target) {
        w' := w'.Enqueue(insn.target);
      }
      EnqueueTwo(w, insn.target, next);
    } else if insn.flow == IndirectBranch && sc.tableOf(a).Some? {
      w' := EnqueueTable(sc, w', sc.tableOf(a).value.targets);
    }
  }

  lemma EnqueueTwo(w: Walk, t: Addr, u: Addr)
    ensures w.EnqueueAll([]) == w && w.EnqueueAll([t]) == w.Enqueue(t) && w.EnqueueAll([u]) == w.Enqueue(u)
    ensures w.EnqueueAll([t] + [u]) == w.Enqueue(t).Enqueue(u)
  {
    assert [t][1..] == [] && [u][1..] == [];
    assert ([t] + [u])[1..] == [u];
    assert w.Enqueue(t).EnqueueAll([u]) == w.Enqueue(t).Enqueue(u).EnqueueAll([]);
  }

  /** The loop over the targets of a jump table. The source also moves the function end forward for a target at
      or past it but inside the region; the end starts as the region's, so that never happens. */
  method EnqueueTable(sc: Scope, w: Walk, targets: seq<Addr>) returns (w': Walk)
    ensures w' == w.EnqueueAll(sc.Accepted(targets))
  {
    w' := w;
    for i := 0 to |targets|
      invariant w'.EnqueueAll(sc.Accepted(targets[i..])) == w.EnqueueAll(sc.Accepted(targets))
    {
      var t := targets[i];
      assert targets[i..][1..] == targets[i+1..];
      if t != 0 && (t == sc.entry || t !in sc.known) {
        assert ([t] + sc.Accepted(targets[i+1..]))[1..] == sc.Accepted(targets[i+1..]);
        w' := w'.Enqueue(t);
      } else {
        assert [] + sc.Accepted(targets[i+1..]) == sc.Accepted(targets[i+1..]);
      }
    }
  }

  /** The inner loop: decode straight on from `start` until the block ends. */
  method WalkBlock(sc: Scope, w0: Walk, start: Addr) returns (w: Walk)
    requires sc.Valid() && sc.Within(start) && start !in w0.visited
    requires WalkInv(sc, w0, {start}, start, start)
    ensures WalkInv(sc, w, {}, sc.entry, sc.entry)
    ensures Remaining(w) == Remaining(w0)
  {
    hide *;
    BasesVisited(sc, w0, start);
    w := w0;
    var addr: Addr, blockSize := start, 0;
    ghost var hi: Addr, pending := start, {start};
    while sc.Within(addr)
      invariant start <= addr
      invariant WalkInv(sc, w, pending, start, hi)
      invariant hi == addr && pending == {addr} && blockSize == 0
      invariant w.result.blocks == w0.result.blocks && w0.visited <= w.visited && Remaining(w) == Remaining(w0)
      decreases sc.funcEnd - addr
    {
      if !Decodes(sc.image, addr) {
        blockSize := addr - start;
        break;
      }
      VisitKeepsInv(sc, w, start, addr);
      w := VisitInsn(sc, w, addr);
      var next := EndOf(sc.image, addr);
      hi, pending := next, Pending(sc, addr);
      if EndsBlock(sc.image[addr].flow) {
        blockSize := next - start;
        break;
      }
      addr := next;
    }
    if pending != {} {
      PendingDone(sc, w, addr, start, hi);
    }
    if blockSize == 0 {
      blockSize := addr - start;
    }
    if blockSize > 0 {
      CloseBlock(sc, w0, w, start, blockSize);
      w := w.(result := w.result.(blocks := w.result.blocks + [Block(start, blockSize)]));
    } else {
      NoOpenBlock(sc, w, start);
    }
  }

  lemma BasesVisited(sc: Scope, w: Walk, start: Addr)
    requires sc.Valid() && WalkInv(sc, w, {start}, start, start)
    ensures forall c | c in w.result.blocks :: c.base in w.visited
  {
  }

  lemma PendingDone(sc: Scope, w: Walk, a: Addr, lo: Addr, hi: Addr)
    requires sc.Valid() && WalkInv(sc, w, {a}, lo, hi) && !(sc.Within(a) && Decodes(sc.image, a))
    ensures WalkInv(sc, w, {}, lo, hi)
  {
  }

  lemma NoOpenBlock(sc: Scope, w: Walk, lo: Addr)
    requires sc.Valid() && WalkInv(sc, w, {}, lo, lo)
    ensures WalkInv(sc, w, {}, sc.entry, sc.entry)
  {
  }

  lemma CloseBlock(sc: Scope, w0: Walk, w: Walk, lo: Addr, size: nat)
    requires sc.Valid() && lo !in w0.visited && size > 0
    requires (forall c | c in w0.result.blocks :: c.base in w0.visited) && w.result.blocks == w0.result.blocks
    requires WalkInv(sc, w, {}, lo, lo + size)
    ensures var w' := w.(result := w.result.(blocks := w.result.blocks + [Block(lo, size)]));
      WalkInv(sc, w', {}, sc.entry, sc.entry) && Remaining(w') == Remaining(w)
  {
    hide Closing, Reached, BlocksTiled, Recorded, EntryFirst, Entered;
    var b := Block(lo, size);
    BlocksDoNotMatter(sc, w, w.result.blocks + [b]);
    AddBlockKeepsTiled(sc, w0, w, b);
  }

  lemma BlocksDoNotMatter(sc: Scope, w: Walk, blocks: seq<Block>)
    requires Closing(sc, w, {}) && Reached(sc, w, {}) && Recorded(sc, w.visited, w.result) && EntryFirst(sc, w, {})
    ensures var w' := w.(result := w.result.(blocks := blocks));
      EntryFirst(sc, w', {}) && Closing(sc, w', {}) && Reached(sc, w', {}) && Recorded(sc, w.visited, w'.result)
  {
  }

  lemma InBlocksAppend(image: Image, blocks: seq<Block>, b: Block, a: Addr)
    requires ValidImage(image)
    ensures InBlocks(image, blocks + [b], a) <==> InBlocks(image, blocks, a) || a in TileStarts(image, b.base, b.End())
  {
    assert forall c :: c in blocks + [b] <==> c in blocks || c == b;
  }

  lemma AddBlockKeepsTiled(sc: Scope, w0: Walk, w: Walk, b: Block)
    requires sc.Valid() && b.base !in w0.visited && b.size > 0
    requires (forall c | c in w0.result.blocks :: c.base in w0.visited) && w.result.blocks == w0.result.blocks
    requires BlocksTiled(sc, w, b.base, b.End())
    ensures BlocksTiled(sc, w.(result := w.result.(blocks := w.result.blocks + [b])), sc.entry, sc.entry)
  {
    var prev, blocks := w.result.blocks, w.result.blocks + [b];
    assert b.base in TileStarts(sc.image, b.base, b.End());
    NothingOpen(sc.image, sc.entry);
    hide Tiled, TileStarts, Distinct;
    forall x ensures InBlocks(sc.image, blocks, x) <==> InBlocks(sc.image, prev, x) || x in TileStarts(sc.image, b.base, b.End()) {
      InBlocksAppend(sc.image, prev, b, x);
    }
    hide InBlocks;
    DistinctAppend((c: Block) => c.base, prev, b);
    assert forall c | c in blocks :: c in prev || c == b;
  }

  lemma NothingOpen(image: Image, a: Addr)
    requires ValidImage(image)
    ensures Tiled(image, a, a) && TileStarts(image, a, a) == {}
  {
  }

  /** Drops repeated instructions (the walk decodes on through code it has seen) and sorts the rest. */
  method DedupInstructions(instructions: seq<Addr>) returns (r: seq<Addr>)
    ensures StrictlySortedBy((a: Addr) => a, r)
    ensures forall a :: a in r <==> a in instructions
  {
    var kept: seq<Addr>, seen: set<Addr> := [], {};
    for i := 0 to |instructions|
      invariant forall a :: a in kept <==> a in instructions[..i]
      invariant forall a :: a in kept <==> a in seen
      invariant Distinct((a: Addr) => a, kept)
    {
      if instructions[i] !in seen {
        kept, seen := kept + [instructions[i]], seen + {instructions[i]};
      }
    }
    assert instructions[..|instructions|] == instructions;
    r := SortBy((a: Addr) => a, kept);
    SortByElements((a: Addr) => a, kept);
    assert StrictlySortedBy((a: Addr) => a, r);
  }

  /** The first region that contains `a`. */
  function RegionContaining(regions: seq<CodeRegion>, a: Addr): (r: Option<CodeRegion>)
    ensures r.Some? ==> r.value in regions && r.value.Contains(a)
    ensures r.None? ==> forall c | c in regions :: !c.Contains(a)
  {
    if regions == [] then None
    else if regions[0].Contains(a) then Some(regions[0])
    else RegionContaining(regions[1..], a)
  }

  /** The blocks of a function are disjoint in their bases, sorted, non-empty, and made of its instructions. */
  ghost predicate TiledBy(image: Image, blocks: seq<Block>, d: set<Addr>)
    requires ValidImage(image)
  {
    && StrictlySortedBy((b: Block) => b.base, blocks)
    && (forall b | b in blocks :: b.size > 0 && Tiled(image, b.base, b.End()))
    && (forall a :: a in d <==> InBlocks(image, blocks, a))
  }

  ghost function Found(r: DiscoveryResult): set<Addr> { set a | a in r.instructions }

  /** What a discovery always returns, even when cut short by the block cap. */
  ghost predicate IsDiscovery(sc: Scope, r: DiscoveryResult)
    requires sc.Valid()
  {
    && StrictlySortedBy((a: Addr) => a, r.instructions)
    && TiledBy(sc.image, r.blocks, Found(r))
    && (forall a | a in Found(r) :: sc.Recordable(a))
    && (forall s: set<Addr> | sc.Closed(s) :: Found(r) <= s)
    && (r.blocks != [] ==> sc.entry in Found(r))
    && (forall x | x in Found(r) :: Entered(sc, Found(r), r.labels, x))
    && Recorded(sc, Found(r), r)
  }

  lemma WalkStart(sc: Scope)
    requires sc.Valid()
    ensures WalkInv(sc, Walk({}, {sc.entry}, [sc.entry], DiscoveryResult([], [], {}, [], [], [], [])), {}, sc.entry, sc.entry)
  {
  }

  /** Taking the head of the queue leaves it pending, unless it is already done with. */
  lemma Dequeue(sc: Scope, w0: Walk, w: Walk)
    requires sc.Valid() && WalkInv(sc, w0, {}, sc.entry, sc.entry)
    requires |w0.worklist| > 0 && w == w0.(worklist := w0.worklist[1..])
    ensures Remaining(w) < Remaining(w0)
    ensures var start := w0.worklist[0];
      if start in w.visited || !sc.Within(start) then WalkInv(sc, w, {}, sc.entry, sc.entry)
      else WalkInv(sc, w, {start}, start, start)
  {
    var start := w0.worklist[0];
    hide *;
    assert w0.worklist == [start] + w.worklist;
    WalkParts(sc, w0);
    AllRecordable(sc, w0);
    RemainingIs(w0);
    RemainingIs(w);
    OpenElsewhere(sc, w0, w, start);
    DequeueCloses(sc, w0, w, start);
    DequeueReaches(sc, w0, w, start);
    DequeueEnters(sc, w0, w, start);
    if start in w.visited || !sc.Within(start) {
      WalkWhole(sc, w, {}, sc.entry);
    } else {
      WalkWhole(sc, w, {start}, start);
    }
  }

  lemma WalkParts(sc: Scope, w: Walk)
    requires sc.Valid() && WalkInv(sc, w, {}, sc.entry, sc.entry)
    ensures Closing(sc, w, {}) && Reached(sc, w, {}) && BlocksTiled(sc, w, sc.entry, sc.entry)
    ensures Recorded(sc, w.visited, w.result) && EntryFirst(sc, w, {}) && AllEntered(sc, w, {})
    ensures forall t | t in w.worklist :: t in w.starts
  {
    hide Closing, Reached, BlocksTiled, Recorded, EntryFirst, AllEntered;
  }

  lemma WalkWhole(sc: Scope, w: Walk, pending: set<Addr>, start: Addr)
    requires sc.Valid() && Closing(sc, w, pending) && Reached(sc, w, pending) && BlocksTiled(sc, w, start, start)
    requires (forall a | a in w.visited :: Decodes(sc.image, a)) && Recorded(sc, w.visited, w.result)
    requires EntryFirst(sc, w, pending) && AllEntered(sc, w, pending) && forall t | t in w.worklist :: t in w.starts
    ensures WalkInv(sc, w, pending, start, start)
  {
    hide Closing, Reached, BlocksTiled, Recorded, EntryFirst, AllEntered;
  }

  lemma RemainingIs(w: Walk)
    ensures Remaining(w) == |w.worklist| + |Words() - w.starts|
  {
    hide Words;
  }

  lemma DequeueEnters(sc: Scope, w0: Walk, w: Walk, start: Addr)
    requires sc.Valid() && EntryFirst(sc, w0, {}) && AllEntered(sc, w0, {}) && start in w0.starts
    requires w0.worklist == [start] + w.worklist && w == w0.(worklist := w.worklist)
    ensures AllEntered(sc, w, {}) && AllEntered(sc, w, {start})
    ensures start in w.visited || !sc.Within(start) ==> EntryFirst(sc, w, {})
    ensures EntryFirst(sc, w, {start})
  {
    hide Entered;
  }

  lemma AllRecordable(sc: Scope, w: Walk)
    requires Closing(sc, w, {})
    ensures forall a | a in w.visited :: Decodes(sc.image, a)
  {
  }

  lemma OpenElsewhere(sc: Scope, w0: Walk, w: Walk, start: Addr)
    requires sc.Valid() && BlocksTiled(sc, w0, sc.entry, sc.entry)
    requires w.visited == w0.visited && w.result == w0.result
    ensures BlocksTiled(sc, w, sc.entry, sc.entry) && BlocksTiled(sc, w, start, start)
  {
    NothingOpen(sc.image, sc.entry);
    NothingOpen(sc.image, start);
    hide Tiled, TileStarts, InBlocks, Distinct;
  }

  lemma DequeueCloses(sc: Scope, w0: Walk, w: Walk, start: Addr)
    requires Closing(sc, w0, {}) && w0.worklist == [start] + w.worklist && w.starts == w0.starts && w.visited == w0.visited
    ensures Closing(sc, w, {start})
    ensures start in w.visited || !sc.Within(start) ==> Closing(sc, w, {})
  {
    hide Scope.Leads;
  }

  lemma DequeueReaches(sc: Scope, w0: Walk, w: Walk, start: Addr)
    requires Reached(sc, w0, {}) && start in w0.starts && w.starts == w0.starts && w.visited == w0.visited
    ensures Reached(sc, w, {start}) && Reached(sc, w, {})
  {
    hide Scope.Closed, Scope.Recordable;
  }

  lemma WalkDone(sc: Scope, w: Walk, r: DiscoveryResult)
    requires sc.Valid() && WalkInv(sc, w, {}, sc.entry, sc.entry)
    requires r == w.result.(blocks := SortBy((b: Block) => b.base, w.result.blocks), instructions := r.instructions)
    requires StrictlySortedBy((a: Addr) => a, r.instructions)
    requires forall a :: a in r.instructions <==> a in w.result.instructions
    ensures IsDiscovery(sc, r)
    ensures w.worklist == [] ==> sc.IsLeastClosed(Found(r))
    ensures |r.blocks| == |w.result.blocks|
  {
    hide Closing, Reached, BlocksTiled, Recorded, EntryFirst, Entered, TiledBy, SortBy, Scope.Closed, Scope.IsLeastClosed;
    hide SortedBy, StrictlySortedBy, Distinct;
    SortByElements((b: Block) => b.base, w.result.blocks);
    SortedIsTiled(sc, w, r.blocks);
    FoundIsVisited(sc, w, r);
    VisitedIsReached(sc, w);
    SameRecords(sc, w.visited, w.result, r);
  }

  lemma FoundIsVisited(sc: Scope, w: Walk, r: DiscoveryResult)
    requires sc.Valid() && BlocksTiled(sc, w, sc.entry, sc.entry) && EntryFirst(sc, w, {}) && Closing(sc, w, {})
    requires forall a :: a in r.instructions <==> a in w.result.instructions
    ensures Found(r) == w.visited
    ensures forall a | a in w.visited :: Decodes(sc.image, a)
    ensures w.result.blocks != [] ==> sc.entry in w.visited
  {
    hide Tiled, TileStarts, InBlocks, Distinct, Scope.Leads;
    forall a | a in w.visited ensures Decodes(sc.image, a) {
      assert sc.Recordable(a);
    }
    if w.result.blocks != [] {
      assert w.result.blocks[0] in w.result.blocks;
      assert w.result.blocks[0].base in w.visited;
    }
    hide Closing, EntryFirst, Scope.Recordable;
  }

  lemma SameRecords(sc: Scope, d: set<Addr>, r: DiscoveryResult, r': DiscoveryResult)
    requires forall a | a in d :: Decodes(sc.image, a)
    requires Recorded(sc, d, r)
    requires r'.labels == r.labels && r'.branches == r.branches && r'.externalCalls == r.externalCalls
    requires r'.tailCalls == r.tailCalls && r'.jumpTables == r.jumpTables
    ensures Recorded(sc, d, r')
  {
  }

  lemma VisitedIsReached(sc: Scope, w: Walk)
    requires Closing(sc, w, {}) && Reached(sc, w, {})
    ensures forall a | a in w.visited :: sc.Recordable(a)
    ensures forall s: set<Addr> | sc.Closed(s) :: w.visited <= s
    ensures w.worklist == [] ==> sc.IsLeastClosed(w.visited)
  {
  }

  lemma SortedIsTiled(sc: Scope, w: Walk, blocks: seq<Block>)
    requires sc.Valid() && BlocksTiled(sc, w, sc.entry, sc.entry)
    requires forall b :: b in blocks <==> b in w.result.blocks
    requires Distinct((b: Block) => b.base, w.result.blocks) ==> StrictlySortedBy((b: Block) => b.base, blocks)
    ensures TiledBy(sc.image, blocks, w.visited)
  {
    forall a ensures a in w.visited <==> InBlocks(sc.image, blocks, a) {
      assert InBlocks(sc.image, blocks, a) <==> InBlocks(sc.image, w.result.blocks, a);
    }
  }

  // ---------- The result in plain terms ----------

  /** Every recorded instruction lies in the extent and decodes to neither padding nor garbage. */
  ghost predicate InstructionsAre(image: Image, entry: Addr, end: Addr, r: DiscoveryResult) {
    forall a | a in r.instructions :: entry <= a < end && a in image && image[a].flow != Int3 && image[a].flow != Invalid
  }

  /** A branch is recorded for each direct call, and for each direct jump that leaves the extent or names another entry
      point. */
  ghost predicate BranchesAre(image: Image, entry: Addr, end: Addr, known: set<Addr>, r: DiscoveryResult) {
    forall b :: b in r.branches <==> IsBranch(image, entry, end, known, r, b)
  }

  ghost predicate IsBranch(image: Image, entry: Addr, end: Addr, known: set<Addr>, r: DiscoveryResult, b: Branch) {
    && b.site in r.instructions && b.site in image && b.target == image[b.site].target && b.target != 0
    && (b.isCall <==> image[b.site].flow == Flow.Call)
    && (b.isConditional <==> image[b.site].flow == ConditionalBranch)
    && (image[b.site].flow == Flow.Call ||
        ((image[b.site].flow == ConditionalBranch || image[b.site].flow == UnconditionalBranch) &&
         (b.target < entry || b.target >= end || (b.target != entry && b.target in known))))
  }

  /** The callees are the targets of direct calls but for the entry, the tail calls the targets of the unconditional jumps
      that leave, and the tables those of the indirect jumps. */
  ghost predicate ListsAre(image: Image, entry: Addr, end: Addr, known: set<Addr>, table: Addr -> Option<JumpTable>,
                           r: DiscoveryResult)
  {
    CallListIs(image, entry, r) && TailListIs(image, entry, end, known, r) && TableListIs(image, table, r)
  }

  ghost predicate CallListIs(image: Image, entry: Addr, r: DiscoveryResult) {
    forall t :: t in r.externalCalls <==>
      t != 0 && t != entry && exists a :: a in r.instructions && a in image && image[a].flow == Flow.Call && image[a].target == t
  }

  ghost predicate TailListIs(image: Image, entry: Addr, end: Addr, known: set<Addr>, r: DiscoveryResult) {
    forall t :: t in r.tailCalls <==>
      && t != 0 && (t < entry || t >= end || (t != entry && t in known))
      && exists a :: a in r.instructions && a in image && image[a].flow == UnconditionalBranch && image[a].target == t
  }

  ghost predicate TableListIs(image: Image, table: Addr -> Option<JumpTable>, r: DiscoveryResult) {
    forall jt :: jt in r.jumpTables <==>
      exists a :: a in r.instructions && a in image && image[a].flow == IndirectBranch && table(a) == Some(jt)
  }

  /** Every recorded instruction but the entry follows a recorded one: it is fallen into, or it is no other function's
      entry point and is jumped to, directly or through a table. */
  ghost predicate AllComeAfter(image: Image, entry: Addr, known: set<Addr>, table: Addr -> Option<JumpTable>, r: DiscoveryResult) {
    forall t | t in r.instructions && t != entry ::
      exists a :: a in r.instructions && ComesAfter(image, known, table, a, t)
  }

  ghost predicate ComesAfter(image: Image, known: set<Addr>, table: Addr -> Option<JumpTable>, a: Addr, t: Addr) {
    a in image &&
    ((a + image[a].length == t && image[a].flow != Flow.Return && image[a].flow != UnconditionalBranch &&
      image[a].flow != IndirectBranch) ||
     (t !in known &&
      (((image[a].flow == ConditionalBranch || image[a].flow == UnconditionalBranch) && t == image[a].target) ||
       (image[a].flow == IndirectBranch && table(a).Some? && t in table(a).value.targets))))
  }

  /** Whatever code the entry leads to is recorded: the entry, what instructions fall into, what they jump to but for other
      entry points, and the targets of their tables but for other entry points. */
  ghost predicate IsWhole(image: Image, entry: Addr, end: Addr, known: set<Addr>, table: Addr -> Option<JumpTable>,
                          r: DiscoveryResult)
  {
    && (entry < end && entry in image && image[entry].flow != Int3 && image[entry].flow != Invalid ==> entry in r.instructions)
    && FallsIn(image, end, r) && JumpsIn(image, entry, end, known, r) && TablesIn(image, entry, end, known, table, r)
  }

  ghost predicate FallsIn(image: Image, end: Addr, r: DiscoveryResult) {
    forall a | a in r.instructions && a in image ::
      var t := a + image[a].length;
      && image[a].flow != Flow.Return && image[a].flow != UnconditionalBranch && image[a].flow != IndirectBranch
      && t < end && t in image && image[t].flow != Int3 && image[t].flow != Invalid
      ==> t in r.instructions
  }

  ghost predicate JumpsIn(image: Image, entry: Addr, end: Addr, known: set<Addr>, r: DiscoveryResult) {
    forall a | a in r.instructions && a in image ::
      var t := image[a].target;
      && (image[a].flow == ConditionalBranch || image[a].flow == UnconditionalBranch)
      && entry <= t < end && (t == entry || t !in known) && t in image && image[t].flow != Int3 && image[t].flow != Invalid
      ==> t in r.instructions
  }

  ghost predicate TablesIn(image: Image, entry: Addr, end: Addr, known: set<Addr>, table: Addr -> Option<JumpTable>,
                           r: DiscoveryResult)
  {
    forall a, t | a in r.instructions && a in image && table(a).Some? && t in table(a).value.targets ::
      && image[a].flow == IndirectBranch
      && entry <= t < end && (t == entry || t !in known) && t in image && image[t].flow != Int3 && image[t].flow != Invalid
      ==> t in r.instructions
  }

  lemma InPlainTerms(sc: Scope, r: DiscoveryResult)
    requires sc.Valid() && IsDiscovery(sc, r)
    ensures InstructionsAre(sc.image, sc.entry, sc.funcEnd, r)
    ensures BranchesAre(sc.image, sc.entry, sc.funcEnd, sc.known, r)
    ensures ListsAre(sc.image, sc.entry, sc.funcEnd, sc.known, sc.tableOf, r)
    ensures AllComeAfter(sc.image, sc.entry, sc.known, sc.tableOf, r)
  {
    PlainInstructions(sc, r);
    PlainBranches(sc, r);
    PlainLists(sc, r);
    PlainEntered(sc, r);
  }

  lemma PlainInstructions(sc: Scope, r: DiscoveryResult)
    requires sc.Valid() && IsDiscovery(sc, r)
    ensures InstructionsAre(sc.image, sc.entry, sc.funcEnd, r)
    ensures forall a :: a in r.instructions <==> a in Found(r)
  {
    hide Recorded, TiledBy, Scope.Closed, Entered;
    forall a | a in r.instructions ensures sc.Recordable(a) { assert a in Found(r); }
  }

  lemma PlainBranches(sc: Scope, r: DiscoveryResult)
    requires sc.Valid() && IsDiscovery(sc, r)
    ensures BranchesAre(sc.image, sc.entry, sc.funcEnd, sc.known, r)
  {
    PlainInstructions(sc, r);
    RecordedOf(sc, r);
    hide IsDiscovery, InstructionsAre, Found, Scope.BranchOf, Scope.CallsOut, Scope.TailCalls, Scope.HasTable, Scope.Queued;
    forall b ensures b in r.branches <==> IsBranch(sc.image, sc.entry, sc.funcEnd, sc.known, r, b) {
      if b.site in Found(r) { BranchIs(sc, r, b); }
    }
    hide Recorded;
  }

  lemma BranchIs(sc: Scope, r: DiscoveryResult, b: Branch)
    requires Decodes(sc.image, b.site) && b.site in r.instructions
    ensures sc.BranchOf(b.site) == Some(b) <==> IsBranch(sc.image, sc.entry, sc.funcEnd, sc.known, r, b)
  {
  }

  lemma RecordedOf(sc: Scope, r: DiscoveryResult)
    requires sc.Valid() && IsDiscovery(sc, r)
    ensures forall a | a in Found(r) :: Decodes(sc.image, a)
    ensures Recorded(sc, Found(r), r)
  {
    hide Recorded, TiledBy, Scope.Closed, Entered;
  }

  lemma PlainLists(sc: Scope, r: DiscoveryResult)
    requires sc.Valid() && IsDiscovery(sc, r)
    ensures ListsAre(sc.image, sc.entry, sc.funcEnd, sc.known, sc.tableOf, r)
  {
    PlainCalls(sc, r);
    PlainTails(sc, r);
    PlainTableList(sc, r);
    hide IsDiscovery, CallListIs, TailListIs, TableListIs;
  }

  lemma RecordedLists(sc: Scope, r: DiscoveryResult)
    requires sc.Valid() && IsDiscovery(sc, r)
    ensures forall a :: a in r.instructions <==> a in Found(r)
    ensures forall a | a in Found(r) :: Decodes(sc.image, a)
    ensures forall t :: t in r.externalCalls <==> exists a :: a in Found(r) && sc.CallsOut(a, t)
    ensures forall t :: t in r.tailCalls <==> exists a :: a in Found(r) && sc.TailCalls(a, t)
    ensures forall jt :: jt in r.jumpTables <==> exists a :: a in Found(r) && sc.HasTable(a, jt)
  {
    PlainInstructions(sc, r);
    RecordedOf(sc, r);
    hide IsDiscovery, Found, InstructionsAre, Scope.CallsOut, Scope.TailCalls, Scope.HasTable, Scope.BranchOf, Scope.Queued;
  }

  lemma PlainCalls(sc: Scope, r: DiscoveryResult)
    requires sc.Valid() && IsDiscovery(sc, r)
    ensures CallListIs(sc.image, sc.entry, r)
  {
    RecordedLists(sc, r);
    hide IsDiscovery, Found, Scope.TailCalls, Scope.HasTable, Scope.Valid;
  }

  lemma PlainTails(sc: Scope, r: DiscoveryResult)
    requires sc.Valid() && IsDiscovery(sc, r)
    ensures TailListIs(sc.image, sc.entry, sc.funcEnd, sc.known, r)
  {
    RecordedLists(sc, r);
    hide IsDiscovery, Found, Scope.CallsOut, Scope.HasTable, Scope.Valid;
  }

  lemma PlainTableList(sc: Scope, r: DiscoveryResult)
    requires sc.Valid() && IsDiscovery(sc, r)
    ensures TableListIs(sc.image, sc.tableOf, r)
  {
    RecordedLists(sc, r);
    hide IsDiscovery, Found, Scope.CallsOut, Scope.TailCalls, Scope.Valid;
  }

  lemma PlainEntered(sc: Scope, r: DiscoveryResult)
    requires sc.Valid() && IsDiscovery(sc, r)
    ensures AllComeAfter(sc.image, sc.entry, sc.known, sc.tableOf, r)
  {
    PlainInstructions(sc, r);
    hide ComesAfter, InstructionsAre;
    forall t | t in r.instructions && t != sc.entry
      ensures exists a :: a in r.instructions && ComesAfter(sc.image, sc.known, sc.tableOf, a, t)
    {
      hide *;
      var a := CameAfter(sc, r, t);
    }
    hide IsDiscovery, Found;
  }

  lemma CameAfter(sc: Scope, r: DiscoveryResult, t: Addr) returns (a: Addr)
    requires sc.Valid() && IsDiscovery(sc, r) && t in Found(r) && t != sc.entry
    ensures a in Found(r) && ComesAfter(sc.image, sc.known, sc.tableOf, a, t)
  {
    RecordedOf(sc, r);
    AllFoundEntered(sc, r);
    hide IsDiscovery, Found, Scope.BranchOf, Scope.CallsOut, Scope.TailCalls, Scope.HasTable, Scope.Queued;
    assert Entered(sc, Found(r), r.labels, t);
    if t in r.labels {
      a :| a in Found(r) && t in sc.Queued(a);
      hide Recorded, Entered;
      QueuedComesAfter(sc, a, t);
    } else {
      a :| a in Found(r) && FallsTo(sc.image, a, t);
      hide Recorded, Entered;
    }
  }

  lemma AllFoundEntered(sc: Scope, r: DiscoveryResult)
    requires sc.Valid() && IsDiscovery(sc, r)
    ensures forall x | x in Found(r) :: Entered(sc, Found(r), r.labels, x)
  {
    hide Recorded, TiledBy, Scope.Closed, Entered;
  }

  lemma QueuedComesAfter(sc: Scope, a: Addr, t: Addr)
    requires Decodes(sc.image, a) && t in sc.Queued(a) && t != sc.entry
    ensures ComesAfter(sc.image, sc.known, sc.tableOf, a, t)
  {
    if sc.image[a].flow == IndirectBranch && sc.tableOf(a).Some? { AcceptedElements(sc, sc.tableOf(a).value.targets); }
  }

  lemma WholeInPlainTerms(sc: Scope, r: DiscoveryResult)
    requires sc.Valid() && IsDiscovery(sc, r) && sc.IsLeastClosed(Found(r))
    ensures IsWhole(sc.image, sc.entry, sc.funcEnd, sc.known, sc.tableOf, r)
  {
    PlainInstructions(sc, r);
    RecordedOf(sc, r);
    hide IsDiscovery, Recorded, InstructionsAre, Scope.Leads;
    forall a, t | a in Found(r) && sc.Recordable(t) && sc.Leads(a, t) ensures t in r.instructions {
      assert t in Found(r);
    }
    hide Scope.IsLeastClosed, Scope.Closed, Found;
    PlainFalls(sc, r);
    PlainJumps(sc, r);
    PlainTables(sc, r);
    hide FallsIn, JumpsIn, TablesIn;
  }

  ghost predicate IsClosed(sc: Scope, r: DiscoveryResult) {
    && (forall a | a in r.instructions :: sc.entry <= a && Decodes(sc.image, a))
    && forall a, t | a in r.instructions && sc.Recordable(t) && sc.Leads(a, t) :: t in r.instructions
  }

  lemma PlainFalls(sc: Scope, r: DiscoveryResult)
    requires IsClosed(sc, r)
    ensures FallsIn(sc.image, sc.funcEnd, r)
  {
    forall a | a in r.instructions && FallsTo(sc.image, a, EndOf(sc.image, a)) ensures sc.Leads(a, EndOf(sc.image, a)) {
    }
    hide Scope.Leads;
  }

  lemma PlainJumps(sc: Scope, r: DiscoveryResult)
    requires IsClosed(sc, r) && ValidImage(sc.image)
    ensures JumpsIn(sc.image, sc.entry, sc.funcEnd, sc.known, r)
  {
    ImageHasNoZero(sc.image);
    hide ValidImage;
    forall a | a in r.instructions && a in sc.image
      && (sc.image[a].flow == ConditionalBranch || sc.image[a].flow == UnconditionalBranch)
      && sc.image[a].target != 0 && sc.IsInternalTarget(sc.image[a].target)
      ensures sc.Leads(a, sc.image[a].target)
    {
    }
    hide Scope.Leads;
  }

  lemma PlainTables(sc: Scope, r: DiscoveryResult)
    requires IsClosed(sc, r) && ValidImage(sc.image)
    ensures TablesIn(sc.image, sc.entry, sc.funcEnd, sc.known, sc.tableOf, r)
  {
    ImageHasNoZero(sc.image);
    hide ValidImage;
    forall a, t | a in r.instructions && a in sc.image && sc.image[a].flow == IndirectBranch && sc.tableOf(a).Some?
      && t in sc.tableOf(a).value.targets && sc.AcceptsTableTarget(t)
      ensures sc.Leads(a, t)
    {
    }
    hide Scope.Leads;
  }

  lemma ImageHasNoZero(image: Image)
    requires ValidImage(image)
    ensures 0 !in image
  {
  }

  ghost predicate IsFirst(regions: seq<CodeRegion>, a: Addr, i: int) {
    && 0 <= i < |regions| && regions[i].start <= a < regions[i].end
    && forall j | 0 <= j < i :: !(regions[j].start <= a < regions[j].end)
  }

  lemma {:induction false} RegionIsFirst(regions: seq<CodeRegion>, a: Addr)
    ensures var r := RegionContaining(regions, a);
      && (r.Some? ==> exists i :: IsFirst(regions, a, i) && r.value == regions[i])
      && (r.None? ==> forall j | 0 <= j < |regions| :: !(regions[j].start <= a < regions[j].end))
  {
    if regions != [] && !(regions[0].start <= a < regions[0].end) {
      RegionIsFirst(regions[1..], a);
      var r := RegionContaining(regions[1..], a);
      if r.Some? {
        var i :| IsFirst(regions[1..], a, i) && r.value == regions[1..][i];
        assert r.value == regions[i+1] && regions[1..][i] == regions[i+1];
        forall j | 0 <= j < i + 1 ensures !(regions[j].start <= a < regions[j].end) {
          if j > 0 { assert regions[j] == regions[1..][j-1]; }
        }
        assert IsFirst(regions, a, i + 1);
      } else {
        forall j | 0 <= j < |regions| ensures !(regions[j].start <= a < regions[j].end) {
          if j > 0 { assert regions[j] == regions[1..][j-1]; }
        }
      }
    } else if regions != [] {
      assert IsFirst(regions, a, 0);
    }
  }

  datatype FunctionScanner = FunctionScanner(
    image: Image, codeRegions: seq<CodeRegion>,
    detect: (Addr, CodeRegion, Addr, Addr) -> Option<JumpTable>)
  {
    /** The detection oracle and the hand-written tables hold 32-bit targets. */
    ghost predicate Valid(manual: map<Addr, JumpTable>) {
      && ValidImage(image)
      && (forall r | r in codeRegions :: r.end < LIMIT)
      && (forall a | a in manual :: forall t | t in manual[a].targets :: t < LIMIT)
      && forall a, r, e, f | detect(a, r, e, f).Some? :: forall t | t in detect(a, r, e, f).value.targets :: t < LIMIT
    }

    /** A hand-written table wins over detection. */
    function ScopeFor(entry: Addr, known: set<Addr>, manual: map<Addr, JumpTable>): Scope {
      var found := RegionContaining(codeRegions, entry);
      var region := if found.Some? then found.value else CodeRegion(entry, Wrap(entry + DEFAULT_EXTENT));
      Scope(image, entry, region.end, known,
            (a: Addr) => if a in manual then Some(manual[a]) else detect(a, region, entry, region.end))
    }

    /** The first region that holds the entry, or 1 MB from it. */
    ghost predicate IsRegionOf(entry: Addr, region: CodeRegion) {
      || (exists i :: IsFirst(codeRegions, entry, i) && region == codeRegions[i])
      || (region == CodeRegion(entry, (entry + 0x10_0000) % 0x1_0000_0000)
            && forall j | 0 <= j < |codeRegions| :: !(codeRegions[j].start <= entry < codeRegions[j].end))
    }

    /** What a discovery is, in plain terms: in full only below the block cap. */
    ghost predicate Discovers(entry: Addr, region: CodeRegion, known: set<Addr>, manual: map<Addr, JumpTable>, r: DiscoveryResult) {
      var table := (a: Addr) => if a in manual then Some(manual[a]) else detect(a, region, entry, region.end);
      && InstructionsAre(image, entry, region.end, r)
      && BranchesAre(image, entry, region.end, known, r)
      && ListsAre(image, entry, region.end, known, table, r)
      && AllComeAfter(image, entry, known, table, r)
      && (|r.blocks| < 4096 ==> IsWhole(image, entry, region.end, known, table, r))
    }

    lemma ScopeInPlainTerms(entry: Addr, known: set<Addr>, manual: map<Addr, JumpTable>, r: DiscoveryResult)
      requires Valid(manual) && entry < LIMIT && IsDiscovery(ScopeFor(entry, known, manual), r)
      requires |r.blocks| < MAX_BLOCKS ==> ScopeFor(entry, known, manual).IsLeastClosed(Found(r))
      ensures exists region :: IsRegionOf(entry, region) && Discovers(entry, region, known, manual, r)
    {
      var sc := ScopeFor(entry, known, manual);
      InPlainTerms(sc, r);
      if |r.blocks| < MAX_BLOCKS { WholeInPlainTerms(sc, r); }
      var found := RegionContaining(codeRegions, entry);
      RegionIsFirst(codeRegions, entry);
      var region := if found.Some? then found.value else CodeRegion(entry, Wrap(entry + DEFAULT_EXTENT));
      hide IsDiscovery, InstructionsAre, BranchesAre, ListsAre, AllComeAfter, IsWhole, Scope.IsLeastClosed, RegionContaining;
      assert sc.tableOf == ((a: Addr) => if a in manual then Some(manual[a]) else detect(a, region, entry, region.end));
      assert IsRegionOf(entry, region);
      assert Discovers(entry, region, known, manual, r);
    }

    /** Below the block cap the recorded instructions are exactly the reachable ones; at the cap they are
        still only reachable ones. */
    method DiscoverBlocks(entry: Addr, known: set<Addr>, manual: map<Addr, JumpTable>) returns (r: DiscoveryResult)
      requires Valid(manual) && entry < LIMIT
      ensures IsDiscovery(ScopeFor(entry, known, manual), r)
      ensures |r.blocks| < MAX_BLOCKS ==> ScopeFor(entry, known, manual).IsLeastClosed(Found(r))
      ensures exists region :: IsRegionOf(entry, region) && Discovers(entry, region, known, manual, r)
    {
      var sc := ScopeFor(entry, known, manual);
      assert sc.Valid();
      hide WalkInv, IsDiscovery, Scope.IsLeastClosed, Scope.Valid;
      WalkStart(sc);
      var w := Walk({}, {entry}, [entry], DiscoveryResult([], [], {}, [], [], [], []));
      while |w.worklist| > 0 && |w.result.blocks| < MAX_BLOCKS
        invariant WalkInv(sc, w, {}, entry, entry)
        decreases Remaining(w)
      {
        var start := w.worklist[0];
        ghost var w0 := w;
        w := w.(worklist := w.worklist[1..]);
        Dequeue(sc, w0, w);
        if start in w.visited || !sc.Within(start) {
          continue;
        }
        w := WalkBlock(sc, w, start);
      }
      r := w.result;
      r := r.(blocks := SortBy((b: Block) => b.base, r.blocks));
      var instructions := DedupInstructions(r.instructions);
      r := r.(instructions := instructions);
      WalkDone(sc, w, r);
      hide *;
      ScopeInPlainTerms(entry, known, manual, r);
    }
  }
}
