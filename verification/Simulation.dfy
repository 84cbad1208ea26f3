/** The emitted C runs like the guest code it came from. */
module Simulation {
  import opened Code
  import opened Sorting
  import opened Blocks
  import opened Scanner
  import opened Emitter

  ghost predicate AllDecode(image: Image, d: set<Addr>) {
    forall a | a in d :: a in image && Decodes(image, a)
  }

  // ---------- The two machines ----------

  /** What instructions do to the machine state, the same on both sides: the data effect of an instruction, whether
      a conditional branch is taken, the operand of an indirect call or jump, and the effect of a callee. */
  datatype Machine<!S> = Machine(
    exec: (Addr, S) -> S, taken: (Addr, S) -> bool, dest: (Addr, S) -> Addr, callee: (Addr, Addr, S) -> S)

  /** What a run shows: each instruction in turn, calls with their target, and marks for untranslated ones. */
  datatype Event = Ran(at: Addr) | Called(at: Addr, target: Addr) | Marked(at: Addr)

  datatype Exit = Returned(at: Addr) | Left(at: Addr, target: Addr) | FellOff

  /** A guest run inside a function. It goes astray when it falls through to an address that is not one of the
      function's instructions, or meets an instruction the emitter cannot translate. */
  datatype Guest<S> = At(pc: Addr, s: S, trace: seq<Event>) | Exited(exit: Exit, s: S, trace: seq<Event>) | Astray

  function FallTo<S>(d: set<Addr>, next: Addr, s: S, trace: seq<Event>): Guest<S> {
    if next in d then At(next, s, trace) else Astray
  }

  function JumpTo<S>(d: set<Addr>, at: Addr, target: Addr, s: S, trace: seq<Event>): Guest<S> {
    if target in d then At(target, s, trace) else Exited(Left(at, target), s, trace)
  }

  ghost function GuestStep<S>(image: Image, d: set<Addr>, m: Machine<S>, g: Guest<S>): Guest<S>
    requires AllDecode(image, d)
  {
    if !g.At? then g
    else if g.pc !in d || !image[g.pc].lowered then Astray
    else
      var a, insn, next := g.pc, image[g.pc], EndOf(image, g.pc);
      var ran := g.trace + [Ran(a)];
      if insn.flow == Flow.Call then
        FallTo(d, next, m.callee(a, insn.target, g.s), g.trace + [Called(a, insn.target)])
      else if insn.flow == IndirectCall then
        FallTo(d, next, m.callee(a, m.dest(a, g.s), g.s), g.trace + [Called(a, m.dest(a, g.s))])
      else if insn.flow == Flow.Return then Exited(Returned(a), g.s, ran)
      else if insn.flow == UnconditionalBranch then JumpTo(d, a, insn.target, g.s, ran)
      else if insn.flow == ConditionalBranch then
        if m.taken(a, g.s) then JumpTo(d, a, insn.target, g.s, ran) else FallTo(d, next, g.s, ran)
      else if insn.flow == IndirectBranch then Exited(Left(a, m.dest(a, g.s)), g.s, ran)
      else FallTo(d, next, m.exec(a, g.s), ran)
  }

  ghost function GuestRun<S>(image: Image, d: set<Addr>, m: Machine<S>, g: Guest<S>, n: nat): Guest<S>
    requires AllDecode(image, d)
  {
    if n == 0 then g else GuestStep(image, d, m, GuestRun(image, d, m, g, n - 1))
  }

  /** A run of the emitted body. `Stuck` is a goto to a label that is not there. */
  datatype Host<S> = Running(i: nat, s: S, trace: seq<Event>) | Done(exit: Exit, s: S, trace: seq<Event>) | Stuck

  function Find(body: seq<CStmt>, at: Addr, i: nat): nat
    requires i <= |body|
    decreases |body| - i
  {
    if i == |body| || body[i] == Label(at) then i else Find(body, at, i + 1)
  }

  function GoTo<S>(body: seq<CStmt>, at: Addr, s: S, trace: seq<Event>): Host<S> {
    var p := Find(body, at, 0);
    if p < |body| then Running(p, s, trace) else Stuck
  }

  function HostStep<S>(body: seq<CStmt>, m: Machine<S>, h: Host<S>): Host<S> {
    if !h.Running? then h
    else if h.i >= |body| then Stuck
    else
      var stmt := body[h.i];
      var ran := if stmt.Leave? then h.trace else h.trace + [Ran(stmt.at)];
      match stmt
      case Label(_) => Running(h.i + 1, h.s, h.trace)
      case ByteComment(_) => Running(h.i + 1, h.s, h.trace)
      case Plain(a) => Running(h.i + 1, m.exec(a, h.s), ran)
      case CallTo(a, t) => Running(h.i + 1, m.callee(a, t, h.s), h.trace + [Called(a, t)])
      case CallIndirect(a) => Running(h.i + 1, m.callee(a, m.dest(a, h.s), h.s), h.trace + [Called(a, m.dest(a, h.s))])
      case Goto(a, t) => GoTo(body, t, h.s, ran)
      case TailJump(a, t, _) => Done(Left(a, t), h.s, ran)
      case TailIndirect(a) => Done(Left(a, m.dest(a, h.s)), h.s, ran)
      case BranchTo(a, t) => if m.taken(a, h.s) then GoTo(body, t, h.s, ran) else Running(h.i + 1, h.s, ran)
      case BranchOut(a, t) => if m.taken(a, h.s) then Done(Left(a, t), h.s, ran) else Running(h.i + 1, h.s, ran)
      case Return(a) => Done(Returned(a), h.s, ran)
      case Unimplemented(a) => Running(h.i + 1, h.s, h.trace + [Marked(a)])
      case Leave => Done(FellOff, h.s, h.trace)
  }

  function HostRun<S>(body: seq<CStmt>, m: Machine<S>, h: Host<S>, n: nat): Host<S> {
    if n == 0 then h else HostStep(body, m, HostRun(body, m, h, n - 1))
  }

  // ---------- The sweep of the sealed blocks gives back the discovered instructions ----------

  /** No two instructions of the function overlap: the code is not decoded at two alignments. */
  ghost predicate NoOverlap(image: Image, d: set<Addr>)
    requires AllDecode(image, d)
  {
    forall a, b | a in d && b in d && a < b :: EndOf(image, a) <= b
  }

  ghost predicate InInsn(image: Image, d: set<Addr>, x: Addr)
    requires AllDecode(image, d)
  {
    exists a :: a in d && a <= x < EndOf(image, a)
  }

  lemma {:induction false} SweepHitsAll(image: Image, d: set<Addr>, lo: Addr, hi: Addr)
    requires ValidImage(image) && AllDecode(image, d) && NoOverlap(image, d)
    requires lo < hi ==> lo in d
    requires forall x | lo <= x < hi :: InInsn(image, d, x)
    ensures forall a :: a in Sweep(image, lo, hi) <==> a in d && lo <= a < hi
    decreases hi - lo
  {
    if lo < hi {
      var next := SweepNext(image, lo);
      assert next == EndOf(image, lo);
      if next < hi {
        assert InInsn(image, d, next);
        var a :| a in d && a <= next < EndOf(image, a);
        assert a == next;
      }
      SweepHitsAll(image, d, next, hi);
      forall a ensures a in Sweep(image, lo, hi) <==> a in d && lo <= a < hi {
        assert a in Sweep(image, lo, hi) <==> a == lo || a in Sweep(image, next, hi);
      }
    }
  }

  /** The blocks are made of the instructions `d`: each starts with one, all their bytes belong to some, and each
      instruction starts in one. The last instruction of a block may run past its end. */
  ghost predicate Spans(image: Image, blocks: seq<Block>, d: set<Addr>)
    requires AllDecode(image, d)
  {
    && (forall b | b in blocks :: b.size > 0 && b.base in d)
    && (forall x | Covered(blocks, x) :: InInsn(image, d, x))
    && (forall a | a in d :: Covered(blocks, a))
  }

  lemma TiledSpans(image: Image, blocks: seq<Block>, d: set<Addr>)
    requires ValidImage(image) && TiledBy(image, blocks, d) && AllDecode(image, d)
    ensures Spans(image, blocks, d)
  {
    forall b | b in blocks ensures b.base in d {
      assert b.base in TileStarts(image, b.base, b.End());
      assert InBlocks(image, blocks, b.base);
    }
    forall x | Covered(blocks, x) ensures InInsn(image, d, x) {
      var b :| b in blocks && b.Contains(x);
      var a := TileCovers(image, b.base, b.End(), x);
      assert InBlocks(image, blocks, a);
    }
    forall a | a in d ensures Covered(blocks, a) {
      assert InBlocks(image, blocks, a);
      var b :| b in blocks && a in TileStarts(image, b.base, b.End());
      TileBounds(image, b.base, b.End());
      assert b.Contains(a);
    }
  }

  lemma SealedSweep(image: Image, blocks: seq<Block>, d: set<Addr>, m: Block)
    requires ValidImage(image) && AllDecode(image, d) && NoOverlap(image, d) && Spans(image, blocks, d)
    requires m in SealedBlocks(blocks)
    ensures forall a :: a in Sweep(image, m.base, m.End()) <==> a in d && m.Contains(a)
  {
    hide SealedBlocks, Separated, Sweep, InInsn, NoOverlap, AllDecode, ValidImage;
    SealedBlocksCorrect(blocks);
    assert Grown(m, blocks);
    var b :| b in blocks && b.base == m.base && b.size <= m.size;
    assert m.base in d;
    forall x: Addr | m.Contains(x) ensures Covered(blocks, x) {
      assert Covered(SealedBlocks(blocks), x);
    }
    hide Covered, Grown;
    forall x: Addr | m.base <= x < m.End() ensures InInsn(image, d, x) {
      assert m.Contains(x);
    }
    hide Spans;
    SweepHitsAll(image, d, m.base, m.End());
  }

  /** Sweeping the merged blocks of a discovered function visits its instructions, each once, in address order. */
  lemma SweptIsDiscovered(image: Image, blocks: seq<Block>, d: set<Addr>)
    requires ValidImage(image) && AllDecode(image, d) && NoOverlap(image, d) && Spans(image, blocks, d)
    ensures Increasing(Swept(image, SealedBlocks(blocks)))
    ensures Elements(Swept(image, SealedBlocks(blocks))) == d
  {
    var merged := SealedBlocks(blocks);
    SealedBlocksCorrect(blocks);
    SeparatedIsSorted(merged);
    SweepsIncreasing(image, merged);
    SweepsElements(image, merged);
    hide SealedBlocks, Separated, Sweep, Sweeps, InInsn, NoOverlap;
    forall a ensures a in Swept(image, merged) <==> a in d {
      if a in d {
        assert Covered(blocks, a) && Covered(merged, a);
        var m :| m in merged && m.Contains(a);
        SealedSweep(image, blocks, d, m);
      }
      if a in Swept(image, merged) {
        var m :| m in merged && a in Sweep(image, m.base, m.End());
        SealedSweep(image, blocks, d, m);
      }
    }
  }

  // ---------- One guest instruction is one or two statements of the body ----------

  /** The instructions of a function in order, and its labels. */
  datatype Function = Function(image: Image, named: set<Addr>, emitted: set<Addr>, addrs: seq<Addr>) {
    ghost function Insns(): set<Addr> { Elements(addrs) }

    ghost function Code(): seq<CStmt> { Text(image, named, emitted, addrs) + [Leave] }

    /** Increasing, not overlapping, and labelled wherever a direct branch of the function lands. */
    ghost predicate Valid() {
      && ValidImage(image)
      && Increasing(addrs)
      && AllDecode(image, Insns())
      && NoOverlap(image, Insns())
      && (forall a, t | a in Insns() && Jumps(image, a, t) && t in Insns() :: t in emitted)
      && (forall t | t in emitted :: t in Insns())
    }

    ghost function PosOf(k: nat): nat
      requires k <= |addrs|
    {
      Pos(emitted, addrs, k)
    }
  }

  /** The host is about to run the text of the guest's instruction, or has left in the same way. */
  ghost predicate Matches<S>(f: Function, h: Host<S>, g: Guest<S>) {
    match g
    case At(pc, s, trace) => exists k | 0 <= k < |f.addrs| :: f.addrs[k] == pc && h == Running(f.PosOf(k), s, trace)
    case Exited(exit, s, trace) => h == Done(exit, s, trace)
    case Astray => true
  }

  lemma {:induction false} FindFirst(body: seq<CStmt>, at: Addr, i: nat, p: nat)
    requires i <= p < |body| && body[p] == Label(at)
    requires forall q | 0 <= q < |body| && body[q] == Label(at) :: q == p
    ensures Find(body, at, i) == p
    decreases p - i
  {
    if i < p {
      FindFirst(body, at, i + 1, p);
    }
  }

  /** A goto to an emitted label lands on the text of that address. */
  lemma GoToLands<S>(f: Function, k: nat, s: S, trace: seq<Event>)
    requires f.Valid() && k < |f.addrs| && f.addrs[k] in f.emitted
    ensures GoTo(f.Code(), f.addrs[k], s, trace) == Running(f.PosOf(k), s, trace)
  {
    LabelOnce(f.image, f.named, f.emitted, f.addrs, k);
    FindFirst(f.Code(), f.addrs[k], 0, f.PosOf(k));
  }

  /** The statement after the text of an instruction is the text of the instruction that follows it, if any does. */
  lemma NextInText(f: Function, k: nat)
    requires f.Valid() && k < |f.addrs|
    ensures f.addrs[k] in f.image
    ensures EndOf(f.image, f.addrs[k]) in f.Insns() <==> k + 1 < |f.addrs| && f.addrs[k+1] == EndOf(f.image, f.addrs[k])
  {
    var a := f.addrs[k];
    assert a in f.Insns();
    if EndOf(f.image, a) in f.Insns() {
      var j :| 0 <= j < |f.addrs| && f.addrs[j] == EndOf(f.image, a);
      if k + 1 < |f.addrs| {
        assert f.addrs[k+1] in f.Insns();
      }
      assert j == k + 1;
    }
  }

  lemma TargetInText<S>(f: Function, a: Addr, s: S, trace: seq<Event>) returns (k: nat)
    requires f.Valid() && a in f.Insns() && f.image[a].target in f.Insns()
    requires f.image[a].flow == ConditionalBranch || f.image[a].flow == UnconditionalBranch
    ensures k < |f.addrs| && f.addrs[k] == f.image[a].target && f.addrs[k] in f.emitted
    ensures GoTo(f.Code(), f.image[a].target, s, trace) == Running(f.PosOf(k), s, trace)
  {
    var t := f.image[a].target;
    assert t in f.image;
    assert Jumps(f.image, a, t);
    k :| 0 <= k < |f.addrs| && f.addrs[k] == t;
    GoToLands(f, k, s, trace);
  }

  /** What the statement of a translated instruction does. */
  function StatementEffect<S>(body: seq<CStmt>, emitted: set<Addr>, a: Addr, insn: Insn, m: Machine<S>, i: nat, s: S,
                              trace: seq<Event>): Host<S>
  {
    var ran := trace + [Ran(a)];
    var jump := if insn.target in emitted then GoTo(body, insn.target, s, ran) else Done(Left(a, insn.target), s, ran);
    match insn.flow
    case Call => Running(i + 1, m.callee(a, insn.target, s), trace + [Called(a, insn.target)])
    case IndirectCall => Running(i + 1, m.callee(a, m.dest(a, s), s), trace + [Called(a, m.dest(a, s))])
    case Return => Done(Returned(a), s, ran)
    case UnconditionalBranch => jump
    case ConditionalBranch => if m.taken(a, s) then jump else Running(i + 1, s, ran)
    case IndirectBranch => Done(Left(a, m.dest(a, s)), s, ran)
    case _ => Running(i + 1, m.exec(a, s), ran)
  }

  lemma StatementDoes<S>(body: seq<CStmt>, image: Image, named: set<Addr>, emitted: set<Addr>, a: Addr, m: Machine<S>,
                         i: nat, s: S, trace: seq<Event>)
    requires Decodes(image, a) && image[a].length > 0 && image[a].lowered
    requires i < |body| && body[i] == Lower(image, named, emitted, a)
    ensures HostStep(body, m, Running(i, s, trace)) == StatementEffect(body, emitted, a, image[a], m, i, s, trace)
  {
    hide GoTo;
  }

  /** Running the statement of an instruction, past its label, does what the guest does. */
  lemma StatementMatches<S>(f: Function, m: Machine<S>, k: nat, s: S, trace: seq<Event>)
    requires f.Valid() && k < |f.addrs| && f.addrs[k] in f.image && f.image[f.addrs[k]].lowered
    requires PosEnd(f, k)
    ensures Matches(f, HostStep(f.Code(), m, Running(f.PosOf(k + 1) - 1, s, trace)),
                    GuestStep(f.image, f.Insns(), m, At(f.addrs[k], s, trace)))
  {
    var a := f.addrs[k];
    InsnFacts(f, k);
    NextInText(f, k);
    StatementDoes(f.Code(), f.image, f.named, f.emitted, a, m, f.PosOf(k + 1) - 1, s, trace);
    var insn := f.image[a];
    if (insn.flow == UnconditionalBranch || insn.flow == ConditionalBranch) && insn.target in f.Insns() {
      var j := TargetInText(f, a, s, trace + [Ran(a)]);
    }
    hide HostStep, Lower, GoTo, Function.Valid, Function.Code, Function.Insns, Function.PosOf, PosEnd, Decodes, EndOf;
  }

  lemma InsnFacts(f: Function, k: nat)
    requires f.Valid() && k < |f.addrs|
    ensures AllDecode(f.image, f.Insns()) && f.addrs[k] in f.Insns() && Decodes(f.image, f.addrs[k])
    ensures f.image[f.addrs[k]].length > 0
    ensures forall t | t in f.emitted :: t in f.Insns()
  {
  }

  ghost predicate PosEnd(f: Function, k: nat)
    requires k < |f.addrs|
  {
    && 0 < f.PosOf(k + 1) < |f.Code()|
    && f.Code()[f.PosOf(k + 1) - 1] == Lower(f.image, f.named, f.emitted, f.addrs[k])
  }

  /** Running up to and including the statement of an instruction. */
  lemma SkipLabel<S>(f: Function, m: Machine<S>, k: nat, s: S, trace: seq<Event>) returns (n: nat)
    requires k < |f.addrs|
    ensures 1 <= n <= 2 && PosEnd(f, k)
    ensures HostRun(f.Code(), m, Running(f.PosOf(k), s, trace), n) ==
            HostStep(f.Code(), m, Running(f.PosOf(k + 1) - 1, s, trace))
  {
    TextAt(f.image, f.named, f.emitted, f.addrs, k);
    assert PosEnd(f, k);
    hide *;
    var h: Host<S> := Running(f.PosOf(k), s, trace);
    HostUnfold(f.Code(), m, h, 1);
    if f.PosOf(k) == f.PosOf(k + 1) - 1 {
      n := 1;
    } else {
      n := 2;
      PastLabel(f, m, k, s, trace);
      HostUnfold(f.Code(), m, h, 2);
    }
  }

  lemma StepMatches<S>(f: Function, m: Machine<S>, h: Host<S>, g: Guest<S>) returns (n: nat)
    requires f.Valid() && Matches(f, h, g) && g != Astray
    ensures n <= 2 && (g.At? ==> 1 <= n)
    ensures Matches(f, HostRun(f.Code(), m, h, n), GuestStep(f.image, f.Insns(), m, g))
  {
    if g.At? && g.pc in f.Insns() && f.image[g.pc].lowered {
      var k :| 0 <= k < |f.addrs| && f.addrs[k] == g.pc && h == Running(f.PosOf(k), g.s, g.trace);
      n := SkipLabel(f, m, k, g.s, g.trace);
      StatementMatches(f, m, k, g.s, g.trace);
    } else {
      n := if g.At? then 1 else 0;
    }
  }

  lemma {:induction false} HostRunAdd<S>(body: seq<CStmt>, m: Machine<S>, h: Host<S>, a: nat, b: nat)
    ensures HostRun(body, m, HostRun(body, m, h, a), b) == HostRun(body, m, h, a + b)
  {
    if b > 0 { HostRunAdd(body, m, h, a, b - 1); }
  }

  lemma RunUnfold<S>(f: Function, m: Machine<S>, h: Host<S>, g: Guest<S>, n: nat)
    requires f.Valid()
    ensures AllDecode(f.image, f.Insns())
    ensures HostRun(f.Code(), m, h, 0) == h
    ensures GuestRun(f.image, f.Insns(), m, g, n) ==
      if n == 0 then g else GuestStep(f.image, f.Insns(), m, GuestRun(f.image, f.Insns(), m, g, n - 1))
    ensures n > 0 && GuestRun(f.image, f.Insns(), m, g, n).At? ==> GuestRun(f.image, f.Insns(), m, g, n - 1).At?
  {
  }

  lemma AstrayStays<S>(f: Function, m: Machine<S>)
    requires f.Valid()
    ensures AllDecode(f.image, f.Insns())
    ensures GuestStep(f.image, f.Insns(), m, Guest<S>.Astray) == Guest<S>.Astray
    ensures forall h: Host<S> :: Matches(f, h, Guest<S>.Astray)
  {
  }

  /** Lock-step simulation over runs of any length. */
  lemma {:induction false} RunMatches<S>(f: Function, m: Machine<S>, h: Host<S>, g: Guest<S>, n: nat) returns (steps: nat)
    requires f.Valid() && Matches(f, h, g)
    ensures steps <= 2 * n
    ensures Matches(f, HostRun(f.Code(), m, h, steps), GuestRun(f.image, f.Insns(), m, g, n))
    ensures GuestRun(f.image, f.Insns(), m, g, n).At? ==> n <= steps
  {
    hide *;
    RunUnfold(f, m, h, g, n);
    if n == 0 {
      steps := 0;
    } else {
      var before := RunMatches(f, m, h, g, n - 1);
      var g' := GuestRun(f.image, f.Insns(), m, g, n - 1);
      if g' == Astray {
        steps := before;
        AstrayStays(f, m);
      } else {
        var more := StepMatches(f, m, HostRun(f.Code(), m, h, before), g');
        HostRunAdd(f.Code(), m, h, before, more);
        steps := before + more;
      }
    }
  }

  // ---------- The theorems ----------

  /** The function made of these blocks once they are merged. */
  ghost function Emitted(image: Image, blocks: seq<Block>, named: set<Addr>, labels: set<Addr>): Function {
    var merged := SealedBlocks(blocks);
    Function(image, named, EmittedLabels(image, labels, merged), Swept(image, merged))
  }

  /** The blocks are made of the instructions `d`, none overlapping another, the first at the entry. */
  ghost predicate Translatable(image: Image, entry: Addr, blocks: seq<Block>, d: set<Addr>) {
    && ValidImage(image) && AllDecode(image, d) && NoOverlap(image, d) && Spans(image, blocks, d)
    && entry in d && forall a | a in d :: entry <= a
  }

  /** What a discovery finds is so, unless it decodes the same bytes at two alignments. */
  lemma DiscoveryIsTranslatable(sc: Scope, r: DiscoveryResult)
    requires sc.Valid() && IsDiscovery(sc, r) && sc.entry in Found(r)
    ensures AllDecode(sc.image, Found(r))
    ensures NoOverlap(sc.image, Found(r)) ==> Translatable(sc.image, sc.entry, r.blocks, Found(r))
  {
    assert AllDecode(sc.image, Found(r));
    TiledSpans(sc.image, r.blocks, Found(r));
    hide TiledBy, NoOverlap, Recorded, Spans;
  }

  lemma TranslatableSweeps(image: Image, entry: Addr, blocks: seq<Block>, d: set<Addr>)
    requires Translatable(image, entry, blocks, d)
    ensures ValidImage(image) && AllDecode(image, d) && NoOverlap(image, d) && entry in d && forall a | a in d :: entry <= a
    ensures Increasing(Swept(image, SealedBlocks(blocks))) && Elements(Swept(image, SealedBlocks(blocks))) == d
  {
    SweptIsDiscovered(image, blocks, d);
    hide Spans, SealedBlocks, Swept, Increasing;
  }

  lemma EmittedIsValid(image: Image, entry: Addr, blocks: seq<Block>, d: set<Addr>, named: set<Addr>, labels: set<Addr>)
    requires Translatable(image, entry, blocks, d)
    ensures var f := Emitted(image, blocks, named, labels);
      && f.Valid() && f.Insns() == d && |f.addrs| > 0 && f.addrs[0] == entry && f.image == image
      && f.Code() == Body(image, named, labels, SealedBlocks(blocks))
  {
    var f := Emitted(image, blocks, named, labels);
    TranslatableSweeps(image, entry, blocks, d);
    hide Translatable, Spans, SealedBlocks, Swept, Text;
    FirstOfIncreasing(f.addrs, entry);
    hide Increasing, AllDecode, NoOverlap, ValidImage, Jumps;
    EmittedParts(image, blocks, named, labels);
    hide EmittedLabels, Emitted;
    ValidWhen(f);
  }

  lemma FirstOfIncreasing(addrs: seq<Addr>, entry: Addr)
    requires Increasing(addrs) && entry in Elements(addrs) && forall a | a in Elements(addrs) :: entry <= a
    ensures |addrs| > 0 && addrs[0] == entry
  {
    var k :| 0 <= k < |addrs| && addrs[k] == entry;
    assert addrs[0] in Elements(addrs);
  }

  lemma EmittedParts(image: Image, blocks: seq<Block>, named: set<Addr>, labels: set<Addr>)
    ensures var f := Emitted(image, blocks, named, labels);
      && f.image == image && f.addrs == Swept(image, SealedBlocks(blocks))
      && f.Code() == Body(image, named, labels, SealedBlocks(blocks))
      && (forall a, t | a in f.Insns() && Jumps(image, a, t) && t in f.Insns() :: t in f.emitted)
      && forall t | t in f.emitted :: t in f.Insns()
  {
    hide SealedBlocks, Swept, Text, Jumps;
  }

  lemma ValidWhen(f: Function)
    requires ValidImage(f.image) && Increasing(f.addrs) && AllDecode(f.image, f.Insns()) && NoOverlap(f.image, f.Insns())
    requires forall a, t | a in f.Insns() && Jumps(f.image, a, t) && t in f.Insns() :: t in f.emitted
    requires forall t | t in f.emitted :: t in f.Insns()
    ensures f.Valid()
  {
    hide ValidImage, Increasing, AllDecode, NoOverlap, Jumps;
  }

  /** Forward: a guest run of `n` instructions from the entry that does not go astray is matched by the body run
      from its first statement, with the same instructions, calls and state, and the same exit. */
  lemma BodySimulatesGuest<S>(image: Image, entry: Addr, blocks: seq<Block>, d: set<Addr>, named: set<Addr>,
                              labels: set<Addr>, m: Machine<S>, s: S, n: nat)
    returns (steps: nat)
    requires Translatable(image, entry, blocks, d)
    ensures steps <= 2 * n
    ensures var g := GuestRun(image, d, m, At(entry, s, []), n);
      var h := HostRun(Body(image, named, labels, SealedBlocks(blocks)), m, Running(0, s, []), steps);
      && (g.Exited? ==> h == Done(g.exit, g.s, g.trace))
      && (g.At? ==> n <= steps && h.Running? && h.s == g.s && h.trace == g.trace)
  {
    EmittedIsValid(image, entry, blocks, d, named, labels);
    hide *;
    var f := Emitted(image, blocks, named, labels);
    StartsMatch(f, entry, s);
    steps := RunMatches(f, m, Running(0, s, []), At(entry, s, []), n);
    MatchMeans(f, HostRun(f.Code(), m, Running(0, s, []), steps), GuestRun(f.image, f.Insns(), m, At(entry, s, []), n));
  }

  lemma StartsMatch<S>(f: Function, entry: Addr, s: S)
    requires |f.addrs| > 0 && f.addrs[0] == entry
    ensures Matches(f, Running(0, s, []), At(entry, s, []))
  {
    assert f.PosOf(0) == 0;
  }

  lemma MatchMeans<S>(f: Function, h: Host<S>, g: Guest<S>)
    requires Matches(f, h, g)
    ensures g.Exited? ==> h == Done(g.exit, g.s, g.trace)
    ensures g.At? ==> h.Running? && h.s == g.s && h.trace == g.trace
  {
  }

  // ---------- Backward, one statement at a time ----------

  /** The host is where `Matches` says, or past the label of the instruction the guest is about to run. */
  ghost predicate Tracks<S>(f: Function, h: Host<S>, g: Guest<S>) {
    Matches(f, h, g) ||
    (g.At? && exists k | 0 <= k < |f.addrs| :: f.addrs[k] == g.pc && h == Running(f.PosOf(k + 1) - 1, g.s, g.trace))
  }

  /** Nothing the body has shown so far that the guest has not. */
  ghost predicate Follows<S>(g: Guest<S>, h: Host<S>) {
    match h
    case Running(_, s, trace) => g.At? && g.s == s && g.trace == trace
    case Done(exit, s, trace) => g == Exited(exit, s, trace)
    case Stuck => false
  }

  lemma TracksMeans<S>(f: Function, h: Host<S>, g: Guest<S>)
    requires Tracks(f, h, g) && g != Astray
    ensures Follows(g, h)
  {
  }

  /** One statement: a label, which the guest does not see, or the statement of its instruction. */
  lemma TrackStep<S>(f: Function, m: Machine<S>, h: Host<S>, g: Guest<S>) returns (more: nat)
    requires f.Valid() && Tracks(f, h, g) && GuestStep(f.image, f.Insns(), m, g) != Astray
    ensures more <= 1
    ensures Tracks(f, HostStep(f.Code(), m, h), if more == 0 then g else GuestStep(f.image, f.Insns(), m, g))
  {
    hide *;
    NotAstrayYet(f, m, g);
    if g.Exited? {
      more := 0;
      ExitedTracks(f, m, h, g);
    } else {
      var k := TracksAt(f, m, h, g);
      if h == Running(f.PosOf(k + 1) - 1, g.s, g.trace) {
        more := 1;
        StatementMatches(f, m, k, g.s, g.trace);
        MatchesTracks(f, HostStep(f.Code(), m, h), GuestStep(f.image, f.Insns(), m, g));
      } else {
        more := 0;
        PastLabel(f, m, k, g.s, g.trace);
      }
    }
  }

  lemma NotAstrayYet<S>(f: Function, m: Machine<S>, g: Guest<S>)
    requires f.Valid() && GuestStep(f.image, f.Insns(), m, g) != Astray
    ensures AllDecode(f.image, f.Insns())
    ensures g != Astray && (g.At? ==> g.pc in f.image && g.pc in f.Insns() && f.image[g.pc].lowered)
  {
  }

  lemma ExitedTracks<S>(f: Function, m: Machine<S>, h: Host<S>, g: Guest<S>)
    requires Tracks(f, h, g) && g.Exited?
    ensures Tracks(f, HostStep(f.Code(), m, h), g)
  {
    hide Function.Code;
  }

  lemma TracksAt<S>(f: Function, m: Machine<S>, h: Host<S>, g: Guest<S>) returns (k: nat)
    requires Tracks(f, h, g) && g.At? && g.pc in f.image && f.image[g.pc].lowered
    ensures k < |f.addrs| && f.addrs[k] == g.pc && PosEnd(f, k) && g == At(f.addrs[k], g.s, g.trace)
    ensures h == Running(f.PosOf(k), g.s, g.trace) || h == Running(f.PosOf(k + 1) - 1, g.s, g.trace)
  {
    k :| 0 <= k < |f.addrs| && f.addrs[k] == g.pc &&
         (h == Running(f.PosOf(k), g.s, g.trace) || h == Running(f.PosOf(k + 1) - 1, g.s, g.trace));
    TextAt(f.image, f.named, f.emitted, f.addrs, k);
  }

  lemma MatchesTracks<S>(f: Function, h: Host<S>, g: Guest<S>)
    requires Matches(f, h, g)
    ensures Tracks(f, h, g)
  {
    hide Matches;
  }

  lemma PastLabel<S>(f: Function, m: Machine<S>, k: nat, s: S, trace: seq<Event>)
    requires k < |f.addrs| && f.PosOf(k) != f.PosOf(k + 1) - 1
    ensures PosEnd(f, k)
    ensures HostStep(f.Code(), m, Running(f.PosOf(k), s, trace)) == Running(f.PosOf(k + 1) - 1, s, trace)
    ensures Tracks(f, HostStep(f.Code(), m, Running(f.PosOf(k), s, trace)), At(f.addrs[k], s, trace))
  {
    TextAt(f.image, f.named, f.emitted, f.addrs, k);
  }

  /** Backward: while the guest does not go astray, whatever the body has done after any number of statements the guest
      does too, and if the body has finished the guest has left by the same exit. */
  lemma BodyFollowsGuest<S>(image: Image, entry: Addr, blocks: seq<Block>, d: set<Addr>, named: set<Addr>,
                            labels: set<Addr>, m: Machine<S>, s: S, steps: nat)
    returns (n: nat)
    requires Translatable(image, entry, blocks, d) && GuestRun(image, d, m, At(entry, s, []), steps) != Astray
    ensures n <= steps
    ensures Follows(GuestRun(image, d, m, At(entry, s, []), n),
                    HostRun(Body(image, named, labels, SealedBlocks(blocks)), m, Running(0, s, []), steps))
  {
    EmittedIsValid(image, entry, blocks, d, named, labels);
    hide *;
    var f := Emitted(image, blocks, named, labels);
    StartsMatch(f, entry, s);
    n := RunTracks(f, m, entry, s, steps);
    AstrayForGood(image, d, m, At(entry, s, []), n, steps);
    TracksMeans(f, HostRun(f.Code(), m, Running(0, s, []), steps), GuestRun(image, d, m, At(entry, s, []), n));
  }

  lemma {:induction false} AstrayForGood<S>(image: Image, d: set<Addr>, m: Machine<S>, g: Guest<S>, n: nat, k: nat)
    requires AllDecode(image, d) && n <= k
    ensures GuestRun(image, d, m, g, k) != Astray ==> GuestRun(image, d, m, g, n) != Astray
    ensures GuestRun(image, d, m, g, n).Exited? ==> GuestRun(image, d, m, g, k) == GuestRun(image, d, m, g, n)
  {
    if n < k { AstrayForGood(image, d, m, g, n, k - 1); }
  }

  lemma {:induction false} RunTracks<S>(f: Function, m: Machine<S>, entry: Addr, s: S, steps: nat) returns (n: nat)
    requires f.Valid() && Matches(f, Running(0, s, []), At(entry, s, []))
    requires AllDecode(f.image, f.Insns()) && GuestRun(f.image, f.Insns(), m, At(entry, s, []), steps) != Astray
    ensures n <= steps
    ensures Tracks(f, HostRun(f.Code(), m, Running(0, s, []), steps), GuestRun(f.image, f.Insns(), m, At(entry, s, []), n))
  {
    hide *;
    if steps == 0 {
      n := 0;
      TracksStart(f, m, entry, s);
    } else {
      AstrayForGood(f.image, f.Insns(), m, At(entry, s, []), steps - 1, steps);
      var before := RunTracks(f, m, entry, s, steps - 1);
      var h, g := HostRun(f.Code(), m, Running(0, s, []), steps - 1), GuestRun(f.image, f.Insns(), m, At(entry, s, []), before);
      AstrayForGood(f.image, f.Insns(), m, At(entry, s, []), before + 1, steps);
      RunUnfold(f, m, Running(0, s, []), At(entry, s, []), before + 1);
      HostUnfold(f.Code(), m, Running(0, s, []), steps);
      var more := TrackStep(f, m, h, g);
      n := before + more;
    }
  }

  lemma TracksStart<S>(f: Function, m: Machine<S>, entry: Addr, s: S)
    requires AllDecode(f.image, f.Insns()) && Matches(f, Running(0, s, []), At(entry, s, []))
    ensures Tracks(f, HostRun(f.Code(), m, Running(0, s, []), 0), GuestRun(f.image, f.Insns(), m, At(entry, s, []), 0))
  {
    hide Matches, Function.Code;
  }

  lemma HostUnfold<S>(body: seq<CStmt>, m: Machine<S>, h: Host<S>, n: nat)
    requires n > 0
    ensures HostRun(body, m, h, n) == HostStep(body, m, HostRun(body, m, h, n - 1)) && HostRun(body, m, h, 0) == h
  {
  }

  /** So if the guest does not go astray, every way the body can finish is the way the guest finishes. */
  lemma GuestMatchesBodyExit<S>(image: Image, entry: Addr, blocks: seq<Block>, d: set<Addr>, named: set<Addr>,
                                labels: set<Addr>, m: Machine<S>, s: S, steps: nat)
    requires Translatable(image, entry, blocks, d) && GuestRun(image, d, m, At(entry, s, []), steps) != Astray
    requires HostRun(Body(image, named, labels, SealedBlocks(blocks)), m, Running(0, s, []), steps).Done?
    ensures var g := GuestRun(image, d, m, At(entry, s, []), steps);
      var h := HostRun(Body(image, named, labels, SealedBlocks(blocks)), m, Running(0, s, []), steps);
      g.Exited? && h == Done(g.exit, g.s, g.trace)
  {
    var n := BodyFollowsGuest(image, entry, blocks, d, named, labels, m, s, steps);
    AstrayForGood(image, d, m, At(entry, s, []), n, steps);
    hide GuestRun, HostRun, Translatable, Body;
  }
}
