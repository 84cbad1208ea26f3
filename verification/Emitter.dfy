/** Lowering a sealed function to a C body: labels, gotos and one statement an instruction. */
module Emitter {
  import opened Code
  import opened Sorting
  import opened Blocks

  /** A statement of the emitted body; `at` is the guest address it comes from. Operands are not modelled. */
  datatype CStmt =
    | Label(at: Addr)
    | Plain(at: Addr)
    | CallTo(at: Addr, target: Addr)
    | CallIndirect(at: Addr)
    | Goto(at: Addr, target: Addr)
    | TailJump(at: Addr, target: Addr, named: bool)
    | TailIndirect(at: Addr)
    | BranchTo(at: Addr, target: Addr)
    | BranchOut(at: Addr, target: Addr)
    | Return(at: Addr)
    | Unimplemented(at: Addr)
    | ByteComment(at: Addr)
    | Leave

  /** Decodes for the sweep, which reads on through padding but not through bytes that do not decode. */
  predicate Sweepable(image: Image, a: Addr) {
    a in image && image[a].flow != Invalid && image[a].length > 0
  }

  function SweepNext(image: Image, a: Addr): (n: Addr)
    ensures a < n
  {
    if Sweepable(image, a) then a + image[a].length else a + 1
  }

  /** The addresses visited by the linear sweep of [lo, hi). */
  function Sweep(image: Image, lo: Addr, hi: Addr): seq<Addr>
    decreases hi - lo
  {
    if lo < hi then [lo] + Sweep(image, SweepNext(image, lo), hi) else []
  }

  function Sweeps(image: Image, blocks: seq<Block>): seq<Addr> {
    if blocks == [] then [] else Sweep(image, blocks[0].base, blocks[0].End()) + Sweeps(image, blocks[1..])
  }

  predicate Jumps(image: Image, a: Addr, t: Addr) {
    a in image && t != 0 && t == image[a].target
    && (image[a].flow == ConditionalBranch || image[a].flow == UnconditionalBranch)
  }

  /** Addresses that get a label: instruction starts that discovery labelled or that a direct branch names. */
  ghost function LabelSet(image: Image, labels: set<Addr>, starts: set<Addr>): set<Addr> {
    set t | t in starts && (t in labels || exists a :: a in starts && Jumps(image, a, t))
  }

  /** The statement for the instruction (or undecodable byte) at `a`. */
  function Lower(image: Image, named: set<Addr>, emitted: set<Addr>, a: Addr): CStmt {
    if !Sweepable(image, a) then ByteComment(a)
    else
      var insn := image[a];
      if !insn.lowered || insn.flow == Int3 then Unimplemented(a)
      else match insn.flow
        case Call => CallTo(a, insn.target)
        case IndirectCall => CallIndirect(a)
        case UnconditionalBranch =>
          if insn.target in emitted then Goto(a, insn.target) else TailJump(a, insn.target, insn.target in named)
        case ConditionalBranch => if insn.target in emitted then BranchTo(a, insn.target) else BranchOut(a, insn.target)
        case IndirectBranch => TailIndirect(a)
        case Return => CStmt.Return(a)
        case _ => Plain(a)
  }

  function Line(image: Image, named: set<Addr>, emitted: set<Addr>, a: Addr): seq<CStmt> {
    (if a in emitted then [Label(a)] else []) + [Lower(image, named, emitted, a)]
  }

  /** The text for a list of addresses, in order. */
  function Text(image: Image, named: set<Addr>, emitted: set<Addr>, addrs: seq<Addr>): seq<CStmt> {
    if addrs == [] then [] else Text(image, named, emitted, addrs[..|addrs|-1]) + Line(image, named, emitted, addrs[|addrs|-1])
  }

  /** The addresses the emitter sweeps, in order. */
  function Swept(image: Image, blocks: seq<Block>): seq<Addr> {
    Sweeps(image, SortBy(Base, blocks))
  }

  function Elements(addrs: seq<Addr>): set<Addr> { set a | a in addrs }

  ghost function EmittedLabels(image: Image, labels: set<Addr>, blocks: seq<Block>): set<Addr> {
    LabelSet(image, labels, Elements(Swept(image, blocks)))
  }

  /** The emitted body of a function with these blocks and labels. */
  ghost function Body(image: Image, named: set<Addr>, labels: set<Addr>, blocks: seq<Block>): seq<CStmt> {
    Text(image, named, EmittedLabels(image, labels, blocks), Swept(image, blocks)) + [Leave]
  }

  // ---------- The emitter ----------

  lemma {:induction false} SweepsAppend(image: Image, blocks: seq<Block>, b: Block)
    ensures Sweeps(image, blocks + [b]) == Sweeps(image, blocks) + Sweep(image, b.base, b.End())
  {
    hide Sweep;
    if blocks != [] {
      var rest := blocks[1..];
      assert (blocks + [b])[1..] == rest + [b] && (blocks + [b])[0] == blocks[0];
      SweepsAppend(image, rest, b);
      hide Sweeps;
      var first, last := Sweep(image, blocks[0].base, blocks[0].End()), Sweep(image, b.base, b.End());
      assert first + (Sweeps(image, rest) + last) == (first + Sweeps(image, rest)) + last;
    } else {
      assert Sweeps(image, []) == [] && [b][1..] == [];
      assert Sweep(image, b.base, b.End()) + [] == Sweep(image, b.base, b.End());
    }
  }

  lemma SweepsElements(image: Image, blocks: seq<Block>)
    ensures forall a :: a in Sweeps(image, blocks) <==> exists b :: b in blocks && a in Sweep(image, b.base, b.End())
  {
    if blocks != [] {
      SweepsElements(image, blocks[1..]);
      assert blocks == [blocks[0]] + blocks[1..];
    }
  }

  lemma TextAppend(image: Image, named: set<Addr>, emitted: set<Addr>, addrs: seq<Addr>, a: Addr)
    ensures Text(image, named, emitted, addrs + [a]) == Text(image, named, emitted, addrs) + Line(image, named, emitted, a)
  {
    assert (addrs + [a])[..|addrs|] == addrs;
  }

  /** First sweep: every instruction start inside the blocks. */
  method InsnStarts(image: Image, blocks: seq<Block>) returns (starts: set<Addr>)
    ensures starts == Elements(Sweeps(image, blocks))
  {
    starts := {};
    ghost var done: seq<Addr> := [];
    for i := 0 to |blocks|
      invariant done == Sweeps(image, blocks[..i]) && starts == Elements(done)
    {
      var b := blocks[i];
      var a: Addr := b.base;
      ghost var before := done;
      while a < b.End()
        invariant done + Sweep(image, a, b.End()) == before + Sweep(image, b.base, b.End())
        invariant starts == Elements(done)
        decreases b.End() - a
      {
        assert done + ([a] + Sweep(image, SweepNext(image, a), b.End())) == (done + [a]) + Sweep(image, SweepNext(image, a), b.End());
        starts, done := starts + {a}, done + [a];
        a := SweepNext(image, a);
      }
      SweepsAppend(image, blocks[..i], b);
      assert blocks[..i] + [b] == blocks[..i+1];
    }
    assert blocks[..|blocks|] == blocks;
  }

  /** Pre-scan: direct-branch targets that are instruction starts need a label too. */
  method BranchLabels(image: Image, labels: set<Addr>, starts: set<Addr>) returns (all: set<Addr>)
    ensures forall t :: t in all <==> t in labels || (t in starts && exists a :: a in starts && Jumps(image, a, t))
  {
    all := labels;
    var rest := starts;
    while rest != {}
      invariant rest <= starts
      invariant forall t :: t in all <==> t in labels || (t in starts && exists a :: a in starts && a !in rest && Jumps(image, a, t))
      decreases rest
    {
      var a :| a in rest;
      ghost var rest0, all0 := rest, all;
      rest := rest - {a};
      if a in image && image[a].target != 0
         && (image[a].flow == ConditionalBranch || image[a].flow == UnconditionalBranch)
         && image[a].target in starts {
        all := all + {image[a].target};
        assert Jumps(image, a, image[a].target);
      }
      forall t ensures t in all <==> t in labels || (t in starts && exists a :: a in starts && a !in rest && Jumps(image, a, t)) {
        if t in starts && exists x :: x in starts && x !in rest && Jumps(image, x, t) {
          var x :| x in starts && x !in rest && Jumps(image, x, t);
          assert x == a || x !in rest0;
        }
      }
    }
  }

  /** Second sweep: the text, in block order. */
  method EmitText(image: Image, named: set<Addr>, emitted: set<Addr>, blocks: seq<Block>) returns (body: seq<CStmt>)
    ensures body == Text(image, named, emitted, Sweeps(image, blocks))
  {
    hide *;
    body := [];
    SweepsNothing(image, named, emitted);
    assert blocks[..0] == [];
    for i := 0 to |blocks|
      invariant body == Text(image, named, emitted, Sweeps(image, blocks[..i]))
    {
      var b := blocks[i];
      var addr: Addr := b.base;
      ghost var before := Sweeps(image, blocks[..i]);
      ghost var done: seq<Addr> := [];
      assert before + [] == before;
      assert [] + Sweep(image, b.base, b.End()) == Sweep(image, b.base, b.End());
      while addr < b.End()
        invariant done + Sweep(image, addr, b.End()) == Sweep(image, b.base, b.End())
        invariant body == Text(image, named, emitted, before + done)
        decreases b.End() - addr
      {
        SweepSplits(image, addr, b.End());
        ghost var rest := Sweep(image, SweepNext(image, addr), b.End());
        assert done + ([addr] + rest) == (done + [addr]) + rest;
        TextAppend(image, named, emitted, before + done, addr);
        assert before + done + [addr] == before + (done + [addr]);
        LineIs(image, named, emitted, addr);
        done := done + [addr];
        body := body + ((if addr in emitted then [Label(addr)] else []) + [Lower(image, named, emitted, addr)]);
        addr := SweepNext(image, addr);
      }
      SweepEnds(image, addr, b.End());
      assert done + [] == done;
      SweepsAppend(image, blocks[..i], b);
      assert blocks[..i] + [b] == blocks[..i+1];
    }
    assert blocks[..|blocks|] == blocks;
  }

  lemma SweepsNothing(image: Image, named: set<Addr>, emitted: set<Addr>)
    ensures Sweeps(image, []) == [] && Text(image, named, emitted, []) == []
  {
  }

  lemma SweepSplits(image: Image, lo: Addr, hi: Addr)
    requires lo < hi
    ensures Sweep(image, lo, hi) == [lo] + Sweep(image, SweepNext(image, lo), hi) && SweepNext(image, lo) > lo
  {
  }

  lemma SweepEnds(image: Image, lo: Addr, hi: Addr)
    requires lo >= hi
    ensures Sweep(image, lo, hi) == []
  {
  }

  lemma LineIs(image: Image, named: set<Addr>, emitted: set<Addr>, a: Addr)
    ensures Line(image, named, emitted, a) == (if a in emitted then [Label(a)] else []) + [Lower(image, named, emitted, a)]
  {
  }

  /** Emits a function. `named` holds the addresses that have a symbol name. */
  method Emit(image: Image, named: set<Addr>, labels: set<Addr>, jumpTables: seq<JumpTable>, blocks: seq<Block>)
    returns (body: seq<CStmt>)
    ensures body == Body(image, named, labels + (set jt, t | jt in jumpTables && t in jt.targets :: t), blocks)
    ensures forall t :: Label(t) in body <==> IsLabelled(image, labels, jumpTables, Elements(Swept(image, blocks)), t)
    ensures forall a, t, byName :: TailJump(a, t, byName) in body ==> (byName <==> t in named)
  {
    var all := labels + (set jt, t | jt in jumpTables && t in jt.targets :: t);
    var starts := InsnStarts(image, blocks);
    var marked := BranchLabels(image, all, starts);
    var emitted := set t | t in marked && t in starts;
    assert emitted == LabelSet(image, all, starts);
    SameStarts(image, blocks);
    assert emitted == EmittedLabels(image, all, blocks);
    body := EmitText(image, named, emitted, SortBy(Base, blocks));
    body := body + [Leave];
    LabelsExactly(image, named, all, blocks);
    LabelledExactly(image, labels, jumpTables, Elements(Swept(image, blocks)));
  }

  /** A swept address gets a label if discovery labelled it, if a jump table names it, or if a swept instruction that
      jumps, with or without a condition, names it. */
  ghost predicate IsLabelled(image: Image, labels: set<Addr>, jumpTables: seq<JumpTable>, starts: set<Addr>, t: Addr) {
    t in starts
    && (|| t in labels
        || (exists jt :: jt in jumpTables && t in jt.targets)
        || (t != 0 && exists a :: a in starts && a in image && image[a].target == t
                                  && image[a].flow in {UnconditionalBranch, ConditionalBranch}))
  }

  lemma LabelledExactly(image: Image, labels: set<Addr>, jumpTables: seq<JumpTable>, starts: set<Addr>)
    ensures var all := labels + (set jt, t | jt in jumpTables && t in jt.targets :: t);
      forall t :: t in LabelSet(image, all, starts) <==> IsLabelled(image, labels, jumpTables, starts, t)
  {
    var all := labels + (set jt, t | jt in jumpTables && t in jt.targets :: t);
    forall t ensures t in LabelSet(image, all, starts) <==> IsLabelled(image, labels, jumpTables, starts, t) {
      if exists a :: a in starts && Jumps(image, a, t) {
        var a :| a in starts && Jumps(image, a, t);
        assert image[a].target == t;
      }
      if t != 0 && exists a :: a in starts && a in image && image[a].target == t && image[a].flow in {UnconditionalBranch, ConditionalBranch} {
        var a :| a in starts && a in image && image[a].target == t && image[a].flow in {UnconditionalBranch, ConditionalBranch};
        assert Jumps(image, a, t);
      }
    }
  }

  /** The labels of a body are those of its label set, and a jump out goes by name exactly where there is one. */
  lemma LabelsExactly(image: Image, named: set<Addr>, labels: set<Addr>, blocks: seq<Block>)
    ensures var body := Body(image, named, labels, blocks);
      && (forall t :: Label(t) in body <==> t in EmittedLabels(image, labels, blocks))
      && forall a, t, byName :: TailJump(a, t, byName) in body ==> (byName <==> t in named)
  {
    TextLabels(image, named, EmittedLabels(image, labels, blocks), Swept(image, blocks));
    hide Text, Swept;
  }

  lemma {:induction false} TextLabels(image: Image, named: set<Addr>, emitted: set<Addr>, addrs: seq<Addr>)
    ensures var text := Text(image, named, emitted, addrs);
      && (forall t :: Label(t) in text <==> t in addrs && t in emitted)
      && forall a, t, byName :: TailJump(a, t, byName) in text ==> (byName <==> t in named)
  {
    if addrs != [] {
      var init, last := addrs[..|addrs|-1], addrs[|addrs|-1];
      TextLabels(image, named, emitted, init);
      assert addrs == init + [last];
      LineLabels(image, named, emitted, last);
      hide Line, Lower;
    }
  }

  lemma LineLabels(image: Image, named: set<Addr>, emitted: set<Addr>, a: Addr)
    ensures var line := Line(image, named, emitted, a);
      && (forall t :: Label(t) in line <==> t == a && t in emitted)
      && forall x, t, byName :: TailJump(x, t, byName) in line ==> (byName <==> t in named)
  {
  }

  lemma SameStarts(image: Image, blocks: seq<Block>)
    ensures Elements(Sweeps(image, blocks)) == Elements(Swept(image, blocks))
  {
    SweepsElements(image, blocks);
    SweepsElements(image, SortBy(Base, blocks));
    SortByElements(Base, blocks);
  }

  // ---------- Labels of any sealed function ----------

  ghost predicate Increasing(addrs: seq<Addr>) {
    forall i, j | 0 <= i < j < |addrs| :: addrs[i] < addrs[j]
  }

  lemma {:induction false} SweepIncreasing(image: Image, lo: Addr, hi: Addr)
    ensures Increasing(Sweep(image, lo, hi))
    ensures forall a | a in Sweep(image, lo, hi) :: lo <= a < hi
    decreases hi - lo
  {
    if lo < hi {
      SweepIncreasing(image, SweepNext(image, lo), hi);
      var rest := Sweep(image, SweepNext(image, lo), hi);
      assert forall i | 0 <= i < |rest| :: rest[i] in rest;
    }
  }

  lemma {:induction false} SweepsIncreasing(image: Image, blocks: seq<Block>)
    requires Separated(blocks)
    ensures Increasing(Sweeps(image, blocks))
    ensures forall a | a in Sweeps(image, blocks) :: exists b :: b in blocks && b.Contains(a)
  {
    if blocks != [] {
      var b, rest := blocks[0], Sweeps(image, blocks[1..]);
      SweepIncreasing(image, b.base, b.End());
      SweepsIncreasing(image, blocks[1..]);
      var first := Sweep(image, b.base, b.End());
      assert blocks == [b] + blocks[1..];
      forall i, j | 0 <= i < |first| && 0 <= j < |rest| ensures first[i] < rest[j] {
        assert first[i] in first && rest[j] in rest;
        var c :| c in blocks[1..] && c.Contains(rest[j]);
        assert b.End() < c.base;
      }
      forall a | a in Sweeps(image, blocks) ensures exists b :: b in blocks && b.Contains(a) {
        if a in first { assert b.Contains(a); } else { assert a in rest; }
      }
    }
  }

  /** The index in the text where the text of `addrs[k]` starts. */
  ghost function Pos(emitted: set<Addr>, addrs: seq<Addr>, k: nat): nat
    requires k <= |addrs|
  {
    if k == 0 then 0 else Pos(emitted, addrs, k - 1) + (if addrs[k-1] in emitted then 2 else 1)
  }

  lemma {:induction false} PosPrefix(emitted: set<Addr>, addrs: seq<Addr>, n: nat, k: nat)
    requires k <= n <= |addrs|
    ensures Pos(emitted, addrs[..n], k) == Pos(emitted, addrs, k)
  {
    if k > 0 { PosPrefix(emitted, addrs, n, k - 1); }
  }

  lemma {:induction false} TextAt(image: Image, named: set<Addr>, emitted: set<Addr>, addrs: seq<Addr>, k: nat)
    requires k < |addrs|
    ensures var text, p := Text(image, named, emitted, addrs), Pos(emitted, addrs, k);
      && |text| == Pos(emitted, addrs, |addrs|)
      && Pos(emitted, addrs, k + 1) == p + (if addrs[k] in emitted then 2 else 1) <= |text|
      && (addrs[k] in emitted ==> text[p] == Label(addrs[k]))
      && text[Pos(emitted, addrs, k + 1) - 1] == Lower(image, named, emitted, addrs[k])
    decreases |addrs|
  {
    hide Lower;
    var n := |addrs| - 1;
    var init := addrs[..n];
    TextLength(image, named, emitted, init);
    PosPrefix(emitted, addrs, n, n);
    if k < n {
      TextAt(image, named, emitted, init, k);
      PosPrefix(emitted, addrs, n, k);
      PosPrefix(emitted, addrs, n, k + 1);
    }
  }

  lemma {:induction false} TextLength(image: Image, named: set<Addr>, emitted: set<Addr>, addrs: seq<Addr>)
    ensures |Text(image, named, emitted, addrs)| == Pos(emitted, addrs, |addrs|)
  {
    if addrs != [] {
      var n := |addrs| - 1;
      TextLength(image, named, emitted, addrs[..n]);
      PosPrefix(emitted, addrs, n, n);
    }
  }

  /** Which address a statement of the text belongs to. */
  lemma {:induction false} TextOwner(image: Image, named: set<Addr>, emitted: set<Addr>, addrs: seq<Addr>, i: nat) returns (k: nat)
    requires i < |Text(image, named, emitted, addrs)|
    ensures k < |addrs| && Pos(emitted, addrs, k) <= i < Pos(emitted, addrs, k + 1)
    ensures Text(image, named, emitted, addrs)[i] ==
      if i == Pos(emitted, addrs, k + 1) - 1 then Lower(image, named, emitted, addrs[k]) else Label(addrs[k])
    ensures i != Pos(emitted, addrs, k + 1) - 1 ==> addrs[k] in emitted && i == Pos(emitted, addrs, k)
    decreases |addrs|
  {
    var n := |addrs| - 1;
    TextLength(image, named, emitted, addrs[..n]);
    PosPrefix(emitted, addrs, n, n);
    if i < |Text(image, named, emitted, addrs[..n])| {
      k := TextOwner(image, named, emitted, addrs[..n], i);
      PosPrefix(emitted, addrs, n, k);
      PosPrefix(emitted, addrs, n, k + 1);
    } else {
      k := n;
    }
  }

  /** In the body of any sealed function every goto names a label, and every label is defined exactly once. */
  lemma GotosHaveOneLabel(image: Image, named: set<Addr>, labels: set<Addr>, blocks: seq<Block>, i: nat)
    requires Separated(blocks)
    requires i < |Body(image, named, labels, blocks)|
    requires var s := Body(image, named, labels, blocks)[i]; s.Goto? || s.BranchTo?
    ensures var body := Body(image, named, labels, blocks);
      exists p :: 0 <= p < |body| && body[p] == Label(body[i].target)
        && forall q | 0 <= q < |body| && body[q] == Label(body[i].target) :: q == p
  {
    SeparatedIsSorted(blocks);
    SweepsIncreasing(image, blocks);
    hide Sweeps, Text, SortBy, Separated, Sweep, Pos;
    var addrs := Swept(image, blocks);
    var emitted := EmittedLabels(image, labels, blocks);
    var k := TextOwner(image, named, emitted, addrs, i);
    var t := Body(image, named, labels, blocks)[i].target;
    GotoIsEmitted(image, named, emitted, addrs[k]);
    hide Lower;
    assert t in emitted && t in addrs;
    var m :| 0 <= m < |addrs| && addrs[m] == t;
    LabelOnce(image, named, emitted, addrs, m);
  }

  lemma GotoIsEmitted(image: Image, named: set<Addr>, emitted: set<Addr>, a: Addr)
    ensures var s := Lower(image, named, emitted, a); s.Goto? || s.BranchTo? ==> s.target in emitted
  {
  }

  /** Over increasing addresses an emitted label occurs once, at the head of its address's text. */
  lemma LabelOnce(image: Image, named: set<Addr>, emitted: set<Addr>, addrs: seq<Addr>, m: nat)
    requires Increasing(addrs) && m < |addrs| && addrs[m] in emitted
    ensures var body, p := Text(image, named, emitted, addrs) + [Leave], Pos(emitted, addrs, m);
      && p < |body| && body[p] == Label(addrs[m])
      && forall q | 0 <= q < |body| && body[q] == Label(addrs[m]) :: q == p
  {
    TextAt(image, named, emitted, addrs, m);
    var text := Text(image, named, emitted, addrs);
    forall q | 0 <= q < |text| && text[q] == Label(addrs[m]) ensures q == Pos(emitted, addrs, m) {
      var j := TextOwner(image, named, emitted, addrs, q);
      assert addrs[j] == addrs[m];
    }
  }

  lemma {:induction false} SeparatedIsSorted(blocks: seq<Block>)
    requires Separated(blocks)
    ensures SortBy(Base, blocks) == blocks
  {
    if blocks != [] {
      SeparatedIsSorted(blocks[1..]);
      assert |blocks| > 1 ==> blocks[0].End() < blocks[1].base;
      assert blocks == [blocks[0]] + blocks[1..];
    }
  }
}
