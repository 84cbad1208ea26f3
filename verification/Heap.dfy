/** The bump heap and the map of guest memory reported to the guest.

    Host memory from the guest base on is an array; guest RAM is its first `ram` bytes. The array reaches past the
    32-bit guest space because a block near its end is cleared past it. */
module Heap {
  import opened Code

  type Byte = b: nat | b < 0x100
  type Word = w: nat | w < LIMIT

  const XBE_BASE: nat := 0x1_0000
  const STACK_BASE: nat := 0x78_0000
  const HEAP_BASE: nat := 0xF8_0000
  const MIN_SIZE: nat := 4096
  const HOST: nat := 0x2_0000_0000

  /** The console has 64 MB of RAM, the development kit 128 MB. */
  predicate RamSize(ram: nat) { ram == 0x400_0000 || ram == 0x800_0000 }

  /** The bits of `x` that are not in `mask`. */
  function AndNot(x: nat, mask: nat): nat
    decreases x
  {
    if x == 0 then 0 else 2 * AndNot(x / 2, mask / 2) + (if mask % 2 == 1 then 0 else x % 2)
  }

  predicate IsPower(p: nat) { p == 1 || (p > 1 && p % 2 == 0 && IsPower(p / 2)) }

  lemma {:induction false} AndNotBounds(x: nat, mask: nat)
    ensures AndNot(x, mask) <= x <= AndNot(x, mask) + mask
    decreases x
  {
    if x != 0 { AndNotBounds(x / 2, mask / 2); }
  }

  /** With a mask one below a power of two, the rest is the multiple of that power at or below `x`. */
  lemma {:induction false} AndNotRounds(x: nat, p: nat)
    requires IsPower(p)
    ensures AndNot(x, p - 1) == x - x % p && AndNot(x, p - 1) % p == 0
    decreases x
  {
    if p == 1 {
      AndNotNothing(x);
    } else if x == 0 {
    } else {
      var q := p / 2;
      assert (p - 1) / 2 == q - 1 && (p - 1) % 2 == 1;
      AndNotRounds(x / 2, q);
      HalfOfRest(x, q);
      DoubleOfMultiple(x / 2 - (x / 2) % q, q);
    }
  }

  lemma {:induction false} AndNotNothing(x: nat)
    ensures AndNot(x, 0) == x
  {
    if x != 0 { AndNotNothing(x / 2); }
  }

  lemma HalfOfRest(x: nat, q: nat)
    requires q > 0
    ensures x % (2 * q) == 2 * ((x / 2) % q) + x % 2
  {
    var h := x / 2;
    var k, r := h / q, h % q;
    assert h == q * k + r;
    assert x == (2 * q) * k + (2 * r + x % 2);
    RestIs(2 * q, k, 2 * r + x % 2);
  }

  lemma DoubleOfMultiple(m: nat, q: nat)
    requires q > 0 && m % q == 0
    ensures (2 * m) % (2 * q) == 0
  {
    assert m == q * (m / q);
    assert 2 * m == (2 * q) * (m / q) + 0;
    RestIs(2 * q, m / q, 0);
  }

  lemma RestIs(d: nat, k: nat, r: nat)
    requires r < d
    ensures (d * k + r) % d == r
  {
    var y := d * k + r;
    var k', r' := y / d, y % d;
    Euclid(d, k', r', k, r);
  }

  lemma Euclid(d: nat, k: nat, r: nat, k': nat, r': nat)
    requires d * k + r == d * k' + r' && r < d && r' < d
    ensures r == r'
  {
    if k < k' { AtLeastOnce(d, k' - k); }
    if k' < k { AtLeastOnce(d, k - k'); }
  }

  lemma AtLeastOnce(d: nat, m: nat)
    requires m > 0
    ensures d * m >= d
  {
  }

  // ---------- One request ----------

  datatype Span = Span(base: nat, size: nat)

  /** The two entry points: anywhere with an alignment, or at an exact base. */
  datatype Request = Any(size: Word, alignment: Word) | At(base: Word, size: Word) {
    function Size(): nat { if size < MIN_SIZE then MIN_SIZE else size }
    function Alignment(): nat { if At? || alignment < 4 then 4 else alignment }
  }

  function Place(next: Word, r: Request): Word {
    match r
    case At(base, _) => base
    case Any(_, _) =>
      var a := r.Alignment();
      AndNotBounds((next + a - 1) % LIMIT, a - 1);
      AndNot((next + a - 1) % LIMIT, a - 1)
  }

  /** All sums are 32 bits wide. */
  predicate Granted(next: Word, ram: nat, r: Request) {
    && (r.At? ==> r.base >= next)
    && (Place(next, r) + r.Size()) % LIMIT <= ram
  }

  function Piece(next: Word, r: Request): Span { Span(Place(next, r), r.Size()) }

  function NextAfter(next: Word, ram: nat, r: Request): Word {
    if Granted(next, ram, r) then (Place(next, r) + r.Size()) % LIMIT else next
  }

  /** One of the two sums of the request leaves 32 bits. */
  predicate Wraps(next: Word, r: Request) {
    (r.Any? && next + r.Alignment() - 1 >= LIMIT) || Place(next, r) + r.Size() >= LIMIT
  }

  predicate Fresh(s: Span, next: nat, ram: nat) { next <= s.base && s.base + s.size <= ram }

  lemma Wrapped(x: nat)
    requires x < 2 * LIMIT
    ensures x % LIMIT == if x < LIMIT then x else x - LIMIT
  {
  }

  /** An aligned place is at or above the mark unless its sum wrapped, and then it is below. */
  lemma PlaceBounds(next: Word, r: Request)
    requires r.Any?
    ensures next + r.Alignment() - 1 < LIMIT ==> next <= Place(next, r) <= next + r.Alignment() - 1
    ensures next + r.Alignment() - 1 >= LIMIT ==> Place(next, r) < next
  {
    hide AndNot;
    var x: nat := next + r.Alignment() - 1;
    Wrapped(x);
    AndNotBounds(x % LIMIT, r.Alignment() - 1);
  }

  /** A granted block lies between the high-water mark and the top of RAM exactly when no sum of its request wrapped. */
  lemma GrantedIsFresh(next: Word, ram: nat, r: Request)
    requires RamSize(ram) && Granted(next, ram, r)
    ensures Fresh(Piece(next, r), next, ram) <==> !Wraps(next, r)
    ensures !Wraps(next, r) ==> NextAfter(next, ram, r) == Piece(next, r).base + Piece(next, r).size
  {
    if r.Any? { PlaceBounds(next, r); }
    Wrapped(Place(next, r) + r.Size());
    PlaceAt(next, r);
    hide Place, Request.Alignment;
  }

  lemma PlaceAt(next: Word, r: Request)
    ensures r.At? ==> Place(next, r) == r.base
  {
  }

  /** Requests and marks of less than half the address space never wrap. */
  lemma SmallNeverWraps(next: Word, ram: nat, r: Request)
    requires RamSize(ram) && next <= ram && r.size <= LIMIT / 4
    requires match r case Any(_, alignment) => alignment <= LIMIT / 4 case At(base, _) => base <= LIMIT / 2
    ensures !Wraps(next, r)
  {
    if r.Any? { PlaceBounds(next, r); }
    PlaceAt(next, r);
    hide Place;
  }

  /** A request that wraps is granted over memory already handed out, and past the end of RAM. */
  lemma WrapOverlaps()
    ensures var r, next := At(0xFFFF_F000, 0x80_1000), HEAP_BASE + 0x2000;
      Granted(next, 0x400_0000, r) && NextAfter(next, 0x400_0000, r) < HEAP_BASE
    ensures var r, next := Any(4096, 0xFFFF_F001), HEAP_BASE;
      Granted(next, 0x400_0000, r) && Piece(next, r).base < HEAP_BASE
  {
    var a := 0xFFFF_F001;
    var x: nat := (HEAP_BASE + a - 1) % LIMIT;
    assert x == HEAP_BASE - 0x1000;
    AndNotBounds(x, a - 1);
  }

  // ---------- Alignment ----------

  function Pow2(k: nat): nat { if k == 0 then 1 else 2 * Pow2(k - 1) }

  lemma {:induction false} AndNotSelf(m: nat)
    ensures AndNot(m, m) == 0
  {
    if m != 0 { AndNotSelf(m / 2); }
  }

  lemma {:induction false} Pow2Sum(j: nat, k: nat)
    ensures Pow2(j + k) == Pow2(j) * Pow2(k)
  {
    if k > 0 { Pow2Sum(j, k - 1); }
  }

  lemma Pow2Values()
    ensures Pow2(24) == 0x100_0000 && Pow2(32) == LIMIT
  {
    assert Pow2(8) == 0x100;
    Pow2Sum(8, 8);
    Pow2Sum(16, 8);
    Pow2Sum(16, 16);
  }

  lemma AndNotBit(x: nat, mask: nat)
    ensures AndNot(x, mask) == 2 * AndNot(x / 2, mask / 2) + (if mask % 2 == 1 then 0 else x % 2)
  {
  }

  lemma PowerHalf(m: nat)
    requires m % 2 == 1 && !IsPower(m + 1)
    ensures !IsPower(m / 2 + 1) && m / 2 > 0
  {
    assert (m + 1) / 2 == m / 2 + 1;
  }

  lemma Pow2Half(k: nat, m: nat)
    requires 1 < m < Pow2(k)
    ensures k > 0 && Pow2(k) == 2 * Pow2(k - 1) && m / 2 < Pow2(k - 1)
  {
  }

  /** A mask that is not one below a power of two has a clear bit below its top one. */
  lemma {:induction false} ClearBit(m: nat, k: nat) returns (x: nat)
    requires m > 0 && !IsPower(m + 1) && m < Pow2(k)
    ensures 0 < x <= m && x + m < Pow2(k) && AndNot(x + m, m) == x
    decreases m
  {
    assert m > 1 by { assert IsPower(2); }
    hide AndNot, IsPower, Pow2;
    Pow2Half(k, m);
    if m % 2 == 0 {
      x := 1;
      AndNotSelf(m / 2);
      AndNotBit(x + m, m);
      assert (1 + m) / 2 == m / 2;
    } else {
      PowerHalf(m);
      var y := ClearBit(m / 2, k - 1);
      x := 2 * y;
      AndNotBit(x + m, m);
      assert (x + m) / 2 == y + m / 2;
    }
  }

  function Shifted(h: nat, k: nat): nat { if k == 0 then h else 2 * Shifted(h, k - 1) }

  lemma {:induction false} ShiftedIs(h: nat, k: nat)
    ensures Shifted(h, k) == h * Pow2(k)
  {
    if k > 0 {
      ShiftedIs(h, k - 1);
      Twice(h, Pow2(k - 1));
    }
  }

  lemma Twice(h: nat, p: nat)
    ensures 2 * (h * p) == h * (2 * p)
  {
  }

  lemma {:induction false} ShiftedPart(h: nat, y: nat, m: nat, k: nat)
    requires y < Pow2(k) && m < Pow2(k)
    ensures AndNot(Shifted(h, k) + y, m) == Shifted(h, k) + AndNot(y, m)
    decreases k
  {
    if k == 0 {
      AndNotNothing(h);
    } else {
      var top := Shifted(h, k - 1);
      assert Shifted(h, k) == 2 * top && y / 2 < Pow2(k - 1) && m / 2 < Pow2(k - 1);
      hide AndNot, Pow2, Shifted;
      ShiftedPart(h, y / 2, m / 2, k - 1);
      assert (2 * top + y) / 2 == top + y / 2;
      AndNotBit(2 * top + y, m);
      AndNotBit(y, m);
    }
  }

  /** Bits above the mask are untouched. */
  lemma HighPart(h: nat, y: nat, m: nat, k: nat)
    requires y < Pow2(k) && m < Pow2(k)
    ensures AndNot(h * Pow2(k) + y, m) == h * Pow2(k) + AndNot(y, m)
  {
    ShiftedIs(h, k);
    ShiftedPart(h, y, m, k);
  }

  /** Where an aligned block is placed when the sum does not wrap. */
  lemma PlaceIs(next: Word, r: Request)
    requires r.Any? && next + r.Alignment() - 1 < LIMIT
    ensures Place(next, r) == AndNot(next + r.Alignment() - 1, r.Alignment() - 1)
  {
    hide AndNot;
    Wrapped(next + r.Alignment() - 1);
  }

  lemma PowersAlign(next: Word, r: Request)
    requires r.Any? && IsPower(r.Alignment())
    ensures Place(next, r) % r.Alignment() == 0
  {
    AndNotRounds((next + r.Alignment() - 1) % LIMIT, r.Alignment());
  }

  predicate Misplaces(next: Word, r: Request)
    requires r.Any?
  {
    next + r.Alignment() - 1 < LIMIT && Place(next, r) % r.Alignment() != 0
  }

  lemma OthersMisplace(r: Request) returns (next: Word)
    requires r.Any? && !IsPower(r.Alignment())
    ensures Misplaces(next, r)
  {
    var a: nat := r.Alignment();
    Pow2Values();
    var x := ClearBit(a - 1, 32);
    next := x;
    PlaceIs(next, r);
    SmallRest(x, a);
    hide Place, Request.Alignment, AndNot;
  }

  lemma SmallRest(x: nat, a: nat)
    requires x < a
    ensures x % a == x
  {
  }

  lemma AboveMask(y: nat, m: nat)
    requires y < 0x100_0000 && m < 0x100_0000
    ensures AndNot(0x100_0000 + y, m) == 0x100_0000 + AndNot(y, m)
  {
    Pow2Values();
    HighPart(1, y, m, 24);
    hide *;
  }

  lemma AlignmentRange(r: Request)
    ensures 4 <= r.Alignment() < LIMIT
  {
  }

  /** Two marks 16 MB up, one of which misplaces. */
  lemma OthersMisplaceInHeap(r: Request) returns (next: Word)
    requires r.Any? && !IsPower(r.Alignment()) && r.Alignment() <= 0x100_0000
    ensures HEAP_BASE <= next <= 0x400_0000 && Misplaces(next, r)
  {
    AlignmentRange(r);
    Pow2Values();
    hide Place, Request.Alignment, AndNot, Pow2, IsPower;
    var a: nat, h: nat := r.Alignment(), 0x100_0000;
    var x := ClearBit(a - 1, 24);
    AndNotSelf(a - 1);
    AboveMask(a - 1, a - 1);
    AboveMask(x + a - 1, a - 1);
    if h % a == 0 {
      next := h + x;
      NextRest(h, x, a);
    } else {
      next := h;
    }
    PlaceIs(next, r);
  }

  lemma NextRest(h: nat, x: nat, a: nat)
    requires 0 < x < a && h % a == 0
    ensures (h + x) % a != 0
  {
    RestIs(a, h / a, x);
    assert h == a * (h / a);
  }

  /** A request is aligned as asked, whatever the mark, exactly when the alignment is a power of two; up to 16 MB the
      marks inside the heap already tell. */
  lemma AlignsExactly(r: Request)
    requires r.Any?
    ensures (forall next: Word :: Place(next, r) % r.Alignment() == 0) <==> IsPower(r.Alignment())
    ensures r.Alignment() <= 0x100_0000 ==>
      ((forall next: Word | HEAP_BASE <= next <= 0x400_0000 :: Place(next, r) % r.Alignment() == 0) <==> IsPower(r.Alignment()))
  {
    if IsPower(r.Alignment()) {
      forall next: Word ensures Place(next, r) % r.Alignment() == 0 { PowersAlign(next, r); }
    } else {
      var next := OthersMisplace(r);
      if r.Alignment() <= 0x100_0000 { var inside := OthersMisplaceInHeap(r); }
    }
    hide Place, IsPower, Request.Alignment;
  }

  /** An alignment a guest can ask for, at the very first request. */
  lemma OddAlignment()
    ensures Place(HEAP_BASE, Any(4096, 0x1800)) == HEAP_BASE && HEAP_BASE % 0x1800 != 0
  {
    assert Pow2(13) == 0x2000;
    PlaceIs(HEAP_BASE, Any(4096, 0x1800));
    AndNotSelf(0x17FF);
    HighPart(0x7C0, 0x17FF, 0x17FF, 13);
    hide AndNot, Pow2, Place;
  }

  // ---------- Whole runs ----------

  /** The mark after a run of requests. */
  function Mark(next: Word, ram: nat, rs: seq<Request>): Word {
    if rs == [] then next
    else NextAfter(Mark(next, ram, rs[..|rs|-1]), ram, rs[|rs|-1])
  }

  /** The blocks a run handed out, in order. */
  function Pieces(next: Word, ram: nat, rs: seq<Request>): seq<Span> {
    if rs == [] then []
    else
      var before := Mark(next, ram, rs[..|rs|-1]);
      Pieces(next, ram, rs[..|rs|-1]) + (if Granted(before, ram, rs[|rs|-1]) then [Piece(before, rs[|rs|-1])] else [])
  }

  ghost predicate NoWraps(next: Word, ram: nat, rs: seq<Request>) {
    forall i | 0 <= i < |rs| :: !Wraps(Mark(next, ram, rs[..i]), rs[i])
  }

  /** Ascending blocks between two bounds, none touching another's bytes. */
  ghost predicate Stacked(s: seq<Span>, low: nat, high: nat) {
    && low <= high
    && (forall i | 0 <= i < |s| :: low <= s[i].base && s[i].base + s[i].size <= high)
    && (forall i, j | 0 <= i < j < |s| :: s[i].base + s[i].size <= s[j].base)
  }

  /** Over any run in which no request wraps, the blocks are disjoint, inside the heap and below the mark. */
  lemma {:induction false} RunsStack(ram: nat, rs: seq<Request>)
    requires RamSize(ram) && NoWraps(HEAP_BASE, ram, rs)
    ensures HEAP_BASE <= Mark(HEAP_BASE, ram, rs) <= ram
    ensures Stacked(Pieces(HEAP_BASE, ram, rs), HEAP_BASE, Mark(HEAP_BASE, ram, rs))
  {
    if rs != [] {
      var init, r := rs[..|rs|-1], rs[|rs|-1];
      forall i | 0 <= i < |init| ensures !Wraps(Mark(HEAP_BASE, ram, init[..i]), init[i]) {
        assert init[..i] == rs[..i];
      }
      RunsStack(ram, init);
      var before := Mark(HEAP_BASE, ram, init);
      assert !Wraps(before, r) by { assert rs[..|rs|-1] == init; }
      StackStep(Pieces(HEAP_BASE, ram, init), before, ram, r);
    }
  }

  lemma StackStep(s: seq<Span>, before: Word, ram: nat, r: Request)
    requires RamSize(ram) && HEAP_BASE <= before <= ram && !Wraps(before, r) && Stacked(s, HEAP_BASE, before)
    ensures before <= NextAfter(before, ram, r) <= ram
    ensures Stacked(s + (if Granted(before, ram, r) then [Piece(before, r)] else []), HEAP_BASE, NextAfter(before, ram, r))
  {
    if Granted(before, ram, r) {
      GrantedIsFresh(before, ram, r);
      hide Granted, Wraps, Place, NextAfter;
    }
  }

  /** The size granted, for either kind of request: what was asked, and no less than a page. */
  lemma PieceSize(next: Word, ram: nat, r: Request)
    ensures Piece(next, r).size == if r.size < 4096 then 4096 else r.size
    ensures r.At? ==> Piece(next, r).base == r.base && (Granted(next, ram, r) ==> next <= r.base)
    ensures Granted(next, ram, r) ==> (Piece(next, r).base + Piece(next, r).size) % 0x1_0000_0000 == NextAfter(next, ram, r) <= ram
    ensures !Granted(next, ram, r) ==> NextAfter(next, ram, r) == next
  {
    hide AndNot;
  }

  /** Two requests of one run that were granted got blocks apart, the earlier one below, each as long as it was asked. */
  lemma BlocksApart(ram: nat, rs: seq<Request>, i: nat, j: nat)
    requires RamSize(ram) && NoWraps(HEAP_BASE, ram, rs) && i < j < |rs|
    requires Granted(Mark(HEAP_BASE, ram, rs[..i]), ram, rs[i]) && Granted(Mark(HEAP_BASE, ram, rs[..j]), ram, rs[j])
    ensures var first, second := Mark(HEAP_BASE, ram, rs[..i]), Mark(HEAP_BASE, ram, rs[..j]);
      Place(first, rs[i]) + (if rs[i].size < 4096 then 4096 else rs[i].size) <= Place(second, rs[j])
      && Place(second, rs[j]) + (if rs[j].size < 4096 then 4096 else rs[j].size) <= ram
  {
    var first, second := Mark(HEAP_BASE, ram, rs[..i]), Mark(HEAP_BASE, ram, rs[..j]);
    assert rs[..i + 1][..i] == rs[..i];
    PieceSize(first, ram, rs[i]);
    PieceSize(second, ram, rs[j]);
    GrantedIsFresh(first, ram, rs[i]);
    GrantedIsFresh(second, ram, rs[j]);
    MarkGrows(ram, rs, i + 1, j);
    hide Wraps, Granted, Place, RamSize, Mark, Request.Size;
  }

  lemma {:induction false} MarkGrows(ram: nat, rs: seq<Request>, i: nat, j: nat)
    requires RamSize(ram) && NoWraps(HEAP_BASE, ram, rs) && i <= j <= |rs|
    ensures Mark(HEAP_BASE, ram, rs[..i]) <= Mark(HEAP_BASE, ram, rs[..j])
  {
    if i < j {
      MarkGrows(ram, rs, i, j - 1);
      assert rs[..j][..j - 1] == rs[..j - 1];
      MarkStep(Mark(HEAP_BASE, ram, rs[..j - 1]), ram, rs[j - 1]);
      hide Wraps, NextAfter, RamSize;
    }
  }

  lemma MarkStep(before: Word, ram: nat, r: Request)
    requires RamSize(ram) && !Wraps(before, r)
    ensures before <= NextAfter(before, ram, r)
  {
    if Granted(before, ram, r) { GrantedIsFresh(before, ram, r); }
    hide Wraps, Granted, Place, RamSize;
  }

  predicate Small(r: Request) {
    r.size <= LIMIT / 4 && match r case Any(_, alignment) => alignment <= LIMIT / 4 case At(base, _) => base <= LIMIT / 2
  }

  /** So over any run of requests below a quarter of the address space the blocks are disjoint and inside the heap. */
  lemma {:induction false} SmallRunsStack(ram: nat, rs: seq<Request>)
    requires RamSize(ram) && forall i | 0 <= i < |rs| :: Small(rs[i])
    ensures NoWraps(HEAP_BASE, ram, rs)
    ensures Stacked(Pieces(HEAP_BASE, ram, rs), HEAP_BASE, Mark(HEAP_BASE, ram, rs))
  {
    if rs != [] {
      var n := |rs| - 1;
      SmallRunsStack(ram, rs[..n]);
      RunsStack(ram, rs[..n]);
      SmallNeverWraps(Mark(HEAP_BASE, ram, rs[..n]), ram, rs[n]);
      hide *;
      OneMore(HEAP_BASE, ram, rs);
    }
    RunsStack(ram, rs);
  }

  lemma OneMore(next: Word, ram: nat, rs: seq<Request>)
    requires rs != [] && NoWraps(next, ram, rs[..|rs|-1]) && !Wraps(Mark(next, ram, rs[..|rs|-1]), rs[|rs|-1])
    ensures NoWraps(next, ram, rs)
  {
    hide Wraps, Mark;
    var n := |rs| - 1;
    forall i | 0 <= i < |rs| ensures !Wraps(Mark(next, ram, rs[..i]), rs[i]) {
      if i < n { assert rs[..n][..i] == rs[..i] && rs[..n][i] == rs[i]; }
    }
  }

  // ---------- The heap ----------

  class BumpHeap {
    const ram: nat
    const memory: array<Byte>
    var next: Word

    ghost predicate Valid()
      reads this
    {
      RamSize(ram) && memory.Length == HOST
    }

    constructor (ram: nat, memory: array<Byte>)
      requires RamSize(ram) && memory.Length == HOST
      ensures Valid() && next == HEAP_BASE && this.memory == memory && this.ram == ram
    {
      this.ram, this.memory, next := ram, memory, HEAP_BASE;
    }

    /** All of memory as before but for `s`, which is zero. */
    twostate predicate Cleared(s: Span)
      reads this, memory
    {
      && s.base + s.size <= memory.Length
      && (forall i | s.base <= i < s.base + s.size :: memory[i] == 0)
      && (forall i | 0 <= i < s.base || s.base + s.size <= i < memory.Length :: memory[i] == old(memory[i]))
    }

    method Clear(base: nat, size: nat)
      requires base + size <= memory.Length
      modifies memory
      ensures Cleared(Span(base, size))
    {
      for i := base to base + size
        invariant forall k | base <= k < i :: memory[k] == 0
        invariant forall k | 0 <= k < base || i <= k < memory.Length :: memory[k] == old(memory[k])
      {
        memory[i] := 0;
      }
    }

    /** xbox_HeapAlloc: 0 when there is no room. */
    method Alloc(size: Word, alignment: Word) returns (result: Word)
      requires Valid()
      modifies this`next, memory
      ensures next == NextAfter(old(next), ram, Any(size, alignment))
      ensures Granted(old(next), ram, Any(size, alignment)) ==>
        result == Place(old(next), Any(size, alignment)) && Cleared(Piece(old(next), Any(size, alignment)))
      ensures !Granted(old(next), ram, Any(size, alignment)) ==> result == 0 && memory[..] == old(memory[..])
      ensures var a, n := if alignment < 4 then 4 else alignment, if size < 4096 then 4096 else size;
        var place := AndNot((old(next) + a - 1) % 0x1_0000_0000, a - 1);
        if (place + n) % 0x1_0000_0000 <= ram then
          && result == place && next == (place + n) % 0x1_0000_0000 && Cleared(Span(place, n))
        else result == 0 && next == old(next) && memory[..] == old(memory[..])
      ensures result != 0 && old(next) + (if alignment < 4 then 4 else alignment) <= 0x1_0000_0000 && result + (if size < 4096 then 4096 else size) < 0x1_0000_0000 ==>
        && old(next) <= result && result + size <= next <= ram && result + 4096 <= next
        && (forall i | result <= i < result + size :: memory[i] == 0)
    {
      hide AndNot, Place, Piece, Granted, NextAfter, RamSize, Request.Size, Request.Alignment;
      Arithmetic(next, ram, size, alignment);
      Rounding(next, if alignment < 4 then 4 else alignment);
      var a := if alignment < 4 then 4 else alignment;
      var n := if size < MIN_SIZE then MIN_SIZE else size;
      var place := Masked((next + a - 1) % LIMIT, a - 1);
      if (place + n) % LIMIT > ram { return 0; }
      next := (place + n) % LIMIT;
      Clear(place, n);
      return place;
    }

    static lemma Rounding(next: Word, a: Word)
      requires a > 0
      ensures next + a <= LIMIT ==> next <= AndNot((next + a - 1) % LIMIT, a - 1)
    {
      hide AndNot;
      Wrapped(next + a - 1);
      AndNotBounds((next + a - 1) % LIMIT, a - 1);
    }

    static lemma Arithmetic(next: Word, ram: nat, size: Word, alignment: Word)
      ensures var a, n := if alignment < 4 then 4 else alignment, if size < MIN_SIZE then MIN_SIZE else size;
        var r := Any(size, alignment);
        && Place(next, r) == AndNot((next + a - 1) % LIMIT, a - 1)
        && Piece(next, r) == Span(Place(next, r), n)
        && (Granted(next, ram, r) <==> (Place(next, r) + n) % LIMIT <= ram)
        && NextAfter(next, ram, r) == if Granted(next, ram, r) then (Place(next, r) + n) % LIMIT else next
    {
      hide AndNot;
    }

    /** x & ~mask, bit by bit. */
    method Masked(x: Word, mask: Word) returns (r: Word)
      ensures r == AndNot(x, mask)
    {
      hide AndNot;
      var n: nat, m: nat, weight: nat, acc: nat := x, mask, 1, 0;
      while n != 0
        invariant AndNot(x, mask) == acc + weight * AndNot(n, m)
      {
        var bit := if m % 2 == 1 then 0 else n % 2;
        AndNotBit(n, m);
        Shift(weight, AndNot(n / 2, m / 2), bit);
        acc := acc + weight * bit;
        weight, n, m := weight * 2, n / 2, m / 2;
      }
      AndNotZero(weight, m);
      AndNotBounds(x, mask);
      r := acc;
    }

    lemma AndNotZero(weight: nat, m: nat)
      ensures weight * AndNot(0, m) == 0
    {
    }

    lemma Shift(weight: nat, rest: nat, bit: nat)
      ensures weight * (2 * rest + bit) == weight * bit + (weight * 2) * rest
    {
    }

    /** xbox_HeapAllocAt. */
    method AllocAt(base: Word, size: Word) returns (result: Word)
      requires Valid()
      modifies this`next, memory
      ensures next == NextAfter(old(next), ram, At(base, size))
      ensures Granted(old(next), ram, At(base, size)) ==>
        result == base && Cleared(Piece(old(next), At(base, size)))
      ensures !Granted(old(next), ram, At(base, size)) ==> result == 0 && memory[..] == old(memory[..])
      ensures var n := if size < 4096 then 4096 else size;
        if base >= old(next) && (base + n) % 0x1_0000_0000 <= ram then
          && result == base && next == (base + n) % 0x1_0000_0000 && Cleared(Span(base, n))
        else result == 0 && next == old(next) && memory[..] == old(memory[..])
      ensures result != 0 && base + (if size < 4096 then 4096 else size) < 0x1_0000_0000 ==>
        && result == base && old(next) <= base && base + size <= next <= ram && base + 4096 <= next
        && (forall i | base <= i < base + size :: memory[i] == 0)
    {
      var n := if size < MIN_SIZE then MIN_SIZE else size;
      if base < next { return 0; }
      if (base + n) % LIMIT > ram { return 0; }
      next := (base + n) % LIMIT;
      Clear(base, n);
      return base;
    }
  }
}
