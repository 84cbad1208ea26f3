/** NtQueryVirtualMemory and NtAllocateVirtualMemory: the guest reads the region map, picks a base and asks for it. */
module VirtualMemory {
  import opened Code
  import opened Heap

  const OK: Word := 0
  const INVALID_PARAMETER: Word := 0xC000_000D
  const NO_MEMORY: Word := 0xC000_0017
  const INVALID_PAGE_PROTECTION: Word := 0xC000_0045

  datatype Extent = Extent(base: nat, end: nat, free: bool) {
    predicate Contains(a: nat) { base <= a < end }
  }

  /** Image, stack, used heap and the rest; a span may be empty. */
  function Extents(mark: Word, ram: nat): (r: seq<Extent>)
    ensures |r| == 5
  {
    [Extent(0, XBE_BASE, false), Extent(XBE_BASE, STACK_BASE, false), Extent(STACK_BASE, HEAP_BASE, false),
     Extent(HEAP_BASE, mark, false), Extent(mark, ram, true)]
  }

  /** The first extent from the `i`-th on that contains the address. */
  function Answer(a: nat, extents: seq<Extent>, i: nat): Option<Extent>
    requires i <= |extents|
    decreases |extents| - i
  {
    if i == |extents| then None
    else if extents[i].Contains(a) then Some(extents[i])
    else Answer(a, extents, i + 1)
  }

  function Describe(a: nat, mark: Word, ram: nat): Option<Extent> { Answer(a, Extents(mark, ram), 0) }

  /** A mark that runs of requests without wrap-around keep. */
  predicate ValidMark(mark: Word, ram: nat) { RamSize(ram) && HEAP_BASE <= mark <= ram }

  lemma {:induction false} AnswerIsFirst(a: nat, extents: seq<Extent>, i: nat)
    requires i <= |extents|
    ensures match Answer(a, extents, i)
      case None => forall k | i <= k < |extents| :: !extents[k].Contains(a)
      case Some(x) => exists k :: i <= k < |extents| && extents[k] == x && x.Contains(a) &&
                                  forall j | i <= j < k :: !extents[j].Contains(a)
    decreases |extents| - i
  {
    if i < |extents| && !extents[i].Contains(a) { AnswerIsFirst(a, extents, i + 1); }
  }

  /** The queried regions tile [0, RAM): each address below RAM is described by the one region that holds it, every
      address of that region by the same region, and no address at or above RAM by any. FREE is from the mark on. */
  lemma QueriesTile(a: nat, mark: Word, ram: nat)
    requires ValidMark(mark, ram)
    ensures a >= ram ==> Describe(a, mark, ram) == None
    ensures a < ram ==>
      var d := Describe(a, mark, ram);
      && d.Some? && d.value.Contains(a) && d.value.end <= ram
      && (d.value.free <==> mark <= a)
      && forall b | d.value.Contains(b) :: Describe(b, mark, ram) == d
  {
    var extents := Extents(mark, ram);
    OneContains(a, mark, ram);
    AnswerIsFirst(a, extents, 0);
    if a < ram {
      forall b | Describe(a, mark, ram).value.Contains(b) ensures Describe(b, mark, ram) == Describe(a, mark, ram) {
        OneContains(b, mark, ram);
        AnswerIsFirst(b, extents, 0);
      }
    }
  }

  lemma OneContains(a: nat, mark: Word, ram: nat)
    requires ValidMark(mark, ram)
    ensures (exists k | 0 <= k < 5 :: Extents(mark, ram)[k].Contains(a)) <==> a < ram
    ensures forall j, k | 0 <= j < k < 5 :: Extents(mark, ram)[j].end <= Extents(mark, ram)[k].base
  {
    var x := Extents(mark, ram);
    if a < ram { assert x[0].Contains(a) || x[1].Contains(a) || x[2].Contains(a) || x[3].Contains(a) || x[4].Contains(a); }
  }

  // ---------- The guest's scan ----------

  /** Successive queries, each stepping by the size the last one reported, until one fails. */
  function Scan(a: nat, mark: Word, ram: nat): (r: seq<Extent>)
    requires ValidMark(mark, ram)
    decreases if a < ram then ram - a else 0
  {
    QueriesTile(a, mark, ram);
    match Describe(a, mark, ram)
    case None => []
    case Some(x) => [x] + Scan(a + (x.end - x.base), mark, ram)
  }

  /** The regions that lie wholly after `a`, plus the one that holds it: at most this many can still be reported. */
  function Left(a: nat, mark: Word, ram: nat): nat {
    (if a < XBE_BASE then 1 else 0) + (if a < STACK_BASE then 1 else 0) + (if a < HEAP_BASE then 1 else 0) +
    (if a < mark then 1 else 0) + (if a < ram then 1 else 0)
  }

  /** From wherever it starts the scan ends after at most five successes, and its address never wraps. */
  lemma {:induction false} ScanEnds(a: nat, mark: Word, ram: nat)
    requires ValidMark(mark, ram)
    ensures |Scan(a, mark, ram)| <= Left(a, mark, ram) <= 5
    ensures a < ram ==> forall x | x in Scan(a, mark, ram) :: a + (x.end - x.base) < LIMIT
    decreases if a < ram then ram - a else 0
  {
    QueriesTile(a, mark, ram);
    if a < ram {
      var x := Describe(a, mark, ram).value;
      AnswerIsFirst(a, Extents(mark, ram), 0);
      ScanEnds(a + (x.end - x.base), mark, ram);
      ScanIsBelow(a, mark, ram);
    }
  }

  lemma {:induction false} ScanIsBelow(a: nat, mark: Word, ram: nat)
    requires ValidMark(mark, ram)
    ensures forall x | x in Scan(a, mark, ram) :: x.base < x.end <= ram
    decreases if a < ram then ram - a else 0
  {
    QueriesTile(a, mark, ram);
    if a < ram {
      var x := Describe(a, mark, ram).value;
      ScanIsBelow(a + (x.end - x.base), mark, ram);
    }
  }

  ghost predicate Nonempty(x: Extent) { x.base < x.end }

  /** From address 0 the scan reports every nonempty region, end to end. */
  lemma {:induction false} ScanCovers(a: nat, mark: Word, ram: nat)
    requires ValidMark(mark, ram) && a <= ram
    requires a < ram ==> Describe(a, mark, ram).Some? && Describe(a, mark, ram).value.base == a
    ensures var s := Scan(a, mark, ram);
      && (a == ram <==> s == [])
      && (s != [] ==> s[0].base == a && s[|s|-1].end == ram)
      && (forall i | 0 < i < |s| :: s[i].base == s[i-1].end)
    decreases ram - a
  {
    hide Extents, ValidMark;
    QueriesTile(a, mark, ram);
    if a < ram {
      var x := Describe(a, mark, ram).value;
      AnswerIsFirst(a, Extents(mark, ram), 0);
      QueriesTile(x.end, mark, ram);
      if x.end < ram { StartsAt(x, mark, ram); }
      ScanCovers(x.end, mark, ram);
    }
  }

  /** The address after a region starts the next one. */
  lemma StartsAt(x: Extent, mark: Word, ram: nat)
    requires ValidMark(mark, ram) && x in Extents(mark, ram) && Nonempty(x) && x.end < ram
    ensures Describe(x.end, mark, ram).Some? && Describe(x.end, mark, ram).value.base == x.end
  {
    AnswerIsFirst(x.end, Extents(mark, ram), 0);
    OneContains(x.end, mark, ram);
  }

  // ---------- The calls ----------

  datatype Info = Info(base: nat, allocationBase: nat, allocationProtect: nat, size: nat, state: nat, protect: nat,
                       kind: nat)

  function InfoOf(x: Extent): Info
    requires x.base <= x.end
  {
    if x.free then Info(x.base, 0, 0, x.end - x.base, 0x1_0000, 0x01, 0)
    else Info(x.base, x.base, 0x04, x.end - x.base, 0x1000, 0x04, 0x2_0000)
  }

  /** Fails without a place for the answer, and for an address no region holds. */
  method NtQueryVirtualMemory(a: Word, infoPtr: Word, mark: Word, ram: nat) returns (status: Word, info: Option<Info>)
    ensures status == OK || status == INVALID_PARAMETER
    ensures (status == OK) == info.Some?
    ensures status == OK <==> infoPtr != 0 && Describe(a, mark, ram).Some?
    ensures status == OK ==> var x := Describe(a, mark, ram).value; x.Contains(a) && info == Some(InfoOf(x))
    ensures 0xF8_0000 <= mark <= ram ==>
      if infoPtr == 0 || a >= ram then status == 0xC000_000D && info == None
      else
        && status == 0
        && info == Some(
             if a < 0x1_0000 then Info(0, 0, 4, 0x1_0000, 0x1000, 4, 0x2_0000)
             else if a < 0x78_0000 then Info(0x1_0000, 0x1_0000, 4, 0x77_0000, 0x1000, 4, 0x2_0000)
             else if a < 0xF8_0000 then Info(0x78_0000, 0x78_0000, 4, 0x80_0000, 0x1000, 4, 0x2_0000)
             else if a < mark then Info(0xF8_0000, 0xF8_0000, 4, mark - 0xF8_0000, 0x1000, 4, 0x2_0000)
             else Info(mark, 0, 0, ram - mark, 0x1_0000, 1, 0))
  {
    if infoPtr == 0 { return INVALID_PARAMETER, None; }
    var extents := Extents(mark, ram);
    AnswerIsFirst(a, extents, 0);
    var i := 0;
    while i < |extents|
      invariant i <= |extents| && Answer(a, extents, i) == Describe(a, mark, ram)
    {
      var x := extents[i];
      if x.base < x.end && x.base <= a < x.end { return OK, Some(InfoOf(x)); }
      i := i + 1;
    }
    assert !extents[0].Contains(a) && !extents[1].Contains(a) && !extents[2].Contains(a) && !extents[3].Contains(a) && !extents[4].Contains(a);
    return INVALID_PARAMETER, None;
  }

  predicate Reserves(kind: Word) { (kind / 0x2000) % 2 == 1 }

  /** What the call asks of the heap: nothing for a commit within a named region. */
  function Asked(hint: Word, size: Word, kind: Word): Option<Request> {
    if size == 0 || (hint != 0 && !Reserves(kind)) then None
    else if hint != 0 then Some(At(hint, size)) else Some(Any(size, 4096))
  }

  /** The next page boundary, as the heap computes it. */
  lemma NextPage(mark: Word, r: Request)
    requires r.Any? && r.alignment == 4096
    ensures var x := (mark + 4095) % 0x1_0000_0000; Place(mark, r) == x - x % 4096
  {
    assert IsPower(16);
    assert IsPower(4096);
    var x: nat := (mark + 4095) % LIMIT;
    hide IsPower, AndNot;
    AndNotRounds(x, 4096);
    assert r.Alignment() == 4096;
  }

  lemma GrantIs(mark: Word, ram: nat, r: Request)
    ensures var room := if r.size < 4096 then 4096 else r.size;
      && Piece(mark, r) == Span(Place(mark, r), room)
      && (Granted(mark, ram, r) <==> (r.Any? || mark <= r.base) && (Place(mark, r) + room) % 0x1_0000_0000 <= ram)
      && NextAfter(mark, ram, r) == if Granted(mark, ram, r) then (Place(mark, r) + room) % 0x1_0000_0000 else mark
  {
    hide Place;
  }

  /** What the call asks for and gets: a page at least, at the base it names or at the next page boundary. */
  lemma AskedInPlainTerms(mark: Word, ram: nat, hint: Word, size: Word, kind: Word)
    ensures Asked(hint, size, kind) == None <==> size == 0 || (hint != 0 && (kind / 0x2000) % 2 == 0)
    ensures Asked(hint, size, kind).Some? ==>
      var r, room, x := Asked(hint, size, kind).value, if size < 4096 then 4096 else size, (mark + 4095) % 0x1_0000_0000;
      var place := if hint != 0 then hint else x - x % 4096;
      && Piece(mark, r) == Span(place, room)
      && (Granted(mark, ram, r) <==> (hint == 0 || mark <= hint) && (place + room) % 0x1_0000_0000 <= ram)
      && NextAfter(mark, ram, r) == if Granted(mark, ram, r) then (place + room) % 0x1_0000_0000 else mark
  {
    if Asked(hint, size, kind).Some? {
      var r := Asked(hint, size, kind).value;
      GrantIs(mark, ram, r);
      if hint != 0 { PlaceAt(mark, r); } else { NextPage(mark, r); }
    }
    hide Granted, Place, Piece, NextAfter;
  }

  /** The base and size cells are in-out, and either pointer may be null. */
  method NtAllocateVirtualMemory(heap: BumpHeap, base: Option<Word>, size: Option<Word>, kind: Word)
    returns (status: Word, newBase: Option<Word>, newSize: Option<Word>)
    requires heap.Valid()
    modifies heap`next, heap.memory
    ensures newSize == size && newBase.Some? == base.Some?
    ensures var hint, n := if base.Some? then base.value else 0, if size.Some? then size.value else 0;
      match Asked(hint, n, kind)
      case None =>
        && status == (if n == 0 then 0xC000_0045 else 0)
        && newBase == base && heap.next == old(heap.next) && heap.memory[..] == old(heap.memory[..])
      case Some(r) =>
        && heap.next == NextAfter(old(heap.next), heap.ram, r)
        && (status == 0 <==> Granted(old(heap.next), heap.ram, r) && Place(old(heap.next), r) != 0)
        && (status != 0 ==> status == 0xC000_0017 && newBase == base)
        && (status == 0 ==> (base.Some? ==> newBase == Some(Place(old(heap.next), r))) &&
                             heap.Cleared(Piece(old(heap.next), r)))
  {
    newBase, newSize := base, size;
    var n := if size.Some? then size.value else 0;
    var hint := if base.Some? then base.value else 0;
    if n == 0 { return INVALID_PAGE_PROTECTION, base, size; }
    if hint != 0 && !Reserves(kind) { return OK, base, size; }
    hide Granted, NextAfter, AndNot, Piece, RamSize;
    var va;
    if hint != 0 {
      va := heap.AllocAt(hint, n);
    } else {
      va := heap.Alloc(n, 4096);
    }
    if va == 0 { return NO_MEMORY, base, size; }
    if base.Some? { newBase := Some(va); }
    status := OK;
  }

  /** A base is granted, without wrap-around, exactly when the map shows it FREE with room for the rounded size: so a
      base the guest picks from the map is granted at exactly that base. */
  lemma ChosenBaseIsGranted(mark: Word, ram: nat, base: Word, size: Word)
    requires ValidMark(mark, ram)
    ensures var r := At(base, size);
      (Granted(mark, ram, r) && !Wraps(mark, r)) <==>
      (var d := Describe(base, mark, ram); d.Some? && d.value.free && base + (if size < 4096 then 4096 else size) <= d.value.end)
    ensures (Granted(mark, ram, At(base, size)) && !Wraps(mark, At(base, size))) <==>
      mark <= base && base + (if size < 4096 then 4096 else size) <= ram
    ensures Place(mark, At(base, size)) == base
  {
    QueriesTile(base, mark, ram);
    AnswerIsFirst(base, Extents(mark, ram), 0);
    Wrapped(base + At(base, size).Size());
    hide Answer;
  }

  /** The map read after any run of requests that do not wrap is a valid one. */
  lemma MarksAreValid(ram: nat, rs: seq<Request>)
    requires RamSize(ram) && NoWraps(HEAP_BASE, ram, rs)
    ensures ValidMark(Mark(HEAP_BASE, ram, rs), ram)
    ensures forall s, a | s in Pieces(HEAP_BASE, ram, rs) && s.base <= a < s.base + s.size ::
      Describe(a, Mark(HEAP_BASE, ram, rs), ram) == Some(Extent(HEAP_BASE, Mark(HEAP_BASE, ram, rs), false))
  {
    RunsStack(ram, rs);
    var mark := Mark(HEAP_BASE, ram, rs);
    forall s, a | s in Pieces(HEAP_BASE, ram, rs) && s.base <= a < s.base + s.size
      ensures Describe(a, mark, ram) == Some(Extent(HEAP_BASE, mark, false))
    {
      InUse(a, mark, ram);
    }
  }

  lemma InUse(a: nat, mark: Word, ram: nat)
    requires ValidMark(mark, ram) && HEAP_BASE <= a < mark
    ensures Describe(a, mark, ram) == Some(Extent(HEAP_BASE, mark, false))
  {
    AnswerIsFirst(a, Extents(mark, ram), 0);
    OneContains(a, mark, ram);
    assert Extents(mark, ram)[3].Contains(a);
  }
}
