/** Cutting the bytes of an executable section into code regions and data regions. */
module CodeScan {
  import opened Code

  type Byte = b: nat | b < 0x100

  /** The little-endian word at an offset. */
  function WordAt(data: seq<Byte>, off: nat): (w: nat)
    requires off + 4 <= |data|
    ensures w < LIMIT
  {
    var b0: int, b1: int, b2: int, b3: int := data[off], data[off+1], data[off+2], data[off+3];
    b0 + 0x100 * b1 + 0x1_0000 * b2 + 0x100_0000 * b3
  }

  /** Where the zero bytes from `i` on stop. */
  function ZeroEnd(data: seq<Byte>, i: nat): (j: nat)
    requires i <= |data|
    ensures i <= j <= |data| && (j < |data| ==> data[j] != 0)
    ensures forall k | i <= k < j :: data[k] == 0
    decreases |data| - i
  {
    if i < |data| && data[i] == 0 then ZeroEnd(data, i + 1) else i
  }

  /** A zero dword followed by the address of an exception handler: an entry of a scope table. */
  predicate HandlerPair(data: seq<Byte>, i: nat, handlers: set<Addr>)
    requires i <= |data|
  {
    ZeroEnd(data, i) - i >= 4 && i + 8 <= |data| && WordAt(data, i + 4) in handlers
  }

  // ---------- Code regions, as offsets into the section ----------

  /** The regions from offset `i` on, given the start of the region that is open there. */
  function Segments(data: seq<Byte>, minNull: int, handlers: set<Addr>, i: nat, open: Option<nat>): seq<CodeRegion>
    requires i <= |data|
    decreases |data| - i
  {
    if i == |data| then Closed(open, i)
    else if data[i] == 0 && !HandlerPair(data, i, handlers) && ZeroEnd(data, i) - i >= minNull then
      Closed(open, i) + Segments(data, minNull, handlers, ZeroEnd(data, i), None)
    else
      Segments(data, minNull, handlers, Step(data, handlers, i), Some(if open.Some? then open.value else i))
  }

  /** The offset after a piece of code: a scope-table entry, a short zero run or one byte. */
  function Step(data: seq<Byte>, handlers: set<Addr>, i: nat): (j: nat)
    requires i < |data|
    ensures i < j <= |data|
  {
    if data[i] != 0 then i + 1
    else if HandlerPair(data, i, handlers) then i + 8
    else ZeroEnd(data, i)
  }

  function Closed(open: Option<nat>, end: nat): seq<CodeRegion> {
    if open.Some? && end > open.value then [CodeRegion(open.value, end)] else []
  }

  ghost predicate Covered(regions: seq<CodeRegion>, k: nat) {
    exists r :: r in regions && r.Contains(k)
  }

  /** Nonempty regions in order within `low..high`, with a gap after each. */
  ghost predicate Ordered(regions: seq<CodeRegion>, low: nat, high: nat) {
    && (forall i | 0 <= i < |regions| :: low <= regions[i].start < regions[i].end <= high)
    && (forall i, j | 0 <= i < j < |regions| :: regions[i].end < regions[j].start)
  }

  /** `k` sits in a maximal run of zero bytes at least `minNull` long. */
  ghost predicate InLongRun(data: seq<Byte>, k: nat, minNull: int) {
    exists lo: nat, hi: nat :: ZeroRun(data, lo, hi) && lo <= k < hi && hi - lo >= minNull
  }

  ghost predicate ZeroRun(data: seq<Byte>, lo: nat, hi: nat) {
    && lo < hi <= |data| && (forall k | lo <= k < hi :: data[k] == 0)
    && (lo > 0 ==> data[lo-1] != 0) && (hi < |data| ==> data[hi] != 0)
  }

  lemma OrderedPrepend(a: seq<CodeRegion>, b: seq<CodeRegion>, low: nat, i: nat, j: nat, high: nat)
    requires |a| <= 1 && Ordered(a, low, i) && Ordered(b, j, high) && low <= i < j <= high
    ensures Ordered(a + b, low, high)
  {
  }

  lemma {:induction false} SegmentsInOrder(data: seq<Byte>, minNull: int, handlers: set<Addr>, i: nat, open: Option<nat>)
    requires i <= |data| && (open.Some? ==> open.value < i)
    ensures var low := if open.Some? then open.value else i;
      Ordered(Segments(data, minNull, handlers, i, open), low, |data|)
    ensures var s := Segments(data, minNull, handlers, i, open);
      open.Some? ==> s != [] && s[0].start == open.value && s[0].end >= i
    decreases |data| - i
  {
    hide HandlerPair, Step;
    if i == |data| {
    } else if data[i] == 0 && !HandlerPair(data, i, handlers) && ZeroEnd(data, i) - i >= minNull {
      var j := ZeroEnd(data, i);
      SegmentsInOrder(data, minNull, handlers, j, None);
      OrderedPrepend(Closed(open, i), Segments(data, minNull, handlers, j, None),
                     if open.Some? then open.value else i, i, j, |data|);
    } else {
      SegmentsInOrder(data, minNull, handlers, Step(data, handlers, i), Some(if open.Some? then open.value else i));
    }
  }

  lemma CoveredByEither(a: seq<CodeRegion>, b: seq<CodeRegion>, k: nat)
    ensures Covered(a + b, k) <==> Covered(a, k) || Covered(b, k)
  {
    if Covered(a, k) { var r :| r in a && r.Contains(k); assert r in a + b; }
    if Covered(b, k) { var r :| r in b && r.Contains(k); assert r in a + b; }
  }

  /** From `i` on, only zero bytes of long runs stay out of the regions. */
  lemma {:induction false} NonzeroIsCovered(data: seq<Byte>, minNull: int, handlers: set<Addr>, i: nat,
                                            open: Option<nat>, k: nat)
    requires i <= |data| && (open.Some? ==> open.value < i) && k < |data|
    requires if open.Some? then open.value <= k else i <= k
    requires data[k] != 0 || k < i
    ensures Covered(Segments(data, minNull, handlers, i, open), k)
    decreases |data| - i
  {
    var s := Segments(data, minNull, handlers, i, open);
    SegmentsInOrder(data, minNull, handlers, i, open);
    if k < i {
      assert s[0].Contains(k);
    } else if data[i] == 0 && !HandlerPair(data, i, handlers) && ZeroEnd(data, i) - i >= minNull {
      var j := ZeroEnd(data, i);
      NonzeroIsCovered(data, minNull, handlers, j, None, k);
      CoveredByEither(Closed(open, i), Segments(data, minNull, handlers, j, None), k);
    } else {
      NonzeroIsCovered(data, minNull, handlers, Step(data, handlers, i), Some(if open.Some? then open.value else i), k);
    }
  }

  /** No run of zero bytes reaches across `i`. */
  predicate AtEdge(data: seq<Byte>, i: nat)
    requires i <= |data|
  {
    i == 0 || i == |data| || data[i-1] != 0 || data[i] != 0
  }

  /** Without handlers the walk sees every zero run whole, and leaves out exactly the long ones. */
  lemma {:induction false} LongRunsAreCut(data: seq<Byte>, minNull: int, i: nat, open: Option<nat>, k: nat)
    requires i <= |data| && (open.Some? ==> open.value < i) && i <= k < |data| && AtEdge(data, i)
    ensures Covered(Segments(data, minNull, {}, i, open), k) <==> !InLongRun(data, k, minNull)
    decreases |data| - i
  {
    var j := ZeroEnd(data, i);
    if data[i] == 0 {
      assert ZeroRun(data, i, j);
      if k < j { RunIsUnique(data, i, j, k, minNull); }
      if j - i >= minNull {
        CoveredByEither(Closed(open, i), Segments(data, minNull, {}, j, None), k);
        if k < j {
          SegmentsInOrder(data, minNull, {}, j, None);
        } else {
          LongRunsAreCut(data, minNull, j, None, k);
        }
      } else {
        CutAfter(data, minNull, i, open, k, j);
      }
    } else {
      CutAfter(data, minNull, i, open, k, i + 1);
    }
  }

  lemma {:induction false} CutAfter(data: seq<Byte>, minNull: int, i: nat, open: Option<nat>, k: nat, j: nat)
    requires i < j <= |data| && (open.Some? ==> open.value < i) && i <= k < |data| && AtEdge(data, j)
    requires Segments(data, minNull, {}, i, open) ==
             Segments(data, minNull, {}, j, Some(if open.Some? then open.value else i))
    requires k < j ==> !InLongRun(data, k, minNull)
    ensures Covered(Segments(data, minNull, {}, i, open), k) <==> !InLongRun(data, k, minNull)
    decreases |data| - i, 0
  {
    var now := Some(if open.Some? then open.value else i);
    if k < j {
      SegmentsInOrder(data, minNull, {}, j, now);
      assert Segments(data, minNull, {}, j, now)[0].Contains(k);
    } else {
      LongRunsAreCut(data, minNull, j, now, k);
    }
  }

  /** A byte inside a maximal run is in no other. */
  lemma RunIsUnique(data: seq<Byte>, i: nat, j: nat, k: nat, minNull: int)
    requires ZeroRun(data, i, j) && i <= k < j
    ensures InLongRun(data, k, minNull) <==> j - i >= minNull
  {
    if InLongRun(data, k, minNull) {
      var lo: nat, hi: nat :| ZeroRun(data, lo, hi) && lo <= k < hi && hi - lo >= minNull;
      assert lo == i && hi == j;
    }
  }

  /** The scan looks at offset `k`, going on from `i`: it steps over table entries, zero runs and single bytes. */
  predicate Comes(data: seq<Byte>, handlers: set<Addr>, i: nat, k: nat)
    decreases |data| - i
  {
    i == k || (i < |data| && Comes(data, handlers, Step(data, handlers, i), k))
  }

  /** The zero run from `i` on is cut out: it begins no table entry and is long enough, counted from `i`. */
  predicate Cuts(data: seq<Byte>, minNull: int, handlers: set<Addr>, i: nat) {
    i < |data| && data[i] == 0 && !HandlerPair(data, i, handlers) && ZeroEnd(data, i) - i >= minNull
  }

  /** `k` is in a zero run cut out where the scan from `i` comes. */
  ghost predicate LeftOut(data: seq<Byte>, minNull: int, handlers: set<Addr>, i: nat, k: nat) {
    exists j :: 0 <= j <= k && Comes(data, handlers, i, j) && Cuts(data, minNull, handlers, j) && k < ZeroEnd(data, j)
  }

  lemma {:induction false} ComesForward(data: seq<Byte>, handlers: set<Addr>, i: nat, k: nat)
    requires i <= |data| && Comes(data, handlers, i, k)
    ensures i <= k <= |data|
    decreases |data| - i
  {
    if i != k { ComesForward(data, handlers, Step(data, handlers, i), k); }
  }

  lemma LeftOutStep(data: seq<Byte>, minNull: int, handlers: set<Addr>, i: nat, k: nat)
    requires i <= k < |data|
    ensures var next := Step(data, handlers, i);
      LeftOut(data, minNull, handlers, i, k) <==>
        (Cuts(data, minNull, handlers, i) && k < ZeroEnd(data, i)) || LeftOut(data, minNull, handlers, next, k)
  {
    var next := Step(data, handlers, i);
    hide Cuts, Step;
    if LeftOut(data, minNull, handlers, i, k) {
      var j :| 0 <= j <= k && Comes(data, handlers, i, j) && Cuts(data, minNull, handlers, j) && k < ZeroEnd(data, j);
      assert i == j || Comes(data, handlers, next, j);
    }
    if LeftOut(data, minNull, handlers, next, k) {
      var j :| 0 <= j <= k && Comes(data, handlers, next, j) && Cuts(data, minNull, handlers, j) && k < ZeroEnd(data, j);
      assert Comes(data, handlers, i, j);
    }
    assert Comes(data, handlers, i, i);
  }

  lemma NotLeftBefore(data: seq<Byte>, minNull: int, handlers: set<Addr>, i: nat, k: nat)
    requires k < i <= |data|
    ensures !LeftOut(data, minNull, handlers, i, k)
  {
    forall j | 0 <= j <= k ensures !Comes(data, handlers, i, j) {
      if Comes(data, handlers, i, j) { ComesForward(data, handlers, i, j); }
    }
    hide Comes;
  }

  /** With any handlers a byte is left out exactly when the scan comes to a zero run that holds it and cuts it out. */
  lemma {:induction false} LeftOutExactly(data: seq<Byte>, minNull: int, handlers: set<Addr>, i: nat, open: Option<nat>, k: nat)
    requires i <= |data| && (open.Some? ==> open.value < i) && i <= k < |data|
    ensures Covered(Segments(data, minNull, handlers, i, open), k) <==> !LeftOut(data, minNull, handlers, i, k)
    decreases |data| - i
  {
    hide LeftOut, Covered, HandlerPair;
    LeftOutStep(data, minNull, handlers, i, k);
    if Cuts(data, minNull, handlers, i) {
      var j := ZeroEnd(data, i);
      var rest := Segments(data, minNull, handlers, j, None);
      CoveredByEither(Closed(open, i), rest, k);
      ClosedBefore(open, i, k);
      if k < j {
        SegmentsInOrder(data, minNull, handlers, j, None);
        BeforeOrdered(rest, j, |data|, k);
      } else {
        LeftOutExactly(data, minNull, handlers, j, None, k);
      }
    } else {
      var j, now := Step(data, handlers, i), Some(if open.Some? then open.value else i);
      if k < j {
        NotLeftBefore(data, minNull, handlers, j, k);
        SegmentsInOrder(data, minNull, handlers, j, now);
        FirstCovers(Segments(data, minNull, handlers, j, now), k);
      } else {
        LeftOutExactly(data, minNull, handlers, j, now, k);
      }
    }
  }

  lemma ClosedBefore(open: Option<nat>, end: nat, k: nat)
    requires end <= k
    ensures !Covered(Closed(open, end), k)
  {
  }

  lemma BeforeOrdered(s: seq<CodeRegion>, low: nat, high: nat, k: nat)
    requires Ordered(s, low, high) && k < low
    ensures !Covered(s, k)
  {
  }

  lemma FirstCovers(s: seq<CodeRegion>, k: nat)
    requires s != [] && s[0].Contains(k)
    ensures Covered(s, k)
  {
  }

  /** The code regions of a section are in order and apart, every nonzero byte is in exactly one of them, a byte is left
      out exactly when the scan cuts out a zero run that holds it, and with no handlers exactly when it sits in a maximal
      zero run of at least `minNull` bytes. */
  lemma SegmentationExact(data: seq<Byte>, minNull: int, handlers: set<Addr>, k: nat)
    requires k < |data|
    ensures var s := Segments(data, minNull, handlers, 0, None);
      && Ordered(s, 0, |data|)
      && (data[k] != 0 ==> Covered(s, k))
      && (Covered(s, k) <==> !LeftOut(data, minNull, handlers, 0, k))
      && (handlers == {} ==> (Covered(s, k) <==> !InLongRun(data, k, minNull)))
      && (!Covered(s, k) ==> InLongRun(data, k, minNull))
      && (forall r, r' | r in s && r' in s && r.Contains(k) && r'.Contains(k) :: r == r')
  {
    hide LeftOut;
    SegmentsInOrder(data, minNull, handlers, 0, None);
    LeftOutExactly(data, minNull, handlers, 0, None, k);
    if data[k] != 0 { NonzeroIsCovered(data, minNull, handlers, 0, None, k); }
    LongRunsAreCut(data, minNull, 0, None, k);
    UncoveredIsLong(data, minNull, handlers, 0, None, k);
  }

  /** Handlers only ever keep more bytes. */
  lemma {:induction false} UncoveredIsLong(data: seq<Byte>, minNull: int, handlers: set<Addr>, i: nat,
                                           open: Option<nat>, k: nat)
    requires i <= |data| && (open.Some? ==> open.value < i) && i <= k < |data|
    ensures !Covered(Segments(data, minNull, handlers, i, open), k) ==> InLongRun(data, k, minNull)
    decreases |data| - i
  {
    if data[i] == 0 && !HandlerPair(data, i, handlers) && ZeroEnd(data, i) - i >= minNull {
      var j := ZeroEnd(data, i);
      CoveredByEither(Closed(open, i), Segments(data, minNull, handlers, j, None), k);
      if k < j {
        var lo := ZeroStart(data, i);
        assert ZeroRun(data, lo, j);
      } else {
        UncoveredIsLong(data, minNull, handlers, j, None, k);
      }
    } else {
      var j, now := Step(data, handlers, i), Some(if open.Some? then open.value else i);
      if k < j {
        SegmentsInOrder(data, minNull, handlers, j, now);
        assert Segments(data, minNull, handlers, j, now)[0].Contains(k);
      } else {
        UncoveredIsLong(data, minNull, handlers, j, now, k);
      }
    }
  }

  function ZeroStart(data: seq<Byte>, i: nat): (lo: nat)
    requires i < |data| && data[i] == 0
    ensures lo <= i && (forall k | lo <= k <= i :: data[k] == 0) && (lo > 0 ==> data[lo-1] != 0)
  {
    if i > 0 && data[i-1] == 0 then ZeroStart(data, i - 1) else i
  }

  // ---------- Scope tables and zero runs ----------

  /** Four zero bytes and the four of a handler's address, low byte first. */
  predicate IsTableEntry(data: seq<Byte>, handlers: set<Addr>, i: nat) {
    && i + 8 <= |data| && data[i] == 0 && data[i+1] == 0 && data[i+2] == 0 && data[i+3] == 0
    && data[i+4] as nat + 0x100 * data[i+5] as nat + 0x1_0000 * data[i+6] as nat + 0x100_0000 * data[i+7] as nat in handlers
  }

  lemma PairIsEntry(data: seq<Byte>, handlers: set<Addr>, i: nat)
    requires i <= |data|
    ensures HandlerPair(data, i, handlers) <==> IsTableEntry(data, handlers, i)
  {
    var j := ZeroEnd(data, i);
    assert j - i >= 4 ==> data[i] == 0 && data[i+1] == 0 && data[i+2] == 0 && data[i+3] == 0;
    hide ZeroEnd;
  }

  /** The scan does not come to an offset inside what it steps over. */
  lemma {:induction false} ComesApart(data: seq<Byte>, handlers: set<Addr>, from: nat, i: nat, j: nat)
    requires from <= |data| && Comes(data, handlers, from, i) && Comes(data, handlers, from, j) && j < i
    ensures j < |data| && Step(data, handlers, j) <= i
    decreases |data| - from
  {
    ComesForward(data, handlers, from, i);
    ComesForward(data, handlers, from, j);
    hide Step;
    if from == j {
      ComesForward(data, handlers, Step(data, handlers, from), i);
    } else {
      ComesApart(data, handlers, Step(data, handlers, from), i, j);
    }
  }

  lemma StepIs(data: seq<Byte>, handlers: set<Addr>, i: nat)
    requires i < |data|
    ensures Step(data, handlers, i) ==
      if data[i] != 0 then i + 1 else if IsTableEntry(data, handlers, i) then i + 8 else ZeroEnd(data, i)
  {
    PairIsEntry(data, handlers, i);
    hide HandlerPair, IsTableEntry;
  }

  /** An entry of a scope table that the scan comes to is code, all eight bytes of it. */
  lemma TableEntriesAreCode(data: seq<Byte>, minNull: int, handlers: set<Addr>, i: nat, k: nat)
    requires Comes(data, handlers, 0, i) && IsTableEntry(data, handlers, i) && i <= k < i + 8
    ensures Covered(Segments(data, minNull, handlers, 0, None), k)
  {
    StepIs(data, handlers, i);
    PairIsEntry(data, handlers, i);
    LeftOutExactly(data, minNull, handlers, 0, None, k);
    hide Segments, HandlerPair, IsTableEntry, Step, Comes, Covered;
    forall j | 0 <= j <= k && Comes(data, handlers, 0, j) && Cuts(data, minNull, handlers, j) ensures k >= ZeroEnd(data, j) {
      StepIs(data, handlers, j);
      PairIsEntry(data, handlers, j);
      if j < i {
        ComesApart(data, handlers, 0, i, j);
      } else if i < j {
        ComesApart(data, handlers, 0, j, i);
      }
    }
  }

  /** Any other zero run that the scan comes to is cut out whole where it is long enough from there on. */
  lemma LongRunsAreOut(data: seq<Byte>, minNull: int, handlers: set<Addr>, i: nat, j: nat, k: nat)
    requires Comes(data, handlers, 0, i) && !IsTableEntry(data, handlers, i) && i <= k < j <= |data|
    requires (forall b | i <= b < j :: data[b] == 0) && (j < |data| ==> data[j] != 0) && j - i >= minNull
    ensures !Covered(Segments(data, minNull, handlers, 0, None), k)
  {
    PairIsEntry(data, handlers, i);
    LeftOutExactly(data, minNull, handlers, 0, None, k);
    hide Segments, HandlerPair, IsTableEntry, Step, Comes, Covered;
    assert ZeroEnd(data, i) == j by {
      var e := ZeroEnd(data, i);
      hide ZeroEnd;
      assert !(e < j) && !(j < e);
    }
    assert Cuts(data, minNull, handlers, i);
  }

  /** A region of offsets as addresses. */
  function Placed(base: Addr, r: CodeRegion): CodeRegion { CodeRegion(Wrap(base + r.start), Wrap(base + r.end)) }

  function AllPlaced(base: Addr, s: seq<CodeRegion>): seq<CodeRegion> {
    if s == [] then [] else AllPlaced(base, s[..|s|-1]) + [Placed(base, s[|s|-1])]
  }

  lemma {:induction false} PlacedConcat(base: Addr, a: seq<CodeRegion>, b: seq<CodeRegion>)
    ensures AllPlaced(base, a + b) == AllPlaced(base, a) + AllPlaced(base, b)
  {
    if b == [] {
      assert a + b == a;
    } else {
      PlacedConcat(base, a, b[..|b|-1]);
      assert (a + b)[..|a + b|-1] == a + b[..|b|-1];
    }
  }

  /** Below the top of the address space an address is in a placed region exactly when its offset is in the region. */
  lemma PlacedContains(base: Addr, data: seq<Byte>, r: CodeRegion, k: nat)
    requires base + |data| < LIMIT && r.start <= r.end <= |data| && k < |data|
    ensures Placed(base, r).Contains(base + k) <==> r.Contains(k)
  {
  }

  /** Ordered regions cover, once placed, the address of a byte exactly when they covered its offset. */
  lemma {:induction false} PlacedCovers(base: Addr, data: seq<Byte>, s: seq<CodeRegion>, k: nat)
    requires base + |data| < LIMIT && k < |data|
    requires forall r | r in s :: r.start <= r.end <= |data|
    ensures Covered(AllPlaced(base, s), base + k) <==> Covered(s, k)
  {
    if s != [] {
      var init, r := s[..|s|-1], s[|s|-1];
      PlacedCovers(base, data, init, k);
      PlacedContains(base, data, r, k);
      assert s == init + [r];
      CoveredByEither(init, [r], k);
      CoveredByEither(AllPlaced(base, init), [Placed(base, r)], base + k);
      CoveredByOne(r, k);
      CoveredByOne(Placed(base, r), base + k);
    }
  }

  lemma CoveredByOne(r: CodeRegion, k: nat)
    ensures Covered([r], k) <==> r.Contains(k)
  {
    assert r in [r];
  }

  lemma {:induction false} PlacedAt(base: Addr, s: seq<CodeRegion>)
    ensures |AllPlaced(base, s)| == |s| && forall i | 0 <= i < |s| :: AllPlaced(base, s)[i] == Placed(base, s[i])
  {
    if s != [] { PlacedAt(base, s[..|s|-1]); }
  }

  lemma PlacedInOrder(base: Addr, s: seq<CodeRegion>, high: nat)
    requires Ordered(s, 0, high) && base + high < LIMIT
    ensures Ordered(AllPlaced(base, s), base, base + high)
  {
    hide *;
    PlacedAt(base, s);
    OrderedAt(s, 0, high);
    forall i | 0 <= i < |s| ensures AllPlaced(base, s)[i] == CodeRegion(base + s[i].start, base + s[i].end) {
      PlacedIs(base, s[i]);
    }
    OrderedWhen(AllPlaced(base, s), base, base + high);
  }

  lemma PlacedIs(base: Addr, r: CodeRegion)
    requires base + r.start < LIMIT && base + r.end < LIMIT
    ensures Placed(base, r) == CodeRegion(base + r.start, base + r.end)
  {
  }

  lemma OrderedAt(s: seq<CodeRegion>, low: nat, high: nat)
    requires Ordered(s, low, high)
    ensures forall i | 0 <= i < |s| :: low <= s[i].start < s[i].end <= high
    ensures forall i, j | 0 <= i < j < |s| :: s[i].end < s[j].start
  {
  }

  lemma OrderedWhen(s: seq<CodeRegion>, low: nat, high: nat)
    requires forall i | 0 <= i < |s| :: low <= s[i].start < s[i].end <= high
    requires forall i, j | 0 <= i < j < |s| :: s[i].end < s[j].start
    ensures Ordered(s, low, high)
  {
  }

  lemma InOneOnly(s: seq<CodeRegion>, low: nat, high: nat, k: nat)
    requires Ordered(s, low, high)
    ensures forall r, r' | r in s && r' in s && r.Contains(k) && r'.Contains(k) :: r == r'
  {
  }

  /** The same of the addresses of a section, once its regions are placed at its base. */
  lemma PlacedSegmentationExact(base: Addr, data: seq<Byte>, minNull: int, handlers: set<Addr>, k: nat)
    requires base + |data| < LIMIT && k < |data|
    ensures var s := AllPlaced(base, Segments(data, minNull, handlers, 0, None));
      && Ordered(s, base, base + |data|)
      && (data[k] != 0 ==> Covered(s, base + k))
      && (Covered(s, base + k) <==> !LeftOut(data, minNull, handlers, 0, k))
      && (handlers == {} ==> (Covered(s, base + k) <==> !InLongRun(data, k, minNull)))
      && (!Covered(s, base + k) ==> InLongRun(data, k, minNull))
      && (forall r, r' | r in s && r' in s && r.Contains(base + k) && r'.Contains(base + k) :: r == r')
  {
    SegmentationExact(data, minNull, handlers, k);
    var s := Segments(data, minNull, handlers, 0, None);
    PlacedInOrder(base, s, |data|);
    InOneOnly(AllPlaced(base, s), base, base + |data|, base + k);
    hide InLongRun, LeftOut, Segments, AllPlaced;
    PlacedCovers(base, data, s, k);
  }

  /** Appends the code regions of one section. */
  method SegmentCodeRegions(base: Addr, data: seq<Byte>, minNull: int, handlers: set<Addr>, found: seq<CodeRegion>)
    returns (regions: seq<CodeRegion>)
    ensures regions == found + AllPlaced(base, Segments(data, minNull, handlers, 0, None))
  {
    hide AllPlaced, Closed, Covered;
    regions := found;
    var open: Option<nat> := None;
    var i := 0;
    ghost var all := Segments(data, minNull, handlers, 0, None);
    while i < |data|
      invariant i <= |data|
      invariant regions + AllPlaced(base, Segments(data, minNull, handlers, i, open)) == found + AllPlaced(base, all)
      decreases |data| - i
    {
      if data[i] == 0 {
        var j := i;
        while j < |data| && data[j] == 0
          invariant i <= j <= |data| && ZeroEnd(data, j) == ZeroEnd(data, i)
        {
          j := j + 1;
        }
        if j - i >= 4 && i + 8 <= |data| && WordAt(data, i + 4) in handlers {
          open := if open.None? then Some(i) else open;
          i := i + 8;
        } else if j - i >= minNull {
          PlacedConcat(base, Closed(open, i), Segments(data, minNull, handlers, j, None));
          regions := Close(base, regions, open, i);
          open := None;
          i := j;
        } else {
          open := if open.None? then Some(i) else open;
          i := j;
        }
      } else {
        open := if open.None? then Some(i) else open;
        i := i + 1;
      }
    }
    regions := Close(base, regions, open, |data|);
  }

  method Close(base: Addr, found: seq<CodeRegion>, open: Option<nat>, end: nat) returns (regions: seq<CodeRegion>)
    ensures regions == found + AllPlaced(base, Closed(open, end))
  {
    regions := found;
    if open.Some? && end > open.value { regions := found + [CodeRegion(Wrap(base + open.value), Wrap(base + end))]; }
  }

  // ---------- Data regions ----------

  /** Whether the `w`-th word is all zeros or all ones. */
  predicate Filler(data: seq<Byte>, w: nat)
    requires 4 * w + 4 <= |data|
  {
    WordAt(data, 4 * w) == 0 || WordAt(data, 4 * w) == LIMIT - 1
  }

  /** The runs of filler words from word `w` on, the last `run` words being filler too. */
  function FillerRuns(data: seq<Byte>, threshold: int, w: nat, run: nat, start: nat): seq<CodeRegion>
    requires 4 * w <= |data|
    decreases |data| / 4 - w
  {
    if w == |data| / 4 then Reported(threshold, run, start, w)
    else if Filler(data, w) then FillerRuns(data, threshold, w + 1, run + 1, if run == 0 then w else start)
    else Reported(threshold, run, start, w) + FillerRuns(data, threshold, w + 1, 0, start)
  }

  function Reported(threshold: int, run: nat, start: nat, w: nat): seq<CodeRegion> {
    if run >= threshold then [CodeRegion(4 * start, 4 * w)] else []
  }

  /** Four bytes of zeros, or four of ones. */
  predicate IsFillerWord(data: seq<Byte>, at: nat)
    requires at + 4 <= |data|
  {
    || (data[at] == 0 && data[at+1] == 0 && data[at+2] == 0 && data[at+3] == 0)
    || (data[at] == 0xFF && data[at+1] == 0xFF && data[at+2] == 0xFF && data[at+3] == 0xFF)
  }

  lemma FillerBytes(data: seq<Byte>, w: nat)
    requires 4 * w + 4 <= |data|
    ensures Filler(data, w) <==> IsFillerWord(data, 4 * w)
  {
  }

  /** A maximal run of filler words, at words `lo..hi`. */
  ghost predicate FillerRun(data: seq<Byte>, lo: nat, hi: nat) {
    && lo < hi <= |data| / 4 && (forall w | lo <= w < hi :: Filler(data, w))
    && (lo > 0 ==> !Filler(data, lo - 1)) && (hi < |data| / 4 ==> !Filler(data, hi))
  }

  ghost predicate IsDataRegion(data: seq<Byte>, threshold: int, from: nat, r: CodeRegion) {
    exists lo: nat, hi: nat :: r == CodeRegion(4 * lo, 4 * hi) && from < hi && FillerRun(data, lo, hi) && hi - lo >= threshold
  }

  /** A run that is open at word `w` is still to be reported. */
  function Pending(w: nat, run: nat): nat
    requires run <= w
  {
    if run > 0 then w - 1 else w
  }

  /** The run of `run` filler words before word `w` is whole so far. */
  ghost predicate OpenRun(data: seq<Byte>, w: nat, run: nat) {
    && run <= w <= |data| / 4 && (forall v | w - run <= v < w :: Filler(data, v))
    && (w > run ==> !Filler(data, w - run - 1))
  }

  ghost predicate EndsAt(data: seq<Byte>, w: nat) { w <= |data| / 4 && (w < |data| / 4 ==> !Filler(data, w)) }

  lemma RunEnds(data: seq<Byte>, threshold: int, w: nat, run: nat, r: CodeRegion)
    requires threshold >= 1 && OpenRun(data, w, run) && EndsAt(data, w)
    ensures IsDataRegion(data, threshold, Pending(w, run), r) <==>
            (run >= threshold && r == CodeRegion(4 * (w - run), 4 * w)) || IsDataRegion(data, threshold, w, r)
  {
    hide Filler;
    if run > 0 { assert FillerRun(data, w - run, w); }
    if IsDataRegion(data, threshold, Pending(w, run), r) {
      var lo: nat, hi: nat :| r == CodeRegion(4 * lo, 4 * hi) && Pending(w, run) < hi && FillerRun(data, lo, hi) &&
                              hi - lo >= threshold;
      if hi == w { SameRun(data, lo, w - run, w); }
    }
  }

  /** No run ends just after a word that is not filler. */
  lemma NoneEndsAfter(data: seq<Byte>, threshold: int, w: nat, r: CodeRegion)
    requires w < |data| / 4 && !Filler(data, w)
    ensures IsDataRegion(data, threshold, w, r) <==> IsDataRegion(data, threshold, w + 1, r)
  {
    hide Filler;
    if IsDataRegion(data, threshold, w, r) {
      var lo: nat, hi: nat :| r == CodeRegion(4 * lo, 4 * hi) && w < hi && FillerRun(data, lo, hi) && hi - lo >= threshold;
      assert hi != w + 1;
    }
  }

  /** Nor just before one that is. */
  lemma NoneEndsBefore(data: seq<Byte>, threshold: int, w: nat, run: nat, r: CodeRegion)
    requires run <= w < |data| / 4 && Filler(data, w)
    ensures IsDataRegion(data, threshold, Pending(w, run), r) <==> IsDataRegion(data, threshold, w, r)
  {
    hide Filler;
    if IsDataRegion(data, threshold, Pending(w, run), r) {
      var lo: nat, hi: nat :| r == CodeRegion(4 * lo, 4 * hi) && Pending(w, run) < hi && FillerRun(data, lo, hi) &&
                              hi - lo >= threshold;
      assert hi != w;
    }
  }

  lemma SameRun(data: seq<Byte>, lo: nat, lo': nat, hi: nat)
    requires FillerRun(data, lo, hi) && FillerRun(data, lo', hi)
    ensures lo == lo'
  {
  }

  lemma {:induction false} RunsExact(data: seq<Byte>, threshold: int, w: nat, run: nat, start: nat, r: CodeRegion)
    requires threshold >= 1 && OpenRun(data, w, run) && (run > 0 ==> start + run == w)
    ensures r in FillerRuns(data, threshold, w, run, start) <==> IsDataRegion(data, threshold, Pending(w, run), r)
    decreases |data| / 4 - w
  {
    hide Filler, IsDataRegion;
    if w == |data| / 4 {
      RunEnds(data, threshold, w, run, r);
      NothingLeft(data, threshold, w, r);
    } else if Filler(data, w) {
      NoneEndsBefore(data, threshold, w, run, r);
      RunsExact(data, threshold, w + 1, run + 1, if run == 0 then w else start, r);
    } else {
      RunEnds(data, threshold, w, run, r);
      NoneEndsAfter(data, threshold, w, r);
      RunsExact(data, threshold, w + 1, 0, start, r);
    }
  }

  lemma NothingLeft(data: seq<Byte>, threshold: int, w: nat, r: CodeRegion)
    requires w == |data| / 4
    ensures !IsDataRegion(data, threshold, w, r)
  {
  }

  /** With a threshold of at least 1 the data regions are exactly the maximal runs of filler words that reach it. */
  lemma DataRegionsExact(data: seq<Byte>, threshold: int, r: CodeRegion)
    requires threshold >= 1
    ensures r in FillerRuns(data, threshold, 0, 0, 0) <==>
            exists lo: nat, hi: nat :: r == CodeRegion(4 * lo, 4 * hi) && FillerRun(data, lo, hi) && hi - lo >= threshold
  {
    RunsExact(data, threshold, 0, 0, 0, r);
    if lo: nat, hi: nat :| r == CodeRegion(4 * lo, 4 * hi) && FillerRun(data, lo, hi) && hi - lo >= threshold {
      assert hi > 0;
    }
  }

  /** The same, byte by byte. */
  lemma DataRegionsInBytes(data: seq<Byte>, threshold: int, r: CodeRegion)
    requires threshold >= 1
    ensures r in FillerRuns(data, threshold, 0, 0, 0) <==>
      && r.start % 4 == 0 && r.end % 4 == 0 && r.start < r.end <= |data| && r.end - r.start >= 4 * threshold
      && (forall w | r.start <= 4 * w < r.end :: IsFillerWord(data, 4 * w))
      && (r.start >= 4 ==> !IsFillerWord(data, r.start - 4))
      && (r.end + 4 <= |data| ==> !IsFillerWord(data, r.end))
  {
    DataRegionsExact(data, threshold, r);
    var lo: nat, hi: nat := r.start / 4, r.end / 4;
    hide FillerRuns, FillerRun;
    if r in FillerRuns(data, threshold, 0, 0, 0) {
      var lo': nat, hi': nat :| r == CodeRegion(4 * lo', 4 * hi') && FillerRun(data, lo', hi') && hi' - lo' >= threshold;
      assert lo == lo' && hi == hi';
    }
    if r.start % 4 == 0 && r.end % 4 == 0 {
      assert r == CodeRegion(4 * lo, 4 * hi);
      RunInBytes(data, lo, hi);
    }
    hide IsFillerWord;
  }

  lemma RunInBytes(data: seq<Byte>, lo: nat, hi: nat)
    ensures FillerRun(data, lo, hi) <==>
      && lo < hi && 4 * hi <= |data|
      && (forall w | 4 * lo <= 4 * w < 4 * hi :: IsFillerWord(data, 4 * w))
      && (4 * lo >= 4 ==> !IsFillerWord(data, 4 * lo - 4))
      && (4 * hi + 4 <= |data| ==> !IsFillerWord(data, 4 * hi))
  {
    forall w: nat | 4 * w + 4 <= |data| ensures Filler(data, w) <==> IsFillerWord(data, 4 * w) {
      FillerBytes(data, w);
    }
    if lo > 0 { assert 4 * lo - 4 == 4 * (lo - 1); }
    hide Filler, IsFillerWord;
  }

  lemma ReportedOrdered(threshold: int, run: nat, start: nat, w: nat)
    requires threshold >= 1 && run <= w && (run > 0 ==> start + run == w)
    ensures |Reported(threshold, run, start, w)| <= 1 && Ordered(Reported(threshold, run, start, w), 4 * (w - run), 4 * w)
  {
  }

  lemma OrderedWiden(a: seq<CodeRegion>, low: nat, i: nat, high: nat)
    requires Ordered(a, low, i) && i <= high
    ensures Ordered(a, low, high)
  {
  }

  /** They come in order, each ending before the next starts. */
  lemma {:induction false} DataRegionsInOrder(data: seq<Byte>, threshold: int, w: nat, run: nat, start: nat)
    requires threshold >= 1 && run <= w <= |data| / 4 && (run > 0 ==> start + run == w)
    ensures Ordered(FillerRuns(data, threshold, w, run, start), 4 * (w - run), |data|)
    decreases |data| / 4 - w
  {
    hide Filler, Ordered, Reported;
    if w < |data| / 4 {
      if Filler(data, w) {
        DataRegionsInOrder(data, threshold, w + 1, run + 1, if run == 0 then w else start);
      } else {
        DataRegionsInOrder(data, threshold, w + 1, 0, start);
        ReportedOrdered(threshold, run, start, w);
        OrderedPrepend(Reported(threshold, run, start, w), FillerRuns(data, threshold, w + 1, 0, start),
                       4 * (w - run), 4 * w, 4 * (w + 1), |data|);
      }
    } else {
      ReportedOrdered(threshold, run, start, w);
      OrderedWiden(Reported(threshold, run, start, w), 4 * (w - run), 4 * w, |data|);
    }
  }

  /** With a threshold below 1 a single word that is no filler yields an empty region. */
  lemma LowThresholdReportsNothing(threshold: int)
    requires threshold <= 0
    ensures FillerRuns([1, 0, 0, 0], threshold, 0, 0, 0)[0] == CodeRegion(0, 0)
  {
    assert WordAt([1, 0, 0, 0], 0) == 1;
  }

  /** Appends the data regions of one section; the last bytes of a section that make no whole word are not read. */
  method DetectDataRegions(base: Addr, data: seq<Byte>, threshold: int, found: seq<CodeRegion>)
    returns (regions: seq<CodeRegion>)
    ensures regions == found + AllPlaced(base, FillerRuns(data, threshold, 0, 0, 0))
  {
    hide AllPlaced, Reported;
    regions := found;
    var n, run, start, w := |data| / 4, 0, 0, 0;
    ghost var all := FillerRuns(data, threshold, 0, 0, 0);
    while w < n
      invariant w <= n
      invariant regions + AllPlaced(base, FillerRuns(data, threshold, w, run, start)) == found + AllPlaced(base, all)
    {
      var word := WordAt(data, 4 * w);
      if word == 0 || word == 0xFFFF_FFFF {
        if run == 0 { start := w; }
        run := run + 1;
      } else {
        PlacedConcat(base, Reported(threshold, run, start, w), FillerRuns(data, threshold, w + 1, 0, start));
        regions := Report(base, regions, threshold, run, start, w);
        run := 0;
      }
      w := w + 1;
    }
    regions := Report(base, regions, threshold, run, start, n);
  }

  method Report(base: Addr, found: seq<CodeRegion>, threshold: int, run: nat, start: nat, w: nat)
    returns (regions: seq<CodeRegion>)
    ensures regions == found + AllPlaced(base, Reported(threshold, run, start, w))
  {
    regions := found;
    if run >= threshold { regions := found + [CodeRegion(Wrap(base + 4 * start), Wrap(base + 4 * w))]; }
  }

  // ---------- The scan phase ----------

  datatype Section = Section(base: Addr, data: seq<Byte>) {
    function End(): Addr { base + |data| }

    predicate Holds(a: Addr) { base <= a < End() }
  }

  /** Sections below the top of the address space that share no address. */
  ghost predicate Apart(sections: seq<Section>) {
    && (forall s | s in sections :: s.End() < LIMIT)
    && (forall i, j, a | 0 <= i < j < |sections| && sections[i].Holds(a) :: !sections[j].Holds(a))
  }

  /** A 32-bit setting as the signed number the scan takes it for. */
  function AsInt(x: nat): int { if x % LIMIT < LIMIT / 2 then x % LIMIT else x % LIMIT - LIMIT }

  function MinNull(setting: nat): int { AsInt(if setting < 1 then 1 else setting) }

  function CodeIn(s: Section, minNull: int, handlers: set<Addr>): seq<CodeRegion> {
    AllPlaced(s.base, Segments(s.data, minNull, handlers, 0, None))
  }

  function CodeRegions(sections: seq<Section>, minNull: int, handlers: set<Addr>): seq<CodeRegion> {
    if sections == [] then []
    else CodeRegions(sections[..|sections|-1], minNull, handlers) + CodeIn(sections[|sections|-1], minNull, handlers)
  }

  function DataRegions(sections: seq<Section>, threshold: int): seq<CodeRegion> {
    if sections == [] then []
    else
      var s := sections[|sections|-1];
      DataRegions(sections[..|sections|-1], threshold) + AllPlaced(s.base, FillerRuns(s.data, threshold, 0, 0, 0))
  }

  /** Code and data regions of every executable section. */
  method Run(sections: seq<Section>, minNullRun: nat, threshold: nat, handlers: set<Addr>)
    returns (code: seq<CodeRegion>, data: seq<CodeRegion>)
    ensures code == CodeRegions(sections, MinNull(minNullRun), handlers)
    ensures data == DataRegions(sections, AsInt(threshold))
    ensures minNullRun < 0x1_0000_0000 ==>
      var n := if minNullRun == 0 then 1 else if minNullRun < 0x8000_0000 then minNullRun else minNullRun - 0x1_0000_0000;
      code == CodeRegions(sections, n, handlers)
    ensures threshold < 0x1_0000_0000 ==>
      data == DataRegions(sections, if threshold < 0x8000_0000 then threshold else threshold - 0x1_0000_0000)
  {
    if minNullRun < LIMIT { SettingsAre(minNullRun); }
    if threshold < LIMIT { SettingsAre(threshold); }
    hide *;
    var minNull := MinNull(minNullRun);
    code, data := [], [];
    assert sections[..0] == [];
    NoSections(minNull, handlers, AsInt(threshold));
    for i := 0 to |sections|
      invariant code == CodeRegions(sections[..i], minNull, handlers) && data == DataRegions(sections[..i], AsInt(threshold))
    {
      NextSection(sections, minNull, handlers, AsInt(threshold), i);
      code := SegmentCodeRegions(sections[i].base, sections[i].data, minNull, handlers, code);
      data := DetectDataRegions(sections[i].base, sections[i].data, AsInt(threshold), data);
    }
    assert sections[..|sections|] == sections;
  }

  lemma SettingsAre(x: nat)
    requires x < LIMIT
    ensures AsInt(x) == (if x < 0x8000_0000 then x else x - 0x1_0000_0000) && MinNull(x) == AsInt(if x == 0 then 1 else x)
    ensures MinNull(0) == 1
  {
  }

  lemma NoSections(minNull: int, handlers: set<Addr>, threshold: int)
    ensures CodeRegions([], minNull, handlers) == [] && DataRegions([], threshold) == []
  {
  }

  lemma NextSection(sections: seq<Section>, minNull: int, handlers: set<Addr>, threshold: int, i: nat)
    requires i < |sections|
    ensures var s := sections[i];
      && CodeRegions(sections[..i+1], minNull, handlers) ==
         CodeRegions(sections[..i], minNull, handlers) + AllPlaced(s.base, Segments(s.data, minNull, handlers, 0, None))
      && DataRegions(sections[..i+1], threshold) ==
         DataRegions(sections[..i], threshold) + AllPlaced(s.base, FillerRuns(s.data, threshold, 0, 0, 0))
  {
    assert sections[..i+1][..i] == sections[..i];
    hide AllPlaced, Segments, FillerRuns;
  }

  /** Every code region lies in some section. */
  lemma {:induction false} RegionsInSections(sections: seq<Section>, minNull: int, handlers: set<Addr>, r: CodeRegion)
    requires (forall s | s in sections :: s.End() < LIMIT) && r in CodeRegions(sections, minNull, handlers)
    ensures exists s :: s in sections && s.base <= r.start < r.end <= s.End()
  {
    var init, last := sections[..|sections|-1], sections[|sections|-1];
    assert sections == init + [last];
    if r in CodeRegions(init, minNull, handlers) {
      RegionsInSections(init, minNull, handlers, r);
    } else {
      CodeInSection(last, minNull, handlers, r);
    }
    hide CodeRegions, CodeIn;
  }

  lemma CodeInSection(s: Section, minNull: int, handlers: set<Addr>, r: CodeRegion)
    requires s.End() < LIMIT && r in CodeIn(s, minNull, handlers)
    ensures s.base <= r.start < r.end <= s.End()
  {
    SegmentsInOrder(s.data, minNull, handlers, 0, None);
    PlacedInOrder(s.base, Segments(s.data, minNull, handlers, 0, None), |s.data|);
    hide Segments, AllPlaced;
  }

  lemma NotInSection(s: Section, minNull: int, handlers: set<Addr>, a: Addr)
    requires s.End() < LIMIT && !s.Holds(a)
    ensures !Covered(CodeIn(s, minNull, handlers), a)
  {
    hide CodeIn;
    if Covered(CodeIn(s, minNull, handlers), a) {
      var r :| r in CodeIn(s, minNull, handlers) && r.Contains(a);
      CodeInSection(s, minNull, handlers, r);
    }
  }

  /** Over the sections of an image, an address is in a code region exactly when its section's scan does not leave its
      byte out; a nonzero byte always is. */
  lemma {:induction false} SectionsExact(sections: seq<Section>, minNull: int, handlers: set<Addr>, s: Section, k: nat)
    requires Apart(sections) && s in sections && k < |s.data|
    ensures Covered(CodeRegions(sections, minNull, handlers), s.base + k) <==> !LeftOut(s.data, minNull, handlers, 0, k)
    ensures s.data[k] != 0 ==> Covered(CodeRegions(sections, minNull, handlers), s.base + k)
  {
    var init, last := sections[..|sections|-1], sections[|sections|-1];
    assert sections == init + [last];
    assert last in sections;
    CoveredByEither(CodeRegions(init, minNull, handlers), CodeIn(last, minNull, handlers), s.base + k);
    PlacedSegmentationExact(s.base, s.data, minNull, handlers, k);
    hide LeftOut, CodeIn, Segments, AllPlaced, Covered, InLongRun, Ordered;
    if s == last {
      forall i | 0 <= i < |init| ensures !init[i].Holds(s.base + k) {
        assert sections[i] == init[i];
      }
      NotElsewhere(init, minNull, handlers, s.base + k);
      CodeInIs(s, minNull, handlers);
    } else {
      assert s in init;
      ApartInit(sections);
      SectionsExact(init, minNull, handlers, s, k);
      var i :| 0 <= i < |init| && init[i] == s;
      assert sections[i].Holds(s.base + k);
      NotInSection(last, minNull, handlers, s.base + k);
    }
    hide CodeRegions;
  }

  lemma CodeInIs(s: Section, minNull: int, handlers: set<Addr>)
    ensures CodeIn(s, minNull, handlers) == AllPlaced(s.base, Segments(s.data, minNull, handlers, 0, None))
  {
  }

  lemma ApartInit(sections: seq<Section>)
    requires sections != [] && Apart(sections)
    ensures Apart(sections[..|sections|-1])
  {
    var init := sections[..|sections|-1];
    assert forall s | s in init :: s in sections;
    assert forall i | 0 <= i < |init| :: init[i] == sections[i];
  }

  lemma NotElsewhere(sections: seq<Section>, minNull: int, handlers: set<Addr>, a: Addr)
    requires (forall s | s in sections :: s.End() < LIMIT) && forall i | 0 <= i < |sections| :: !sections[i].Holds(a)
    ensures !Covered(CodeRegions(sections, minNull, handlers), a)
  {
    hide CodeRegions;
    if Covered(CodeRegions(sections, minNull, handlers), a) {
      var r :| r in CodeRegions(sections, minNull, handlers) && r.Contains(a);
      RegionsInSections(sections, minNull, handlers, r);
    }
  }
}
