/** Eager EFLAGS: the flag helpers of the runtime and the conditions the emitter reads them with.

    The helpers work on 64-bit words. A shift right by n and a mask are division and remainder by powers of two, and
    a bitwise expression of which one bit is kept is that expression of the operands' bits. */
module Flags {
  const TWO64: nat := 0x1_0000_0000_0000_0000

  datatype Width = W8 | W16 | W32 {
    /** 2 to the power of the width. */
    function Size(): nat {
      match this
      case W8 => 0x100
      case W16 => 0x1_0000
      case W32 => 0x1_0000_0000
    }

    /** The weight of the top bit. */
    function Top(): nat { Size() / 2 }
  }

  /** The bit of weight `p`. */
  predicate Bit(x: nat, p: nat)
    requires p > 0
  {
    (x / p) % 2 == 1
  }

  datatype Flags = Flags(cf: bool, pf: bool, af: bool, zf: bool, sf: bool, of: bool)

  function BitCount(x: nat): nat { if x == 0 then 0 else x % 2 + BitCount(x / 2) }

  predicate EvenParity(x: nat) { BitCount(x % 256) % 2 == 0 }

  function FlagsAdd(a: nat, b: nat, r: nat, w: Width): Flags {
    Flags(Bit(r, w.Size()), EvenParity(r % w.Size()), (Bit(a, 16) != Bit(b, 16)) != Bit(r, 16), r % w.Size() == 0,
          Bit(r % w.Size(), w.Top()),
          (Bit(a, w.Top()) != Bit(r, w.Top())) && (Bit(b, w.Top()) != Bit(r, w.Top())))
  }

  function FlagsSub(a: nat, b: nat, r: nat, w: Width): Flags {
    Flags(a % w.Size() < b % w.Size(), EvenParity(r % w.Size()), (Bit(a, 16) != Bit(b, 16)) != Bit(r, 16), r % w.Size() == 0,
          Bit(r % w.Size(), w.Top()),
          (Bit(a, w.Top()) != Bit(b, w.Top())) && (Bit(a, w.Top()) != Bit(r, w.Top())))
  }

  function FlagsLogic(r: nat, w: Width, af: bool): Flags {
    Flags(false, EvenParity(r % w.Size()), af, r % w.Size() == 0, Bit(r % w.Size(), w.Top()), false)
  }

  /** CMP as lowered: the 64-bit difference, and the subtraction flags. */
  function Cmp(a: nat, b: nat, w: Width): Flags { FlagsSub(a, b, Difference(a, b), w) }

  /** ADD as lowered. */
  function AddFlags(a: nat, b: nat, w: Width): Flags { FlagsAdd(a, b, (a + b) % TWO64, w) }

  /** The conditions of Jcc, SETcc and CMOVcc. */
  datatype Condition = E | NE | B | AE | BE | A | L | GE | LE | G | S | NS | O | NO | P | NP

  predicate Cond(f: Flags, c: Condition) {
    match c
    case E => f.zf
    case NE => !f.zf
    case B => f.cf
    case AE => !f.cf
    case BE => f.cf || f.zf
    case A => !f.cf && !f.zf
    case L => f.sf != f.of
    case GE => f.sf == f.of
    case LE => f.zf || f.sf != f.of
    case G => !f.zf && f.sf == f.of
    case S => f.sf
    case NS => !f.sf
    case O => f.of
    case NO => !f.of
    case P => f.pf
    case NP => !f.pf
  }

  /** The two's complement value of a zero-extended operand. */
  function Signed(x: nat, w: Width): int { if x < w.Top() then x else x - w.Size() }

  predicate Fits(v: int, w: Width) { 0 - w.Top() <= v < w.Top() }

  /** What a condition asks of two compared operands (Intel SDM volume 1, appendix B). */
  predicate Asks(c: Condition, a: nat, b: nat, w: Width) {
    match c
    case E => a == b
    case NE => a != b
    case B => a < b
    case AE => a >= b
    case BE => a <= b
    case A => a > b
    case L => Signed(a, w) < Signed(b, w)
    case GE => Signed(a, w) >= Signed(b, w)
    case LE => Signed(a, w) <= Signed(b, w)
    case G => Signed(a, w) > Signed(b, w)
    case S => (a - b) % w.Size() >= w.Top()
    case NS => (a - b) % w.Size() < w.Top()
    case O => !Fits(Signed(a, w) - Signed(b, w), w)
    case NO => Fits(Signed(a, w) - Signed(b, w), w)
    case P => LowOnes((a - b) % 256) % 2 == 0
    case NP => LowOnes((a - b) % 256) % 2 == 1
  }

  /** The ones among the low eight bits. */
  function LowOnes(x: nat): nat {
    x % 2 + (x / 2) % 2 + (x / 4) % 2 + (x / 8) % 2 + (x / 16) % 2 + (x / 32) % 2 + (x / 64) % 2 + (x / 128) % 2
  }

  lemma CountOfByte(y: nat)
    requires y < 256
    ensures BitCount(y) == LowOnes(y)
  {
    hide BitCount;
    CountHalf(y);
    CountHalf(y / 2);
    CountHalf(y / 4);
    CountHalf(y / 8);
    CountHalf(y / 16);
    CountHalf(y / 32);
    CountHalf(y / 64);
    CountHalf(y / 128);
    NoOnes();
    Halvings(y);
  }

  lemma CountHalf(x: nat)
    ensures BitCount(x) == x % 2 + BitCount(x / 2)
  {
  }

  lemma Halvings(y: nat)
    requires y < 256
    ensures y / 2 / 2 == y / 4 && y / 4 / 2 == y / 8 && y / 8 / 2 == y / 16 && y / 16 / 2 == y / 32
    ensures y / 32 / 2 == y / 64 && y / 64 / 2 == y / 128 && y / 128 / 2 == 0
  {
  }

  lemma NoOnes()
    ensures BitCount(0) == 0
  {
  }

  lemma LowByte(x: int, w: Width)
    ensures x % w.Size() % 256 == x % 256
  {
    match w
    case W8 =>
    case W16 => AddPages(x % 0x1_0000, 0x100 * (x / 0x1_0000));
    case W32 => AddPages(x % 0x1_0000_0000, 0x100_0000 * (x / 0x1_0000_0000));
  }

  lemma AddPages(r: int, k: int)
    ensures (r + 256 * k) % 256 == r % 256
  {
  }

  /** The parity flag of a result says that the ones among its low eight bits are even in number. */
  lemma ParityOfLowByte(x: int, w: Width)
    ensures EvenParity(x % w.Size()) <==> LowOnes(x % 256) % 2 == 0
  {
    LowByte(x, w);
    CountOfByte(x % 256);
    hide BitCount, LowOnes;
  }

  lemma TopBit(x: nat, w: Width)
    requires x < w.Size()
    ensures Bit(x, w.Top()) <==> x >= w.Top()
  {
    match w
    case W8 =>
    case W16 =>
    case W32 =>
  }

  lemma Halves(w: Width)
    ensures w.Size() == 2 * w.Top() && w.Top() > 0
    ensures w.Top() == (if w == W8 then 0x80 else if w == W16 then 0x8000 else 0x8000_0000)
  {
  }

  /** The 64-bit difference of two operands. */
  function Difference(a: nat, b: nat): nat { (a + TWO64 - b % TWO64) % TWO64 }

  lemma DifferenceIs(a: nat, b: nat)
    requires a < TWO64 && b < TWO64
    ensures Difference(a, b) == if a >= b then a - b else TWO64 + a - b
  {
  }

  lemma ModBorrow(d: nat, top: nat)
    requires top == 0x80 || top == 0x8000 || top == 0x8000_0000
    requires d <= 2 * top
    ensures 0 < d ==> (TWO64 - d) % (2 * top) == (2 * top - d) % (2 * top)
  {
    if top == 0x80 { assert TWO64 - d == (2 * top - d) + 256 * (TWO64 / 256 - 1); }
    else if top == 0x8000 { assert TWO64 - d == (2 * top - d) + 0x1_0000 * (TWO64 / 0x1_0000 - 1); }
    else { assert TWO64 - d == (2 * top - d) + 0x1_0000_0000 * (TWO64 / 0x1_0000_0000 - 1); }
  }

  /** The low bits of the 64-bit difference are the difference modulo the width. */
  lemma LowDifference(a: nat, b: nat, w: Width)
    requires a < w.Size() && b < w.Size()
    ensures var d := if a >= b then a - b else a - b + w.Size();
      && Difference(a, b) % w.Size() == d
      && (a - b) % w.Size() == d
      && (Bit(Difference(a, b), w.Top()) <==> d >= w.Top())
      && (Bit(d, w.Top()) <==> d >= w.Top())
  {
    hide Bit;
    Halves(w);
    DifferenceIs(a, b);
    var d := if a >= b then a - b else a - b + w.Size();
    if a < b {
      ModBorrow(b - a, w.Top());
      SmallMod(w.Size() - (b - a), w.Size());
      assert (a - b) % w.Size() == d;
    } else {
      SmallMod(a - b, w.Size());
    }
    TopOfLow(Difference(a, b), w.Top());
    TopBit(d, w);
  }

  lemma SmallMod(x: nat, m: nat)
    requires x < m
    ensures x % m == x && (x - m) % m == x
  {
    assert x - m == x + m * -1;
  }

  lemma TopOfLow(r: nat, top: nat)
    requires top == 0x80 || top == 0x8000 || top == 0x8000_0000
    ensures Bit(r, top) == Bit(r % (2 * top), top)
  {
    var low := r % (2 * top);
    assert r == 2 * top * (r / (2 * top)) + low;
    if top == 0x80 {
      assert r / top == 2 * (r / (2 * top)) + low / top;
    } else if top == 0x8000 {
      assert r / top == 2 * (r / (2 * top)) + low / top;
    } else {
      assert r / top == 2 * (r / (2 * top)) + low / top;
    }
  }

  /** The flags of a compare, each by itself. */
  lemma CmpFlags(a: nat, b: nat, w: Width)
    requires a < w.Size() && b < w.Size()
    ensures var f, low := Cmp(a, b, w), (a - b) % w.Size();
      && (f.zf <==> a == b) && (f.cf <==> a < b)
      && (f.sf <==> low >= w.Top()) && (f.pf <==> EvenParity(low))
      && (f.of <==> !Fits(Signed(a, w) - Signed(b, w), w))
      && (f.sf != f.of <==> Signed(a, w) < Signed(b, w))
  {
    hide Bit, EvenParity, Difference, Width.Size, Width.Top;
    LowDifference(a, b, w);
    TopBit(a, w);
    TopBit(b, w);
    Halves(w);
    SmallMod(a, w.Size());
    SmallMod(b, w.Size());
  }

  lemma SignedOrder(a: nat, b: nat, w: Width)
    requires a < w.Size() && b < w.Size()
    ensures Signed(a, w) == Signed(b, w) <==> a == b
  {
    Halves(w);
    hide Width.Size, Width.Top;
  }

  /** After a compare every condition holds exactly when the comparison it stands for does. */
  lemma ConditionsMatch(a: nat, b: nat, w: Width, c: Condition)
    requires a < w.Size() && b < w.Size()
    ensures Cond(Cmp(a, b, w), c) <==> Asks(c, a, b, w)
  {
    hide Cmp, Signed, Fits, EvenParity, LowOnes, Width.Size, Width.Top;
    CmpFlags(a, b, w);
    ParityOfLowByte(a - b, w);
    SignedOrder(a, b, w);
  }

  /** After a logical operation or a test every condition compares the result with zero. */
  lemma LogicComparesWithZero(r: nat, w: Width, af: bool, c: Condition)
    requires r < w.Size()
    ensures Cond(FlagsLogic(r, w, af), c) <==> Asks(c, r, 0, w)
  {
    Halves(w);
    TopBit(r, w);
    SmallMod(r, w.Size());
    ParityOfLowByte(r, w);
    hide Bit, EvenParity, LowOnes, Width.Size, Width.Top;
  }

  /** After an add the carry flag is the unsigned overflow and the overflow flag the signed one. */
  lemma AddOverflows(a: nat, b: nat, w: Width)
    requires a < w.Size() && b < w.Size()
    ensures AddFlags(a, b, w).cf <==> a + b >= w.Size()
    ensures AddFlags(a, b, w).of <==> !Fits(Signed(a, w) + Signed(b, w), w)
    ensures AddFlags(a, b, w).zf <==> (a + b) % w.Size() == 0
  {
    hide Bit, EvenParity, Width.Size, Width.Top;
    Halves(w);
    TopBit(a, w);
    TopBit(b, w);
    SumBits(a + b, w);
    SumIs(a, b, w);
  }

  /** The other three flags of an add: the sign and the parity of the low bits of the sum, and the carry out of the low
      four bits. */
  lemma AddFlagsOfResult(a: nat, b: nat, w: Width)
    requires a < w.Size() && b < w.Size()
    ensures AddFlags(a, b, w).sf <==> (a + b) % w.Size() >= w.Size() / 2
    ensures AddFlags(a, b, w).pf <==> LowOnes((a + b) % 256) % 2 == 0
    ensures AddFlags(a, b, w).af <==> a % 16 + b % 16 >= 16
  {
    AddSign(a, b, w);
    ParityOfLowByte(a + b, w);
    HalfCarry(a, b);
    SumIs(a, b, w);
    AddFields(a, b, w);
    hide *;
  }

  lemma AddFields(a: nat, b: nat, w: Width)
    requires (a + b) % TWO64 == a + b
    ensures AddFlags(a, b, w).pf == EvenParity((a + b) % w.Size())
    ensures AddFlags(a, b, w).af == ((Bit(a, 16) != Bit(b, 16)) != Bit(a + b, 16))
  {
    hide Bit, EvenParity, Width.Size;
  }

  lemma AddSign(a: nat, b: nat, w: Width)
    requires a < w.Size() && b < w.Size()
    ensures AddFlags(a, b, w).sf <==> (a + b) % w.Size() >= w.Size() / 2
  {
    SumIs(a, b, w);
    hide Bit, EvenParity, Width.Size;
  }

  /** The auxiliary carry of a compare is the borrow into the low four bits. */
  lemma CmpBorrows(a: nat, b: nat, w: Width)
    requires a < w.Size() && b < w.Size()
    ensures Cmp(a, b, w).af <==> a % 16 < b % 16
  {
    DifferenceIs(a, b);
    HalfCarry(Difference(a, b), b);
    WholeWords(a);
    CarryIsBorrow(a, b, Difference(a, b));
    hide Bit, EvenParity, Difference;
  }

  lemma HalfCarry(a: nat, b: nat)
    ensures ((Bit(a, 16) != Bit(b, 16)) != Bit(a + b, 16)) <==> a % 16 + b % 16 >= 16
  {
    assert (a + b) / 16 == a / 16 + b / 16 + if a % 16 + b % 16 >= 16 then 1 else 0;
  }

  lemma WholeWords(a: nat)
    ensures Bit(TWO64 + a, 16) == Bit(a, 16)
  {
    assert (TWO64 + a) / 16 == 2 * (TWO64 / 32) + a / 16;
  }

  lemma CarryIsBorrow(a: nat, b: nat, r: nat)
    requires r + b == a || r + b == TWO64 + a
    ensures r % 16 + b % 16 >= 16 <==> a % 16 < b % 16
  {
    assert (TWO64 + a) % 16 == a % 16;
  }

  lemma SumIs(a: nat, b: nat, w: Width)
    requires a < w.Size() && b < w.Size()
    ensures (a + b) % TWO64 == a + b
    ensures (a + b) % w.Size() == if a + b >= w.Size() then a + b - w.Size() else a + b
    ensures Bit((a + b) % w.Size(), w.Top()) <==> (a + b) % w.Size() >= w.Top()
  {
    Halves(w);
    hide Bit, Width.Size, Width.Top;
    SmallMod(a + b, TWO64);
    LowOf(a + b, w.Size());
    TopBit((a + b) % w.Size(), w);
  }

  lemma LowOf(r: nat, m: nat)
    requires r < 2 * m
    ensures r % m == if r >= m then r - m else r
  {
    if r < m { SmallMod(r, m); } else { SmallMod(r - m, m); assert r == (r - m) + m * 1; }
  }

  lemma SumBits(r: nat, w: Width)
    requires r < 2 * w.Size()
    ensures Bit(r, w.Size()) <==> r >= w.Size()
    ensures Bit(r, w.Top()) <==> (if r >= w.Size() then r - w.Size() else r) >= w.Top()
  {
    Halves(w);
    hide Bit, Width.Size, Width.Top;
    BitOf(r, w.Size());
    BitOf(r, w.Top());
  }

  /** The bit of weight `p` below four times the weight. */
  lemma BitOf(r: nat, p: nat)
    requires p > 0 && r < 4 * p
    ensures Bit(r, p) <==> p <= r < 2 * p || 3 * p <= r
  {
    Quotient(r, p, if r < p then 0 else if r < 2 * p then 1 else if r < 3 * p then 2 else 3);
  }

  lemma Quotient(r: nat, p: nat, q: nat)
    requires p > 0 && q < 4 && q * p <= r < (q + 1) * p
    ensures r / p == q
  {
  }

  // ---------- Multi-word addition ----------

  const LIMB: nat := 0x1_0000_0000

  ghost predicate Limbs(s: seq<nat>) { forall i | 0 <= i < |s| :: s[i] < LIMB }

  /** Least significant limb first. */
  function Value(s: seq<nat>): nat {
    if s == [] then 0 else Value(s[..|s|-1]) + Times(s[|s|-1], Weight(|s| - 1))
  }

  function Times(x: nat, w: nat): nat { x * w }

  function Weight(n: nat): (p: nat)
    ensures p > 0
  {
    if n == 0 then 1 else LIMB * Weight(n - 1)
  }

  /** ADD of the first limbs, then ADC of each further pair: `_b` takes the carry in before the sum. */
  method AddLimbs(a: seq<nat>, b: seq<nat>) returns (sum: seq<nat>, carry: bool)
    requires |a| == |b| > 0 && Limbs(a) && Limbs(b)
    ensures |sum| == |a| && Limbs(sum)
    ensures Value(sum) + (if carry then Weight(|a|) else 0) == Value(a) + Value(b)
  {
    hide Bit, EvenParity, Value, Weight;
    ValueEmpty();
    sum, carry := [], false;
    assert a[..0] == [] && b[..0] == [];
    for i := 0 to |a|
      invariant |sum| == i && Limbs(sum) && (i == 0 ==> !carry)
      invariant Value(sum) + (if carry then Weight(i) else 0) == Value(a[..i]) + Value(b[..i])
    {
      var a1, b1 := a[i], b[i] + (if i > 0 && carry then 1 else 0);
      var r := (a1 + b1) % TWO64;
      var f := FlagsAdd(a1, b1, r, W32);
      NoWrap(a1 + b1);
      LimbStep(sum, a, b, i, carry, r);
      sum, carry := sum + [r % LIMB], f.cf;
    }
    assert a[..|a|] == a && b[..|b|] == b;
  }

  lemma ValueEmpty()
    ensures Value([]) == 0
  {
  }

  lemma NoWrap(r: nat)
    requires r < 2 * LIMB
    ensures r % TWO64 == r && r % LIMB < LIMB
  {
  }

  lemma LimbStep(sum: seq<nat>, a: seq<nat>, b: seq<nat>, i: nat, carry: bool, r: nat)
    requires i < |a| && i < |b| && a[i] < LIMB && b[i] < LIMB && |sum| == i && (i == 0 ==> !carry)
    requires r == a[i] + b[i] + (if carry then 1 else 0)
    requires Value(sum) + (if carry then Weight(i) else 0) == Value(a[..i]) + Value(b[..i])
    ensures Bit(r, LIMB) <==> r >= LIMB
    ensures Value(sum + [r % LIMB]) + (if Bit(r, LIMB) then Weight(i + 1) else 0) == Value(a[..i+1]) + Value(b[..i+1])
  {
    hide *;
    CarryOut(r);
    ValueLast(a[..i+1]);
    ValueLast(b[..i+1]);
    var low: nat := r % LIMB;
    ValueLast(sum + [low]);
    assert a[..i+1][..i] == a[..i] && b[..i+1][..i] == b[..i] && (sum + [low])[..i] == sum;
    WeightNext(i);
    LimbSum(a[i], b[i], carry, r, low, Weight(i));
  }

  lemma WeightNext(i: nat)
    ensures Weight(i + 1) == LIMB * Weight(i)
  {
  }

  lemma LimbSum(x: nat, y: nat, carry: bool, r: nat, low: nat, w: nat)
    requires r == x + y + (if carry then 1 else 0) && r == low + LIMB * (if r >= LIMB then 1 else 0)
    ensures Times(low, w) + (if r >= LIMB then LIMB * w else 0) == Times(x, w) + Times(y, w) + (if carry then w else 0)
  {
    Distribute(low, if r >= LIMB then 1 else 0, w);
    Distribute3(x, y, if carry then 1 else 0, w);
    hide Times;
  }

  lemma ValueLast(s: seq<nat>)
    requires s != []
    ensures Value(s) == Value(s[..|s|-1]) + Times(s[|s|-1], Weight(|s| - 1))
  {
  }

  lemma CarryOut(r: nat)
    requires r < 2 * LIMB
    ensures (Bit(r, LIMB) <==> r >= LIMB) && r == r % LIMB + LIMB * (if r >= LIMB then 1 else 0)
  {
    assert r / LIMB == if r >= LIMB then 1 else 0;
  }

  /** (x + LIMB c) w and (x + y + z) w, multiplied out. */
  lemma Distribute(x: nat, c: nat, w: nat)
    requires c <= 1
    ensures Times(x + LIMB * c, w) == Times(x, w) + (if c == 1 then LIMB * w else 0)
  {
  }

  lemma Distribute3(x: nat, y: nat, c: nat, w: nat)
    requires c <= 1
    ensures Times(x + y + c, w) == Times(x, w) + Times(y, w) + (if c == 1 then w else 0)
  {
  }
}
