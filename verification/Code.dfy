/** Guest code as the analysis sees it: decoded instructions, blocks and regions.

    An image maps an address to the instruction decoded there; an address outside the map is unmapped.
    Every address is a 32-bit word, and `Wrap` is applied wherever the analysis can overflow one. */
module Code {
  type Addr = nat

  const LIMIT: nat := 0x1_0000_0000

  function Wrap(n: nat): Addr { n % LIMIT }

  datatype Option<+T> = None | Some(value: T)

  datatype Flow =
    | Next | Call | IndirectCall | UnconditionalBranch | ConditionalBranch
    | IndirectBranch | Return | Int3 | Invalid

  /** `target` is 0 when the instruction names no address; `lowered` says that the emitter has a
      translation for the mnemonic. */
  datatype Insn = Insn(length: nat, flow: Flow, target: Addr, lowered: bool)

  datatype Block = Block(base: Addr, size: nat) {
    function End(): Addr { base + size }
    predicate Contains(a: Addr) { base <= a < End() }
  }

  datatype CodeRegion = CodeRegion(start: Addr, end: Addr) {
    predicate Contains(a: Addr) { start <= a < end }
  }

  datatype JumpTable = JumpTable(jumpAddress: Addr, targets: seq<Addr>)

  type Image = map<Addr, Insn>

  /** No instruction sits at address 0 (0 means "no target"), and none runs into the top of the address space. */
  predicate ValidImage(image: Image) {
    forall a | a in image ::
      0 < a && 1 <= image[a].length && a + image[a].length < LIMIT && image[a].target < LIMIT
  }

  /** The address decodes to something other than padding. */
  predicate Decodes(image: Image, a: Addr) {
    a in image && image[a].flow != Invalid && image[a].flow != Int3
  }

  function EndOf(image: Image, a: Addr): Addr
    requires a in image
  {
    a + image[a].length
  }

  /** [lo, hi) is a chain of instructions, each starting where the one before it ends. */
  ghost predicate Tiled(image: Image, lo: Addr, hi: Addr)
    requires ValidImage(image)
    decreases hi - lo
  {
    lo == hi || (lo < hi && Decodes(image, lo) && EndOf(image, lo) <= hi && Tiled(image, EndOf(image, lo), hi))
  }

  /** The instruction starts of that chain. */
  ghost function TileStarts(image: Image, lo: Addr, hi: Addr): set<Addr>
    requires ValidImage(image)
    decreases hi - lo
  {
    if lo < hi && lo in image then {lo} + TileStarts(image, EndOf(image, lo), hi) else {}
  }

  lemma {:induction false} TileExtend(image: Image, lo: Addr, mid: Addr)
    requires ValidImage(image) && Tiled(image, lo, mid) && Decodes(image, mid)
    ensures Tiled(image, lo, EndOf(image, mid))
    ensures TileStarts(image, lo, EndOf(image, mid)) == TileStarts(image, lo, mid) + {mid}
    decreases mid - lo
  {
    if lo < mid {
      TileExtend(image, EndOf(image, lo), mid);
    }
  }

  lemma {:induction false} TileBounds(image: Image, lo: Addr, hi: Addr)
    requires ValidImage(image) && Tiled(image, lo, hi)
    ensures forall a | a in TileStarts(image, lo, hi) :: lo <= a && Decodes(image, a) && EndOf(image, a) <= hi
    decreases hi - lo
  {
    if lo < hi {
      TileBounds(image, EndOf(image, lo), hi);
    }
  }

  /** Every byte of a tiled span belongs to one of its instructions. */
  lemma {:induction false} TileCovers(image: Image, lo: Addr, hi: Addr, x: Addr) returns (a: Addr)
    requires ValidImage(image) && Tiled(image, lo, hi) && lo <= x < hi
    ensures a in TileStarts(image, lo, hi) && a in image && a <= x < EndOf(image, a)
    decreases hi - lo
  {
    if x < EndOf(image, lo) {
      a := lo;
    } else {
      a := TileCovers(image, EndOf(image, lo), hi, x);
    }
  }
}
