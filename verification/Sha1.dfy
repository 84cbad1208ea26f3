/** The streaming SHA-1 context: Init, any number of Updates, Final. */
module Sha1 {
  import opened Sha1Spec

  // ---------- The code's word operations are the standard's ----------

  function RotateLeft1(x: Word): Word { (x << 1) | (x >> 31) }
  function RotateLeft5(x: Word): Word { (x << 5) | (x >> 27) }
  function RotateLeft30(x: Word): Word { (x << 30) | (x >> 2) }

  lemma RotationsAgree(x: Word)
    ensures RotateLeft1(x) == Rotl(x, 1) && RotateLeft5(x) == Rotl(x, 5) && RotateLeft30(x) == Rotl(x, 30)
  {
  }

  function CodeF(t: nat, b: Word, c: Word, d: Word): Word {
    if t < 20 then (b & c) | (!b & d)
    else if t < 40 then b ^ c ^ d
    else if t < 60 then (b & c) | (b & d) | (c & d)
    else b ^ c ^ d
  }

  lemma SelectAgrees(b: Word, c: Word, d: Word)
    ensures (b & c) | (!b & d) == (b & c) ^ (!b & d)
    ensures (b & c) | (b & d) | (c & d) == (b & c) ^ (b & d) ^ (c & d)
  {
  }

  lemma CodeFAgrees(t: nat, b: Word, c: Word, d: Word)
    ensures CodeF(t, b, c, d) == F(t, b, c, d)
  {
    SelectAgrees(b, c, d);
  }

  // ---------- One block ----------

  function HashOf(s: seq<Word>): Hash
    requires |s| == 5
  {
    Hash(s[0], s[1], s[2], s[3], s[4])
  }

  function CodeW(x3: Word, x8: Word, x14: Word, x16: Word): Word { RotateLeft1(x3 ^ x8 ^ x14 ^ x16) }

  function CodeWord(b0: Byte, b1: Byte, b2: Byte, b3: Byte): Word {
    ((b0 as Word) << 24) | ((b1 as Word) << 16) | ((b2 as Word) << 8) | (b3 as Word)
  }

  lemma ScheduleStep(block: seq<Byte>, t: nat)
    requires |block| == BLOCK
    ensures t < 16 ==> W(block, t) == CodeWord(block[t*4], block[t*4+1], block[t*4+2], block[t*4+3])
    ensures t >= 16 ==> W(block, t) == CodeW(W(block, t-3), W(block, t-8), W(block, t-14), W(block, t-16))
  {
    if t >= 16 { RotationsAgree(W(block, t-3) ^ W(block, t-8) ^ W(block, t-14) ^ W(block, t-16)); }
    hide Rotl, RotateLeft1;
  }

  /** The message schedule. */
  method Schedule(block: seq<Byte>) returns (w: array<Word>)
    requires |block| == BLOCK
    ensures fresh(w) && w.Length == 80 && forall t | 0 <= t < 80 :: w[t] == W(block, t)
  {
    hide W, CodeW, CodeWord;
    w := new Word[80];
    for i := 0 to 16
      invariant forall t | 0 <= t < i :: w[t] == W(block, t)
    {
      ScheduleStep(block, i);
      w[i] := CodeWord(block[i*4], block[i*4+1], block[i*4+2], block[i*4+3]);
    }
    for i := 16 to 80
      invariant forall t | 0 <= t < i :: w[t] == W(block, t)
    {
      ScheduleStep(block, i);
      w[i] := CodeW(w[i-3], w[i-8], w[i-14], w[i-16]);
    }
  }

  lemma RoundStep(h: Hash, i: nat, w: Word)
    ensures Round(h, i, w) ==
      Hash(Sum(RotateLeft5(h.a), CodeF(i, h.b, h.c, h.d), h.e, K(i), w), h.a, RotateLeft30(h.b), h.c, h.d)
  {
    hide F, CodeF, Rotl, RotateLeft5, RotateLeft30, RotateLeft1, K, Sum;
    CodeFAgrees(i, h.b, h.c, h.d);
    RotationsAgree(h.a);
    RotationsAgree(h.b);
  }

  lemma RoundsStep(h: Hash, block: seq<Byte>, i: nat)
    requires |block| == BLOCK
    ensures Rounds(h, block, 0) == h && Rounds(h, block, i + 1) == Round(Rounds(h, block, i), i, W(block, i))
  {
    hide Round, W;
  }

  /** The eighty rounds. */
  method RunRounds(h0: Hash, block: seq<Byte>) returns (h: Hash)
    requires |block| == BLOCK
    ensures h == Rounds(h0, block, 80)
  {
    hide *;
    RoundsStep(h0, block, 0);
    var w := Schedule(block);
    var a, b, c, d, e := h0.a, h0.b, h0.c, h0.d, h0.e;
    for i := 0 to 80
      invariant Hash(a, b, c, d, e) == Rounds(h0, block, i)
      invariant forall t | 0 <= t < 80 :: w[t] == W(block, t)
    {
      RoundsStep(h0, block, i);
      RoundStep(Rounds(h0, block, i), i, W(block, i));
      var f, k := CodeF(i, b, c, d), K(i);
      var temp := Sum(RotateLeft5(a), f, e, k, w[i]);
      e := d;
      d := c;
      c := RotateLeft30(b);
      b := a;
      a := temp;
    }
    h := Hash(a, b, c, d, e);
  }

  /** One block: the rounds, and the sum with the state before. */
  method Transform(state: array<Word>, block: seq<Byte>)
    requires state.Length == 5 && |block| == BLOCK
    modifies state
    ensures state[..] == Compress(HashOf(old(state[..])), block).Words()
  {
    hide Rounds, Plus;
    var r := RunRounds(Hash(state[0], state[1], state[2], state[3], state[4]), block);
    state[0] := Plus(state[0], r.a);
    state[1] := Plus(state[1], r.b);
    state[2] := Plus(state[2], r.c);
    state[3] := Plus(state[3], r.d);
    state[4] := Plus(state[4], r.e);
  }

  lemma HashBlocksAppend(m: seq<Byte>, block: seq<Byte>)
    requires |m| % BLOCK == 0 && |block| == BLOCK
    ensures |m + block| % BLOCK == 0 && HashBlocks(m + block) == Compress(HashBlocks(m), block)
  {
    hide Compress;
    var n := m + block;
    assert n[..|n|-BLOCK] == m && n[|n|-BLOCK..] == block;
  }

  // ---------- The bit count in two words ----------

  /** Adding to the low word with a carry into the high one. */
  lemma CountAdds(lo: nat, hi: nat, len: nat)
    requires lo < WORDS && hi < WORDS && len < WORDS
    ensures var add := (len * 8) % WORDS;
      var lo' := (lo + add) % WORDS;
      var hi1 := if lo' < add then (hi + 1) % WORDS else hi;
      var hi' := (hi1 + len / 0x2000_0000) % WORDS;
      lo' + WORDS * hi' == (lo + WORDS * hi + 8 * len) % DWORDS
  {
    var add := (len * 8) % WORDS;
    var lo' := (lo + add) % WORDS;
    var carry := if lo' < add then 1 else 0;
    LowSum(lo, add);
    EightParts(len);
    HighSum(hi, carry, len / 0x2000_0000);
    var sum := hi + carry + len / 0x2000_0000;
    Divided(sum, WORDS);
    ModOf(lo' + WORDS * (sum % WORDS), sum / WORDS);
  }

  lemma LowSum(lo: nat, add: nat)
    requires lo < WORDS && add < WORDS
    ensures var lo' := (lo + add) % WORDS;
      lo + add == lo' + WORDS * (if lo' < add then 1 else 0)
  {
    Divided(lo + add, WORDS);
  }

  lemma EightParts(len: nat)
    requires len < WORDS
    ensures len * 8 == (len * 8) % WORDS + WORDS * (len / 0x2000_0000)
  {
    Divided(len, 0x2000_0000);
    Divided(len * 8, WORDS);
  }

  lemma HighSum(hi: nat, carry: nat, up: nat)
    requires hi < WORDS && carry <= 1
    ensures ((if carry == 1 then (hi + 1) % WORDS else hi) + up) % WORDS == (hi + carry + up) % WORDS
  {
    if carry == 1 && hi + 1 == WORDS { LessWords(hi + carry + up); }
  }

  lemma LessWords(x: nat)
    requires x >= WORDS
    ensures (x - WORDS) % WORDS == x % WORDS
  {
  }

  lemma ModOf(r: nat, q: nat)
    requires r < DWORDS
    ensures (r + DWORDS * q) % DWORDS == r
  {
  }

  /** The low word gives the position in the current block. */
  lemma CountPosition(lo: nat, hi: nat, n: nat)
    requires lo < WORDS && lo + WORDS * hi == (8 * n) % DWORDS
    ensures (lo / 8) % BLOCK == n % BLOCK
  {
    var q := (8 * n) / DWORDS;
    Divided(8 * n, DWORDS);
    var k: int := 0x80_0000 * hi + 0x80_0000_0000_0000 * q;
    assert lo == 8 * (n - BLOCK * k);
    Eighth(n - BLOCK * k);
    LessBlocks(n, k);
  }

  lemma Divided(x: nat, d: nat)
    requires d > 0
    ensures x == d * (x / d) + x % d
  {
  }

  lemma Eighth(x: int)
    ensures (8 * x) / 8 == x
  {
  }

  lemma LessBlocks(n: int, k: int)
    ensures (n - BLOCK * k) % BLOCK == n % BLOCK
  {
  }

  // ---------- The context ----------

  /** The largest multiple of the block size in `n`. */
  function Whole(n: nat): nat { n - n % BLOCK }

  lemma WholeIsBlocks(n: nat)
    ensures Whole(n) <= n && Whole(n) % BLOCK == 0 && n - Whole(n) == n % BLOCK
  {
    assert n == BLOCK * (n / BLOCK) + n % BLOCK;
  }

  class ShaContext {
    const state: array<Word>
    const count: array<nat>
    const buffer: array<Byte>

    ghost predicate Shape() {
      state.Length == 5 && count.Length == 2 && buffer.Length == BLOCK
    }

    /** The state is the hash of the whole blocks of `m`, and the buffer starts with the rest. */
    ghost predicate HoldsBytes(m: seq<Byte>)
      requires Shape()
      reads state, buffer
    {
      && Whole(|m|) <= |m| && |m[..Whole(|m|)]| % BLOCK == 0
      && state[..] == HashBlocks(m[..Whole(|m|)]).Words()
      && |m| - Whole(|m|) < BLOCK
      && buffer[..|m| - Whole(|m|)] == m[Whole(|m|)..]
    }

    /** The count words hold `n` bytes in bits, modulo 2^64. */
    ghost predicate HoldsCount(n: nat)
      requires Shape()
      reads count
    {
      && count[0] < WORDS && count[1] < WORDS
      && count[0] + WORDS * count[1] == (8 * n) % DWORDS
    }

    /** The context has taken in exactly the bytes of `m`. */
    ghost predicate Holds(m: seq<Byte>)
      reads state, count, buffer
    {
      Shape() && HoldsBytes(m) && HoldsCount(|m|)
    }

    constructor Init()
      ensures fresh(state) && fresh(count) && fresh(buffer) && Holds([])
    {
      state := new Word[5][0x67452301, 0xEFCDAB89, 0x98BADCFE, 0x10325476, 0xC3D2E1F0];
      count := new nat[2](_ => 0);
      buffer := new Byte[BLOCK](_ => 0);
      new;
      ghost var empty: seq<Byte> := [];
      assert empty[..0] == [];
      assert state[..] == IV.Words();
    }

    /** Copies bytes into the buffer from index `at`. */
    method Fill(at: nat, bytes: seq<Byte>)
      requires at + |bytes| <= buffer.Length
      modifies buffer
      ensures buffer[..] == old(buffer[..at]) + bytes + old(buffer[at + |bytes|..])
    {
      for i := 0 to |bytes|
        invariant forall k | 0 <= k < i :: buffer[at + k] == bytes[k]
        invariant forall k | 0 <= k < buffer.Length && !(at <= k < at + i) :: buffer[k] == old(buffer[k])
      {
        buffer[at + i] := bytes[i];
      }
    }

    /** The bit count goes up by eight for each byte. */
    method AddCount(len: nat, ghost n: nat)
      requires Shape() && HoldsCount(n) && len < WORDS
      modifies count
      ensures HoldsCount(n + len)
    {
      var lo, hi := count[0], count[1];
      var add := (len * 8) % WORDS;
      count[0] := (lo + add) % WORDS;
      if count[0] < add {
        hi := (hi + 1) % WORDS;
      }
      count[1] := (hi + len / 0x2000_0000) % WORDS;
      CountAdds(lo, old(count[1]), len);
      CountSum(n, len, lo + WORDS * old(count[1]));
    }

    /** Completes the buffered block and hashes every further whole block straight from the input. */
    method HashWhole(input: seq<Byte>, index: nat, ghost m: seq<Byte>) returns (i: nat)
      requires Shape() && index == |m| % BLOCK && BLOCK - index <= |input| && LoopEnds(index, |input|)
      requires Whole(|m|) <= |m| && |m[..Whole(|m|)]| % BLOCK == 0
      requires state[..] == HashBlocks(m[..Whole(|m|)]).Words() && buffer[..index] == m[Whole(|m|)..]
      modifies state, buffer
      ensures i <= |input| < i + BLOCK && (|m| + i) % BLOCK == 0
      ensures state[..] == HashBlocks((m + input)[..|m| + i]).Words()
    {
      hide Compress, Hash.Words, HashBlocks, Whole, HashOf;
      ghost var n, full := |m|, m + input;
      WholeIsBlocks(n);
      var partLen := BLOCK - index;
      Fill(index, input[..partLen]);
      FirstBlock(m, input, index, buffer[..]);
      HashOfWords(HashBlocks(m[..Whole(n)]));
      Transform(state, buffer[..]);
      i := partLen;
      while Sha1Wrap(i + 63) < |input|
        invariant i <= |input| && (n + i) % BLOCK == 0
        invariant state[..] == HashBlocks(full[..n + i]).Words()
        decreases |input| - i
      {
        NoWrap(n, |input|, i);
        NextBlock(m, input, i);
        HashOfWords(HashBlocks(full[..n + i]));
        Transform(state, input[i..i + BLOCK]);
        i := i + BLOCK;
      }
      NoWrap(n, |input|, i);
    }

    /** Whole blocks are hashed, the rest is buffered. */
    method Absorb(input: seq<Byte>, position: nat, ghost m: seq<Byte>)
      requires Shape() && HoldsBytes(m) && position == |m| % BLOCK && 0 < |input| && LoopEnds(position, |input|)
      modifies state, buffer
      ensures HoldsBytes(m + input)
    {
      hide HashBlocks, Hash.Words, Whole, LoopEnds;
      WholeIsBlocks(|m|);
      WholeIsBlocks(|m + input|);
      ghost var full, start := m + input, Whole(|m + input|);
      var i, index := 0, position;
      PrefixSame(m, input, Whole(|m|));
      if |input| >= BLOCK - index {
        i := HashWhole(input, index, m);
        index := 0;
      }
      WholeAfter(|m|, |input|, i, index);
      RestIs(m, input, i, start, index);
      assert state[..] == HashBlocks(full[..start]).Words();
      assert buffer[..index] == full[start..start + index];
      ghost var before := buffer[..];
      Fill(index, input[i..]);
      Filled(before, index, input[i..], buffer[..]);
    }

    /** Takes in more bytes. */
    method Update(input: seq<Byte>, ghost m: seq<Byte>)
      requires Holds(m) && LoopEnds(|m| % BLOCK, |input|)
      modifies state, count, buffer
      ensures Holds(m + input)
    {
      hide HoldsBytes;
      if |input| == 0 {
        assert m + input == m;
        return;
      }
      CountPosition(count[0], count[1], |m|);
      var index := (count[0] / 8) % BLOCK;
      AddCount(|input|, |m|);
      Absorb(input, index, m);
    }

    /** The digest bytes of the state. */
    method Output(ghost m: seq<Byte>) returns (digest: array<Byte>)
      requires Holds(m) && |m| % BLOCK == 0
      ensures fresh(digest) && digest[..] == Digest(HashBlocks(m))
    {
      hide *;
      digest := new Byte[20](_ => 0);
      ghost var h := HashBlocks(m);
      StateIs(m);
      ghost var words := h.Words();
      assert words[..0] == [] && digest[..0] == [];
      NoBytes();
      for i := 0 to 5
        invariant digest[..4 * i] == AllBytes(words[..i])
      {
        ghost var done := digest[..4 * i];
        StoreWord(digest, i, state[i]);
        assert digest[..4 * i] == done && digest[..4 * i + 4] == done + digest[4 * i..4 * i + 4];
        NextBytes(words, i);
      }
      assert words[..5] == words && digest[..20] == digest[..];
      DigestOf(h);
    }

    lemma StateIs(m: seq<Byte>)
      requires Holds(m) && |m| % BLOCK == 0
      ensures state.Length == 5 && state[..] == HashBlocks(m).Words() && |HashBlocks(m).Words()| == 5
    {
      hide HashBlocks;
      assert m[..Whole(|m|)] == m;
    }

    /** The bit count as eight bytes, high word first. */
    method FinalCount(ghost n: nat) returns (bytes: array<Byte>)
      requires Shape() && HoldsCount(n)
      ensures fresh(bytes) && bytes.Length == 8 && bytes[..] == BitCount((8 * n) % DWORDS)
    {
      hide *;
      bytes := new Byte[8](_ => 0);
      CountInRange(n);
      for i := 0 to 4
        invariant forall k | 0 <= k < i :: bytes[k] == CountByte(count[1], k) && bytes[k + 4] == CountByte(count[0], k)
      {
        bytes[i] := CountByte(count[1], i);
        bytes[i + 4] := CountByte(count[0], i);
      }
      CountBytes(count[1], count[0], bytes[..]);
    }

    lemma CountInRange(n: nat)
      requires Shape() && HoldsCount(n)
      ensures count.Length == 2 && count[0] < WORDS && count[1] < WORDS
      ensures count[0] + WORDS * count[1] == (8 * n) % DWORDS
    {
    }

    /** The 0x80 byte and as many zero bytes as bring the count to 56 modulo 64. */
    method PadTo56(ghost m: seq<Byte>)
      requires Holds(m)
      modifies state, count, buffer
      ensures Holds(m + [0x80] + Zeros(ZeroCount(|m|)))
    {
      hide HoldsBytes, Zeros;
      Update([0x80], m);
      ghost var padded, k := m + [0x80], 0;
      ZerosAppend(0);
      assert padded == m + [0x80] + Zeros(0);
      PaddingFits(|m|, 0);
      while (count[0] / 8) % BLOCK != 56
        invariant padded == m + [0x80] + Zeros(k) && |padded| == |m| + 1 + k && Holds(padded) && k <= ZeroCount(|m|)
        decreases ZeroCount(|m|) - k
      {
        CountPosition(count[0], count[1], |padded|);
        PaddingFits(|m|, k);
        ZerosAppend(k);
        assert m + [0x80] + Zeros(k) + [0] == m + [0x80] + (Zeros(k) + [0]);
        Update([0x00], padded);
        padded, k := padded + [0x00], k + 1;
      }
      CountPosition(count[0], count[1], |padded|);
      PaddingFits(|m|, k);
    }

    /** Pads, appends the bit count taken before padding, and gives out the state. */
    method Final(ghost m: seq<Byte>) returns (digest: array<Byte>)
      requires Holds(m) && 8 * |m| < DWORDS
      modifies state, count, buffer
      ensures fresh(digest) && digest[..] == Sha1Spec.Sha1(m)
    {
      hide HoldsBytes, HashBlocks, BytesOf, BitCount, Digest, HoldsCount;
      var finalcount := FinalCount(|m|);
      ghost var tail := finalcount[..];
      PadTo56(m);
      Update(finalcount[..], m + [0x80] + Zeros(ZeroCount(|m|)));
      PadIsBlocks(m);
      assert m + [0x80] + Zeros(ZeroCount(|m|)) + tail == Pad(m);
      digest := Output(Pad(m));
    }
  }

  /** Stores a word as four bytes, high byte first. */
  method StoreWord(digest: array<Byte>, i: nat, w: Word)
    requires 4 * i + 4 <= digest.Length
    modifies digest
    ensures digest[4*i..4*i+4] == BytesOf(w)
    ensures digest[..4*i] == old(digest[..4*i])
    ensures forall k | 0 <= k < digest.Length && !(4*i <= k < 4*i+4) :: digest[k] == old(digest[k])
  {
    digest[i*4] := ((w >> 24) & 0xFF) as Byte;
    digest[i*4+1] := ((w >> 16) & 0xFF) as Byte;
    digest[i*4+2] := ((w >> 8) & 0xFF) as Byte;
    digest[i*4+3] := (w & 0xFF) as Byte;
  }

  /** The bytes of words in a row. */
  function AllBytes(words: seq<Word>): seq<Byte> {
    if words == [] then [] else AllBytes(words[..|words|-1]) + BytesOf(words[|words|-1])
  }

  lemma NoBytes()
    ensures AllBytes([]) == []
  {
  }

  lemma NextBytes(words: seq<Word>, i: nat)
    requires i < |words|
    ensures AllBytes(words[..i+1]) == AllBytes(words[..i]) + BytesOf(words[i])
  {
    hide BytesOf;
    assert words[..i+1][..i] == words[..i];
  }

  lemma DigestOf(h: Hash)
    ensures AllBytes(h.Words()) == Digest(h)
  {
    hide *;
    var w := h.Words();
    WordsAre(h);
    DigestIs(h);
    NoBytes();
    NextBytes(w, 0);
    NextBytes(w, 1);
    NextBytes(w, 2);
    NextBytes(w, 3);
    NextBytes(w, 4);
    assert w[..0] == [] && w[..5] == w && [] + BytesOf(h.a) == BytesOf(h.a);
  }

  lemma WordsAre(h: Hash)
    ensures var w := h.Words();
      |w| == 5 && w[0] == h.a && w[1] == h.b && w[2] == h.c && w[3] == h.d && w[4] == h.e
  {
  }

  lemma DigestIs(h: Hash)
    ensures Digest(h) == BytesOf(h.a) + BytesOf(h.b) + BytesOf(h.c) + BytesOf(h.d) + BytesOf(h.e)
  {
    hide BytesOf;
  }

  lemma CountBytes(hi: nat, lo: nat, bytes: seq<Byte>)
    requires hi < WORDS && lo < WORDS && |bytes| == 8
    requires forall k | 0 <= k < 4 :: bytes[k] == CountByte(hi, k) && bytes[k + 4] == CountByte(lo, k)
    ensures bytes == BitCount(lo + WORDS * hi)
  {
    hide LowByte;
    CountBytesAgree(lo, hi);
    hide ByteAt;
    assert bytes[0] == CountByte(hi, 0) && bytes[0 + 4] == CountByte(lo, 0);
    assert bytes[1] == CountByte(hi, 1) && bytes[1 + 4] == CountByte(lo, 1);
    assert bytes[2] == CountByte(hi, 2) && bytes[2 + 4] == CountByte(lo, 2);
    assert bytes[3] == CountByte(hi, 3) && bytes[3 + 4] == CountByte(lo, 3);
  }

  lemma ModStep(x: nat, y: nat)
    ensures LowByte(x + 256 * y) == LowByte(x)
  {
    assert (x + 256 * y) % 256 == x % 256;
  }

  lemma Digits(n: nat)
    ensures ByteAt(n, 0) == LowByte(n) && ByteAt(n, 1) == LowByte(n / 256)
    ensures ByteAt(n, 2) == LowByte(n / 256 / 256) && ByteAt(n, 3) == LowByte(n / 256 / 256 / 256)
    ensures forall i | i >= 4 :: ByteAt(n, i) == ByteAt(n / 256 / 256 / 256 / 256, i - 4)
  {
    hide LowByte;
    assert ByteAt(n, 3) == ByteAt(n / 256, 2);
    forall i | i >= 4 ensures ByteAt(n, i) == ByteAt(n / 256 / 256 / 256 / 256, i - 4) {
      assert ByteAt(n, i) == ByteAt(n / 256, i - 1) == ByteAt(n / 256 / 256, i - 2);
      assert ByteAt(n / 256 / 256, i - 2) == ByteAt(n / 256 / 256 / 256, i - 3) == ByteAt(n / 256 / 256 / 256 / 256, i - 4);
    }
  }

  /** The bytes of the low word are the low bytes of the count, those of the high word the high ones. */
  lemma CountBytesAgree(lo: nat, hi: nat)
    requires lo < WORDS
    ensures var n := lo + WORDS * hi;
      && ByteAt(n, 0) == ByteAt(lo, 0) && ByteAt(n, 1) == ByteAt(lo, 1) && ByteAt(n, 2) == ByteAt(lo, 2) && ByteAt(n, 3) == ByteAt(lo, 3)
      && ByteAt(n, 4) == ByteAt(hi, 0) && ByteAt(n, 5) == ByteAt(hi, 1) && ByteAt(n, 6) == ByteAt(hi, 2) && ByteAt(n, 7) == ByteAt(hi, 3)
  {
    hide LowByte, ByteAt;
    var n := lo + WORDS * hi;
    var n1, l1 := n / 256, lo / 256;
    assert n1 == l1 + 256 * (0x1_0000 * hi);
    var n2, l2 := n1 / 256, l1 / 256;
    assert n2 == l2 + 256 * (0x100 * hi);
    var n3, l3 := n2 / 256, l2 / 256;
    assert n3 == l3 + 256 * hi;
    assert l3 < 256 && n3 / 256 == hi;
    ModStep(lo, 0x100_0000 * hi);
    ModStep(l1, 0x1_0000 * hi);
    ModStep(l2, 0x100 * hi);
    ModStep(l3, hi);
    Digits(n);
    Digits(lo);
    Digits(hi);
  }

  lemma ZerosAppend(k: nat)
    ensures Zeros(k) + [0] == Zeros(k + 1) && Zeros(0) == []
  {
  }

  /** A byte of a count word, high byte first. */
  function CountByte(word: nat, i: nat): Byte
    requires i < 4
  {
    ByteAt(word, 3 - i)
  }

  lemma Filled(before: seq<Byte>, at: nat, bytes: seq<Byte>, after: seq<Byte>)
    requires at + |bytes| <= |before| && after == before[..at] + bytes + before[at + |bytes|..]
    ensures after[..at + |bytes|] == before[..at] + bytes
  {
  }

  function Sha1Wrap(n: nat): nat { n % WORDS }

  /** What the block loop asks of one Update: the bytes waiting in the buffer and the input together stay below 2^32. */
  predicate LoopEnds(position: nat, len: nat) { position + len < WORDS }

  /** Then the sum in its test never wraps. */
  lemma NoWrap(n: nat, len: nat, i: nat)
    requires LoopEnds(n % BLOCK, len) && i <= len && (n + i) % BLOCK == 0
    ensures Sha1Wrap(i + 63) == i + 63
  {
    var k := (n + i) / BLOCK;
    Divided(n + i, BLOCK);
    Divided(n, BLOCK);
    assert i + n % BLOCK == BLOCK * (k - n / BLOCK);
  }

  /** And otherwise the loop never ends: after any number of rounds its index, a 32-bit word, still passes the test. */
  lemma LoopNeverEnds(position: nat, len: nat, rounds: nat)
    requires position < BLOCK && len < WORDS && !LoopEnds(position, len)
    ensures var i := Sha1Wrap(BLOCK - position + BLOCK * rounds);
      Sha1Wrap(i + 63) < len
  {
    var x := BLOCK - position + BLOCK * rounds;
    var q := x / WORDS;
    Divided(x, WORDS);
    var i := Sha1Wrap(x);
    var k: int := 1 + rounds - 0x400_0000 * q;
    assert i == BLOCK * k - position;
    Divided(i + 63, WORDS);
  }

  lemma PrefixSame(m: seq<Byte>, input: seq<Byte>, start: nat)
    requires start <= |m|
    ensures (m + input)[..start] == m[..start]
  {
  }

  /** The rest of the longer message: what was buffered of it, and the input that is left. */
  lemma RestIs(m: seq<Byte>, input: seq<Byte>, i: nat, start: nat, index: nat)
    requires i <= |input| && start + index == |m| + i
    ensures start + index <= |m + input|
    ensures (m + input)[start..] == (m + input)[start..start + index] + input[i..]
    ensures i == 0 ==> (m + input)[start..start + index] == m[start..]
  {
  }

  lemma HashOfWords(h: Hash)
    ensures HashOf(h.Words()) == h
  {
  }

  /** The buffered bytes with the first of the input make up the first block not yet hashed. */
  lemma FirstBlock(m: seq<Byte>, input: seq<Byte>, index: nat, block: seq<Byte>)
    requires index == |m| % BLOCK && BLOCK - index <= |input| && Whole(|m|) <= |m| && |block| == BLOCK
    requires block[..index] == m[Whole(|m|)..] && block[index..] == input[..BLOCK - index]
    requires |m[..Whole(|m|)]| % BLOCK == 0
    ensures (|m| + BLOCK - index) % BLOCK == 0
    ensures HashBlocks((m + input)[..|m| + BLOCK - index]) == Compress(HashBlocks(m[..Whole(|m|)]), block)
  {
    hide HashBlocks, Compress;
    WholeIsBlocks(|m|);
    HashBlocksAppend(m[..Whole(|m|)], block);
    assert (m + input)[..|m| + BLOCK - index] == m[..Whole(|m|)] + block;
  }

  lemma NextBlock(m: seq<Byte>, input: seq<Byte>, i: nat)
    requires i + BLOCK <= |input| && (|m| + i) % BLOCK == 0
    ensures (|m| + i + BLOCK) % BLOCK == 0
    ensures HashBlocks((m + input)[..|m| + i + BLOCK]) == Compress(HashBlocks((m + input)[..|m| + i]), input[i..i + BLOCK])
  {
    hide HashBlocks, Compress;
    HashBlocksAppend((m + input)[..|m| + i], input[i..i + BLOCK]);
    assert (m + input)[..|m| + i + BLOCK] == (m + input)[..|m| + i] + input[i..i + BLOCK];
  }

  /** Where the unhashed rest starts. */
  lemma WholeAfter(n: nat, len: nat, i: nat, index: nat)
    requires (i == 0 && index == n % BLOCK && len < BLOCK - index) || (index == 0 && i <= len < i + BLOCK && (n + i) % BLOCK == 0)
    ensures index <= n + i && Whole(n + len) == n + i - index && (n + i - index) % BLOCK == 0
  {
    WholeIsBlocks(n);
    WholeIsBlocks(n + len);
  }

  lemma CountSum(n: nat, len: nat, c: nat)
    requires c == (8 * n) % DWORDS
    ensures (c + 8 * len) % DWORDS == (8 * (n + len)) % DWORDS
  {
    assert 8 * n == DWORDS * (8 * n / DWORDS) + c;
    AddMultiple(c + 8 * len, 8 * n / DWORDS);
  }

  lemma AddMultiple(r: nat, q: nat)
    ensures (r + DWORDS * q) % DWORDS == r % DWORDS
  {
    assert r == DWORDS * (r / DWORDS) + r % DWORDS;
    ModOf(r % DWORDS, r / DWORDS + q);
  }
}
