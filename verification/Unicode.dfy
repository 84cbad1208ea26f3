/** The UTF-8 and UTF-16 converters of the portability layer: unit by unit, without surrogate pairs. */
module Unicode {
  import opened Code

  type Byte = b: nat | b < 0x100
  type Unit = u: nat | u < 0x1_0000

  const REPLACEMENT: Unit := 0x3F

  // ---------- One step each way ----------

  /** The bytes of a 16-bit unit: UTF-8 (section 3 of RFC 3629) or, for any other code page, one byte. */
  function EncodeUnit(utf8: bool, u: Unit): seq<Byte> {
    if utf8 && u >= 0x80 then
      if u < 0x800 then [0xC0 + u / 0x40, 0x80 + u % 0x40]
      else [0xE0 + u / 0x1000, 0x80 + (u / 0x40) % 0x40, 0x80 + u % 0x40]
    else [if u > 0xFF then REPLACEMENT else u]
  }

  /** The length of the sequence that starts `mb`: a lead byte whose sequence is cut short stands for itself. */
  function LeadLength(utf8: bool, mb: seq<Byte>): (n: nat)
    requires |mb| > 0
    ensures n <= |mb| && 1 <= n <= 4
  {
    var c: int := mb[0];
    if !utf8 || c < 0x80 then 1
    else if c / 0x20 == 6 && |mb| > 1 then 2
    else if c / 0x10 == 14 && |mb| > 2 then 3
    else if c / 0x08 == 30 && |mb| > 3 then 4
    else 1
  }

  /** The payload of a continuation byte. */
  function Low6(b: Byte): nat { (b as int) % 0x40 }

  /** Its code point, with no check of the bytes that follow the lead, and '?' above 16 bits. */
  function DecodeLead(utf8: bool, mb: seq<Byte>): Unit
    requires |mb| > 0
  {
    var c: int := mb[0];
    var n := LeadLength(utf8, mb);
    var cp: int :=
      if n == 1 then c
      else if n == 2 then (c % 0x20) * 0x40 + Low6(mb[1])
      else if n == 3 then (c % 0x10) * 0x1000 + Low6(mb[1]) * 0x40 + Low6(mb[2])
      else (c % 0x08) * 0x4_0000 + Low6(mb[1]) * 0x1000 + Low6(mb[2]) * 0x40 + Low6(mb[3]);
    if cp > 0xFFFF then REPLACEMENT else cp
  }

  // ---------- Whole texts ----------

  function Encode(utf8: bool, wide: seq<Unit>): seq<Byte> {
    if wide == [] then [] else Encode(utf8, wide[..|wide|-1]) + EncodeUnit(utf8, wide[|wide|-1])
  }

  function Decode(utf8: bool, mb: seq<Byte>): seq<Unit>
    decreases |mb|
  {
    if mb == [] then [] else [DecodeLead(utf8, mb)] + Decode(utf8, mb[LeadLength(utf8, mb)..])
  }

  /** A unit's bytes decode to it, whatever follows. */
  lemma UnitRoundTrip(u: Unit, rest: seq<Byte>)
    ensures LeadLength(true, EncodeUnit(true, u) + rest) == |EncodeUnit(true, u)|
    ensures DecodeLead(true, EncodeUnit(true, u) + rest) == u
  {
    Fields(u);
    var mb := EncodeUnit(true, u) + rest;
    if u < 0x80 {
      assert mb[0] == u;
    } else if u < 0x800 {
      assert mb[0] == 0xC0 + u / 0x40 && mb[1] == 0x80 + u % 0x40;
    } else {
      assert mb[0] == 0xE0 + u / 0x1000 && mb[1] == 0x80 + (u / 0x40) % 0x40 && mb[2] == 0x80 + u % 0x40;
    }
  }

  lemma Fields(u: Unit)
    ensures Low6(0x80 + (u as int) % 0x40) == u % 0x40 && Low6(0x80 + (u as int) / 0x40 % 0x40) == (u / 0x40) % 0x40
    ensures u == (u / 0x1000) * 0x1000 + (u / 0x40) % 0x40 * 0x40 + u % 0x40
    ensures u < 0x800 ==> (0xC0 + u / 0x40) / 0x20 == 6 && (0xC0 + u / 0x40) % 0x20 == u / 0x40
    ensures (0xE0 + u / 0x1000) / 0x10 == 14 && (0xE0 + u / 0x1000) % 0x10 == u / 0x1000
  {
  }

  lemma {:induction false} EncodeAppend(utf8: bool, a: seq<Unit>, b: seq<Unit>)
    ensures Encode(utf8, a + b) == Encode(utf8, a) + Encode(utf8, b)
  {
    hide EncodeUnit;
    if b == [] {
      assert a + b == a;
    } else {
      EncodeAppend(utf8, a, b[..|b|-1]);
      assert (a + b)[..|a + b|-1] == a + b[..|b|-1];
      assert (a + b)[|a + b|-1] == b[|b|-1];
    }
  }

  /** UTF-16 to UTF-8 and back is the identity on every sequence of 16-bit units. */
  lemma {:induction false} RoundTrip(wide: seq<Unit>)
    ensures Decode(true, Encode(true, wide)) == wide
    decreases |wide|
  {
    if wide != [] {
      var u, rest := wide[0], wide[1..];
      assert wide == [u] + rest;
      EncodeAppend(true, [u], rest);
      assert [u][..0] == [];
      assert Encode(true, [u]) == [] + EncodeUnit(true, u);
      UnitRoundTrip(u, Encode(true, rest));
      var mb := Encode(true, wide);
      assert mb == EncodeUnit(true, u) + Encode(true, rest);
      assert mb[LeadLength(true, mb)..] == Encode(true, rest);
      RoundTrip(rest);
    }
  }

  /** The bytes have the form of section 3 of RFC 3629 for the unit's range: a lead byte that tells the length, bytes of
      the form 10xxxxxx, the unit's bits in order, and no shorter form would do. */
  lemma ShortestForm(u: Unit)
    ensures var b := EncodeUnit(true, u);
      match |b|
      case 1 => u < 0x80 && b[0] == u
      case 2 => 0x80 <= u < 0x800 && b[0] / 0x20 == 6 && b[1] / 0x40 == 2 && u == Bits(b[0], 0x20) * 0x40 + Low6(b[1])
      case 3 => u >= 0x800 && b[0] / 0x10 == 14 && b[1] / 0x40 == 2 && b[2] / 0x40 == 2 &&
                u == Bits(b[0], 0x10) * 0x1000 + Low6(b[1]) * 0x40 + Low6(b[2])
      case _ => false
  {
    Fields(u);
    hide Low6;
  }

  function Bits(b: Byte, m: nat): nat
    requires m > 0
  {
    (b as int) % m
  }

  // ---------- Any bytes, and any code points ----------

  /** What the first bytes of a text decode to, by the lead byte's range: the bytes after it are taken as they come, and a
      lead byte whose sequence is cut short, or no lead byte at all, stands for itself. */
  lemma LeadByRange(mb: seq<Byte>)
    requires |mb| > 0
    ensures var c, n, u := mb[0], LeadLength(true, mb), DecodeLead(true, mb);
      if 0xC0 <= c < 0xE0 && |mb| >= 2 then n == 2 && u == (c - 0xC0) * 0x40 + mb[1] as nat % 0x40
      else if 0xE0 <= c < 0xF0 && |mb| >= 3 then n == 3 && u == (c - 0xE0) * 0x1000 + mb[1] as nat % 0x40 * 0x40 + mb[2] as nat % 0x40
      else if 0xF0 <= c < 0xF8 && |mb| >= 4 then
        n == 4 && u == Narrowed((c - 0xF0) * 0x4_0000 + mb[1] as nat % 0x40 * 0x1000 + mb[2] as nat % 0x40 * 0x40 + mb[3] as nat % 0x40)
      else n == 1 && u == c
  {
  }

  /** A code point in one unit; there are no surrogate pairs. */
  function Narrowed(cp: nat): Unit { if cp < 0x1_0000 then cp else 0x3F }

  type CodePoint = c: nat | c < 0x11_0000

  /** The bytes of a code point (section 3 of RFC 3629). */
  function Utf8(c: CodePoint): seq<Byte> {
    if c < 0x80 then [c]
    else if c < 0x800 then [0xC0 + c / 0x40, 0x80 + c % 0x40]
    else if c < 0x1_0000 then [0xE0 + c / 0x1000, 0x80 + c / 0x40 % 0x40, 0x80 + c % 0x40]
    else [0xF0 + c / 0x4_0000, 0x80 + c / 0x1000 % 0x40, 0x80 + c / 0x40 % 0x40, 0x80 + c % 0x40]
  }

  lemma CodePointFields(c: CodePoint)
    ensures c as nat == (c / 0x1000) * 0x1000 + (c / 0x40) % 0x40 * 0x40 + c % 0x40
    ensures c as nat == (c / 0x4_0000) * 0x4_0000 + (c / 0x1000) % 0x40 * 0x1000 + (c / 0x40) % 0x40 * 0x40 + c % 0x40
  {
  }

  lemma Continues(x: nat)
    requires x < 0x40
    ensures (0x80 + x) % 0x40 == x
  {
  }

  /** The bytes of a code point decode to it, or to '?' if it does not fit a unit, whatever follows. */
  lemma CodePointDecodes(c: CodePoint, rest: seq<Byte>)
    ensures LeadLength(true, Utf8(c) + rest) == |Utf8(c)|
    ensures DecodeLead(true, Utf8(c) + rest) == if c < 0x1_0000 then c else 0x3F
  {
    hide LeadLength, DecodeLead;
    LeadByRange(Utf8(c) + rest);
    CodePointFields(c);
    Continues(c as nat % 0x40);
    Continues(c as nat / 0x40 % 0x40);
    Continues(c as nat / 0x1000 % 0x40);
  }

  function Utf8Text(cs: seq<CodePoint>): seq<Byte> { if cs == [] then [] else Utf8(cs[0]) + Utf8Text(cs[1..]) }

  /** Any well-formed UTF-8 text decodes code point by code point, with '?' for those above 16 bits. */
  lemma {:induction false} TextDecodes(cs: seq<CodePoint>)
    ensures var d := Decode(true, Utf8Text(cs));
      |d| == |cs| && forall i | 0 <= i < |cs| :: d[i] == if cs[i] < 0x1_0000 then cs[i] else 0x3F
  {
    if cs != [] {
      hide Utf8, LeadLength, DecodeLead;
      var rest := Utf8Text(cs[1..]);
      CodePointDecodes(cs[0], rest);
      Utf8Nonempty(cs[0]);
      assert (Utf8(cs[0]) + rest)[|Utf8(cs[0])|..] == rest;
      TextDecodes(cs[1..]);
    }
  }

  lemma Utf8Nonempty(c: CodePoint)
    ensures |Utf8(c)| > 0
  {
  }

  /** On any other code page each byte is a unit. */
  lemma {:induction false} BytesDecode(mb: seq<Byte>)
    ensures Decode(false, mb) == mb
  {
    if mb != [] {
      BytesDecode(mb[1..]);
      assert mb == [mb[0]] + mb[1..];
    }
  }

  /** And each unit a byte, with '?' for those above 8 bits. */
  lemma {:induction false} UnitsEncode(wide: seq<Unit>)
    ensures var b := Encode(false, wide);
      |b| == |wide| && forall i | 0 <= i < |wide| :: b[i] == if wide[i] < 0x100 then wide[i] else 0x3F
  {
    if wide != [] {
      UnitsEncode(wide[..|wide|-1]);
    }
  }

  // ---------- Text that ends at a zero ----------

  function ZeroAt(mem: seq<nat>): (i: nat)
    requires 0 in mem
    ensures i < |mem| && mem[i] == 0 && 0 !in mem[..i]
  {
    if mem[0] == 0 then 0
    else
      assert 0 in mem[1..];
      assert mem == [mem[0]] + mem[1..];
      var i := 1 + ZeroAt(mem[1..]);
      assert mem[..i] == [mem[0]] + mem[1..][..i - 1];
      i
  }

  /** A caller gives a length within its memory, or a negative one and memory with a zero in it. */
  predicate Readable(mem: seq<nat>, count: int) { count <= |mem| && (count < 0 ==> 0 in mem) }

  /** How much of the memory is the text: up to and including the first zero when the length is negative. */
  function TextLength(mem: seq<nat>, count: int): (n: nat)
    requires Readable(mem, count)
    ensures n <= |mem|
  {
    if count < 0 then ZeroAt(mem) + 1 else count
  }

  lemma NoneBefore(mem: seq<nat>, n: nat)
    requires n <= |mem| && 0 !in mem[..n]
    ensures forall i | 0 <= i < n :: mem[i] != 0
  {
    forall i | 0 <= i < n ensures mem[i] != 0 {
      assert mem[..n][i] in mem[..n];
    }
  }

  lemma ZeroAtIs(mem: seq<nat>, i: nat)
    requires i < |mem| && mem[i] == 0 && 0 !in mem[..i]
    ensures 0 in mem && ZeroAt(mem) == i
  {
    var z := ZeroAt(mem);
    assert !(z < i) by { NoneBefore(mem, i); }
    assert !(i < z) by { NoneBefore(mem, z); }
  }

  lemma {:induction false} EncodeNonzero(utf8: bool, wide: seq<Unit>)
    requires 0 !in wide
    ensures 0 !in Encode(utf8, wide)
  {
    if wide != [] {
      EncodeNonzero(utf8, wide[..|wide|-1]);
      UnitNonzero(utf8, wide[|wide|-1]);
      hide EncodeUnit;
    }
  }

  lemma UnitNonzero(utf8: bool, u: Unit)
    requires u != 0
    ensures 0 !in EncodeUnit(utf8, u)
  {
  }

  /** Zero-ended wide text becomes zero-ended bytes: the first zero byte is the last one. So both converters agree on
      where a text ends that is passed on without its length, and the wide text comes back whole. */
  lemma ZeroEndedRoundTrip(wide: seq<Unit>, rest: seq<Byte>)
    requires 0 in wide
    ensures var text := wide[..TextLength(wide, -1)];
      var mem := Encode(true, text) + rest;
      Readable(mem, -1) && mem[..TextLength(mem, -1)] == Encode(true, text) && Decode(true, mem[..TextLength(mem, -1)]) == text
  {
    var z := ZeroAt(wide);
    var init, text := wide[..z], wide[..z + 1];
    assert text[..|text|-1] == init && text[|text|-1] == 0;
    EncodeNonzero(true, init);
    RoundTrip(text);
    var mb := Encode(true, text);
    assert mb == Encode(true, init) + [0];
    assert (mb + rest)[..|mb| - 1] == Encode(true, init);
    ZeroAtIs(mb + rest, |mb| - 1);
    assert (mb + rest)[..|mb|] == mb;
  }

  // ---------- The converters ----------

  lemma DecodeStep(utf8: bool, mb: seq<Byte>, i: nat)
    requires i < |mb|
    ensures var d, n := Decode(utf8, mb[i..]), LeadLength(utf8, mb[i..]);
      |d| > 0 && d[0] == DecodeLead(utf8, mb[i..]) && d[1..] == Decode(utf8, mb[i + n..])
  {
    hide DecodeLead, LeadLength;
    var n := LeadLength(utf8, mb[i..]);
    assert mb[i..][n..] == mb[i + n..];
  }

  lemma DecodeEnds(utf8: bool, mb: seq<Byte>)
    ensures mb[0..] == mb && Decode(utf8, mb[|mb|..]) == []
  {
  }

  /** The wide text of a source; nothing for a null one. */
  ghost function Widened(utf8: bool, mem: Option<seq<Byte>>, count: int): seq<Unit>
    requires mem.Some? ==> Readable(mem.value, count)
  {
    if mem.None? then [] else Decode(utf8, mem.value[..TextLength(mem.value, count)])
  }

  ghost function Units(mem: Option<seq<Unit>>, count: int): seq<Unit>
    requires mem.Some? ==> Readable(mem.value, count)
  {
    if mem.None? then [] else mem.value[..TextLength(mem.value, count)]
  }

  /** `n` is where the first unit begins that does not fit. */
  ghost predicate CutAt(utf8: bool, units: seq<Unit>, room: int, n: nat) {
    exists i :: 0 <= i < |units| && n == |Encode(utf8, units[..i])| <= room < n + |EncodeUnit(utf8, units[i])|
  }

  /** The first `n` elements are the text's and the others are as before. */
  ghost predicate Written<T>(now: seq<T>, was: seq<T>, text: seq<T>, n: nat) {
    && n <= |text| && n <= |was| == |now|
    && (forall k | 0 <= k < n :: now[k] == text[k])
    && (forall k | n <= k < |was| :: now[k] == was[k])
  }

  /** Writes at most `room` units; with no room it only counts. 0 means the room is too small. */
  method MultiByteToWideChar(utf8: bool, mem: Option<seq<Byte>>, count: int, wide: array<Unit>, room: int)
    returns (out: nat)
    requires mem.Some? ==> Readable(mem.value, count)
    requires room <= wide.Length
    modifies wide
    ensures var text := Widened(utf8, mem, count);
      if room <= 0 then out == |text| && Written(wide[..], old(wide[..]), text, 0)
      else if |text| <= room then out == |text| && Written(wide[..], old(wide[..]), text, |text|)
      else out == 0 && Written(wide[..], old(wide[..]), text, room)
  {
    if mem.None? { return 0; }
    out := Widen(utf8, mem.value[..if count < 0 then ZeroAt(mem.value) + 1 else count], wide, room);
  }

  method Widen(utf8: bool, mb: seq<Byte>, wide: array<Unit>, room: int) returns (out: nat)
    requires room <= wide.Length
    modifies wide
    ensures var text := Decode(utf8, mb);
      if room <= 0 then out == |text| && Written(wide[..], old(wide[..]), text, 0)
      else if |text| <= room then out == |text| && Written(wide[..], old(wide[..]), text, |text|)
      else out == 0 && Written(wide[..], old(wide[..]), text, room)
  {
    hide Decode, LeadLength, DecodeLead;
    DecodeEnds(utf8, mb);
    ghost var text := Decode(utf8, mb);
    out := 0;
    var i := 0;
    while i < |mb|
      invariant i <= |mb| && out <= |text| && text[out..] == Decode(utf8, mb[i..])
      invariant room > 0 ==> out <= room
      invariant Written(wide[..], old(wide[..]), text, if room > 0 then out else 0)
      decreases |mb| - i
    {
      var rest := mb[i..];
      var n := LeadLength(utf8, rest);
      DecodeStep(utf8, mb, i);
      assert text[out] == text[out..][0] && text[out + 1..] == text[out..][1..];
      if room > 0 {
        if out >= room { return 0; }
        wide[out] := DecodeLead(utf8, rest);
      }
      out := out + 1;
      i := i + n;
    }
  }

  method WideLength(mem: seq<Unit>, count: int) returns (n: nat)
    requires Readable(mem, count)
    ensures n == TextLength(mem, count)
  {
    if count >= 0 { return count; }
    n := 0;
    while mem[n] != 0
      invariant n <= ZeroAt(mem) && 0 !in mem[..n]
      decreases ZeroAt(mem) - n
    {
      NoneBefore(mem, ZeroAt(mem));
      n := n + 1;
      assert mem[..n] == mem[..n-1] + [mem[n-1]];
    }
    ZeroAtIs(mem, n);
    n := n + 1;
  }

  /** Writes at most `room` bytes; with no room it only counts. 0 means the room is too small, with the units before the
      first that does not fit written. */
  method WideCharToMultiByte(utf8: bool, mem: Option<seq<Unit>>, count: int, mb: array<Byte>, room: int)
    returns (out: nat)
    requires mem.Some? ==> Readable(mem.value, count)
    requires room <= mb.Length
    modifies mb
    ensures var text := Encode(utf8, Units(mem, count));
      if room <= 0 then out == |text| && Written(mb[..], old(mb[..]), text, 0)
      else if |text| <= room then out == |text| && Written(mb[..], old(mb[..]), text, |text|)
      else out == 0 && exists n: nat :: CutAt(utf8, Units(mem, count), room, n) && Written(mb[..], old(mb[..]), text, n)
  {
    if mem.None? { return 0; }
    var n := WideLength(mem.value, count);
    out := Narrow(utf8, mem.value[..n], mb, room);
  }

  method Narrow(utf8: bool, wide: seq<Unit>, mb: array<Byte>, room: int) returns (out: nat)
    requires room <= mb.Length
    modifies mb
    ensures var text := Encode(utf8, wide);
      if room <= 0 then out == |text| && Written(mb[..], old(mb[..]), text, 0)
      else if |text| <= room then out == |text| && Written(mb[..], old(mb[..]), text, |text|)
      else out == 0 && exists n: nat :: CutAt(utf8, wide, room, n) && Written(mb[..], old(mb[..]), text, n)
  {
    hide Encode, EncodeUnit, CutAt;
    ghost var text := Encode(utf8, wide);
    EncodeSplits(utf8, wide, 0);
    out := 0;
    assert Written(mb[..], old(mb[..]), text, 0);
    hide Written;
    for i := 0 to |wide|
      invariant out == |Encode(utf8, wide[..i])| <= |text|
      invariant room > 0 ==> out <= room
      invariant Written(mb[..], old(mb[..]), text, if room > 0 then out else 0)
    {
      var buf := EncodeUnit(utf8, wide[i]);
      EncodeSplits(utf8, wide, i);
      if room > 0 {
        if out + |buf| > room {
          FirstCut(utf8, wide, room, i);
          return 0;
        }
        ghost var mid := mb[..];
        Copy(mb, out, buf);
        WrittenMore(mb[..], mid, old(mb[..]), text, out, buf);
      }
      out := out + |buf|;
    }
    assert wide[..|wide|] == wide;
  }

  lemma WrittenMore<T>(now: seq<T>, mid: seq<T>, was: seq<T>, text: seq<T>, n: nat, buf: seq<T>)
    requires Written(mid, was, text, n) && |now| == |mid| && n + |buf| <= |now| && n + |buf| <= |text|
    requires forall j | 0 <= j < n || n + |buf| <= j < |now| :: now[j] == mid[j]
    requires forall j | n <= j < n + |buf| :: now[j] == buf[j - n]
    requires forall k | 0 <= k < |buf| :: text[n + k] == buf[k]
    ensures Written(now, was, text, n + |buf|)
  {
    forall j | n <= j < n + |buf| ensures now[j] == text[j] {
      assert text[n + (j - n)] == buf[j - n];
    }
  }

  lemma FirstCut(utf8: bool, units: seq<Unit>, room: int, i: nat)
    requires i < |units| && |Encode(utf8, units[..i])| <= room < |Encode(utf8, units[..i])| + |EncodeUnit(utf8, units[i])|
    ensures CutAt(utf8, units, room, |Encode(utf8, units[..i])|)
  {
    hide Encode, EncodeUnit;
  }

  /** Where the bytes of the unit at `i` stand in the whole. */
  lemma EncodeSplits(utf8: bool, wide: seq<Unit>, i: nat)
    requires i <= |wide|
    ensures wide[..0] == [] && Encode(utf8, []) == []
    ensures var text, before := Encode(utf8, wide), Encode(utf8, wide[..i]);
      && |before| <= |text|
      && (i < |wide| ==>
            var buf := EncodeUnit(utf8, wide[i]);
            && Encode(utf8, wide[..i+1]) == before + buf
            && |before| + |buf| <= |text| && forall k | 0 <= k < |buf| :: text[|before| + k] == buf[k])
  {
    hide EncodeUnit;
    assert wide[..i] + wide[i..] == wide;
    EncodeAppend(utf8, wide[..i], wide[i..]);
    if i < |wide| {
      assert wide[..i+1][..i] == wide[..i];
      assert wide[..i+1] + wide[i+1..] == wide;
      EncodeAppend(utf8, wide[..i+1], wide[i+1..]);
    }
  }

  method Copy(mb: array<Byte>, at: nat, buf: seq<Byte>)
    requires at + |buf| <= mb.Length
    modifies mb
    ensures forall j | 0 <= j < at || at + |buf| <= j < mb.Length :: mb[j] == old(mb[j])
    ensures forall j | at <= j < at + |buf| :: mb[j] == buf[j - at]
  {
    for k := 0 to |buf|
      invariant forall j | 0 <= j < at || at + k <= j < mb.Length :: mb[j] == old(mb[j])
      invariant forall j | at <= j < at + k :: mb[j] == buf[j - at]
    {
      mb[at + k] := buf[k];
    }
  }
}
