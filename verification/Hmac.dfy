/** HMAC-SHA1 over two buffers, and hashing of a message in pieces. */
module Hmac {
  import opened Sha1Spec
  import opened Sha1

  // ---------- Section 2 of RFC 2104 ----------

  const IPAD: Byte := 0x36
  const OPAD: Byte := 0x5C

  function XorAll(k: seq<Byte>, pad: Byte): (r: seq<Byte>)
    ensures |r| == |k|
  {
    seq(|k|, i requires 0 <= i < |k| => k[i] ^ pad)
  }

  /** The key filled up with zeros to one block, after hashing if it is longer than that. */
  function KeyBlock(key: seq<Byte>): (k: seq<Byte>)
    ensures |k| == BLOCK
  {
    var k := if |key| > BLOCK then Sha1Spec.Sha1(key) else key;
    k + Zeros(BLOCK - |k|)
  }

  function HmacSha1(key: seq<Byte>, text: seq<Byte>): seq<Byte> {
    Sha1Spec.Sha1(XorAll(KeyBlock(key), OPAD) + Sha1Spec.Sha1(XorAll(KeyBlock(key), IPAD) + text))
  }

  /** `block` is the key, filled up with zeros to 64 bytes, with every byte xored with `pad`. */
  ghost predicate IsPadded(block: seq<Byte>, key: seq<Byte>, pad: Byte) {
    |block| == 64 && forall i | 0 <= i < 64 :: block[i] == (if i < |key| then key[i] else 0) ^ pad
  }

  /** The definition of RFC 2104, over the key or, if that is longer than 64 bytes, over its hash. */
  ghost predicate IsHmac(mac: seq<Byte>, key: seq<Byte>, text: seq<Byte>) {
    exists inner, outer ::
      && IsPadded(inner, if |key| <= 64 then key else Sha1Spec.Sha1(key), 0x36)
      && IsPadded(outer, if |key| <= 64 then key else Sha1Spec.Sha1(key), 0x5C)
      && mac == Sha1Spec.Sha1(outer + Sha1Spec.Sha1(inner + text))
  }

  lemma HmacInPlainTerms(key: seq<Byte>, text: seq<Byte>)
    ensures IsHmac(HmacSha1(key, text), key, text)
  {
    var k := if |key| <= 64 then key else Sha1Spec.Sha1(key);
    hide Sha1Spec.Sha1;
    assert IsPadded(XorAll(KeyBlock(key), IPAD), k, 0x36);
    assert IsPadded(XorAll(KeyBlock(key), OPAD), k, 0x5C);
    hide KeyBlock, XorAll, IsPadded;
  }

  // ---------- The code ----------

  function Concat(pieces: seq<seq<Byte>>): seq<Byte> {
    if pieces == [] then [] else Concat(pieces[..|pieces|-1]) + pieces[|pieces|-1]
  }

  /** A caller that hashes a message in any pieces: wherever the cuts are, the digest is the message's. */
  method HashPieces(pieces: seq<seq<Byte>>) returns (digest: seq<Byte>)
    requires forall i | 0 <= i < |pieces| :: LoopEnds(|Concat(pieces[..i])| % BLOCK, |pieces[i]|)
    requires 8 * |Concat(pieces)| < DWORDS
    ensures digest == Sha1Spec.Sha1(Concat(pieces))
  {
    var sha := new ShaContext.Init();
    for i := 0 to |pieces|
      invariant sha.Holds(Concat(pieces[..i]))
      invariant fresh(sha.state) && fresh(sha.count) && fresh(sha.buffer)
    {
      assert pieces[..i+1][..i] == pieces[..i];
      sha.Update(pieces[i], Concat(pieces[..i]));
    }
    assert pieces[..|pieces|] == pieces;
    var d := sha.Final(Concat(pieces));
    digest := d[..];
  }

  /** Hashes up to three buffers in a row; an empty one is passed over. */
  method HashThree(a: seq<Byte>, b: seq<Byte>, c: seq<Byte>) returns (digest: seq<Byte>)
    requires LoopEnds(0, |a|) && LoopEnds(|a| % BLOCK, |b|) && LoopEnds(|a + b| % BLOCK, |c|)
    ensures digest == Sha1Spec.Sha1(a + b + c) && |digest| == 20
  {
    hide ShaContext.Holds;
    var sha := new ShaContext.Init();
    sha.Update(a, []);
    assert [] + a == a;
    if |b| > 0 {
      sha.Update(b, a);
    }
    assert |b| == 0 ==> a + b == a;
    if |c| > 0 {
      sha.Update(c, a + b);
    }
    assert |c| == 0 ==> a + b + c == a + b;
    var d := sha.Final(a + b + c);
    digest := d[..];
  }

  method XorBlock(k: seq<Byte>, pad: Byte) returns (r: seq<Byte>)
    requires |k| == BLOCK
    ensures r == XorAll(k, pad)
  {
    var a := new Byte[BLOCK](_ => 0);
    for i := 0 to BLOCK
      invariant forall j | 0 <= j < i :: a[j] == k[j] ^ pad
    {
      a[i] := k[i] ^ pad;
    }
    r := a[..];
  }

  /** HMAC over `data1` followed by `data2`; a null buffer is an empty one. Only where the two together all but fill the
      address space can the second Update meet a wrapping sum. */
  method XcHMAC(key: seq<Byte>, data1: seq<Byte>, data2: seq<Byte>) returns (digest: seq<Byte>)
    requires LoopEnds(0, |key|) && LoopEnds(0, |data1|) && LoopEnds(|data1| % BLOCK, |data2|)
    ensures digest == HmacSha1(key, data1 + data2) && IsHmac(digest, key, data1 + data2)
  {
    HmacInPlainTerms(key, data1 + data2);
    hide XorAll, Sha1Spec.Sha1, Zeros, IsHmac;
    var keyBlock := key;
    if |key| > BLOCK {
      keyBlock := HashThree(key, [], []);
      assert key + [] + [] == key;
    }
    keyBlock := keyBlock + Zeros(BLOCK - |keyBlock|);
    var ipad := XorBlock(keyBlock, IPAD);
    var opad := XorBlock(keyBlock, OPAD);
    var inner := HashThree(ipad, data1, data2);
    assert ipad + data1 + data2 == ipad + (data1 + data2);
    digest := HashThree(opad, inner, []);
    assert opad + inner + [] == opad + inner;
  }
}
