/** RC4: key setup and the keystream, in place over a 256-byte state. */
module Rc4 {
  /** Bytes of data, and bytes used as numbers: state entries and indices, which count modulo 256. */
  type Byte = bv8
  type Index = n: nat | n < 256

  const SIZE: nat := 256

  function Add(a: Index, b: Index): Index { (a + b) % 256 }

  ghost predicate IsPermutation(s: seq<Index>) {
    |s| == SIZE && forall i, j | 0 <= i < j < SIZE :: s[i] != s[j]
  }

  function Swap(s: seq<Index>, i: nat, j: nat): (r: seq<Index>)
    requires i < |s| && j < |s|
    ensures |r| == |s|
  {
    s[i := s[j]][j := s[i]]
  }

  lemma SwapKeepsPermutation(s: seq<Index>, i: nat, j: nat)
    requires IsPermutation(s) && i < SIZE && j < SIZE
    ensures IsPermutation(Swap(s, i, j))
  {
  }

  // ---------- The cipher as a function of its state ----------

  datatype State = State(s: seq<Index>, i: Index, j: Index) {
    ghost predicate Valid() { |s| == SIZE }

    /** Advances the generator. */
    function Next(): (r: State)
      requires |s| == SIZE
      ensures |r.s| == SIZE
    {
      var i' := Add(i, 1);
      var j' := Add(j, s[i']);
      State(Swap(s, i', j'), i', j')
    }

    /** The keystream byte of a state just advanced to. */
    function Output(): Byte
      requires |s| == SIZE
    {
      s[Add(s[i], s[j])] as Byte
    }

    /** The state after `n` bytes. */
    function After(n: nat): (r: State)
      requires |s| == SIZE
      ensures |r.s| == SIZE
    {
      if n == 0 then this else After(n - 1).Next()
    }

    /** The first `n` keystream bytes. */
    function Keystream(n: nat): (k: seq<Byte>)
      requires |s| == SIZE
      ensures |k| == n
    {
      if n == 0 then [] else Keystream(n - 1) + [After(n).Output()]
    }
  }

  function Xor(a: seq<Byte>, b: seq<Byte>): (r: seq<Byte>)
    requires |a| == |b|
    ensures |r| == |a|
  {
    seq(|a|, k requires 0 <= k < |a| => a[k] ^ b[k])
  }

  function Identity(): (s: seq<Index>)
    ensures |s| == SIZE && forall i | 0 <= i < SIZE :: s[i] == i
  {
    seq(SIZE, i requires 0 <= i < SIZE => i)
  }

  /** Key setup: after step `n`, the state and the index `j`. */
  function Mixed(key: seq<Index>, n: nat): (r: (seq<Index>, Index))
    requires |key| > 0 && n <= SIZE
    ensures |r.0| == SIZE
  {
    if n == 0 then (Identity(), 0)
    else
      var (s, j) := Mixed(key, n - 1);
      var j' := Add(Add(j, s[n-1]), key[(n-1) % |key|]);
      (Swap(s, n - 1, j'), j')
  }

  // ---------- Properties ----------

  lemma {:induction false} SetupIsPermutation(key: seq<Index>, n: nat)
    requires |key| > 0 && n <= SIZE
    ensures IsPermutation(Mixed(key, n).0)
  {
    if n > 0 {
      SetupIsPermutation(key, n - 1);
      var (s, j) := Mixed(key, n - 1);
      SwapKeepsPermutation(s, n - 1, Add(Add(j, s[n-1]), key[(n-1) % |key|]));
    }
  }

  /** No amount of data breaks the permutation. */
  lemma {:induction false} StreamKeepsPermutation(st: State, n: nat)
    requires IsPermutation(st.s)
    ensures IsPermutation(st.After(n).s)
  {
    if n > 0 {
      StreamKeepsPermutation(st, n - 1);
      var p := st.After(n - 1);
      SwapKeepsPermutation(p.s, Add(p.i, 1), Add(p.j, p.s[Add(p.i, 1)]));
    }
  }

  lemma {:induction false} AfterAdds(st: State, n: nat, m: nat)
    requires st.Valid()
    ensures st.After(n).After(m) == st.After(n + m)
  {
    hide State.Next;
    if m > 0 { AfterAdds(st, n, m - 1); }
  }

  lemma {:induction false} KeystreamAdds(st: State, n: nat, m: nat)
    requires st.Valid()
    ensures st.Keystream(n + m) == st.Keystream(n) + st.After(n).Keystream(m)
  {
    hide State.Next, State.Output;
    if m > 0 {
      KeystreamAdds(st, n, m - 1);
      AfterAdds(st, n, m);
    }
  }

  /** The data after crypting with a state. */
  function Crypted(st: State, data: seq<Byte>): (r: seq<Byte>)
    requires |st.s| == SIZE
    ensures |r| == |data|
  {
    Xor(data, st.Keystream(|data|))
  }

  /** Crypting in pieces is crypting at once. */
  lemma PiecesAgree(st: State, a: seq<Byte>, b: seq<Byte>)
    requires st.Valid()
    ensures Crypted(st, a + b) == Crypted(st, a) + Crypted(st.After(|a|), b)
    ensures st.After(|a|).After(|b|) == st.After(|a + b|)
  {
    hide State.Keystream, State.After;
    KeystreamAdds(st, |a|, |b|);
    AfterAdds(st, |a|, |b|);
    assert |a + b| == |a| + |b|;
    hide State.Valid, Xor;
    XorJoins(a, b, st.Keystream(|a|), st.After(|a|).Keystream(|b|));
  }

  lemma XorJoins(a: seq<Byte>, b: seq<Byte>, x: seq<Byte>, y: seq<Byte>)
    requires |a| == |x| && |b| == |y|
    ensures Xor(a + b, x + y) == Xor(a, x) + Xor(b, y)
  {
  }

  lemma XorTwice(x: Byte, y: Byte)
    ensures (x ^ y) ^ y == x
  {
  }

  /** Crypting again from an equal state gives the data back. */
  lemma CryptTwiceRestores(st: State, data: seq<Byte>)
    requires st.Valid()
    ensures Crypted(st, Crypted(st, data)) == data
  {
    var k := st.Keystream(|data|);
    forall i | 0 <= i < |data| ensures Crypted(st, Crypted(st, data))[i] == data[i] {
      XorTwice(data[i], k[i]);
    }
  }

  // ---------- In plain terms ----------

  /** `b` is `a` with the bytes at two places exchanged. */
  ghost predicate Exchanged(a: seq<nat>, b: seq<nat>, x: nat, y: nat) {
    && |a| == 256 && |b| == 256 && x < 256 && y < 256
    && forall k | 0 <= k < 256 :: b[k] == if k == x then a[y] else if k == y then a[x] else a[k]
  }

  /** Round `n` of the key schedule: the index adds the byte at `n` and the key byte, and the bytes at `n` and at the new
      index are exchanged. */
  ghost predicate IsRound(n: nat, key: nat, a: seq<nat>, j: nat, b: seq<nat>, j': nat) {
    n < |a| && j' == (j + a[n] + key) % 256 && Exchanged(a, b, n, j')
  }

  /** The key schedule of RC4, index by index and state by state. */
  ghost predicate IsSchedule(key: seq<nat>, j: seq<nat>, s: seq<seq<nat>>)
    requires |key| > 0
  {
    && |j| == 257 && |s| == 257 && (forall n | 0 <= n < 257 :: |s[n]| == 256)
    && j[0] == 0 && (forall k | 0 <= k < 256 :: s[0][k] == k)
    && forall n: nat | n < 256 :: IsRound(n, key[n % |key|], s[n], j[n], s[n + 1], j[n + 1])
  }

  /** One byte of RC4: both indices move on, their places are exchanged, and the place named by the sum of the two is the
      byte. */
  ghost predicate IsByte(a: State, b: State, out: Byte) {
    && |a.s| == 256 && |b.s| == 256
    && b.i == (a.i + 1) % 256
    && b.j == (a.j + a.s[b.i]) % 256
    && Exchanged(a.s, b.s, b.i, b.j)
    && out == b.s[(b.s[b.i] as nat + b.s[b.j]) % 256] as Byte
  }

  /** The generator of RC4, from `from` on and state by state; `out` are the bytes it gives. */
  ghost predicate IsStream(from: State, st: seq<State>, out: seq<Byte>) {
    && |st| == |out| + 1 && st[0] == from
    && forall n | 0 <= n < |out| :: IsByte(st[n], st[n + 1], out[n])
  }

  lemma SwapExchanges(s: seq<Index>, x: Index, y: Index)
    requires |s| == 256
    ensures Exchanged(s, Swap(s, x, y), x, y)
  {
  }

  lemma {:induction false} ScheduleUpTo(key: seq<Index>, m: nat) returns (j: seq<Index>, s: seq<seq<Index>>)
    requires |key| > 0 && m <= 256
    ensures |j| == |s| == m + 1
    ensures forall n: nat | n <= m :: |s[n]| == 256 && s[n] == Mixed(key, n).0 && j[n] == Mixed(key, n).1
  {
    if m == 0 {
      j, s := [0], [Identity()];
    } else {
      j, s := ScheduleUpTo(key, m - 1);
      j, s := j + [Mixed(key, m).1], s + [Mixed(key, m).0];
    }
  }

  lemma MixedNext(key: seq<Index>, n: nat)
    requires |key| > 0 && n < 256
    ensures var m := Mixed(key, n);
      var j := Add(Add(m.1, m.0[n]), key[n % |key|]);
      Mixed(key, n + 1) == (Swap(m.0, n, j), j)
  {
    hide Add, Swap, Identity;
  }

  lemma AddTwice(a: Index, b: Index, c: Index)
    ensures Add(Add(a, b), c) as nat == (a as nat + b + c) % 256
  {
  }

  lemma MixedStep(key: seq<Index>, n: nat)
    requires |key| > 0 && n < 256
    ensures IsRound(n, key[n % |key|], Mixed(key, n).0, Mixed(key, n).1, Mixed(key, n + 1).0, Mixed(key, n + 1).1)
  {
    hide Mixed, Exchanged, Swap, Add;
    var m := Mixed(key, n);
    MixedNext(key, n);
    AddTwice(m.1, m.0[n], key[n % |key|]);
    SwapExchanges(m.0, n, Mixed(key, n + 1).1);
  }

  /** The key schedule is RC4's. */
  lemma ScheduleExists(key: seq<Index>) returns (j: seq<Index>, s: seq<seq<Index>>)
    requires |key| > 0
    ensures IsSchedule(key, j, s) && s[256] == Mixed(key, 256).0
  {
    assert Mixed(key, 0) == (Identity(), 0);
    hide Mixed, Exchanged, Identity;
    j, s := ScheduleUpTo(key, 256);
    assert (s[0], j[0]) == Mixed(key, 0);
    hide IsRound;
    forall n: nat | n < 256 ensures IsRound(n, key[n % |key|], s[n], j[n], s[n + 1], j[n + 1]) {
      MixedStep(key, n);
    }
  }

  lemma StepIsByte(st: State)
    requires st.Valid()
    ensures IsByte(st, st.Next(), st.Next().Output())
  {
    SwapExchanges(st.s, Add(st.i, 1), Add(st.j, st.s[Add(st.i, 1)]));
    hide Exchanged, Swap;
  }

  lemma StreamStep(from: State, n: nat, k: nat)
    requires from.Valid() && k < n
    ensures from.After(k + 1) == from.After(k).Next() && from.Keystream(n)[k] == from.After(k + 1).Output()
  {
    hide State.Next, State.Output, State.Keystream;
    KeystreamAt(from, n, k);
  }

  lemma {:induction false} StatesUpTo(from: State, n: nat) returns (st: seq<State>)
    requires from.Valid()
    ensures |st| == n + 1 && forall k: nat | k <= n :: st[k] == from.After(k)
  {
    if n == 0 {
      st := [from];
    } else {
      st := StatesUpTo(from, n - 1);
      st := st + [from.After(n)];
    }
  }

  /** The keystream is RC4's. */
  lemma StreamExists(from: State, n: nat) returns (st: seq<State>)
    requires from.Valid()
    ensures IsStream(from, st, from.Keystream(n)) && st[n] == from.After(n)
  {
    assert from.After(0) == from;
    st := StatesUpTo(from, n);
    hide State.After, State.Keystream, State.Next, State.Output, IsByte;
    forall k: nat | k < n ensures IsByte(st[k], st[k + 1], from.Keystream(n)[k]) {
      StreamStep(from, n, k);
      StepIsByte(st[k]);
    }
  }

  // ---------- The code ----------

  class Rc4Context {
    const S: array<Index>
    var i: Index
    var j: Index

    ghost predicate Shape() { S.Length == SIZE }

    function View(): (st: State)
      requires S.Length == SIZE
      reads this, S
      ensures |st.s| == SIZE
    {
      State(S[..], i, j)
    }

    constructor ()
      ensures fresh(S) && S.Length == SIZE
    {
      S := new Index[SIZE](_ => 0);
      i, j := 0, 0;
    }

    method Exchange(x: nat, y: nat)
      requires Shape() && x < SIZE && y < SIZE
      modifies S
      ensures S[..] == Swap(old(S[..]), x, y)
    {
      var temp := S[x];
      S[x] := S[y];
      S[y] := temp;
    }

    /** The key schedule. An empty key leaves the context alone. */
    method Key(key: seq<Index>)
      requires Shape()
      modifies this, S
      ensures key == [] ==> View() == old(View())
      ensures key != [] ==> View() == State(Mixed(key, SIZE).0, 0, 0) && IsPermutation(S[..])
      ensures key != [] ==> i == 0 && j == 0 && exists j, s :: IsSchedule(key, j, s) && S[..] == s[256]
    {
      if |key| == 0 { return; }
      for n := 0 to SIZE
        invariant forall k | 0 <= k < n :: S[k] == k
      {
        S[n] := n;
      }
      assert S[..] == Identity();
      assert Mixed(key, 0) == (S[..], 0);
      hide Swap, Identity, Add;
      var jj: Index := 0;
      for n := 0 to SIZE
        invariant Mixed(key, n) == (S[..], jj)
      {
        jj := Add(Add(jj, S[n]), key[n % |key|]);
        Exchange(n, jj);
      }
      i, j := 0, 0;
      SetupIsPermutation(key, SIZE);
      ghost var js, ss := ScheduleExists(key);
    }

    /** Advances the generator by one byte. */
    method Advance()
      requires Shape()
      modifies this, S
      ensures View() == old(View()).Next()
    {
      i := Add(i, 1);
      j := Add(j, S[i]);
      Exchange(i, j);
    }

    /** The keystream byte of the present state. */
    method NextByte() returns (k: Byte)
      requires Shape()
      ensures k == View().Output()
    {
      k := S[Add(S[i], S[j])] as Byte;
    }

    /** Crypts a buffer in place; the buffer is not the state. */
    method Crypt(data: array<Byte>)
      requires Shape() && data as object != S
      modifies this, S, data
      ensures data[..] == Crypted(old(View()), old(data[..]))
      ensures View() == old(View()).After(data.Length)
      ensures exists st, out :: (
        && IsStream(old(View()), st, out) && |out| == data.Length && View() == st[|out|]
        && forall n | 0 <= n < data.Length :: data[n] == old(data[n]) ^ out[n])
    {
      hide State.Next, State.Output, Swap;
      ghost var st, before := View(), data[..];
      for n := 0 to data.Length
        invariant View() == st.After(n)
        invariant |before| == data.Length
        invariant forall k | 0 <= k < n :: data[k] == before[k] ^ st.After(k + 1).Output()
        invariant forall k | n <= k < data.Length :: data[k] == before[k]
      {
        Advance();
        assert View() == st.After(n + 1);
        var k := NextByte();
        data[n] := data[n] ^ k;
      }
      forall k | 0 <= k < data.Length ensures data[k] == Crypted(st, before)[k] {
        KeystreamAt(st, data.Length, k);
      }
      ghost var states := StreamExists(st, data.Length);
    }
  }

  lemma {:induction false} KeystreamAt(st: State, n: nat, k: nat)
    requires st.Valid() && k < n
    ensures st.Keystream(n)[k] == st.After(k + 1).Output()
  {
    hide State.Next, State.Output;
    if k < n - 1 { KeystreamAt(st, n - 1, k); }
  }
}
