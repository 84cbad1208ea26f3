/** The shadow table of critical sections: a linear-probe table keyed by guest address, never shrinking. */
module ShadowTable {
  import opened Code

  const SLOTS: nat := 256
  const HASH: nat := 2654435761

  /** The canonical key of a section at guest address `va`; RAM mirrors fold together, and 0 marks an empty slot. */
  function Key(va: int, ram: nat): nat
    requires ram > 1
  {
    if va % ram != 0 then va % ram else 1
  }

  /** Mirrors of an address share its key; otherwise only the address 0 shares one, with the address 1. */
  lemma KeyCollapsesMirrors(a: int, b: int, ram: nat)
    requires ram > 1
    ensures 0 < Key(a, ram) < ram
    ensures Key(a, ram) == Key(b, ram) <==> a % ram == b % ram || (a % ram <= 1 && b % ram <= 1)
  {
  }

  function Home(key: nat): nat { Wrap(key * HASH) % SLOTS }

  /** The slot looked at in the i-th step of a probe. */
  function SlotAt(key: nat, i: nat): (p: nat)
    ensures p < SLOTS
  {
    (Home(key) + i) % SLOTS
  }

  type Keys = seq<nat>

  ghost predicate Sized(keys: Keys) { |keys| == SLOTS }

  /** The first `i` slots of the probe hold other keys. */
  ghost predicate Passed(keys: Keys, key: nat, i: nat)
    requires Sized(keys)
  {
    forall j | 0 <= j < i :: keys[SlotAt(key, j)] != 0 && keys[SlotAt(key, j)] != key
  }

  /** The key is where a probe ends. */
  ghost predicate FoundAt(keys: Keys, key: nat, i: nat)
    requires Sized(keys)
  {
    i < SLOTS && Passed(keys, key, i) && keys[SlotAt(key, i)] == key
  }

  /** Every key in the table is found by its probe. */
  ghost predicate Valid(keys: Keys) {
    Sized(keys) && forall p | 0 <= p < SLOTS && keys[p] != 0 :: exists i: nat :: FoundAt(keys, keys[p], i) && SlotAt(keys[p], i) == p
  }

  ghost predicate Absent(keys: Keys, key: nat) { key !in keys }

  ghost predicate Full(keys: Keys) { 0 !in keys }

  /** Key by key, `keys'` has everything `keys` has, in the same slots. */
  ghost predicate Extends(keys: Keys, keys': Keys) {
    |keys| == |keys'| && forall p | 0 <= p < |keys| && keys[p] != 0 :: keys'[p] == keys[p]
  }

  /** A probe from step `i`. */
  function Probe(keys: Keys, key: nat, i: nat): Option<nat>
    requires |keys| == SLOTS && i <= SLOTS
    decreases SLOTS - i
  {
    if i == SLOTS then None
    else if keys[SlotAt(key, i)] == key then Some(SlotAt(key, i))
    else if keys[SlotAt(key, i)] == 0 then None
    else Probe(keys, key, i + 1)
  }

  /** The slot a new key goes to, scanning from step `i`: the first empty one. */
  function EmptySlot(keys: Keys, key: nat, i: nat): (r: Option<nat>)
    requires |keys| == SLOTS && i <= SLOTS
    ensures r.Some? ==> r.value < SLOTS && keys[r.value] == 0
    decreases SLOTS - i
  {
    if i == SLOTS then None
    else if keys[SlotAt(key, i)] == 0 then Some(SlotAt(key, i))
    else EmptySlot(keys, key, i + 1)
  }

  /** The table after a lookup that creates. */
  function Insert(keys: Keys, key: nat): Keys
    requires |keys| == SLOTS
  {
    if Probe(keys, key, 0).Some? then keys
    else match EmptySlot(keys, key, 0)
      case None => keys
      case Some(p) => keys[p := key]
  }

  /** A probe visits every slot. */
  lemma SlotAtCovers(key: nat, p: nat) returns (i: nat)
    requires p < SLOTS
    ensures i < SLOTS && SlotAt(key, i) == p
  {
    i := (p + SLOTS - Home(key)) % SLOTS;
  }

  /** A key has at most one slot. */
  lemma OneSlot(keys: Keys, p: nat, q: nat)
    requires Valid(keys) && p < SLOTS && q < SLOTS && keys[p] != 0 && keys[p] == keys[q]
    ensures p == q
  {
    var i: nat :| FoundAt(keys, keys[p], i) && SlotAt(keys[p], i) == p;
    var j: nat :| FoundAt(keys, keys[q], j) && SlotAt(keys[q], j) == q;
    assert !(i < j) && !(j < i);
  }

  /** A probe that meets an empty slot, or comes full circle, proves the key absent. */
  lemma MissProvesAbsent(keys: Keys, key: nat, i: nat)
    requires Valid(keys) && key != 0 && i <= SLOTS && Passed(keys, key, i)
    requires i < SLOTS ==> keys[SlotAt(key, i)] == 0
    ensures Absent(keys, key)
    ensures i == SLOTS ==> Full(keys)
  {
    forall p | 0 <= p < SLOTS ensures keys[p] != key {
      assert keys[p] != 0 ==> exists j: nat :: FoundAt(keys, keys[p], j) && SlotAt(keys[p], j) == p;
    }
    if i == SLOTS && 0 in keys {
      var p :| 0 <= p < SLOTS && keys[p] == 0;
      var j := SlotAtCovers(key, p);
    }
  }

  lemma {:induction false} ProbeFrom(keys: Keys, key: nat, i: nat)
    requires Valid(keys) && key != 0 && i <= SLOTS && Passed(keys, key, i)
    ensures match Probe(keys, key, i)
      case None => Absent(keys, key)
      case Some(p) => p < SLOTS && keys[p] == key
    decreases SLOTS - i
  {
    if i == SLOTS || keys[SlotAt(key, i)] == 0 {
      MissProvesAbsent(keys, key, i);
    } else if keys[SlotAt(key, i)] != key {
      ProbeFrom(keys, key, i + 1);
    }
  }

  /** Probing agrees with a finite map from keys to slots: a key is found, at its one slot, iff it is in the table. */
  lemma ProbeIsLookup(keys: Keys, key: nat, p: nat)
    requires Valid(keys) && key != 0 && p < SLOTS
    ensures Probe(keys, key, 0) == Some(p) <==> keys[p] == key
    ensures Probe(keys, key, 0) == None <==> Absent(keys, key)
  {
    ProbeFrom(keys, key, 0);
    if keys[p] == key && Probe(keys, key, 0).Some? {
      OneSlot(keys, p, Probe(keys, key, 0).value);
    }
  }

  /** Publishing an absent key in the first empty slot of its probe keeps every key where a probe finds it. */
  lemma PublishKeepsValid(keys: Keys, key: nat, i: nat)
    requires Valid(keys) && key != 0 && Absent(keys, key) && i < SLOTS
    requires (forall j | 0 <= j < i :: keys[SlotAt(key, j)] != 0) && keys[SlotAt(key, i)] == 0
    ensures Valid(keys[SlotAt(key, i) := key]) && Extends(keys, keys[SlotAt(key, i) := key])
  {
    var p := SlotAt(key, i);
    var keys' := keys[p := key];
    forall q | 0 <= q < SLOTS && keys'[q] != 0 ensures exists j: nat :: FoundAt(keys', keys'[q], j) && SlotAt(keys'[q], j) == q {
      if q == p {
        forall j | 0 <= j < i ensures keys'[SlotAt(key, j)] != 0 && keys'[SlotAt(key, j)] != key {
          assert keys[SlotAt(key, j)] in keys;
          assert SlotAt(key, j) != p;
        }
        assert FoundAt(keys', key, i);
      } else {
        var j: nat :| FoundAt(keys, keys[q], j) && SlotAt(keys[q], j) == q;
        assert keys[q] in keys;
        assert FoundAt(keys', keys[q], j);
      }
    }
  }

  lemma {:induction false} EmptySlotFrom(keys: Keys, key: nat, i: nat)
    requires |keys| == SLOTS && i <= SLOTS && forall j | 0 <= j < i :: keys[SlotAt(key, j)] != 0
    ensures match EmptySlot(keys, key, i)
      case None => Full(keys)
      case Some(p) => exists j :: i <= j < SLOTS && p == SlotAt(key, j) && keys[p] == 0 && forall k | 0 <= k < j :: keys[SlotAt(key, k)] != 0
    decreases SLOTS - i
  {
    if i == SLOTS {
      if 0 in keys {
        var p :| 0 <= p < SLOTS && keys[p] == 0;
        var j := SlotAtCovers(key, p);
      }
    } else if keys[SlotAt(key, i)] != 0 {
      EmptySlotFrom(keys, key, i + 1);
    }
  }

  /** Inserting keeps the table valid and every key in its slot; the key gets in unless the table is full. */
  lemma InsertCorrect(keys: Keys, key: nat)
    requires Valid(keys) && key != 0
    ensures Valid(Insert(keys, key)) && Extends(keys, Insert(keys, key))
    ensures forall k :: k != 0 ==> (k in Insert(keys, key) <==> k in keys || (k == key && !Full(keys)))
  {
    ProbeFrom(keys, key, 0);
    EmptySlotFrom(keys, key, 0);
    if Probe(keys, key, 0).None? {
      if EmptySlot(keys, key, 0).Some? {
        var p := EmptySlot(keys, key, 0).value;
        var j :| 0 <= j < SLOTS && p == SlotAt(key, j) && keys[p] == 0 && forall k | 0 <= k < j :: keys[SlotAt(key, k)] != 0;
        PublishKeepsValid(keys, key, j);
        forall k | k != 0 ensures k in keys[p := key] <==> k in keys || k == key {
          if k in keys {
            var q :| 0 <= q < SLOTS && keys[q] == k;
            assert keys[p := key][q] == k;
          }
          assert keys[p := key][p] == key;
        }
      }
    } else {
      assert key in keys;
    }
  }

  /** A key refused by a full table is refused for ever. */
  lemma RefusedForEver(keys: Keys, keys': Keys, key: nat)
    requires Extends(keys, keys') && Full(keys) && Absent(keys, key)
    ensures keys' == keys
  {
    forall p | 0 <= p < |keys| ensures keys'[p] == keys[p] {
      assert keys[p] in keys;
    }
  }

  /** The table as the code keeps it, used by one thread at a time under the table lock. */
  class CsTable {
    const slots: array<nat>

    constructor ()
      ensures fresh(slots) && slots.Length == SLOTS && Valid(slots[..])
    {
      slots := new nat[SLOTS](_ => 0);
    }

    method CsProbe(key: nat) returns (r: Option<nat>)
      requires slots.Length == SLOTS
      ensures r == Probe(slots[..], key, 0)
    {
      var h := Wrap(key * HASH) % SLOTS;
      var i := 0;
      while i < SLOTS
        invariant i <= SLOTS && Probe(slots[..], key, 0) == Probe(slots[..], key, i)
      {
        var p := (h + i) % SLOTS;
        assert p == SlotAt(key, i);
        if slots[p] == key { return Some(p); }
        if slots[p] == 0 { return None; }
        i := i + 1;
      }
      return None;
    }

    /** Looks a key up, and with `create` gives it a slot if there is one. */
    method CsSlotFor(key: nat, create: bool) returns (r: Option<nat>)
      requires slots.Length == SLOTS && key != 0 && Valid(slots[..])
      modifies slots
      ensures slots[..] == if create then Insert(old(slots[..]), key) else old(slots[..])
      ensures Valid(slots[..])
      ensures r == Probe(slots[..], key, 0)
    {
      ghost var keys := slots[..];
      InsertCorrect(keys, key);
      r := CsProbe(key);
      if r.Some? || !create { return; }
      var h := Wrap(key * HASH) % SLOTS;
      var i := 0;
      while i < SLOTS
        invariant i <= SLOTS && slots[..] == keys && EmptySlot(keys, key, 0) == EmptySlot(keys, key, i)
      {
        var p := (h + i) % SLOTS;
        assert p == SlotAt(key, i);
        if slots[p] == 0 {
          slots[p] := key;
          assert slots[..] == keys[p := key];
          r := Some(p);
          ProbeIsLookup(slots[..], key, p);
          return;
        }
        i := i + 1;
      }
    }
  }
}
