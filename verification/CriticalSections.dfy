/** Threads calling Enter, Leave and Initialize on critical sections, one memory access or lock operation at a time. */
module CriticalSections {
  import opened Code
  import T = ShadowTable

  /** Thread ids; 0 means "nobody". */
  type Tid = nat

  /** A slot: its key, the owner and depth fields, and the state of its recursive native lock. */
  datatype Slot = Slot(key: nat, owner: Tid, depth: nat, holder: Tid, count: nat)

  datatype Call = Enter | Leave | Initialize

  /** Where a thread is. `Lookup` states hold the table lock for reading, `Create` states for writing; from `Locking`
      to `Counting` a thread is entering the slot's lock, from `Checking` to `Releasing` it is leaving it. */
  datatype Pc =
    | Idle
    | WantRead(call: Call, key: nat)
    | Lookup(call: Call, key: nat, i: nat)
    | LookupDone(call: Call, key: nat, found: Option<nat>)
    | WantWrite(call: Call, key: nat)
    | CreateProbe(call: Call, key: nat, i: nat)
    | CreateScan(call: Call, key: nat, i: nat)
    | CreateInit(call: Call, key: nat, i: nat)
    | CreatePublish(call: Call, key: nat, i: nat)
    | CreateDone(call: Call, key: nat, found: Option<nat>)
    | Locking(key: nat, p: nat)
    | Owning(key: nat, p: nat)
    | Counting(key: nat, p: nat)
    | Checking(key: nat, p: nat)
    | Measuring(key: nat, p: nat)
    | Uncounting(key: nat, p: nat)
    | Disowning(key: nat, p: nat)
    | Releasing(key: nat, p: nat)

  /** `enters` is history: for each thread and key, its Enters that returned less its Leaves, never below 0. */
  datatype State = State(slots: seq<Slot>, readers: set<Tid>, writer: Tid, pcs: map<Tid, Pc>, enters: map<(Tid, nat), nat>) {
    function PcOf(t: Tid): Pc { if t in pcs then pcs[t] else Idle }

    function Enters(t: Tid, key: nat): nat { if (t, key) in enters then enters[(t, key)] else 0 }

    function Goto(t: Tid, pc: Pc): State { this.(pcs := pcs[t := pc]) }

    function Entered(t: Tid, key: nat): State { this.(enters := enters[(t, key) := Enters(t, key) + 1]) }

    function Left(t: Tid, key: nat): State {
      this.(enters := enters[(t, key) := if Enters(t, key) > 0 then Enters(t, key) - 1 else 0])
    }

    function Put(p: nat, slot: Slot): State
      requires p < |slots|
    {
      this.(slots := slots[p := slot])
    }
  }

  ghost function Keys(slots: seq<Slot>): (r: T.Keys)
    ensures |r| == |slots| && forall p | 0 <= p < |slots| :: r[p] == slots[p].key
  {
    seq(|slots|, p requires 0 <= p < |slots| => slots[p].key)
  }

  function Initial(): State {
    State(seq(T.SLOTS, _ => Slot(0, 0, 0, 0, 0)), {}, 0, map[], map[])
  }

  datatype Event = Begin(t: Tid, call: Call, key: nat) | Run(t: Tid)

  predicate Writing(pc: Pc) {
    pc.CreateProbe? || pc.CreateScan? || pc.CreateInit? || pc.CreatePublish? || pc.CreateDone?
  }

  predicate AtSlot(pc: Pc) {
    || pc.Locking? || pc.Owning? || pc.Counting?
    || pc.Checking? || pc.Measuring? || pc.Uncounting? || pc.Disowning? || pc.Releasing?
  }

  /** A lookup under the table lock held for reading. */
  function FindStep(s: State, t: Tid, pc: Pc): State
    requires |s.slots| == T.SLOTS
  {
    match pc
    case WantRead(c, k) =>
      if s.writer != 0 then s else s.(readers := s.readers + {t}).Goto(t, Lookup(c, k, 0))
    case Lookup(c, k, i) =>
      if i >= T.SLOTS then s.Goto(t, LookupDone(c, k, None)) else
        var p := T.SlotAt(k, i);
        if s.slots[p].key == k then s.Goto(t, LookupDone(c, k, Some(p)))
        else if s.slots[p].key == 0 then s.Goto(t, LookupDone(c, k, None))
        else s.Goto(t, Lookup(c, k, i + 1))
    case LookupDone(c, k, found) =>
      var s' := s.(readers := s.readers - {t});
      if found.Some? then
        s'.Goto(t, if c == Enter then Locking(k, found.value) else if c == Leave then Checking(k, found.value) else Idle)
      else if c == Leave then s'.Left(t, k).Goto(t, Idle)
      else s'.Goto(t, WantWrite(c, k))
    case WantWrite(c, k) =>
      if s.writer != 0 || s.readers != {} then s else s.(writer := t).Goto(t, CreateProbe(c, k, 0))
    case _ => s
  }

  /** A lookup that creates, under the table lock held for writing. */
  function CreateStep(s: State, t: Tid, pc: Pc): State
    requires |s.slots| == T.SLOTS
  {
    match pc
    case CreateProbe(c, k, i) =>
      if i >= T.SLOTS then s.Goto(t, CreateScan(c, k, 0)) else
        var p := T.SlotAt(k, i);
        if s.slots[p].key == k then s.Goto(t, CreateDone(c, k, Some(p)))
        else if s.slots[p].key == 0 then s.Goto(t, CreateScan(c, k, 0))
        else s.Goto(t, CreateProbe(c, k, i + 1))
    case CreateScan(c, k, i) =>
      if i >= T.SLOTS then s.Goto(t, CreateDone(c, k, None))
      else if s.slots[T.SlotAt(k, i)].key == 0 then s.Goto(t, CreateInit(c, k, i))
      else s.Goto(t, CreateScan(c, k, i + 1))
    case CreateInit(c, k, i) =>
      var p := T.SlotAt(k, i);
      s.Put(p, s.slots[p].(owner := 0, depth := 0, holder := 0, count := 0)).Goto(t, CreatePublish(c, k, i))
    case CreatePublish(c, k, i) =>
      var p := T.SlotAt(k, i);
      s.Put(p, s.slots[p].(key := k)).Goto(t, CreateDone(c, k, Some(p)))
    case CreateDone(c, k, found) =>
      var s' := s.(writer := 0);
      if c != Enter then s'.Goto(t, Idle)
      else if found.Some? then s'.Goto(t, Locking(k, found.value))
      else s'.Entered(t, k).Goto(t, Idle)
    case _ => s
  }

  /** Entering or leaving the lock of slot `p`. */
  function SlotStep(s: State, t: Tid, pc: Pc): State
    requires |s.slots| == T.SLOTS && AtSlot(pc)
  {
    var p, k := pc.p, pc.key;
    if p >= T.SLOTS then s else
    var slot := s.slots[p];
    match pc
    case Locking(_, _) =>
      if slot.holder != 0 && slot.holder != t then s
      else s.Put(p, slot.(holder := t, count := slot.count + 1)).Goto(t, Owning(k, p))
    case Owning(_, _) => s.Put(p, slot.(owner := t)).Goto(t, Counting(k, p))
    case Counting(_, _) => s.Put(p, slot.(depth := slot.depth + 1)).Entered(t, k).Goto(t, Idle)
    case Checking(_, _) => if slot.owner != t then s.Left(t, k).Goto(t, Idle) else s.Goto(t, Measuring(k, p))
    case Measuring(_, _) => if slot.depth == 0 then s.Left(t, k).Goto(t, Idle) else s.Goto(t, Uncounting(k, p))
    case Uncounting(_, _) =>
      if slot.depth == 0 then s
      else s.Put(p, slot.(depth := slot.depth - 1)).Goto(t, if slot.depth == 1 then Disowning(k, p) else Releasing(k, p))
    case Disowning(_, _) => s.Put(p, slot.(owner := 0)).Goto(t, Releasing(k, p))
    case Releasing(_, _) =>
      if slot.count == 0 then s
      else
        var n := slot.count - 1;
        s.Put(p, slot.(count := n, holder := if n == 0 then 0 else slot.holder)).Left(t, k).Goto(t, Idle)
  }

  /** The next step of thread `t`; a thread that must wait stays where it is. */
  function Step(s: State, t: Tid): State {
    if |s.slots| != T.SLOTS then s
    else if AtSlot(s.PcOf(t)) then SlotStep(s, t, s.PcOf(t))
    else if Writing(s.PcOf(t)) then CreateStep(s, t, s.PcOf(t))
    else FindStep(s, t, s.PcOf(t))
  }

  /** An idle thread may call with any key; a null pointer has key 0 and returns at once. */
  function Apply(s: State, e: Event): State {
    match e
    case Begin(t, c, k) => if t == 0 || k == 0 || s.PcOf(t) != Idle then s else s.Goto(t, WantRead(c, k))
    case Run(t) => if t == 0 then s else Step(s, t)
  }

  function ApplyAll(s: State, events: seq<Event>): State {
    if events == [] then s else Apply(ApplyAll(s, events[..|events|-1]), events[|events|-1])
  }

  // ---------- The invariant ----------

  predicate Reading(pc: Pc) { pc.Lookup? || pc.LookupDone? }

  /** The thread is past the native acquisition of slot `p`, or past the test that it owns it. */
  predicate InHand(pc: Pc, p: nat) {
    (pc.Owning? || pc.Counting? || pc.Measuring? || pc.Uncounting? || pc.Disowning? || pc.Releasing?) && pc.p == p
  }

  /** A native acquisition whose Enter has not returned yet. */
  function Pending(pc: Pc, p: nat): nat { if (pc.Owning? || pc.Counting?) && pc.p == p then 1 else 0 }

  ghost predicate TableLock(s: State) {
    && (s.writer != 0 ==> s.readers == {})
    && s.PcOf(0) == Idle
    && forall t: Tid :: (Reading(s.PcOf(t)) <==> t in s.readers) && (Writing(s.PcOf(t)) <==> t == s.writer && t != 0)
  }

  /** What a thread knows of the table where it stands. */
  ghost predicate Knows(s: State, t: Tid)
    requires |s.slots| == T.SLOTS
  {
    var keys := Keys(s.slots);
    match s.PcOf(t)
    case Idle => true
    case WantRead(c, k) => k != 0
    case Lookup(c, k, i) => k != 0 && i <= T.SLOTS && T.Passed(keys, k, i)
    case LookupDone(c, k, found) => k != 0 &&
      (match found
       case Some(p) => p < T.SLOTS && keys[p] == k
       case None => c == Leave ==> s.Enters(t, k) == 0 || (T.Full(keys) && T.Absent(keys, k)))
    case WantWrite(c, k) => k != 0 && c != Leave
    case CreateProbe(c, k, i) => k != 0 && c != Leave && i <= T.SLOTS && T.Passed(keys, k, i)
    case CreateScan(c, k, i) => k != 0 && c != Leave && i <= T.SLOTS && T.Absent(keys, k) && Crowded(keys, k, i)
    case CreateInit(c, k, i) => k != 0 && c != Leave && i < T.SLOTS && T.Absent(keys, k) && Crowded(keys, k, i) && keys[T.SlotAt(k, i)] == 0
    case CreatePublish(c, k, i) => k != 0 && c != Leave && i < T.SLOTS && T.Absent(keys, k) && Crowded(keys, k, i) && keys[T.SlotAt(k, i)] == 0
    case CreateDone(c, k, found) => k != 0 && c != Leave &&
      (match found
       case Some(p) => p < T.SLOTS && keys[p] == k
       case None => T.Full(keys) && T.Absent(keys, k))
    case Locking(k, p) => SlotOf(keys, k, p)
    case Owning(k, p) => SlotOf(keys, k, p)
    case Counting(k, p) => SlotOf(keys, k, p)
    case Checking(k, p) => SlotOf(keys, k, p)
    case Measuring(k, p) => SlotOf(keys, k, p)
    case Uncounting(k, p) => SlotOf(keys, k, p)
    case Disowning(k, p) => SlotOf(keys, k, p)
    case Releasing(k, p) => SlotOf(keys, k, p)
  }

  ghost predicate Crowded(keys: T.Keys, k: nat, i: nat)
    requires |keys| == T.SLOTS
  {
    forall j | 0 <= j < i :: keys[T.SlotAt(k, j)] != 0
  }

  ghost predicate SlotOf(keys: T.Keys, k: nat, p: nat)
    requires |keys| == T.SLOTS
  {
    k != 0 && p < T.SLOTS && keys[p] == k
  }

  /** The owner and depth fields as the holder's position says. */
  ghost predicate FieldsAgree(slot: Slot, pc: Pc, p: nat) {
    if slot.holder == 0 then slot.count == 0 && slot.owner == 0 && slot.depth == 0
    else
      && slot.count > 0
      && slot.depth == (if InHand(pc, p) && !pc.Measuring? && !pc.Uncounting? then slot.count - 1 else slot.count)
      && slot.owner == (if slot.count == 1 && InHand(pc, p) && (pc.Owning? || pc.Releasing?) then 0 else slot.holder)
      && (InHand(pc, p) && pc.Disowning? ==> slot.count == 1)
  }

  /** A slot is unused, or counts exactly the outstanding Enters of the one thread that holds it. */
  ghost predicate SlotAgrees(s: State, p: nat)
    requires p < |s.slots|
  {
    var slot := s.slots[p];
    && FieldsAgree(slot, s.PcOf(slot.holder), p)
    && (slot.key == 0 ==> slot.holder == 0)
    && (forall t: Tid | InHand(s.PcOf(t), p) :: slot.holder == t)
    && (slot.key != 0 ==> forall t: Tid ::
          (if t != 0 && t == slot.holder then slot.count else 0) == s.Enters(t, slot.key) + Pending(s.PcOf(t), p))
  }

  /** Enters outstanding on a key without a slot were refused by a full table. */
  ghost predicate RefusedWhenFull(s: State) {
    forall t: Tid, k | s.Enters(t, k) > 0 && T.Absent(Keys(s.slots), k) :: T.Full(Keys(s.slots))
  }

  ghost predicate Inv(s: State) {
    && |s.slots| == T.SLOTS && T.Valid(Keys(s.slots))
    && TableLock(s)
    && (forall t: Tid :: Knows(s, t))
    && (forall p | 0 <= p < T.SLOTS :: SlotAgrees(s, p))
    && RefusedWhenFull(s)
  }

  // ---------- Every step keeps it ----------

  /** Only publishing changes the keys. */
  lemma KeysAfter(s: State, t: Tid)
    requires |s.slots| == T.SLOTS
    ensures var pc := s.PcOf(t);
      && |Step(s, t).slots| == T.SLOTS
      && Keys(Step(s, t).slots) == if pc.CreatePublish? then Keys(s.slots)[T.SlotAt(pc.key, pc.i) := pc.key] else Keys(s.slots)
  {
    forall p | 0 <= p < T.SLOTS ensures |Step(s, t).slots| == T.SLOTS && Step(s, t).slots[p].key == KeyAfter(s, s.PcOf(t), p) {
      StepKey(s, t, p);
    }
    hide Step, T.SlotAt;
  }

  function KeyAfter(s: State, pc: Pc, p: nat): nat
    requires p < |s.slots|
  {
    if pc.CreatePublish? && p == T.SlotAt(pc.key, pc.i) then pc.key else s.slots[p].key
  }

  lemma StepKey(s: State, t: Tid, p: nat)
    requires |s.slots| == T.SLOTS && p < T.SLOTS
    ensures |Step(s, t).slots| == T.SLOTS && Step(s, t).slots[p].key == KeyAfter(s, s.PcOf(t), p)
  {
    hide T.SlotAt, State.Enters;
  }

  lemma StepKeepsTable(s: State, t: Tid)
    requires Inv(s) && t != 0
    ensures |Step(s, t).slots| == T.SLOTS && T.Valid(Keys(Step(s, t).slots))
    ensures T.Extends(Keys(s.slots), Keys(Step(s, t).slots))
  {
    KeysAfter(s, t);
    assert Knows(s, t);
    var pc := s.PcOf(t);
    if pc.CreatePublish? {
      T.PublishKeepsValid(Keys(s.slots), pc.key, pc.i);
    }
  }

  /** What a step does to the table lock, and to its own place. */
  lemma StepLocks(s: State, t: Tid)
    requires |s.slots| == T.SLOTS && t != 0
    ensures var pc, s' := s.PcOf(t), Step(s, t);
      && (forall u: Tid | u != t :: s'.PcOf(u) == s.PcOf(u))
      && s'.readers == (if pc.WantRead? && s.writer == 0 then s.readers + {t} else if pc.LookupDone? then s.readers - {t} else s.readers)
      && s'.writer == (if pc.WantWrite? && s.writer == 0 && s.readers == {} then t else if pc.CreateDone? then 0 else s.writer)
  {
    hide T.SlotAt, State.Enters;
  }

  lemma StepLocked(s: State, t: Tid)
    requires |s.slots| == T.SLOTS && t != 0
    ensures var pc, pc' := s.PcOf(t), Step(s, t).PcOf(t);
      && Reading(pc') == (if pc.WantRead? then s.writer == 0 else if pc.LookupDone? then false else Reading(pc))
      && Writing(pc') == (if pc.WantWrite? then s.writer == 0 && s.readers == {} else if pc.CreateDone? then false else Writing(pc))
  {
    hide T.SlotAt, State.Enters;
  }

  lemma StepKeepsTableLock(s: State, t: Tid)
    requires |s.slots| == T.SLOTS && TableLock(s) && t != 0
    ensures TableLock(Step(s, t))
  {
    StepLocks(s, t);
    StepLocked(s, t);
    hide Step, State.PcOf, Reading, Writing;
    var s' := Step(s, t);
    assert Reading(s.PcOf(t)) <==> t in s.readers;
    assert Writing(s.PcOf(t)) <==> t == s.writer;
    LockStates(s.PcOf(t));
    forall u: Tid ensures (Reading(s'.PcOf(u)) <==> u in s'.readers) && (Writing(s'.PcOf(u)) <==> u == s'.writer && u != 0) {
      assert (Reading(s.PcOf(u)) <==> u in s.readers) && (Writing(s.PcOf(u)) <==> u == s.writer && u != 0);
    }
  }

  lemma LockStates(pc: Pc)
    ensures pc.LookupDone? ==> Reading(pc)
    ensures pc.CreateDone? ==> Writing(pc)
    ensures pc.WantRead? || pc.WantWrite? ==> !Reading(pc) && !Writing(pc)
    ensures !(Reading(pc) && Writing(pc))
  {
  }

  /** Knowledge survives as long as keys are only added, and none while the thread itself is writing the table. */
  lemma KnowsStays(s: State, s': State, u: Tid)
    requires |s.slots| == |s'.slots| == T.SLOTS && Knows(s, u)
    requires s'.PcOf(u) == s.PcOf(u) && forall k :: s'.Enters(u, k) == s.Enters(u, k)
    requires T.Extends(Keys(s.slots), Keys(s'.slots))
    requires Writing(s.PcOf(u)) ==> Keys(s'.slots) == Keys(s.slots)
    ensures Knows(s', u)
  {
    var keys, keys' := Keys(s.slots), Keys(s'.slots);
    if T.Full(keys) { FullStays(keys, keys'); }
    hide T.SlotAt, T.Full, State.PcOf, State.Enters;
  }

  lemma KnowsOther(s: State, t: Tid, u: Tid)
    requires Inv(s) && t != 0 && u != t
    ensures |Step(s, t).slots| == T.SLOTS && Knows(Step(s, t), u)
  {
    KeysAfter(s, t);
    StepKeepsTable(s, t);
    OthersUnchanged(s, t);
    hide Step, Knows, SlotAgrees, RefusedWhenFull, T.Valid, T.SlotAt, T.Extends;
    assert Knows(s, u);
    if s.PcOf(t).CreatePublish? { assert s.writer == t && !Writing(s.PcOf(u)); }
    KnowsStays(s, Step(s, t), u);
  }

  lemma FullStays(keys: T.Keys, keys': T.Keys)
    requires T.Extends(keys, keys') && T.Full(keys)
    ensures keys' == keys
  {
    forall p | 0 <= p < |keys| ensures keys'[p] == keys[p] {
      assert keys[p] in keys;
    }
  }

  lemma KnowsLookup(s: State, t: Tid)
    requires Inv(s) && t != 0 && s.PcOf(t).Lookup?
    ensures |Step(s, t).slots| == T.SLOTS && Knows(Step(s, t), t)
  {
    KeysAfter(s, t);
    assert Knows(s, t);
    var keys, pc := Keys(s.slots), s.PcOf(t);
    assert s.Enters(t, pc.key) > 0 && T.Absent(keys, pc.key) ==> T.Full(keys);
    if pc.i >= T.SLOTS || keys[T.SlotAt(pc.key, pc.i)] == 0 {
      T.MissProvesAbsent(keys, pc.key, pc.i);
      EmptyNotFull(keys, pc.key, pc.i);
    }
    hide T.Valid, T.SlotAt, TableLock, SlotAgrees, RefusedWhenFull;
  }

  lemma KnowsCreate(s: State, t: Tid)
    requires Inv(s) && t != 0 && Writing(s.PcOf(t))
    ensures |Step(s, t).slots| == T.SLOTS && Knows(Step(s, t), t)
  {
    KeysAfter(s, t);
    assert Knows(s, t);
    var keys, pc := Keys(s.slots), s.PcOf(t);
    if pc.CreateProbe? && (pc.i >= T.SLOTS || keys[T.SlotAt(pc.key, pc.i)] == 0) { T.MissProvesAbsent(keys, pc.key, pc.i); }
    if pc.CreateScan? && pc.i >= T.SLOTS { CrowdedIsFull(keys, pc.key); }
    hide T.Valid, T.SlotAt, TableLock, SlotAgrees, RefusedWhenFull;
  }

  lemma KnowsRest(s: State, t: Tid)
    requires Inv(s) && t != 0 && !Writing(s.PcOf(t)) && !s.PcOf(t).Lookup?
    ensures |Step(s, t).slots| == T.SLOTS && Knows(Step(s, t), t)
  {
    KeysAfter(s, t);
    assert Knows(s, t);
    hide T.Valid, T.SlotAt, TableLock, SlotAgrees, RefusedWhenFull;
  }

  lemma KnowsAll(s: State, t: Tid)
    requires Inv(s) && t != 0
    ensures |Step(s, t).slots| == T.SLOTS && forall u: Tid :: Knows(Step(s, t), u)
  {
    KeysAfter(s, t);
    hide Inv, Knows, Step;
    forall u: Tid ensures |Step(s, t).slots| == T.SLOTS && Knows(Step(s, t), u) {
      if u != t { KnowsOther(s, t, u); }
      else if s.PcOf(t).Lookup? { KnowsLookup(s, t); }
      else if Writing(s.PcOf(t)) { KnowsCreate(s, t); }
      else { KnowsRest(s, t); }
    }
  }

  lemma EmptyNotFull(keys: T.Keys, k: nat, i: nat)
    requires |keys| == T.SLOTS
    ensures i < T.SLOTS && keys[T.SlotAt(k, i)] == 0 ==> !T.Full(keys)
  {
  }

  lemma CrowdedIsFull(keys: T.Keys, k: nat)
    requires |keys| == T.SLOTS && Crowded(keys, k, T.SLOTS)
    ensures T.Full(keys)
  {
    forall p | 0 <= p < T.SLOTS ensures keys[p] != 0 {
      var j := T.SlotAtCovers(k, p);
    }
  }

  /** A step touches one slot at most: its own, while the thread is creating it or holds its native lock. */
  lemma StepSlots(s: State, t: Tid, p: nat)
    requires |s.slots| == T.SLOTS && p < T.SLOTS && t != 0
    ensures var pc, s' := s.PcOf(t), Step(s, t);
      |s'.slots| == T.SLOTS &&
      (s'.slots[p] == s.slots[p]
       || ((pc.CreateInit? || pc.CreatePublish?) && p == T.SlotAt(pc.key, pc.i))
       || (AtSlot(pc) && !pc.Checking? && !pc.Measuring? && pc.p == p))
  {
    hide T.SlotAt, State.Enters;
  }

  predicate Returns(pc: Pc) {
    pc.Counting? || pc.Checking? || pc.Measuring? || pc.Releasing? || pc.LookupDone? || pc.CreateDone?
  }

  lemma StepEnters(s: State, t: Tid, u: Tid, k: nat)
    requires |s.slots| == T.SLOTS && t != 0
    ensures Step(s, t).Enters(u, k) == s.Enters(u, k) || (u == t && Returns(s.PcOf(t)) && k == s.PcOf(t).key)
  {
  }

  lemma StepKeepsRefused(s: State, t: Tid)
    requires Inv(s) && t != 0
    ensures RefusedWhenFull(Step(s, t))
  {
    KeysAfter(s, t);
    StepKeepsTable(s, t);
    var s', keys, keys' := Step(s, t), Keys(s.slots), Keys(Step(s, t).slots);
    assert Knows(s, t);
    forall u: Tid, k | s'.Enters(u, k) > 0 && T.Absent(keys', k) ensures T.Full(keys') {
      AbsentBefore(keys, keys', k);
      if s.Enters(u, k) == 0 {
        StepEnters(s, t, u, k);
      }
      if T.Full(keys) { FullStays(keys, keys'); }
    }
  }

  lemma AbsentBefore(keys: T.Keys, keys': T.Keys, k: nat)
    requires T.Extends(keys, keys') && T.Absent(keys', k)
    ensures k != 0 ==> T.Absent(keys, k)
  {
    forall p | 0 <= p < |keys| ensures k != 0 ==> keys[p] != k {
      assert keys'[p] in keys';
    }
  }

  /** A return on a key with a slot elsewhere does not change the count of the key in slot `p`. */
  lemma OtherKey(s: State, t: Tid, p: nat, u: Tid)
    requires Inv(s) && t != 0 && p < T.SLOTS && s.slots[p].key != 0
    requires !(AtSlot(s.PcOf(t)) && s.PcOf(t).p == p)
    ensures Step(s, t).Enters(u, s.slots[p].key) == s.Enters(u, s.slots[p].key)
  {
    var k, keys, pc := s.slots[p].key, Keys(s.slots), s.PcOf(t);
    assert Knows(s, t);
    StepEnters(s, t, u, k);
    if u == t && Returns(pc) && k == pc.key {
      assert keys[p] == k && k in keys;
      if AtSlot(pc) {
        T.OneSlot(keys, p, pc.p);
      }
    }
  }

  lemma SlotElsewhere(s: State, t: Tid, p: nat)
    requires Inv(s) && t != 0 && p < T.SLOTS
    requires !(AtSlot(s.PcOf(t)) && s.PcOf(t).p == p)
    requires !((s.PcOf(t).CreateInit? || s.PcOf(t).CreatePublish?) && p == T.SlotAt(s.PcOf(t).key, s.PcOf(t).i))
    ensures |Step(s, t).slots| == T.SLOTS && SlotAgrees(Step(s, t), p)
  {
    StepSlots(s, t, p);
    StepHands(s, t, p);
    StepLocks(s, t);
    assert SlotAgrees(s, p);
    var s', slot := Step(s, t), s.slots[p];
    if slot.key != 0 {
      forall u: Tid ensures s'.Enters(u, slot.key) == s.Enters(u, slot.key) {
        OtherKey(s, t, p, u);
      }
    }
    hide Step, Inv, State.PcOf, State.Enters;
  }

  /** A step away from a slot leaves the thread's hands off it. */
  lemma StepHands(s: State, t: Tid, p: nat)
    requires |s.slots| == T.SLOTS && t != 0
    requires !(AtSlot(s.PcOf(t)) && s.PcOf(t).p == p)
    ensures !InHand(s.PcOf(t), p) && !InHand(Step(s, t).PcOf(t), p)
    ensures Pending(s.PcOf(t), p) == 0 == Pending(Step(s, t).PcOf(t), p)
  {
    hide T.SlotAt, State.Enters;
  }

  lemma SlotCreated(s: State, t: Tid, p: nat)
    requires Inv(s) && t != 0 && p < T.SLOTS
    requires (s.PcOf(t).CreateInit? || s.PcOf(t).CreatePublish?) && p == T.SlotAt(s.PcOf(t).key, s.PcOf(t).i)
    ensures |Step(s, t).slots| == T.SLOTS && SlotAgrees(Step(s, t), p)
  {
    var pc, keys, s' := s.PcOf(t), Keys(s.slots), Step(s, t);
    assert Knows(s, t) && SlotAgrees(s, p);
    EmptyNotFull(keys, pc.key, pc.i);
    forall u: Tid ensures s.Enters(u, pc.key) == 0 && !InHand(s.PcOf(u), p) {
      assert Knows(s, u);
    }
    StepHands(s, t, p);
    StepLocks(s, t);
    assert forall u: Tid, k :: s'.Enters(u, k) == s.Enters(u, k);
    assert s.slots[p].holder == 0;
    hide Inv, T.SlotAt, T.Valid, T.Full, T.Absent, Knows, TableLock;
  }

  lemma OthersUnchanged(s: State, t: Tid)
    requires |s.slots| == T.SLOTS && t != 0
    ensures forall u: Tid | u != t :: Step(s, t).PcOf(u) == s.PcOf(u)
    ensures forall u: Tid, k | u != t :: Step(s, t).Enters(u, k) == s.Enters(u, k)
  {
    hide *;
    StepLocks(s, t);
    forall u: Tid, k | u != t ensures Step(s, t).Enters(u, k) == s.Enters(u, k) {
      StepEnters(s, t, u, k);
    }
  }

  lemma SlotAcquired(s: State, t: Tid, p: nat)
    requires Inv(s) && t != 0 && p < T.SLOTS
    requires (s.PcOf(t).Locking? || s.PcOf(t).Owning? || s.PcOf(t).Counting?) && s.PcOf(t).p == p
    ensures |Step(s, t).slots| == T.SLOTS && SlotAgrees(Step(s, t), p)
  {
    hide T.SlotAt, T.Valid, T.Full, T.Absent, RefusedWhenFull, CreateStep, FindStep;
    assert Knows(s, t) && SlotAgrees(s, p) && s.PcOf(0) == Idle;
    OthersUnchanged(s, t);
    hide Inv;
  }

  lemma SlotChecked(s: State, t: Tid, p: nat)
    requires Inv(s) && t != 0 && p < T.SLOTS
    requires (s.PcOf(t).Checking? || s.PcOf(t).Measuring?) && s.PcOf(t).p == p
    ensures |Step(s, t).slots| == T.SLOTS && SlotAgrees(Step(s, t), p)
  {
    hide T.SlotAt, T.Valid, T.Full, T.Absent, RefusedWhenFull, CreateStep, FindStep;
    assert Knows(s, t) && SlotAgrees(s, p) && s.PcOf(0) == Idle;
    OthersUnchanged(s, t);
    hide Inv;
  }

  lemma SlotReleased(s: State, t: Tid, p: nat)
    requires Inv(s) && t != 0 && p < T.SLOTS
    requires (s.PcOf(t).Uncounting? || s.PcOf(t).Disowning? || s.PcOf(t).Releasing?) && s.PcOf(t).p == p
    ensures |Step(s, t).slots| == T.SLOTS && SlotAgrees(Step(s, t), p)
  {
    hide T.SlotAt, T.Valid, T.Full, T.Absent, RefusedWhenFull, CreateStep, FindStep;
    assert Knows(s, t) && SlotAgrees(s, p) && s.PcOf(0) == Idle;
    OthersUnchanged(s, t);
    hide Inv;
  }

  lemma StepKeepsSlots(s: State, t: Tid, p: nat)
    requires Inv(s) && t != 0 && p < T.SLOTS
    ensures |Step(s, t).slots| == T.SLOTS && SlotAgrees(Step(s, t), p)
  {
    hide Inv, Step, SlotAgrees, T.SlotAt;
    var pc := s.PcOf(t);
    if (pc.CreateInit? || pc.CreatePublish?) && p == T.SlotAt(pc.key, pc.i) { SlotCreated(s, t, p); }
    else if !(AtSlot(pc) && pc.p == p) { SlotElsewhere(s, t, p); }
    else if pc.Locking? || pc.Owning? || pc.Counting? { SlotAcquired(s, t, p); }
    else if pc.Checking? || pc.Measuring? { SlotChecked(s, t, p); }
    else { SlotReleased(s, t, p); }
  }

  lemma ApplyKeepsInv(s: State, e: Event)
    requires Inv(s)
    ensures Inv(Apply(s, e))
  {
    if e.Run? && e.t != 0 {
      StepKeepsTable(s, e.t);
      StepKeepsTableLock(s, e.t);
      KnowsAll(s, e.t);
      StepKeepsRefused(s, e.t);
      forall p | 0 <= p < T.SLOTS ensures SlotAgrees(Step(s, e.t), p) {
        StepKeepsSlots(s, e.t, p);
      }
      hide Step, T.Valid, TableLock, Knows, SlotAgrees, RefusedWhenFull;
    } else {
      BeginKeepsInv(s, e);
    }
  }

  lemma BeginKeepsInv(s: State, e: Event)
    requires Inv(s) && (e.Begin? || e.t == 0)
    ensures Inv(Apply(s, e))
  {
    var s' := Apply(s, e);
    if s' != s {
      BeginOutside(s, e);
      hide Apply, State.PcOf, State.Enters, FieldsAgree;
      forall u: Tid ensures Knows(s', u) {
        if u != e.t { KnowsStays(s, s', u); }
      }
      hide Knows, T.Valid;
      forall p | 0 <= p < T.SLOTS ensures SlotAgrees(s', p) {
        assert SlotAgrees(s, p);
        BeginFields(s, e, p);
      }
    }
  }

  /** A call begins outside the table lock and away from every slot. */
  lemma BeginOutside(s: State, e: Event)
    requires e.Begin? && Apply(s, e) != s
    ensures var s' := Apply(s, e);
      && s.PcOf(e.t) == Idle && s'.PcOf(e.t) == WantRead(e.call, e.key) && e.t != 0 && e.key != 0
      && s'.slots == s.slots && s'.readers == s.readers && s'.writer == s.writer
      && (forall u: Tid | u != e.t :: s'.PcOf(u) == s.PcOf(u))
      && forall u: Tid, k :: s'.Enters(u, k) == s.Enters(u, k)
  {
  }

  lemma BeginFields(s: State, e: Event, p: nat)
    requires e.Begin? && Apply(s, e) != s && p < |s.slots| && FieldsAgree(s.slots[p], s.PcOf(s.slots[p].holder), p)
    ensures FieldsAgree(s.slots[p], Apply(s, e).PcOf(s.slots[p].holder), p)
  {
    BeginOutside(s, e);
    hide Apply, State.PcOf;
  }

  /** Every reachable state of every interleaving satisfies the invariant. */
  lemma {:induction false} ReachableInv(events: seq<Event>)
    ensures Inv(ApplyAll(Initial(), events))
  {
    if events == [] {
      InitialInv();
    } else {
      ReachableInv(events[..|events|-1]);
      ApplyKeepsInv(ApplyAll(Initial(), events[..|events|-1]), events[|events|-1]);
    }
  }

  lemma InitialInv()
    ensures Inv(Initial())
  {
    var s := Initial();
    assert forall p | 0 <= p < T.SLOTS :: Keys(s.slots)[p] == 0;
  }

  // ---------- What it means for callers ----------

  /** In every interleaving at most one thread has Enters outstanding on a key that has a slot. */
  lemma MutualExclusion(events: seq<Event>, p: nat, t: Tid, u: Tid)
    requires p < T.SLOTS
    ensures var s := ApplyAll(Initial(), events);
      && p < |s.slots|
      && (s.slots[p].key != 0 && s.Enters(t, s.slots[p].key) > 0 && s.Enters(u, s.slots[p].key) > 0 ==> t == u)
  {
    ReachableInv(events);
    var s := ApplyAll(Initial(), events);
    assert SlotAgrees(s, p);
  }

  /** Whenever the holder of a slot is not entering or leaving it, the slot's depth is its count of outstanding Enters and
      its owner field names it; when nobody holds it the fields are clear. */
  lemma DepthIsOutstanding(events: seq<Event>, p: nat, t: Tid)
    requires p < T.SLOTS
    ensures var s := ApplyAll(Initial(), events);
      && p < |s.slots|
      && (s.slots[p].key != 0 && s.Enters(t, s.slots[p].key) > 0 && !(AtSlot(s.PcOf(t)) && s.PcOf(t).p == p) ==>
            s.slots[p].depth == s.Enters(t, s.slots[p].key) && s.slots[p].owner == t)
      && (s.slots[p].holder == 0 ==> s.slots[p].depth == 0 && s.slots[p].owner == 0)
  {
    ReachableInv(events);
    var s := ApplyAll(Initial(), events);
    assert SlotAgrees(s, p);
  }

  /** A Leave is turned away exactly when its thread has nothing outstanding, by the owner test or by the depth test
      after it, and then it changes no slot and no count. */
  lemma LeaveByStranger(events: seq<Event>, t: Tid)
    requires var pc := ApplyAll(Initial(), events).PcOf(t); t != 0 && (pc.Checking? || pc.Measuring?)
    ensures var s := ApplyAll(Initial(), events);
      var pc := s.PcOf(t);
      && (Step(s, t).PcOf(t) == Idle <==> s.Enters(t, pc.key) == 0)
      && Step(s, t).slots == s.slots
      && forall u: Tid, k :: Step(s, t).Enters(u, k) == s.Enters(u, k)
  {
    ReachableInv(events);
    var s := ApplyAll(Initial(), events);
    assert Knows(s, t);
    assert SlotAgrees(s, s.PcOf(t).p);
  }

  /** The native lock is never released by a thread that does not hold it. */
  lemma ReleaseIsOwn(events: seq<Event>, t: Tid)
    requires t != 0 && ApplyAll(Initial(), events).PcOf(t).Releasing?
    ensures var s := ApplyAll(Initial(), events);
      var p := s.PcOf(t).p;
      p < |s.slots| && s.slots[p].holder == t && s.slots[p].count > 0 && s.Enters(t, s.slots[p].key) == s.slots[p].count
  {
    ReachableInv(events);
    var s := ApplyAll(Initial(), events);
    assert Knows(s, t);
    assert SlotAgrees(s, s.PcOf(t).p);
  }

  lemma {:induction false} RunExtends(s: State, events: seq<Event>)
    requires Inv(s)
    ensures Inv(ApplyAll(s, events)) && T.Extends(Keys(s.slots), Keys(ApplyAll(s, events).slots))
  {
    if events != [] {
      var init, e := events[..|events|-1], events[|events|-1];
      RunExtends(s, init);
      var s1 := ApplyAll(s, init);
      ApplyKeepsInv(s1, e);
      if e.Run? && e.t != 0 { StepKeepsTable(s1, e.t); }
      hide Step, Inv;
    }
  }

  /** Slots are for ever: a key keeps its slot, has no other, and a lookup that ends after it was published finds it. */
  lemma SlotsAreForEver(s: State, events: seq<Event>, p: nat)
    requires Inv(s) && p < T.SLOTS && s.slots[p].key != 0
    ensures var s', k := ApplyAll(s, events), s.slots[p].key;
      && |s'.slots| == T.SLOTS && s'.slots[p].key == k
      && (forall q | 0 <= q < T.SLOTS && s'.slots[q].key == k :: q == p)
      && T.Probe(Keys(s'.slots), k, 0) == Some(p)
  {
    RunExtends(s, events);
    var s', k := ApplyAll(s, events), s.slots[p].key;
    T.ProbeIsLookup(Keys(s'.slots), k, p);
    forall q | 0 <= q < T.SLOTS && s'.slots[q].key == k ensures q == p {
      T.OneSlot(Keys(s'.slots), p, q);
    }
  }

  /** A key turned away by a full table never gets a slot, so no later call on it touches any lock. */
  lemma RefusedForEver(s: State, events: seq<Event>, t: Tid)
    requires Inv(s) && s.PcOf(t).CreateDone? && s.PcOf(t).found == None
    ensures var s', k := ApplyAll(s, events), s.PcOf(t).key;
      T.Absent(Keys(s'.slots), k) && forall u: Tid | AtSlot(s'.PcOf(u)) :: s'.PcOf(u).key != k
  {
    RunExtends(s, events);
    assert Knows(s, t);
    FullStays(Keys(s.slots), Keys(ApplyAll(s, events).slots));
    var s' := ApplyAll(s, events);
    forall u: Tid | AtSlot(s'.PcOf(u)) ensures s'.PcOf(u).key != s.PcOf(t).key {
      assert Knows(s', u);
      assert Keys(s'.slots)[s'.PcOf(u).p] in Keys(s'.slots);
    }
  }
}
