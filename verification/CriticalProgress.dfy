/** Progress of the calls on critical sections: who waits and for whom, and how a call ends that has nobody to wait for. */
module CriticalProgress {
  import opened Code
  import opened CriticalSections
  import T = ShadowTable

  /** The steps a call can still take, waiting apart. */
  function StepsLeft(pc: Pc): nat {
    match pc
    case Idle => 0
    case WantRead(_, _) => 782
    case Lookup(_, _, i) => 525 + Rest(i)
    case LookupDone(_, _, _) => 524
    case WantWrite(_, _) => 523
    case CreateProbe(_, _, i) => 266 + Rest(i)
    case CreateScan(_, _, i) => 9 + Rest(i)
    case CreateInit(_, _, _) => 8
    case CreatePublish(_, _, _) => 7
    case CreateDone(_, _, _) => 6
    case Locking(_, _) => 3
    case Owning(_, _) => 2
    case Counting(_, _) => 1
    case Checking(_, _) => 5
    case Measuring(_, _) => 4
    case Uncounting(_, _) => 3
    case Disowning(_, _) => 2
    case Releasing(_, _) => 1
  }

  function Rest(i: nat): nat { if i <= 256 then 256 - i else 0 }

  /** Another thread has the lock of slot `p`: its Enters on the key are not all left, or one has acquired the lock and
      not yet returned. */
  predicate HasLock(s: State, u: Tid, k: nat, p: nat) {
    s.Enters(u, k) > 0 || ((s.PcOf(u).Owning? || s.PcOf(u).Counting?) && s.PcOf(u).p == p)
  }

  /** What a thread can be waiting for. */
  ghost predicate Waits(s: State, t: Tid) {
    match s.PcOf(t)
    case WantRead(_, _) => exists u: Tid :: Writing(s.PcOf(u))
    case WantWrite(_, _) => exists u: Tid :: Writing(s.PcOf(u)) || Reading(s.PcOf(u))
    case Locking(k, p) => exists u: Tid :: u != t && HasLock(s, u, k, p)
    case _ => false
  }

  // ---------- Waiting ----------

  lemma WriterIs(s: State)
    requires Inv(s)
    ensures s.writer != 0 <==> exists u: Tid :: Writing(s.PcOf(u))
    ensures s.readers != {} <==> exists u: Tid :: Reading(s.PcOf(u))
  {
    if s.writer != 0 { assert Writing(s.PcOf(s.writer)); }
    if u: Tid :| u in s.readers { assert Reading(s.PcOf(u)); }
  }

  /** Somebody else holds a slot's lock exactly when somebody else has it by the callers' own reckoning. */
  lemma HolderIs(s: State, t: Tid, k: nat, p: nat)
    requires Inv(s) && t != 0 && k != 0 && p < T.SLOTS && s.slots[p].key == k
    ensures s.slots[p].holder != 0 && s.slots[p].holder != t <==> exists u: Tid :: u != t && HasLock(s, u, k, p)
  {
    var h := s.slots[p].holder;
    assert SlotAgrees(s, p);
    assert forall u: Tid :: HasLock(s, u, k, p) <==> s.Enters(u, k) + Pending(s.PcOf(u), p) > 0;
    if h != 0 && h != t { assert HasLock(s, h, k, p); }
  }

  lemma LockingWaits(s: State, t: Tid)
    requires Inv(s) && t != 0 && s.PcOf(t).Locking?
    ensures Step(s, t) == s <==> Waits(s, t)
  {
    assert Knows(s, t);
    var k, p := s.PcOf(t).key, s.PcOf(t).p;
    HolderIs(s, t, k, p);
    hide Inv, Knows, T.SlotAt, HasLock, State.Enters;
  }

  lemma TableWaits(s: State, t: Tid)
    requires Inv(s) && t != 0 && (s.PcOf(t).WantRead? || s.PcOf(t).WantWrite?)
    ensures Step(s, t) == s <==> Waits(s, t)
  {
    WriterIs(s);
    hide Inv, Knows, T.SlotAt, State.Enters;
  }

  lemma FindMoves(s: State, t: Tid)
    requires Inv(s) && t != 0 && (Reading(s.PcOf(t)) || s.PcOf(t).WantRead? || s.PcOf(t).WantWrite?)
    ensures Step(s, t) == s || StepsLeft(Step(s, t).PcOf(t)) < StepsLeft(s.PcOf(t))
    ensures Reading(s.PcOf(t)) ==> Step(s, t) != s
  {
    assert Knows(s, t);
    hide Inv, Knows, T.SlotAt, State.Enters, CreateStep, SlotStep;
  }

  lemma CreateMoves(s: State, t: Tid)
    requires Inv(s) && t != 0 && Writing(s.PcOf(t))
    ensures StepsLeft(Step(s, t).PcOf(t)) < StepsLeft(s.PcOf(t))
  {
    WritingFacts(s, t);
    hide Inv, T.SlotAt, State.Enters, FindStep, SlotStep;
  }

  /** What a thread at a slot, or one creating a slot, can rely on. */
  lemma AtSlotFacts(s: State, t: Tid)
    requires Inv(s) && t != 0 && AtSlot(s.PcOf(t))
    ensures var pc := s.PcOf(t);
      && |s.slots| == T.SLOTS && pc.p < T.SLOTS
      && (pc.Uncounting? ==> s.slots[pc.p].depth > 0)
      && (pc.Releasing? ==> s.slots[pc.p].count > 0)
  {
    assert Knows(s, t);
    assert SlotAgrees(s, s.PcOf(t).p);
    hide T.SlotAt, State.Enters;
  }

  lemma WritingFacts(s: State, t: Tid)
    requires Inv(s) && Writing(s.PcOf(t))
    ensures |s.slots| == T.SLOTS && s.PcOf(t).call != Leave && (s.PcOf(t).CreateProbe? || s.PcOf(t).CreateScan? ==> s.PcOf(t).i <= T.SLOTS)
  {
    assert Knows(s, t);
  }

  lemma SlotMoves(s: State, t: Tid)
    requires Inv(s) && t != 0 && AtSlot(s.PcOf(t))
    ensures Step(s, t) == s || StepsLeft(Step(s, t).PcOf(t)) < StepsLeft(s.PcOf(t))
    ensures Step(s, t) == s ==> s.PcOf(t).Locking?
  {
    AtSlotFacts(s, t);
    hide Inv, T.SlotAt, State.Enters, FindStep, CreateStep;
  }

  /** A thread in a call stays where it is exactly when it waits for another; any other step brings its call nearer its
      end, whatever the other threads do in between. */
  lemma StepOrWait(s: State, t: Tid)
    requires Inv(s) && t != 0 && s.PcOf(t) != Idle
    ensures Step(s, t) == s <==> Waits(s, t)
    ensures Step(s, t) != s ==> StepsLeft(Step(s, t).PcOf(t)) < StepsLeft(s.PcOf(t)) <= 782
  {
    hide Inv, Step, Waits;
    if AtSlot(s.PcOf(t)) {
      SlotMoves(s, t);
      if s.PcOf(t).Locking? { LockingWaits(s, t); } else { NoWait(s, t); }
    } else if Writing(s.PcOf(t)) {
      CreateMoves(s, t);
      NoWait(s, t);
    } else {
      FindMoves(s, t);
      if Reading(s.PcOf(t)) { NoWait(s, t); } else { TableWaits(s, t); }
    }
  }

  lemma NoWait(s: State, t: Tid)
    requires !s.PcOf(t).WantRead? && !s.PcOf(t).WantWrite? && !s.PcOf(t).Locking?
    ensures !Waits(s, t)
  {
  }

  // ---------- How a call ends ----------

  /** The Enters of `t` on `k` there will be outstanding once its call has returned: one more after an Enter, one less,
      if there is one, after a Leave. */
  function Due(s: State, t: Tid, k: nat): nat {
    var pc, n := s.PcOf(t), s.Enters(t, k);
    if Entering(pc) then n + 1 else if Leaving(pc) && n > 0 then n - 1 else n
  }

  predicate Entering(pc: Pc) { pc.Locking? || pc.Owning? || pc.Counting? || (Finding(pc) && pc.call == Enter) }

  predicate Leaving(pc: Pc) {
    pc.Checking? || pc.Measuring? || pc.Uncounting? || pc.Disowning? || pc.Releasing? || (Finding(pc) && pc.call == Leave)
  }

  predicate Finding(pc: Pc) { pc != Idle && !AtSlot(pc) }

  lemma FindDue(s: State, t: Tid)
    requires Inv(s) && t != 0 && Finding(s.PcOf(t)) && !Writing(s.PcOf(t))
    ensures var pc, pc' := s.PcOf(t), Step(s, t).PcOf(t);
      Due(Step(s, t), t, pc.key) == Due(s, t, pc.key) && (pc' == Idle || pc'.key == pc.key)
  {
    assert Knows(s, t);
    hide Inv, Knows, T.SlotAt, CreateStep, SlotStep;
  }

  /** A thread creating a slot goes on creating it for the same call, until it gives the table lock back. */
  lemma CreateGoesOn(s: State, t: Tid)
    requires Inv(s) && t != 0 && Writing(s.PcOf(t)) && !s.PcOf(t).CreateDone?
    ensures var pc, pc' := s.PcOf(t), Step(s, t).PcOf(t);
      Writing(pc') && pc'.call == pc.call && pc'.key == pc.key && Step(s, t).enters == s.enters
  {
    WritingFacts(s, t);
    hide Inv, T.SlotAt, FindStep, SlotStep;
  }

  lemma CreateEnds(s: State, t: Tid)
    requires Inv(s) && t != 0 && s.PcOf(t).CreateDone?
    ensures var pc, s' := s.PcOf(t), Step(s, t);
      if pc.call == Initialize then s'.PcOf(t) == Idle && s'.enters == s.enters
      else if pc.found.Some? then s'.PcOf(t) == Locking(pc.key, pc.found.value) && s'.enters == s.enters
      else s'.PcOf(t) == Idle && s'.Enters(t, pc.key) == s.Enters(t, pc.key) + 1
  {
    WritingFacts(s, t);
    hide Inv, T.SlotAt, FindStep, SlotStep;
  }

  lemma CreateDue(s: State, t: Tid)
    requires Inv(s) && t != 0 && Writing(s.PcOf(t))
    ensures var pc, pc' := s.PcOf(t), Step(s, t).PcOf(t);
      Due(Step(s, t), t, pc.key) == Due(s, t, pc.key) && (pc' == Idle || pc'.key == pc.key)
  {
    WritingFacts(s, t);
    if s.PcOf(t).CreateDone? { CreateEnds(s, t); } else { CreateGoesOn(s, t); }
    hide Inv, Step;
  }

  lemma SlotDue(s: State, t: Tid)
    requires Inv(s) && t != 0 && AtSlot(s.PcOf(t))
    ensures var pc, pc' := s.PcOf(t), Step(s, t).PcOf(t);
      Due(Step(s, t), t, pc.key) == Due(s, t, pc.key) && (pc' == Idle || pc'.key == pc.key)
  {
    AtSlotFacts(s, t);
    hide Inv, T.SlotAt, FindStep, CreateStep;
  }

  lemma StepKeepsDue(s: State, t: Tid)
    requires Inv(s) && t != 0 && s.PcOf(t) != Idle
    ensures var pc, pc' := s.PcOf(t), Step(s, t).PcOf(t);
      Due(Step(s, t), t, pc.key) == Due(s, t, pc.key) && (pc' == Idle || pc'.key == pc.key)
  {
    hide Inv, Step, Due;
    if AtSlot(s.PcOf(t)) { SlotDue(s, t); } else if Writing(s.PcOf(t)) { CreateDue(s, t); } else { FindDue(s, t); }
  }

  /** The thread has Enters on the key outstanding, or has just acquired its lock. */
  predicate Has(s: State, u: Tid, k: nat) {
    s.Enters(u, k) > 0 || ((s.PcOf(u).Owning? || s.PcOf(u).Counting?) && s.PcOf(u).key == k)
  }

  ghost predicate OtherReads(s: State, t: Tid) { exists u: Tid :: u != t && Reading(s.PcOf(u)) }

  ghost predicate OtherWrites(s: State, t: Tid) { exists u: Tid :: u != t && Writing(s.PcOf(u)) }

  ghost predicate OtherHas(s: State, t: Tid, k: nat) { exists u: Tid :: u != t && Has(s, u, k) }

  /** The call will not ask for the table lock to write. */
  predicate WritesNot(pc: Pc) { Leaving(pc) || AtSlot(pc) || pc.WantRead? || pc.Lookup? || (pc.LookupDone? && pc.found.Some?) }

  /** Nobody is in the way of the call that `t` is in: no other thread creates a slot; none looks one up if `t` may have
      to create one; and none has the lock `t` is entering. */
  ghost predicate Clear(s: State, t: Tid, k: nat)
    requires |s.slots| == T.SLOTS
  {
    var pc := s.PcOf(t);
    && !OtherWrites(s, t)
    && (OtherReads(s, t) ==> WritesNot(pc) && (Leaving(pc) || AtSlot(pc) || k in Keys(s.slots)))
    && (Entering(pc) && k in Keys(s.slots) ==> !OtherHas(s, t, k))
  }

  lemma WantMoves(s: State, t: Tid)
    requires Inv(s) && t != 0 && (s.PcOf(t).WantRead? || s.PcOf(t).WantWrite?) && Clear(s, t, s.PcOf(t).key)
    ensures !Waits(s, t)
  {
    assert Knows(s, t);
    hide Inv, Knows, Has, State.Enters;
  }

  lemma LockingMoves(s: State, t: Tid)
    requires Inv(s) && t != 0 && s.PcOf(t).Locking? && Clear(s, t, s.PcOf(t).key)
    ensures !Waits(s, t)
  {
    var pc := s.PcOf(t);
    assert Knows(s, t);
    assert Keys(s.slots)[pc.p] == pc.key;
    forall u: Tid | u != t ensures !HasLock(s, u, pc.key, pc.p) {
      assert Knows(s, u);
      assert !Has(s, u, pc.key);
    }
    hide Inv, Knows, Has, State.Enters, HasLock;
  }

  lemma ClearMoves(s: State, t: Tid)
    requires Inv(s) && t != 0 && s.PcOf(t) != Idle && Clear(s, t, s.PcOf(t).key)
    ensures Step(s, t) != s
  {
    hide *;
    StepOrWait(s, t);
    var pc := s.PcOf(t);
    if pc.WantRead? || pc.WantWrite? { WantMoves(s, t); } else if pc.Locking? { LockingMoves(s, t); } else { NoWait(s, t); }
  }

  /** The other threads are, for a caller, as they were. */
  lemma OthersAsWere(s: State, t: Tid, k: nat)
    requires Inv(s) && t != 0
    ensures var s' := Step(s, t);
      && (OtherReads(s', t) <==> OtherReads(s, t))
      && (OtherWrites(s', t) <==> OtherWrites(s, t))
      && (OtherHas(s', t, k) <==> OtherHas(s, t, k))
  {
    OthersUnchanged(s, t);
    hide Inv, Step, State.PcOf, State.Enters;
    assert forall u: Tid | u != t :: Has(Step(s, t), u, k) == Has(s, u, k);
  }

  /** Where the key gets its slot, nobody else had Enters outstanding on it. */
  lemma NewSlotIsFree(s: State, t: Tid, k: nat)
    requires Inv(s) && t != 0 && k !in Keys(s.slots) && |Step(s, t).slots| == T.SLOTS && k in Keys(Step(s, t).slots)
    ensures !OtherHas(s, t, k)
  {
    KeysAfter(s, t);
    assert Knows(s, t);
    var pc := s.PcOf(t);
    EmptyNotFull(Keys(s.slots), pc.key, pc.i);
    forall u: Tid | u != t ensures !Has(s, u, k) {
      assert Knows(s, u);
    }
  }

  /** A thread in a call that goes on neither begins to write nor turns from leaving to entering, and finds a key with
      a slot. */
  ghost predicate OnCourse(s: State, pc: Pc, pc': Pc)
    requires |s.slots| == T.SLOTS && pc != Idle
  {
    && (Leaving(pc) <==> Leaving(pc')) && (Entering(pc) <==> Entering(pc'))
    && (AtSlot(pc) ==> AtSlot(pc'))
    && (WritesNot(pc) && pc.key in Keys(s.slots) ==> WritesNot(pc'))
  }

  lemma FindStays(s: State, t: Tid)
    requires Inv(s) && t != 0 && Finding(s.PcOf(t)) && !Writing(s.PcOf(t)) && Step(s, t).PcOf(t) != Idle
    ensures OnCourse(s, s.PcOf(t), Step(s, t).PcOf(t))
  {
    assert Knows(s, t);
    var pc := s.PcOf(t);
    if pc.Lookup? && (pc.i == T.SLOTS || Keys(s.slots)[T.SlotAt(pc.key, pc.i)] == 0) {
      T.MissProvesAbsent(Keys(s.slots), pc.key, pc.i);
    }
    hide Inv, Knows, T.SlotAt, State.Enters, T.Valid, T.Passed, SlotStep, CreateStep;
  }

  lemma CreateStays(s: State, t: Tid)
    requires Inv(s) && t != 0 && Writing(s.PcOf(t)) && Step(s, t).PcOf(t) != Idle
    ensures OnCourse(s, s.PcOf(t), Step(s, t).PcOf(t))
  {
    WritingFacts(s, t);
    if s.PcOf(t).CreateDone? { CreateEnds(s, t); } else { CreateGoesOn(s, t); }
    hide Inv, Step, State.Enters;
  }

  lemma SlotStays(s: State, t: Tid)
    requires Inv(s) && t != 0 && AtSlot(s.PcOf(t)) && Step(s, t).PcOf(t) != Idle
    ensures OnCourse(s, s.PcOf(t), Step(s, t).PcOf(t))
  {
    AtSlotFacts(s, t);
    hide Inv, T.SlotAt, State.Enters, FindStep, CreateStep;
  }

  lemma StaysOnCourse(s: State, t: Tid)
    requires Inv(s) && t != 0 && s.PcOf(t) != Idle && Step(s, t).PcOf(t) != Idle
    ensures OnCourse(s, s.PcOf(t), Step(s, t).PcOf(t))
  {
    hide Step, OnCourse;
    if AtSlot(s.PcOf(t)) { SlotStays(s, t); } else if Writing(s.PcOf(t)) { CreateStays(s, t); } else { FindStays(s, t); }
  }

  lemma SameSide(s: State, pc: Pc, pc': Pc)
    requires |s.slots| == T.SLOTS && pc != Idle && OnCourse(s, pc, pc')
    ensures Leaving(pc) <==> Leaving(pc')
  {
  }

  lemma StepKeepsClear(s: State, t: Tid)
    requires Inv(s) && t != 0 && s.PcOf(t) != Idle && Clear(s, t, s.PcOf(t).key) && Step(s, t).PcOf(t) != Idle
    ensures |Step(s, t).slots| == T.SLOTS && Clear(Step(s, t), t, s.PcOf(t).key)
  {
    var k := s.PcOf(t).key;
    assert Knows(s, t);
    OthersAsWere(s, t, k);
    StaysOnCourse(s, t);
    StepKeepsTable(s, t);
    if k in Keys(s.slots) {
      KeyStays(Keys(s.slots), Keys(Step(s, t).slots), k);
    } else if k in Keys(Step(s, t).slots) {
      NewSlotIsFree(s, t, k);
    }
    hide Inv, Step, State.PcOf, OtherReads, OtherWrites, OtherHas, Entering, Leaving, AtSlot, WritesNot, T.Extends, T.Valid;
  }

  lemma KeyStays(keys: T.Keys, keys': T.Keys, k: nat)
    requires T.Extends(keys, keys') && k in keys && k != 0
    ensures k in keys'
  {
    var p :| 0 <= p < |keys| && keys[p] == k;
    assert keys'[p] == k;
  }

  /** `n` steps of one thread, with nobody else moving. */
  function Alone(t: Tid, n: nat): (r: seq<Event>)
    ensures |r| == n && forall i | 0 <= i < n :: r[i] == Run(t)
  {
    seq(n, i => Run(t))
  }

  lemma {:induction false} FirstThen(s: State, e: Event, rest: seq<Event>)
    ensures ApplyAll(s, [e] + rest) == ApplyAll(Apply(s, e), rest)
  {
    hide Apply;
    var all := [e] + rest;
    if rest == [] {
      assert all[..0] == [];
    } else {
      assert all[..|rest|] == [e] + rest[..|rest| - 1];
      FirstThen(s, e, rest[..|rest| - 1]);
    }
  }

  /** Only `t` has moved, and only its count on `k` can have changed. */
  ghost predicate OnlyMoved(s: State, s': State, t: Tid, k: nat) {
    && (forall u: Tid | u != t :: s'.PcOf(u) == s.PcOf(u))
    && forall u: Tid, m: nat | u != t || m != k :: s'.Enters(u, m) == s.Enters(u, m)
  }

  lemma StepOnlyMoves(s: State, t: Tid)
    requires Inv(s) && t != 0 && s.PcOf(t) != Idle
    ensures OnlyMoved(s, Step(s, t), t, s.PcOf(t).key)
  {
    OthersUnchanged(s, t);
    forall u: Tid, m: nat | u != t || m != s.PcOf(t).key ensures Step(s, t).Enters(u, m) == s.Enters(u, m) {
      StepEnters(s, t, u, m);
    }
    hide Inv, Step, State.Enters, State.PcOf;
  }

  /** A call other than Leave returns when its key has a slot or there is none to be had. */
  lemma ReturnsWithSlot(s: State, t: Tid)
    requires Inv(s) && t != 0 && s.PcOf(t) != Idle && !Leaving(s.PcOf(t)) && Step(s, t).PcOf(t) == Idle
    ensures HasSlot(Step(s, t), s.PcOf(t).key)
  {
    assert Knows(s, t);
    KeysAfter(s, t);
    var pc := s.PcOf(t);
    var p: nat := if pc.LookupDone? || pc.CreateDone? then (if pc.found.Some? then pc.found.value else 0) else if AtSlot(pc) then pc.p else 0;
    assert p < T.SLOTS ==> Keys(s.slots)[p] in Keys(s.slots);
    hide Inv, Knows, T.SlotAt, State.Enters;
  }

  ghost predicate HasSlot(s: State, k: nat) { k in Keys(s.slots) || 0 !in Keys(s.slots) }

  lemma AloneFirst(s: State, t: Tid, m: nat)
    ensures ApplyAll(s, Alone(t, m + 1)) == ApplyAll(Apply(s, Run(t)), Alone(t, m))
  {
    hide Apply, ApplyAll;
    FirstThen(s, Run(t), Alone(t, m));
    assert Alone(t, m + 1) == [Run(t)] + Alone(t, m);
  }

  /** A call with nobody in its way returns, with the outstanding Enters due. */
  lemma {:induction false} CallReturns(s: State, t: Tid) returns (n: nat)
    requires Inv(s) && t != 0 && s.PcOf(t) != Idle && Clear(s, t, s.PcOf(t).key)
    ensures n <= StepsLeft(s.PcOf(t))
    ensures Returned(s, ApplyAll(s, Alone(t, n)), t, s.PcOf(t).key)
    decreases StepsLeft(s.PcOf(t))
  {
    hide *;
    CallStep(s, t);
    var s1 := Step(s, t);
    if s1.PcOf(t) == Idle {
      n := 1;
      AloneOnce(s, t);
    } else {
      var m := CallReturns(s1, t);
      n := m + 1;
      AloneFirst(s, t, m);
      ReturnedLater(s, s1, ApplyAll(s1, Alone(t, m)), t, s.PcOf(t).key);
    }
  }

  /** From a call in `s`, thread `t` has returned. */
  ghost predicate Returned(s: State, s': State, t: Tid, k: nat) {
    && Inv(s') && s'.PcOf(t) == Idle && s'.Enters(t, k) == Due(s, t, k) && OnlyMoved(s, s', t, k)
    && (Leaving(s.PcOf(t)) || HasSlot(s', k))
  }

  lemma CallStep(s: State, t: Tid)
    requires Inv(s) && t != 0 && s.PcOf(t) != Idle && Clear(s, t, s.PcOf(t).key)
    ensures var s1, k := Step(s, t), s.PcOf(t).key;
      && Apply(s, Run(t)) == s1 && Inv(s1)
      && StepsLeft(s1.PcOf(t)) < StepsLeft(s.PcOf(t))
      && (if s1.PcOf(t) == Idle then Returned(s, s1, t, k)
          else s1.PcOf(t).key == k && Clear(s1, t, k) && Due(s, t, k) == Due(s1, t, k) && OnlyMoved(s, s1, t, k)
               && (Leaving(s.PcOf(t)) <==> Leaving(s1.PcOf(t))))
  {
    var s1, k := Step(s, t), s.PcOf(t).key;
    hide *;
    StepOrWait(s, t);
    ClearMoves(s, t);
    StepKeepsDue(s, t);
    StepOnlyMoves(s, t);
    RunKeepsInv(s, t);
    if s1.PcOf(t) == Idle {
      DueWhenIdle(s1, t, k);
      if !Leaving(s.PcOf(t)) { ReturnsWithSlot(s, t); }
      ReturnedNow(s, s1, t, k);
    } else {
      StepKeepsClear(s, t);
      StaysOnCourse(s, t);
      SameSide(s, s.PcOf(t), s1.PcOf(t));
    }
  }

  lemma ReturnedNow(s: State, s': State, t: Tid, k: nat)
    requires Inv(s') && s'.PcOf(t) == Idle && s'.Enters(t, k) == Due(s, t, k) && OnlyMoved(s, s', t, k)
    requires Leaving(s.PcOf(t)) || HasSlot(s', k)
    ensures Returned(s, s', t, k)
  {
    hide Inv, Due, OnlyMoved, HasSlot, Leaving, State.Enters, State.PcOf;
  }

  lemma ReturnedLater(s: State, s1: State, s2: State, t: Tid, k: nat)
    requires Returned(s1, s2, t, k) && OnlyMoved(s, s1, t, k) && Due(s, t, k) == Due(s1, t, k)
    requires Leaving(s.PcOf(t)) <==> Leaving(s1.PcOf(t))
    ensures Returned(s, s2, t, k)
  {
    OnlyMovedTwice(s, s1, s2, t, k);
    hide Inv, Due, OnlyMoved, HasSlot, Leaving, State.Enters, State.PcOf;
  }

  lemma AloneOnce(s: State, t: Tid)
    requires t != 0
    ensures ApplyAll(s, Alone(t, 1)) == Step(s, t)
  {
    hide Step;
    assert Alone(t, 1)[..0] == [];
  }

  lemma DueWhenIdle(s: State, t: Tid, k: nat)
    requires s.PcOf(t) == Idle
    ensures Due(s, t, k) == s.Enters(t, k)
  {
  }

  lemma RunKeepsInv(s: State, t: Tid)
    requires Inv(s) && t != 0
    ensures Inv(Step(s, t)) && Apply(s, Run(t)) == Step(s, t)
  {
    ApplyKeepsInv(s, Run(t));
    hide Inv, Step;
  }

  lemma OnlyMovedTwice(s: State, s1: State, s2: State, t: Tid, k: nat)
    requires OnlyMoved(s, s1, t, k) && OnlyMoved(s1, s2, t, k)
    ensures OnlyMoved(s, s2, t, k)
  {
    hide State.PcOf, State.Enters;
  }

  /** A call begun by an idle thread. */
  lemma FromIdle(s: State, t: Tid, c: Call, k: nat) returns (n: nat)
    requires Inv(s) && t != 0 && k != 0 && s.PcOf(t) == Idle
    requires !OtherWrites(s, t) && (OtherReads(s, t) ==> c == Leave || k in Keys(s.slots))
    requires c == Enter && k in Keys(s.slots) ==> !OtherHas(s, t, k)
    ensures n <= 782
    ensures var s' := ApplyAll(Apply(s, Begin(t, c, k)), Alone(t, n));
      && Inv(s') && s'.PcOf(t) == Idle && OnlyMoved(s, s', t, k) && (c == Leave || HasSlot(s', k))
      && s'.Enters(t, k) == (if c == Enter then s.Enters(t, k) + 1 else if c == Leave && s.Enters(t, k) > 0 then s.Enters(t, k) - 1 else s.Enters(t, k))
  {
    var e := Begin(t, c, k);
    var s1 := Apply(s, e);
    ApplyKeepsInv(s, e);
    BegunIsClear(s, t, c, k);
    hide Inv, Apply, Clear, OtherWrites, OtherReads, OtherHas;
    n := CallReturns(s1, t);
    OnlyMovedTwice(s, s1, ApplyAll(s1, Alone(t, n)), t, k);
  }

  lemma BegunIsClear(s: State, t: Tid, c: Call, k: nat)
    requires |s.slots| == T.SLOTS && t != 0 && k != 0 && s.PcOf(t) == Idle
    requires !OtherWrites(s, t) && (OtherReads(s, t) ==> c == Leave || k in Keys(s.slots))
    requires c == Enter && k in Keys(s.slots) ==> !OtherHas(s, t, k)
    ensures var s1 := Apply(s, Begin(t, c, k));
      && |s1.slots| == T.SLOTS && s1.PcOf(t) == WantRead(c, k) && Clear(s1, t, k) && OnlyMoved(s, s1, t, k)
      && s1.Enters(t, k) == s.Enters(t, k)
  {
    var s1 := Apply(s, Begin(t, c, k));
    BeginOutside(s, Begin(t, c, k));
    hide Apply, State.PcOf, State.Enters;
    assert forall u: Tid | u != t :: Has(s1, u, k) == Has(s, u, k);
  }

  // ---------- What it means for callers ----------

  /** In every reachable state a thread in a call stays where it is exactly when it waits for another thread, and for an
      Enter at its lock that is one with Enters outstanding on the key or one that has just acquired the lock. */
  lemma WaitsExactly(events: seq<Event>, t: Tid)
    requires t != 0 && ApplyAll(Initial(), events).PcOf(t) != Idle
    ensures var s := ApplyAll(Initial(), events);
      && (Step(s, t) == s <==> Waits(s, t))
      && (Step(s, t) != s ==> StepsLeft(Step(s, t).PcOf(t)) < StepsLeft(s.PcOf(t)) <= 782)
  {
    ReachableInv(events);
    StepOrWait(ApplyAll(Initial(), events), t);
  }

  /** A call is held up only by a thread that can move, or by one that has not left the section: the table lock alone
      never brings the callers to a halt. */
  lemma HeldUpBy(events: seq<Event>, t: Tid) returns (u: Tid)
    requires t != 0 && ApplyAll(Initial(), events).PcOf(t) != Idle
    ensures var s := ApplyAll(Initial(), events);
      || Step(s, t) != s
      || (u != 0 && u != t && Step(s, u) != s)
      || (u != 0 && u != t && s.PcOf(t).Locking? && s.Enters(u, s.PcOf(t).key) > 0)
  {
    ReachableInv(events);
    var s := ApplyAll(Initial(), events);
    hide *;
    StepOrWait(s, t);
    if Waits(s, t) {
      u := Blocker(s, t);
    } else {
      u := 0;
    }
  }

  lemma Blocker(s: State, t: Tid) returns (u: Tid)
    requires Inv(s) && t != 0 && Waits(s, t)
    ensures u != 0 && u != t
    ensures Step(s, u) != s || (s.PcOf(t).Locking? && s.Enters(u, s.PcOf(t).key) > 0)
  {
    if s.PcOf(t).Locking? {
      u := LockBlocker(s, t);
    } else {
      u := TableBlocker(s, t);
    }
    hide *;
    if !(s.PcOf(t).Locking? && s.Enters(u, s.PcOf(t).key) > 0) {
      NoWait(s, u);
      StepOrWait(s, u);
    }
  }

  lemma LockBlocker(s: State, t: Tid) returns (u: Tid)
    requires Inv(s) && t != 0 && Waits(s, t) && s.PcOf(t).Locking?
    ensures u != 0 && u != t && (s.Enters(u, s.PcOf(t).key) > 0 || s.PcOf(u).Owning? || s.PcOf(u).Counting?)
  {
    var k, p := s.PcOf(t).key, s.PcOf(t).p;
    assert Knows(s, t) && SlotAgrees(s, p);
    u :| u != t && HasLock(s, u, k, p);
    assert s.Enters(u, k) + Pending(s.PcOf(u), p) > 0;
    hide Inv, State.Enters, State.PcOf;
  }

  lemma TableBlocker(s: State, t: Tid) returns (u: Tid)
    requires Inv(s) && t != 0 && Waits(s, t) && !s.PcOf(t).Locking?
    ensures u != 0 && u != t && (Writing(s.PcOf(u)) || Reading(s.PcOf(u)))
  {
    assert s.PcOf(0) == Idle;
    u :| Writing(s.PcOf(u)) || Reading(s.PcOf(u));
    hide Inv;
  }

  /** An Enter that finds nobody creating a slot, nobody looking one up while the key has none, and nobody else in the
      section returns when run alone, within 782 steps; then the thread has one Enter more outstanding, and its
      slot's lock, unless the table is full without the key. */
  lemma EnterReturns(events: seq<Event>, t: Tid, k: nat) returns (n: nat)
    requires t != 0 && k != 0
    requires var s := ApplyAll(Initial(), events);
      && s.PcOf(t) == Idle
      && (forall u: Tid :: !Writing(s.PcOf(u)))
      && (forall u: Tid :: Reading(s.PcOf(u)) ==> k in Keys(s.slots))
      && (k in Keys(s.slots) ==> forall u: Tid | u != t :: s.Enters(u, k) == 0 && !((s.PcOf(u).Owning? || s.PcOf(u).Counting?) && s.PcOf(u).key == k))
    ensures n <= 782
    ensures var s := ApplyAll(Initial(), events);
      var s' := ApplyAll(Apply(s, Begin(t, Enter, k)), Alone(t, n));
      && s'.PcOf(t) == Idle && s'.Enters(t, k) == s.Enters(t, k) + 1 && OnlyMoved(s, s', t, k)
      && |s'.slots| == 256
      && (if k in Keys(s'.slots) then OwnsSlot(s', t, k, s'.Enters(t, k)) else 0 !in Keys(s'.slots))
  {
    ReachableInv(events);
    var s := ApplyAll(Initial(), events);
    n := FromIdle(s, t, Enter, k);
    FreshFromTable(ApplyAll(Apply(s, Begin(t, Enter, k)), Alone(t, n)), t, k);
  }

  /** The key's slot is held by `t` and entered `n` times. */
  ghost predicate OwnsSlot(s: State, t: Tid, k: nat, n: nat) {
    exists p: nat :: p < |s.slots| && s.slots[p] == Slot(k, t, n, t, n)
  }

  lemma FreshFromTable(s: State, t: Tid, k: nat)
    requires Inv(s) && t != 0 && k != 0 && s.PcOf(t) == Idle && s.Enters(t, k) > 0
    ensures if k in Keys(s.slots) then OwnsSlot(s, t, k, s.Enters(t, k)) else 0 !in Keys(s.slots)
  {
    if k in Keys(s.slots) {
      var p :| 0 <= p < T.SLOTS && Keys(s.slots)[p] == k;
      assert SlotAgrees(s, p);
      assert s.slots[p] == Slot(k, t, s.Enters(t, k), t, s.Enters(t, k));
    }
    hide Inv, State.Enters, State.PcOf;
  }

  /** A thread that is in a section may enter it again: with nobody at the table it is back at once, one Enter deeper. */
  lemma EnterAgain(events: seq<Event>, t: Tid, k: nat) returns (n: nat)
    requires t != 0 && k != 0
    requires var s := ApplyAll(Initial(), events);
      && s.PcOf(t) == Idle && s.Enters(t, k) > 0
      && (forall u: Tid :: !Writing(s.PcOf(u)))
      && (forall u: Tid :: Reading(s.PcOf(u)) ==> k in Keys(s.slots))
    ensures n <= 782
    ensures var s := ApplyAll(Initial(), events);
      var s' := ApplyAll(Apply(s, Begin(t, Enter, k)), Alone(t, n));
      s'.PcOf(t) == Idle && s'.Enters(t, k) == s.Enters(t, k) + 1
  {
    ReachableInv(events);
    var s := ApplyAll(Initial(), events);
    if k in Keys(s.slots) { NobodyElseHas(s, t, k); }
    n := EnterReturns(events, t, k);
  }

  lemma NobodyElseHas(s: State, t: Tid, k: nat)
    requires Inv(s) && t != 0 && k != 0 && k in Keys(s.slots) && s.Enters(t, k) > 0
    ensures forall u: Tid | u != t :: s.Enters(u, k) == 0 && !((s.PcOf(u).Owning? || s.PcOf(u).Counting?) && s.PcOf(u).key == k)
  {
    var p :| 0 <= p < T.SLOTS && Keys(s.slots)[p] == k;
    assert SlotAgrees(s, p);
    forall u: Tid | u != t ensures s.Enters(u, k) == 0 && !((s.PcOf(u).Owning? || s.PcOf(u).Counting?) && s.PcOf(u).key == k) {
      assert Knows(s, u);
      if (s.PcOf(u).Owning? || s.PcOf(u).Counting?) && s.PcOf(u).key == k {
        T.OneSlot(Keys(s.slots), p, s.PcOf(u).p);
      }
    }
  }

  lemma Freed(s: State, k: nat)
    requires Inv(s) && k != 0 && k in Keys(s.slots)
    requires forall u: Tid :: s.Enters(u, k) == 0 && !((s.PcOf(u).Owning? || s.PcOf(u).Counting?) && s.PcOf(u).key == k)
    ensures OwnsSlot(s, 0, k, 0)
  {
    var p :| 0 <= p < T.SLOTS && Keys(s.slots)[p] == k;
    assert SlotAgrees(s, p) && Knows(s, s.slots[p].holder);
    assert s.slots[p] == Slot(k, 0, 0, 0, 0);
  }

  /** A Leave that finds nobody creating a slot returns when run alone, whoever is in the section; the last one of a thread
      that was in leaves the section to anybody: its lock is held by nobody. */
  lemma LeaveReturns(events: seq<Event>, t: Tid, k: nat) returns (n: nat)
    requires t != 0 && k != 0
    requires var s := ApplyAll(Initial(), events);
      s.PcOf(t) == Idle && forall u: Tid :: !Writing(s.PcOf(u))
    ensures n <= 782
    ensures var s := ApplyAll(Initial(), events);
      var s' := ApplyAll(Apply(s, Begin(t, Leave, k)), Alone(t, n));
      && s'.PcOf(t) == Idle && OnlyMoved(s, s', t, k)
      && s'.Enters(t, k) == (if s.Enters(t, k) == 0 then 0 else s.Enters(t, k) - 1)
      && (s.Enters(t, k) == 1 && k in Keys(s.slots) ==> OwnsSlot(s', 0, k, 0))
  {
    ReachableInv(events);
    var s := ApplyAll(Initial(), events);
    n := FromIdle(s, t, Leave, k);
    if s.Enters(t, k) == 1 && k in Keys(s.slots) {
      NobodyElseHas(s, t, k);
      var s' := ApplyAll(Apply(s, Begin(t, Leave, k)), Alone(t, n));
      RunExtends(s, [Begin(t, Leave, k)] + Alone(t, n));
      FirstThen(s, Begin(t, Leave, k), Alone(t, n));
      Freed(s', k);
    }
  }

  /** An Initialize that finds nobody at the table returns when run alone, with a slot for the key unless the table is
      full, and is no Enter. */
  lemma InitializeReturns(events: seq<Event>, t: Tid, k: nat) returns (n: nat)
    requires t != 0 && k != 0
    requires var s := ApplyAll(Initial(), events);
      s.PcOf(t) == Idle && forall u: Tid :: !Writing(s.PcOf(u)) && (Reading(s.PcOf(u)) ==> k in Keys(s.slots))
    ensures n <= 782
    ensures var s := ApplyAll(Initial(), events);
      var s' := ApplyAll(Apply(s, Begin(t, Initialize, k)), Alone(t, n));
      && s'.PcOf(t) == Idle && OnlyMoved(s, s', t, k) && s'.Enters(t, k) == s.Enters(t, k)
      && (k in Keys(s'.slots) || 0 !in Keys(s'.slots))
  {
    ReachableInv(events);
    n := FromIdle(ApplyAll(Initial(), events), t, Initialize, k);
  }
}
