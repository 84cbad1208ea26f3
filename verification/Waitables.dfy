/** Waitable objects of the portability layer: events, semaphores, mutexes and threads under interleaved waits and
    signals.

    An object's lock is held from one wait on its condition variable to the next, so the steps of an interleaving are
    the stretches of code in between. */
module Waitables {
  type Tid = nat

  datatype Kind = Event(manual: bool) | Semaphore | Mutex | Thread | Other

  /** The fields of an object; owner 0 is nobody, and a maximum of 0 means none. */
  datatype Object = Object(kind: Kind, signaled: bool, count: int, max: int, owner: Tid, recursion: int, exited: bool) {
    predicate Ready(t: Tid) {
      match kind
      case Event(_) => signaled
      case Thread => exited
      case Semaphore => count > 0
      case Mutex => owner == 0 || owner == t
      case Other => true
    }

    /** What a wait that ends takes. */
    function Taken(t: Tid): Object {
      match kind
      case Event(manual) => if manual then this else this.(signaled := false)
      case Semaphore => this.(count := count - 1)
      case Mutex => this.(owner := t, recursion := recursion + 1)
      case _ => this
    }

    function Released(n: int): Object {
      this.(count := if max != 0 && count + n > max then max else count + n)
    }

    function Unlocked(t: Tid): Object {
      if owner != t then this
      else if recursion - 1 <= 0 then this.(owner := 0, recursion := 0)
      else this.(recursion := recursion - 1)
    }
  }

  // ---------- The object ----------

  class Waitable {
    const kind: Kind
    const max: int
    var signaled: bool
    var count: int
    var owner: Tid
    var recursion: int
    var exited: bool

    ghost function View(): Object
      reads this
    {
      Object(kind, signaled, count, max, owner, recursion, exited)
    }

    constructor Create(o: Object)
      ensures View() == o
    {
      kind, max, signaled, count, owner, recursion, exited :=
        o.kind, o.max, o.signaled, o.count, o.owner, o.recursion, o.exited;
    }

    /** One pass of the wait loop with the lock held: takes the object if it is ready. */
    method Try(t: Tid) returns (ready: bool)
      modifies this
      ensures ready == old(View()).Ready(t)
      ensures View() == if ready then old(View()).Taken(t) else old(View())
    {
      match kind {
        case Event(_) => ready := signaled;
        case Thread => ready := exited;
        case Semaphore => ready := count > 0;
        case Mutex => ready := owner == 0 || owner == t;
        case Other => ready := true;
      }
      if ready {
        match kind {
          case Event(manual) => if !manual { signaled := false; }
          case Semaphore => count := count - 1;
          case Mutex => owner := t; recursion := recursion + 1;
          case _ =>
        }
      }
    }

    /** Refused on anything but an event. */
    method SetEvent() returns (ok: bool)
      modifies this
      ensures ok == kind.Event?
      ensures View() == if ok then old(View()).(signaled := true) else old(View())
    {
      if !kind.Event? { return false; }
      signaled := true;
      return true;
    }

    method ResetEvent() returns (ok: bool)
      modifies this
      ensures ok == kind.Event?
      ensures View() == if ok then old(View()).(signaled := false) else old(View())
    {
      if !kind.Event? { return false; }
      signaled := false;
      return true;
    }

    /** Signals and unsignals under one hold of the lock: waiters wake, but find the event unsignaled. */
    method PulseEvent() returns (ok: bool)
      modifies this
      ensures ok == kind.Event?
      ensures View() == if ok then old(View()).(signaled := false) else old(View())
    {
      if !kind.Event? { return false; }
      signaled := true;
      signaled := false;
      return true;
    }

    method ReleaseSemaphore(n: int) returns (ok: bool, previous: int)
      modifies this
      ensures ok == kind.Semaphore? && (ok ==> previous == old(count))
      ensures View() == if ok then old(View()).Released(n) else old(View())
    {
      if !kind.Semaphore? { return false, 0; }
      previous := count;
      count := count + n;
      if max != 0 && count > max { count := max; }
      ok := true;
    }

    /** Succeeds, without effect, for a thread that is not the owner. */
    method ReleaseMutex(t: Tid) returns (ok: bool)
      modifies this
      ensures ok == kind.Mutex?
      ensures View() == if ok then old(View()).Unlocked(t) else old(View())
    {
      if !kind.Mutex? { return false; }
      if owner == t {
        recursion := recursion - 1;
        if recursion <= 0 { owner, recursion := 0, 0; }
      }
      return true;
    }
  }

  // ---------- Interleavings ----------

  /** A thread is elsewhere, asleep on the condition variable, or woken and about to look at the object again. */
  datatype Phase = Idle | Asleep | Woken

  datatype State = State(obj: Object, phases: map<Tid, Phase>) {
    function PhaseOf(t: Tid): Phase { if t in phases then phases[t] else Idle }

    function Goto(t: Tid, p: Phase): State { this.(phases := phases[t := p]) }

    /** A broadcast, and the new fields. */
    function Broadcast(o: Object): State {
      State(o, map t | t in phases :: if phases[t] == Asleep then Woken else phases[t])
    }
  }

  /** `Look` is a pass of the wait loop, `TimeOut` the end of a wait that gives up, `Stir` a wake-up without a signal. */
  datatype Action =
    | Look(t: Tid) | TimeOut(t: Tid) | Stir(t: Tid) | Set | Reset | Pulse | Release(n: int) | Unlock(t: Tid) | Exit

  /** The action is a wait that succeeds. */
  predicate Succeeds(s: State, a: Action) {
    a.Look? && a.t != 0 && s.PhaseOf(a.t) != Asleep && s.obj.Ready(a.t)
  }

  function Step(s: State, a: Action): State {
    var o := s.obj;
    match a
    case Look(t) =>
      if t == 0 || s.PhaseOf(t) == Asleep then s
      else if o.Ready(t) then State(o.Taken(t), s.phases[t := Idle])
      else s.Goto(t, Asleep)
    case TimeOut(t) => if s.PhaseOf(t) == Idle then s else s.Goto(t, Idle)
    case Stir(t) => if s.PhaseOf(t) == Asleep then s.Goto(t, Woken) else s
    case Set => if o.kind.Event? then s.Broadcast(o.(signaled := true)) else s
    case Reset => if o.kind.Event? then s.(obj := o.(signaled := false)) else s
    case Pulse => if o.kind.Event? then s.Broadcast(o.(signaled := false)) else s
    case Release(n) => if o.kind.Semaphore? then s.Broadcast(o.Released(n)) else s
    case Unlock(t) =>
      if t == 0 || !o.kind.Mutex? || o.owner != t then s
      else if o.recursion - 1 <= 0 then s.Broadcast(o.Unlocked(t))
      else s.(obj := o.Unlocked(t))
    case Exit => if o.kind.Thread? then s.Broadcast(o.(exited := true)) else s
  }

  function Run(s: State, run: seq<Action>): State {
    if run == [] then s else Step(Run(s, run[..|run|-1]), run[|run|-1])
  }

  /** How many waits of a run succeeded. */
  function Waits(s: State, run: seq<Action>): nat {
    if run == [] then 0
    else Waits(s, run[..|run|-1]) + (if Succeeds(Run(s, run[..|run|-1]), run[|run|-1]) then 1 else 0)
  }

  function Sets(run: seq<Action>): nat {
    if run == [] then 0 else Sets(run[..|run|-1]) + (if run[|run|-1] == Set then 1 else 0)
  }

  /** The sum of what a run released. */
  function Releases(run: seq<Action>): int {
    if run == [] then 0 else Releases(run[..|run|-1]) + (if run[|run|-1].Release? then run[|run|-1].n else 0)
  }

  /** A thread's successful waits, less its releases while it was the owner. */
  function Holds(s: State, run: seq<Action>, t: Tid): int {
    if run == [] then 0
    else Holds(s, run[..|run|-1], t) + Change(Run(s, run[..|run|-1]), run[|run|-1], t)
  }

  function Change(s: State, a: Action, t: Tid): int {
    if Succeeds(s, a) && a.t == t then 1
    else if a == Unlock(t) && t != 0 && s.obj.owner == t then -1
    else 0
  }

  // ---------- What every interleaving keeps ----------

  predicate Bounded(o: Object) { 0 <= o.count && (o.max != 0 ==> o.count <= o.max) }

  /** No release of the run takes more than there is when it comes. */
  ghost predicate NoneTakesMore(s: State, run: seq<Action>) {
    forall i | 0 <= i < |run| && run[i].Release? :: Run(s, run[..i]).obj.count + run[i].n >= 0
  }

  ghost predicate BoundedThroughout(s: State, run: seq<Action>) {
    forall i | 0 <= i <= |run| :: Bounded(Run(s, run[..i]).obj)
  }

  /** In every interleaving, negative releases included: the successful waits never exceed the initial count plus the
      releases less what is left, without a maximum nothing is lost, and with one the count does not pass it. */
  lemma {:induction false} SemaphoreCounts(s: State, run: seq<Action>)
    requires s.obj.kind == Semaphore
    ensures var o := Run(s, run).obj;
      && o.kind == Semaphore && o.max == s.obj.max
      && o.count + Waits(s, run) <= s.obj.count + Releases(run)
      && (o.max == 0 ==> o.count + Waits(s, run) == s.obj.count + Releases(run))
      && (o.max != 0 && s.obj.count <= o.max ==> o.count <= o.max)
  {
    if run != [] { SemaphoreCounts(s, run[..|run|-1]); }
  }

  /** A release keeps a semaphore within its bounds exactly when it does not take more than there is. */
  lemma ReleaseBounds(o: Object, n: int)
    requires Bounded(o) && o.max >= 0
    ensures Bounded(o.Released(n)) <==> o.count + n >= 0
  {
  }

  lemma BoundedStep(s: State, a: Action)
    requires s.obj.kind == Semaphore && Bounded(s.obj)
    ensures Bounded(Step(s, a).obj) <==> (a.Release? ==> s.obj.count + a.n >= 0)
  {
    if a.Release? { ReleaseBounds(s.obj, a.n); }
  }

  lemma RunOne(s: State, run: seq<Action>, i: nat)
    requires i < |run|
    ensures Run(s, run[..i+1]) == Step(Run(s, run[..i]), run[i])
  {
    assert run[..i+1][..i] == run[..i];
    hide Step;
  }

  lemma {:induction false} NoneTakesMoreIsEnough(s: State, run: seq<Action>, i: nat)
    requires s.obj.kind == Semaphore && Bounded(s.obj) && NoneTakesMore(s, run) && i <= |run|
    ensures Bounded(Run(s, run[..i]).obj)
  {
    if i == 0 {
      assert run[..0] == [];
    } else {
      NoneTakesMoreIsEnough(s, run, i - 1);
      hide *;
      SemaphoreStep(s, run, i - 1);
      NoneTakesMoreAt(s, run, i - 1);
    }
  }

  lemma NoneTakesMoreAt(s: State, run: seq<Action>, i: nat)
    requires i < |run| && NoneTakesMore(s, run)
    ensures run[i].Release? ==> Run(s, run[..i]).obj.count + run[i].n >= 0
  {
    hide Run;
  }

  lemma SemaphoreStep(s: State, run: seq<Action>, i: nat)
    requires s.obj.kind == Semaphore && i < |run| && Bounded(Run(s, run[..i]).obj)
    ensures Bounded(Run(s, run[..i+1]).obj) <==> (run[i].Release? ==> Run(s, run[..i]).obj.count + run[i].n >= 0)
  {
    hide *;
    RunOne(s, run, i);
    SemaphoreCounts(s, run[..i]);
    BoundedStep(Run(s, run[..i]), run[i]);
  }

  /** A semaphore stays within its bounds through a run exactly when no release of it takes more than there is. */
  lemma SemaphoreBounds(s: State, run: seq<Action>)
    requires s.obj.kind == Semaphore && Bounded(s.obj)
    ensures BoundedThroughout(s, run) <==> NoneTakesMore(s, run)
  {
    hide Run, Bounded;
    if BoundedThroughout(s, run) {
      forall i | 0 <= i < |run| && run[i].Release? ensures Run(s, run[..i]).obj.count + run[i].n >= 0 {
        SemaphoreStep(s, run, i);
      }
    }
    if NoneTakesMore(s, run) {
      forall i | 0 <= i <= |run| ensures Bounded(Run(s, run[..i]).obj) {
        NoneTakesMoreIsEnough(s, run, i);
      }
    }
  }

  function Bit(b: bool): nat { if b then 1 else 0 }

  /** An auto-reset event lets through at most one wait per SetEvent, and one for its initial state. */
  lemma {:induction false} AutoResetCounts(s: State, run: seq<Action>)
    requires s.obj.kind == Event(false)
    ensures Run(s, run).obj.kind == Event(false)
    ensures Waits(s, run) + Bit(Run(s, run).obj.signaled) <= Sets(run) + Bit(s.obj.signaled)
  {
    if run != [] { AutoResetCounts(s, run[..|run|-1]); }
  }

  /** However often it is pulsed, an event that is never set lets no wait through. */
  lemma {:induction false} PulseLetsNobodyThrough(s: State, run: seq<Action>)
    requires s.obj.kind.Event? && !s.obj.signaled && Sets(run) == 0
    ensures Run(s, run).obj.kind == s.obj.kind && !Run(s, run).obj.signaled && Waits(s, run) == 0
  {
    if run != [] { PulseLetsNobodyThrough(s, run[..|run|-1]); }
  }

  predicate Consistent(o: Object) { o.recursion >= 0 && (o.owner != 0 <==> o.recursion > 0) }

  /** The holds of a thread before the run. */
  function Initially(o: Object, t: Tid): int { if t != 0 && o.owner == t then o.recursion else 0 }

  /** A mutex has an owner exactly when its recursion is positive, and the recursion is the number of successful waits
      of its owner that the owner has not released: no other thread has any, and none other can lower it. */
  lemma {:induction false} MutexHolds(s: State, run: seq<Action>, t: Tid)
    requires s.obj.kind == Mutex && Consistent(s.obj) && t != 0
    ensures var o := Run(s, run).obj;
      o.kind == Mutex && Consistent(o) && Initially(s.obj, t) + Holds(s, run, t) == Initially(o, t)
  {
    hide Step, Change, Initially, Consistent;
    if run != [] {
      MutexHolds(s, run[..|run|-1], t);
      MutexStep(Run(s, run[..|run|-1]), run[|run|-1], t);
    }
  }

  lemma MutexStep(s: State, a: Action, t: Tid)
    requires s.obj.kind == Mutex && Consistent(s.obj) && t != 0
    ensures var o := Step(s, a).obj;
      o.kind == Mutex && Consistent(o) && Initially(o, t) == Initially(s.obj, t) + Change(s, a, t)
  {
  }

  /** No two threads hold a mutex at once. */
  lemma MutexExcludes(s: State, run: seq<Action>, t: Tid, t': Tid)
    requires s.obj.kind == Mutex && Consistent(s.obj) && t != 0 && t' != 0
    requires Initially(s.obj, t) + Holds(s, run, t) > 0 && Initially(s.obj, t') + Holds(s, run, t') > 0
    ensures t == t'
  {
    MutexHolds(s, run, t);
    MutexHolds(s, run, t');
  }

  /** No thread sleeps on an object that would let it through. */
  ghost predicate Awake(s: State) {
    forall t | s.PhaseOf(t) == Asleep :: t != 0 && !s.obj.Ready(t)
  }

  lemma AwakeStep(s: State, a: Action)
    requires Awake(s) && (s.obj.kind == Mutex ==> Consistent(s.obj))
    ensures Awake(Step(s, a)) && Step(s, a).obj.kind == s.obj.kind
    ensures s.obj.kind == Mutex ==> Consistent(Step(s, a).obj)
  {
    var s' := Step(s, a);
    forall t | s'.PhaseOf(t) == Asleep ensures t != 0 && !s'.obj.Ready(t) {
      assert s.PhaseOf(t) == Asleep || a == Look(t);
    }
  }

  /** No wake-up is lost: in every interleaving, whenever an object is ready for a waiting thread that thread is awake. */
  lemma {:induction false} NoLostWakeup(s: State, run: seq<Action>)
    requires Awake(s) && (s.obj.kind == Mutex ==> Consistent(s.obj))
    ensures Awake(Run(s, run)) && Run(s, run).obj.kind == s.obj.kind
    ensures s.obj.kind == Mutex ==> Consistent(Run(s, run).obj)
  {
    if run != [] {
      NoLostWakeup(s, run[..|run|-1]);
      AwakeStep(Run(s, run[..|run|-1]), run[|run|-1]);
    }
  }

  // ---------- Who gets through ----------

  /** The thread looks at the object and its wait ends there. */
  predicate GetsThrough(s: State, t: Tid) {
    t != 0 && s.PhaseOf(t) != Asleep && Step(s, Look(t)).PhaseOf(t) == Idle
  }

  /** After any run a thread that is not asleep gets through exactly by the fields of the object, and a thread asleep is
      kept by them. */
  lemma LookDecides(s: State, run: seq<Action>, t: Tid)
    requires Awake(s) && (s.obj.kind == Mutex ==> Consistent(s.obj)) && t != 0
    ensures var s' := Run(s, run);
      var o := s'.obj;
      var open := match s.obj.kind
        case Event(_) => o.signaled
        case Semaphore => o.count >= 1
        case Mutex => o.owner == 0 || o.owner == t
        case Thread => o.exited
        case Other => true;
      if s'.PhaseOf(t) == Asleep then !open else (GetsThrough(s', t) <==> open)
  {
    NoLostWakeup(s, run);
    hide Run, Awake, Consistent, Object.Taken;
    if Run(s, run).PhaseOf(t) == Asleep { AwakeAt(Run(s, run), t); }
  }

  lemma AwakeAt(s: State, t: Tid)
    requires Awake(s) && s.PhaseOf(t) == Asleep
    ensures t != 0 && !s.obj.Ready(t)
  {
  }

  /** With no maximum a wait on a semaphore gets through exactly when the initial count and the releases so far exceed the
      waits that got through. */
  lemma SemaphoreAdmits(s: State, run: seq<Action>, t: Tid)
    requires s.obj.kind == Semaphore && s.obj.max == 0 && t != 0 && Run(s, run).PhaseOf(t) != Asleep
    ensures GetsThrough(Run(s, run), t) <==> s.obj.count + Releases(run) > Waits(s, run)
  {
    SemaphoreCounts(s, run);
    hide Run, Releases, Waits;
  }

  /** A wait on a mutex gets through exactly when no other thread holds it: its owner may take it again. */
  lemma MutexAdmits(s: State, run: seq<Action>, t: Tid)
    requires s.obj.kind == Mutex && Consistent(s.obj) && t != 0 && Run(s, run).PhaseOf(t) != Asleep
    ensures GetsThrough(Run(s, run), t) <==> forall u: Tid | u != 0 && u != t :: Initially(s.obj, u) + Holds(s, run, u) == 0
  {
    MutexHolds(s, run, t);
    forall u: Tid | u != 0 && u != t ensures Initially(s.obj, u) + Holds(s, run, u) == Initially(Run(s, run).obj, u) {
      MutexHolds(s, run, u);
    }
    hide Run, Holds;
    var owner := Run(s, run).obj.owner;
    assert owner != 0 ==> Initially(Run(s, run).obj, owner) > 0;
  }

  /** The last action of the run to change an event's signal set it; or none did, and it was set before. For an auto-reset
      event a wait that got through is one that cleared it. */
  predicate LeftSet(s: State, run: seq<Action>) {
    if run == [] then s.obj.signaled
    else
      var before, last := run[..|run|-1], run[|run|-1];
      if last == Set then true
      else if last == Reset || last == Pulse then false
      else if s.obj.kind == Event(false) && last.Look? && GetsThrough(Run(s, before), last.t) then false
      else LeftSet(s, before)
  }

  /** A wait on an event gets through exactly when the event was left set. */
  lemma {:induction false} EventAdmits(s: State, run: seq<Action>, t: Tid)
    requires s.obj.kind.Event? && t != 0 && Run(s, run).PhaseOf(t) != Asleep
    ensures GetsThrough(Run(s, run), t) <==> LeftSet(s, run)
  {
    EventSignal(s, run);
    hide Run, LeftSet;
  }

  lemma {:induction false} EventSignal(s: State, run: seq<Action>)
    requires s.obj.kind.Event?
    ensures Run(s, run).obj.kind == s.obj.kind && (Run(s, run).obj.signaled <==> LeftSet(s, run))
  {
    if run != [] {
      EventSignal(s, run[..|run|-1]);
      SignalStep(Run(s, run[..|run|-1]), run[|run|-1]);
      hide Step, GetsThrough;
    }
  }

  lemma SignalStep(s: State, a: Action)
    requires s.obj.kind.Event?
    ensures var o := Step(s, a).obj;
      && o.kind == s.obj.kind
      && o.signaled == (if a == Set then true
                        else if a == Reset || a == Pulse then false
                        else if s.obj.kind == Event(false) && a.Look? && GetsThrough(s, a.t) then false
                        else s.obj.signaled)
  {
  }

  /** A signal lets a sleeper through if it is the next to look: a set event, a release of at least one, the owner's last
      unlock, or the end of the thread waited for. */
  lemma SignalLetsThrough(s: State, t: Tid, a: Action)
    requires t != 0 && s.PhaseOf(t) == Asleep
    requires match s.obj.kind
      case Event(_) => a == Set
      case Semaphore => a.Release? && a.n >= 1 && s.obj.count >= 0 && s.obj.max >= 0
      case Mutex => a == Unlock(s.obj.owner) && s.obj.owner != 0 && s.obj.recursion == 1
      case Thread => a == Exit
      case Other => false
    ensures Step(s, a).PhaseOf(t) == Woken && GetsThrough(Step(s, a), t)
  {
  }
}
