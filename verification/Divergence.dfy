/** Where the emitted C and the guest part company, and the functions for which they never do. */
module Divergence {
  import opened Code
  import opened Sorting
  import opened Blocks
  import opened Scanner
  import opened Emitter
  import opened Simulation

  /** Control can go on to the address after the instruction. */
  predicate MayFall(image: Image, a: Addr)
    requires a in image
  {
    !EndsBlock(image[a].flow)
  }

  /** The walk records a fall-through unless it is padding, does not decode or lies outside the extent. */
  lemma FallsInside(sc: Scope, d: set<Addr>, a: Addr)
    requires sc.IsLeastClosed(d) && a in d && a in sc.image && MayFall(sc.image, a)
    ensures EndOf(sc.image, a) in d <==> sc.Recordable(EndOf(sc.image, a))
  {
    assert sc.Recordable(a);
    assert sc.Leads(a, EndOf(sc.image, a));
  }

  /** So the guest goes astray at a translated instruction only by falling into such a place. */
  lemma AstrayAtPadding<S>(sc: Scope, d: set<Addr>, m: Machine<S>, a: Addr, s: S, trace: seq<Event>)
    requires sc.IsLeastClosed(d) && a in d && AllDecode(sc.image, d) && sc.image[a].lowered
    requires GuestStep(sc.image, d, m, At(a, s, trace)) == Astray
    ensures MayFall(sc.image, a) && !sc.Recordable(EndOf(sc.image, a))
  {
    assert MayFall(sc.image, a);
    FallsInside(sc, d, a);
  }

  /** A jump out of the function goes where the walk would not have gone: outside the extent, to another function's
      entry point, or to bytes that are not code. */
  lemma ExitsLeaveTheFunction<S>(sc: Scope, d: set<Addr>, m: Machine<S>, a: Addr, s: S, trace: seq<Event>)
    requires sc.IsLeastClosed(d) && a in d && AllDecode(sc.image, d)
    requires sc.image[a].flow == ConditionalBranch || sc.image[a].flow == UnconditionalBranch
    requires GuestStep(sc.image, d, m, At(a, s, trace)).Exited?
    ensures var t := sc.image[a].target;
      && GuestStep(sc.image, d, m, At(a, s, trace)).exit == Left(a, t)
      && (t != 0 ==> !sc.IsInternalTarget(t) || !Decodes(sc.image, t))
  {
    var t := sc.image[a].target;
    if t != 0 && sc.IsInternalTarget(t) && Decodes(sc.image, t) {
      LeadsInside(sc, d, a, t);
    }
  }

  lemma LeadsInside(sc: Scope, d: set<Addr>, a: Addr, t: Addr)
    requires sc.IsLeastClosed(d) && a in d && Decodes(sc.image, a)
    requires sc.image[a].flow == ConditionalBranch || sc.image[a].flow == UnconditionalBranch
    requires t == sc.image[a].target && t != 0 && sc.IsInternalTarget(t) && Decodes(sc.image, t)
    ensures t in d
  {
    assert sc.Leads(a, t);
    assert sc.Recordable(t);
  }

  // ---------- The functions on which they never part ----------

  /** From one instruction of the function straight to another: by falling through or by a direct jump. A jump through a
      table leaves the body, so it leads nowhere here. */
  ghost predicate Goes(image: Image, d: set<Addr>, a: Addr, t: Addr) {
    && a in d && t in d && a in image
    && ((MayFall(image, a) && t == EndOf(image, a)) ||
        ((image[a].flow == UnconditionalBranch || image[a].flow == ConditionalBranch) && t == image[a].target))
  }

  ghost predicate IsPath(image: Image, d: set<Addr>, entry: Addr, p: seq<Addr>) {
    && |p| > 0 && p[0] == entry && entry in d
    && forall i | 0 < i < |p| :: Goes(image, d, p[i-1], p[i])
  }

  ghost predicate Reaches(image: Image, d: set<Addr>, entry: Addr, a: Addr) {
    exists p :: IsPath(image, d, entry, p) && p[|p|-1] == a
  }

  /** The instruction has a translation, and what it may fall into is another of the function's instructions. */
  ghost predicate Sound(image: Image, d: set<Addr>, a: Addr) {
    a in image && image[a].lowered && (MayFall(image, a) ==> EndOf(image, a) in d)
  }

  /** Every instruction that falling through and direct jumps lead to is sound. */
  ghost predicate StaysOnCourse(image: Image, d: set<Addr>, entry: Addr) {
    forall a | Reaches(image, d, entry, a) :: Sound(image, d, a)
  }

  /** In a whole discovery an instruction is sound when it has a translation and may fall only into code of the extent:
      not into padding, undecodable bytes or past the end. */
  lemma SoundInExtent(sc: Scope, d: set<Addr>, a: Addr)
    requires sc.IsLeastClosed(d) && a in d
    ensures Sound(sc.image, d, a) <==>
      a in sc.image && sc.image[a].lowered && (MayFall(sc.image, a) ==> sc.Recordable(EndOf(sc.image, a)))
  {
    if a in sc.image && MayFall(sc.image, a) { FallsInside(sc, d, a); }
    hide Scope.IsLeastClosed, Scope.Recordable, MayFall;
  }

  lemma ReachesEntry(image: Image, d: set<Addr>, entry: Addr)
    requires entry in d
    ensures Reaches(image, d, entry, entry)
  {
    assert IsPath(image, d, entry, [entry]);
  }

  lemma ReachesNext(image: Image, d: set<Addr>, entry: Addr, a: Addr, t: Addr)
    requires Reaches(image, d, entry, a) && Goes(image, d, a, t)
    ensures Reaches(image, d, entry, t)
  {
    var p :| IsPath(image, d, entry, p) && p[|p|-1] == a;
    assert IsPath(image, d, entry, p + [t]);
  }

  /** Reaching is the least set that contains the entry and goes wherever it leads. */
  lemma {:induction false} ReachesIsLeast(image: Image, d: set<Addr>, entry: Addr, s: set<Addr>, p: seq<Addr>)
    requires entry in s && (forall a, t | a in s && Goes(image, d, a, t) :: t in s) && IsPath(image, d, entry, p)
    ensures p[|p|-1] in s
  {
    if |p| > 1 {
      ReachesIsLeast(image, d, entry, s, p[..|p|-1]);
      assert Goes(image, d, p[|p|-2], p[|p|-1]);
    }
  }

  ghost predicate OnCourse<S>(image: Image, d: set<Addr>, entry: Addr, g: Guest<S>) {
    g != Astray && (g.At? ==> Reaches(image, d, entry, g.pc))
  }

  lemma ReachedIsInside(image: Image, d: set<Addr>, entry: Addr, a: Addr)
    requires Reaches(image, d, entry, a)
    ensures a in d
  {
    var p :| IsPath(image, d, entry, p) && p[|p|-1] == a;
    if |p| > 1 { assert Goes(image, d, p[|p|-2], p[|p|-1]); }
  }

  /** Where a step of a guest that does not go astray ends. */
  lemma StepGoes<S>(image: Image, d: set<Addr>, m: Machine<S>, g: Guest<S>)
    requires AllDecode(image, d) && g.At? && g.pc in d
    ensures g.pc in image
    ensures var g' := GuestStep(image, d, m, g);
      && (g'.At? ==> Goes(image, d, g.pc, g'.pc) && |g'.trace| == |g.trace| + 1)
      && (g' == Astray <==> !image[g.pc].lowered || (FallsNow(image, m, g.pc, g.s) && EndOf(image, g.pc) !in d))
  {
  }

  /** The instruction falls through this time. */
  ghost predicate FallsNow<S>(image: Image, m: Machine<S>, a: Addr, s: S)
    requires a in image
  {
    MayFall(image, a) && !(image[a].flow == ConditionalBranch && m.taken(a, s))
  }

  lemma OnCourseStep<S>(image: Image, d: set<Addr>, entry: Addr, m: Machine<S>, g: Guest<S>)
    requires AllDecode(image, d) && StaysOnCourse(image, d, entry) && OnCourse(image, d, entry, g)
    ensures OnCourse(image, d, entry, GuestStep(image, d, m, g))
  {
    if g.At? {
      ReachedIsInside(image, d, entry, g.pc);
      StepGoes(image, d, m, g);
      assert Sound(image, d, g.pc);
      var g' := GuestStep(image, d, m, g);
      if g'.At? { ReachesNext(image, d, entry, g.pc, g'.pc); }
      hide *;
    }
  }

  lemma {:induction false} NeverAstray<S>(image: Image, d: set<Addr>, entry: Addr, m: Machine<S>, s: S, n: nat)
    requires AllDecode(image, d) && StaysOnCourse(image, d, entry) && entry in d
    ensures OnCourse(image, d, entry, GuestRun(image, d, m, At(entry, s, []), n))
  {
    hide Reaches, StaysOnCourse, AllDecode;
    if n == 0 {
      ReachesEntry(image, d, entry);
    } else {
      NeverAstray(image, d, entry, m, s, n - 1);
      OnCourseStep(image, d, entry, m, GuestRun(image, d, m, At(entry, s, []), n - 1));
    }
  }

  // ---------- A path to a bad instruction, and a machine that takes it ----------

  ghost predicate Simple(p: seq<Addr>) { forall i, j | 0 <= i < j < |p| :: p[i] != p[j] }

  /** Cutting out loops. */
  lemma {:induction false} SimplePath(image: Image, d: set<Addr>, entry: Addr, p: seq<Addr>) returns (q: seq<Addr>)
    requires IsPath(image, d, entry, p)
    ensures IsPath(image, d, entry, q) && Simple(q) && q[|q|-1] == p[|p|-1]
    decreases |p|
  {
    if Simple(p) {
      q := p;
    } else {
      var i: nat, j: nat :| i < j < |p| && p[i] == p[j];
      var cut := p[..i] + p[j..];
      CutIsPath(image, d, entry, p, i, j);
      q := SimplePath(image, d, entry, cut);
    }
  }

  lemma CutIsPath(image: Image, d: set<Addr>, entry: Addr, p: seq<Addr>, i: nat, j: nat)
    requires IsPath(image, d, entry, p) && i < j < |p| && p[i] == p[j]
    ensures var cut := p[..i] + p[j..];
      IsPath(image, d, entry, cut) && cut[|cut|-1] == p[|p|-1] && |cut| < |p|
  {
    var cut := p[..i] + p[j..];
    forall k | 0 < k < |cut| ensures Goes(image, d, cut[k-1], cut[k]) {
      if k < i {
        assert Goes(image, d, p[k-1], p[k]);
      } else if k == i {
        assert Goes(image, d, p[i-1], p[i]);
      } else {
        assert Goes(image, d, p[k-i+j-1], p[k-i+j]);
      }
    }
  }

  /** A simple path whose last instruction is the only one that is not sound. */
  lemma PathToTrouble(image: Image, d: set<Addr>, entry: Addr) returns (q: seq<Addr>)
    requires !StaysOnCourse(image, d, entry)
    ensures IsPath(image, d, entry, q) && Simple(q) && !Sound(image, d, q[|q|-1])
    ensures forall i | 0 <= i < |q| - 1 :: Sound(image, d, q[i])
  {
    var a :| Reaches(image, d, entry, a) && !Sound(image, d, a);
    var p :| IsPath(image, d, entry, p) && p[|p|-1] == a;
    var simple := SimplePath(image, d, entry, p);
    var k := FirstUnsound(image, d, simple, 0);
    q := simple[..k+1];
    forall i | 0 < i < |q| ensures Goes(image, d, q[i-1], q[i]) {
      assert Goes(image, d, simple[i-1], simple[i]);
    }
    hide Goes, Sound;
  }

  lemma {:induction false} FirstUnsound(image: Image, d: set<Addr>, p: seq<Addr>, i: nat) returns (k: nat)
    requires i < |p| && !Sound(image, d, p[|p|-1]) && forall j | 0 <= j < i :: Sound(image, d, p[j])
    ensures k < |p| && !Sound(image, d, p[k]) && forall j | 0 <= j < k :: Sound(image, d, p[j])
    decreases |p| - i
  {
    hide Sound;
    if Sound(image, d, p[i]) { k := FirstUnsound(image, d, p, i + 1); } else { k := i; }
  }

  /** Takes a conditional branch exactly where the path jumps. */
  ghost function Guide<S>(image: Image, q: seq<Addr>): Machine<S> {
    Machine((a, s) => s, (a: Addr, s: S) => JumpsAt(image, q, a), (a, s) => 0, (a, t, s) => s)
  }

  ghost predicate JumpsAt(image: Image, q: seq<Addr>, a: Addr) {
    a in image && exists i :: 0 <= i < |q| - 1 && q[i] == a && q[i+1] == image[a].target
  }

  lemma JumpsWhere(image: Image, q: seq<Addr>, i: nat)
    requires Simple(q) && i < |q| && q[i] in image
    ensures JumpsAt(image, q, q[i]) <==> i + 1 < |q| && q[i+1] == image[q[i]].target
  {
    if JumpsAt(image, q, q[i]) {
      var k :| 0 <= k < |q| - 1 && q[k] == q[i] && q[k+1] == image[q[i]].target;
      assert k == i;
    }
  }

  /** Under that machine the guest follows the path. */
  lemma {:induction false} GuideFollows<S>(image: Image, d: set<Addr>, entry: Addr, q: seq<Addr>, s: S, i: nat)
    requires AllDecode(image, d) && IsPath(image, d, entry, q) && Simple(q) && i < |q|
    requires forall k | 0 <= k < |q| - 1 :: Sound(image, d, q[k])
    ensures var g := GuestRun(image, d, Guide(image, q), At(entry, s, []), i);
      g.At? && g.pc == q[i] && |g.trace| == i
  {
    hide Simple;
    if i > 0 {
      GuideFollows(image, d, entry, q, s, i - 1);
      var g := GuestRun(image, d, Guide(image, q), At(entry, s, []), i - 1);
      assert Goes(image, d, q[i-1], q[i]);
      JumpsWhere(image, q, i - 1);
      GuideStep(image, d, q, g, q[i]);
      hide GuestStep, Guide, IsPath, Goes;
    }
  }

  lemma GuideStep<S>(image: Image, d: set<Addr>, q: seq<Addr>, g: Guest<S>, next: Addr)
    requires AllDecode(image, d) && g.At? && Goes(image, d, g.pc, next) && Sound(image, d, g.pc)
    requires JumpsAt(image, q, g.pc) <==> next == image[g.pc].target
    ensures var g' := GuestStep(image, d, Guide(image, q), g);
      g'.At? && g'.pc == next && |g'.trace| == |g.trace| + 1
  {
    hide JumpsAt;
  }

  /** At the end of the path it goes astray. */
  lemma GuideEnds<S>(image: Image, d: set<Addr>, entry: Addr, q: seq<Addr>, g: Guest<S>)
    requires AllDecode(image, d) && IsPath(image, d, entry, q) && Simple(q)
    requires g.At? && g.pc == q[|q|-1] && !Sound(image, d, g.pc)
    ensures g.pc in d && GuestStep(image, d, Guide(image, q), g) == Astray
  {
    assert Reaches(image, d, entry, g.pc);
    ReachedIsInside(image, d, entry, g.pc);
    JumpsWhere(image, q, |q| - 1);
    StepGoes(image, d, Guide(image, q), g);
    hide AllDecode, IsPath, Reaches, GuestStep, JumpsAt, Simple;
  }

  /** The guest never goes astray, whatever its instructions compute and its branches decide, exactly when every
      instruction reached by falling through and direct jumps is sound. */
  lemma NeverAstrayExactly<S(!new)>(image: Image, d: set<Addr>, entry: Addr, s0: S)
    requires AllDecode(image, d) && entry in d
    ensures StaysOnCourse(image, d, entry) <==>
      forall m: Machine<S>, s: S, n: nat :: GuestRun(image, d, m, At(entry, s, []), n) != Astray
  {
    hide *;
    if StaysOnCourse(image, d, entry) {
      forall m: Machine<S>, s: S, n: nat ensures GuestRun(image, d, m, At(entry, s, []), n) != Astray {
        NeverAstray(image, d, entry, m, s, n);
        NotAstray(image, d, entry, GuestRun(image, d, m, At(entry, s, []), n));
      }
    } else {
      var q := Trouble(image, d, entry, s0);
    }
  }

  lemma NotAstray<S>(image: Image, d: set<Addr>, entry: Addr, g: Guest<S>)
    requires OnCourse(image, d, entry, g)
    ensures g != Astray
  {
  }

  /** A path after which the guided guest is astray, though it was not before. */
  lemma Trouble<S>(image: Image, d: set<Addr>, entry: Addr, s: S) returns (q: seq<Addr>)
    requires AllDecode(image, d) && entry in d && !StaysOnCourse(image, d, entry)
    ensures |q| > 0 && var m := Guide(image, q);
      && GuestRun(image, d, m, At(entry, s, []), |q|) == Astray
      && var g := GuestRun(image, d, m, At(entry, s, []), |q| - 1);
         g.At? && g.pc in d && |g.trace| == |q| - 1 && GuestStep(image, d, m, g) == Astray
  {
    q := PathToTrouble(image, d, entry);
    GuideFollows(image, d, entry, q, s, |q| - 1);
    GuideEnds(image, d, entry, q, GuestRun(image, d, Guide(image, q), At(entry, s, []), |q| - 1));
    hide GuestStep, Guide, Goes, Sound, AllDecode, StaysOnCourse;
  }

  // ---------- The body ----------

  /** Whatever the body shows after any number of statements, the guest shows too. */
  ghost predicate BodyFollows<S>(image: Image, entry: Addr, d: set<Addr>, body: seq<CStmt>, m: Machine<S>, s: S)
    requires AllDecode(image, d)
  {
    forall k: nat :: Followed(image, entry, d, body, m, s, k)
  }

  ghost predicate Followed<S>(image: Image, entry: Addr, d: set<Addr>, body: seq<CStmt>, m: Machine<S>, s: S, k: nat)
    requires AllDecode(image, d)
  {
    exists n: nat :: Follows(GuestRun(image, d, m, At(entry, s, []), n), HostRun(body, m, Running(0, s, []), k))
  }

  /** The body never does anything the guest does not, under any machine, exactly when the function stays on course. */
  lemma BodyFollowsExactly<S(!new)>(image: Image, entry: Addr, blocks: seq<Block>, d: set<Addr>, named: set<Addr>,
                                    labels: set<Addr>, s0: S)
    requires Translatable(image, entry, blocks, d)
    ensures var body := Body(image, named, labels, SealedBlocks(blocks));
      StaysOnCourse(image, d, entry) <==> forall m: Machine<S>, s: S :: BodyFollows(image, entry, d, body, m, s)
  {
    hide *;
    TranslatableMeans(image, entry, blocks, d);
    var body := Body(image, named, labels, SealedBlocks(blocks));
    if StaysOnCourse(image, d, entry) {
      NeverAstrayExactly(image, d, entry, s0);
      forall m: Machine<S>, s: S ensures BodyFollows(image, entry, d, body, m, s) {
        forall k: nat ensures Followed(image, entry, d, body, m, s, k) {
          var n := BodyFollowsGuest(image, entry, blocks, d, named, labels, m, s, k);
          IsFollowed(image, entry, d, body, m, s, k, n);
        }
        FollowsAll(image, entry, d, body, m, s);
      }
    } else {
      var q := Trouble(image, d, entry, s0);
      EmittedIsValid(image, entry, blocks, d, named, labels);
      var f := Emitted(image, blocks, named, labels);
      StartsMatch(f, entry, s0);
      var k := BodyGoesOn(f, entry, Guide(image, q), s0, |q| - 1);
      FollowsAll(image, entry, d, body, Guide(image, q), s0);
    }
  }

  lemma IsFollowed<S>(image: Image, entry: Addr, d: set<Addr>, body: seq<CStmt>, m: Machine<S>, s: S, k: nat, n: nat)
    requires AllDecode(image, d)
    requires Follows(GuestRun(image, d, m, At(entry, s, []), n), HostRun(body, m, Running(0, s, []), k))
    ensures Followed(image, entry, d, body, m, s, k)
  {
    hide Follows;
  }

  lemma FollowsAll<S>(image: Image, entry: Addr, d: set<Addr>, body: seq<CStmt>, m: Machine<S>, s: S)
    requires AllDecode(image, d)
    ensures BodyFollows(image, entry, d, body, m, s) <==> forall k: nat :: Followed(image, entry, d, body, m, s, k)
  {
    hide Followed;
  }

  lemma TranslatableMeans(image: Image, entry: Addr, blocks: seq<Block>, d: set<Addr>)
    requires Translatable(image, entry, blocks, d)
    ensures AllDecode(image, d) && entry in d
  {
  }

  /** The guest runs one event a step until it goes astray or leaves. */
  lemma {:induction false} TraceLength<S>(image: Image, entry: Addr, d: set<Addr>, m: Machine<S>, s: S, n: nat)
    requires AllDecode(image, d) && entry in d
    ensures var g := GuestRun(image, d, m, At(entry, s, []), n);
      g.At? ==> g.pc in d && |g.trace| == n
  {
    if n > 0 {
      TraceLength(image, entry, d, m, s, n - 1);
      var g := GuestRun(image, d, m, At(entry, s, []), n - 1);
      if g.At? { StepGoes(image, d, m, g); }
      hide GuestStep;
    }
  }

  /** Where the guest goes astray the body runs one more instruction, which the guest never shows. */
  lemma BodyGoesOn<S>(f: Function, entry: Addr, m: Machine<S>, s: S, n: nat) returns (k: nat)
    requires f.Valid() && AllDecode(f.image, f.Insns()) && entry in f.Insns()
    requires Matches(f, Running(0, s, []), At(entry, s, []))
    requires var g := GuestRun(f.image, f.Insns(), m, At(entry, s, []), n);
      g.At? && g.pc in f.Insns() && |g.trace| == n && GuestStep(f.image, f.Insns(), m, g) == Astray
    requires GuestRun(f.image, f.Insns(), m, At(entry, s, []), n + 1) == Astray
    ensures !Followed(f.image, entry, f.Insns(), f.Code(), m, s, k)
  {
    hide *;
    var g := GuestRun(f.image, f.Insns(), m, At(entry, s, []), n);
    var before := RunMatches(f, m, Running(0, s, []), At(entry, s, []), n);
    var more := AstrayStep(f, m, HostRun(f.Code(), m, Running(0, s, []), before), g);
    HostRunAdd(f.Code(), m, Running(0, s, []), before, more);
    k := before + more;
    NotFollowed(f.image, entry, f.Insns(), f.Code(), m, s, k);
  }

  /** No guest run has as many events as a body that runs on where the guest goes astray. */
  lemma NotFollowed<S>(image: Image, entry: Addr, d: set<Addr>, body: seq<CStmt>, m: Machine<S>, s: S, k: nat)
    requires AllDecode(image, d) && entry in d
    requires HostRun(body, m, Running(0, s, []), k).Running?
    requires GuestRun(image, d, m, At(entry, s, []), |HostRun(body, m, Running(0, s, []), k).trace|) == Astray
    ensures !Followed(image, entry, d, body, m, s, k)
  {
    hide GuestRun, HostRun, AllDecode;
    var h := HostRun(body, m, Running(0, s, []), k);
    forall n: nat ensures !Follows(GuestRun(image, d, m, At(entry, s, []), n), h) {
      TraceLength(image, entry, d, m, s, n);
    }
  }

  /** The body's step where the guest goes astray: it is still running, with one more event. */
  lemma AstrayStep<S>(f: Function, m: Machine<S>, h: Host<S>, g: Guest<S>) returns (n: nat)
    requires f.Valid() && Matches(f, h, g) && g.At? && AllDecode(f.image, f.Insns()) && g.pc in f.Insns()
    requires GuestStep(f.image, f.Insns(), m, g) == Astray
    ensures HostRun(f.Code(), m, h, n).Running? && |HostRun(f.Code(), m, h, n).trace| == |g.trace| + 1
  {
    hide *;
    StepGoes(f.image, f.Insns(), m, g);
    var k := MatchAt(f, h, g);
    n := SkipLabel(f, m, k, g.s, g.trace);
    InsnFacts(f, k);
    AstrayStatement(f.Code(), f.image, f.named, f.emitted, g.pc, m, f.PosOf(k + 1) - 1, g.s, g.trace);
  }

  lemma MatchAt<S>(f: Function, h: Host<S>, g: Guest<S>) returns (k: nat)
    requires Matches(f, h, g) && g.At? && g.pc in f.image
    ensures k < |f.addrs| && f.addrs[k] == g.pc && h == Running(f.PosOf(k), g.s, g.trace)
    ensures 0 < f.PosOf(k + 1) <= |f.Code()|
    ensures f.Code()[f.PosOf(k + 1) - 1] == Lower(f.image, f.named, f.emitted, g.pc)
  {
    k :| 0 <= k < |f.addrs| && f.addrs[k] == g.pc && h == Running(f.PosOf(k), g.s, g.trace);
    TextAt(f.image, f.named, f.emitted, f.addrs, k);
  }

  /** The statement of an untranslated instruction, or of one that falls through, runs on with one more event. */
  lemma AstrayStatement<S>(body: seq<CStmt>, image: Image, named: set<Addr>, emitted: set<Addr>, a: Addr, m: Machine<S>,
                           i: nat, s: S, trace: seq<Event>)
    requires Decodes(image, a) && image[a].length > 0 && (image[a].lowered ==> FallsNow(image, m, a, s))
    requires i < |body| && body[i] == Lower(image, named, emitted, a)
    ensures HostStep(body, m, Running(i, s, trace)).Running? && HostStep(body, m, Running(i, s, trace)).i == i + 1
    ensures |HostStep(body, m, Running(i, s, trace)).trace| == |trace| + 1
  {
    hide GoTo;
    if image[a].lowered { StatementDoes(body, image, named, emitted, a, m, i, s, trace); }
  }

  /** For a function that stays on course the body finishes exactly when the guest leaves, with the same exit, the same
      state and the same trace of instructions and calls. */
  lemma ExitsAgree<S(!new)>(image: Image, entry: Addr, blocks: seq<Block>, d: set<Addr>, named: set<Addr>,
                            labels: set<Addr>, m: Machine<S>, s: S, e: Exit, s': S, trace: seq<Event>)
    requires Translatable(image, entry, blocks, d) && StaysOnCourse(image, d, entry)
    ensures AllDecode(image, d)
    ensures
      var body := Body(image, named, labels, SealedBlocks(blocks));
      (exists n :: GuestRun(image, d, m, At(entry, s, []), n) == Exited(e, s', trace)) <==>
      (exists k :: HostRun(body, m, Running(0, s, []), k) == Done(e, s', trace))
  {
    var body := Body(image, named, labels, SealedBlocks(blocks));
    TranslatableMeans(image, entry, blocks, d);
    hide *;
    if n :| GuestRun(image, d, m, At(entry, s, []), n) == Exited(e, s', trace) {
      var k := BodySimulatesGuest(image, entry, blocks, d, named, labels, m, s, n);
      assert HostRun(body, m, Running(0, s, []), k) == Done(e, s', trace);
    }
    if k :| HostRun(body, m, Running(0, s, []), k) == Done(e, s', trace) {
      NeverAstrayExactly(image, d, entry, s);
      GuestMatchesBodyExit(image, entry, blocks, d, named, labels, m, s, k);
      assert GuestRun(image, d, m, At(entry, s, []), k) == Exited(e, s', trace);
    }
  }

  // ---------- What the body does where the guest goes astray ----------

  /** Where the guest falls out of its instructions the body runs on into the text of the next instruction in address
      order, wherever that is, or off the end. */
  lemma BodyRunsOn<S>(f: Function, m: Machine<S>, k: nat, s: S, trace: seq<Event>)
    requires f.Valid() && k < |f.addrs| && f.addrs[k] in f.image && f.image[f.addrs[k]].lowered && PosEnd(f, k)
    requires GuestStep(f.image, f.Insns(), m, At(f.addrs[k], s, trace)) == Astray
    ensures var h := HostStep(f.Code(), m, Running(f.PosOf(k + 1) - 1, s, trace));
      h.Running? && h.i == f.PosOf(k + 1)
    ensures k + 1 < |f.addrs| ==> f.addrs[k+1] > EndOf(f.image, f.addrs[k])
  {
    NextInText(f, k);
    InsnFacts(f, k);
    StepGoes(f.image, f.Insns(), m, At(f.addrs[k], s, trace));
    AstrayStatement(f.Code(), f.image, f.named, f.emitted, f.addrs[k], m, f.PosOf(k + 1) - 1, s, trace);
    if k + 1 < |f.addrs| { NextApart(f, k); }
    hide *;
  }

  lemma NextApart(f: Function, k: nat)
    requires f.Valid() && k + 1 < |f.addrs| && f.addrs[k] in f.image
    ensures f.addrs[k+1] >= EndOf(f.image, f.addrs[k]) && f.addrs[k+1] in f.Insns()
  {
    assert f.addrs[k] in f.Insns() && f.addrs[k+1] in f.Insns();
  }

  /** A conditional branch over a breakpoint: the guest that does not branch runs into the breakpoint. */
  function GuardedImage(): Image {
    map[16 := Insn(2, ConditionalBranch, 20, true), 18 := Insn(1, Next, 0, true),
        19 := Insn(1, Int3, 0, false), 20 := Insn(1, Flow.Return, 0, true)]
  }

  function GuardedScope(): Scope { Scope(GuardedImage(), 16, 32, {}, _ => None) }

  function GuardedResult(): DiscoveryResult {
    DiscoveryResult([Block(16, 3), Block(20, 1)], [16, 18, 20], {18, 20}, [], [], [], [])
  }

  function Guarded(): Function { Function(GuardedImage(), {}, {18, 20}, [16, 18, 20]) }

  /** Its discovery leaves the breakpoint out and its body returns instead: dropping the breakpoint is a difference a
      guest can see. */
  lemma BreakpointIsDropped(m: Machine<int>, s: int)
    requires !m.taken(16, s)
    ensures var sc, r := GuardedScope(), GuardedResult();
      && Translatable(sc.image, sc.entry, r.blocks, Found(r)) && sc.IsLeastClosed(Found(r))
      && GuestRun(sc.image, Found(r), m, At(sc.entry, s, []), 2) == Astray
      && HostRun(Body(sc.image, {}, r.labels, SealedBlocks(r.blocks)), m, Running(0, s, []), 5) ==
         Done(Returned(20), m.exec(18, s), [Ran(16), Ran(18), Ran(20)])
  {
    GuardedTranslatable();
    GuardedBody();
    GuardedText();
    GuardedGuest(m, s);
    GuardedHost(m, s);
    hide *;
  }

  lemma GuardedTranslatable()
    ensures var sc, r := GuardedScope(), GuardedResult();
      && Translatable(sc.image, sc.entry, r.blocks, Found(r)) && sc.IsLeastClosed(Found(r)) && Found(r) == {16, 18, 20}
      && sc.image == GuardedImage() && sc.entry == 16 && r.labels == {18, 20}
  {
    var sc, r := GuardedScope(), GuardedResult();
    GuardedFound();
    GuardedApart();
    GuardedDiscovery();
    DiscoveryIsTranslatable(sc, r);
    hide TiledBy, Recorded, Scope.Closed, NoOverlap, Found, Scope.Valid, Scope.IsLeastClosed, IsDiscovery;
  }

  lemma GuardedDiscovery()
    ensures var sc, r := GuardedScope(), GuardedResult();
      sc.Valid() && IsDiscovery(sc, r) && sc.IsLeastClosed(Found(r))
  {
    GuardedFound();
    GuardedTiled();
    GuardedReached();
    GuardedRecords();
    hide TiledBy, Recorded, Scope.Closed, Scope.Valid, Scope.Recordable, Found;
  }

  lemma GuardedApart()
    ensures AllDecode(GuardedImage(), {16, 18, 20}) && NoOverlap(GuardedImage(), {16, 18, 20})
  {
    var image := GuardedImage();
    assert image[16].length == 2 && image[18].length == 1;
  }

  lemma GuardedFound()
    ensures Found(GuardedResult()) == {16, 18, 20} && ValidImage(GuardedImage()) && GuardedScope().Valid()
    ensures forall a | a in {16, 18, 20} :: GuardedScope().Recordable(a)
    ensures StrictlySortedBy((a: Addr) => a, GuardedResult().instructions)
  {
    forall a ensures a in GuardedResult().instructions <==> a in {16, 18, 20} {
      assert a in GuardedResult().instructions <==> a == 16 || a == 18 || a == 20;
    }
  }

  lemma GuardedTiled()
    ensures ValidImage(GuardedImage()) && TiledBy(GuardedImage(), GuardedResult().blocks, {16, 18, 20})
  {
    var image, blocks := GuardedImage(), GuardedResult().blocks;
    GuardedTiles();
    forall a ensures a in {16, 18, 20} <==> InBlocks(image, blocks, a) {
      assert blocks[0] in blocks && blocks[1] in blocks;
      assert InBlocks(image, blocks, a) <==> a in TileStarts(image, 16, 19) || a in TileStarts(image, 20, 21);
    }
  }

  lemma GuardedTiles()
    ensures ValidImage(GuardedImage())
    ensures Tiled(GuardedImage(), 16, 19) && TileStarts(GuardedImage(), 16, 19) == {16, 18}
    ensures Tiled(GuardedImage(), 20, 21) && TileStarts(GuardedImage(), 20, 21) == {20}
  {
    var image := GuardedImage();
    NoTile(image, 19);
    OneTile(image, 18, 19);
    OneTile(image, 16, 19);
    NoTile(image, 21);
    OneTile(image, 20, 21);
    hide Tiled, TileStarts;
  }

  lemma NoTile(image: Image, a: Addr)
    requires ValidImage(image)
    ensures Tiled(image, a, a) && TileStarts(image, a, a) == {}
  {
  }

  lemma OneTile(image: Image, lo: Addr, hi: Addr)
    requires ValidImage(image) && lo < hi && Decodes(image, lo) && EndOf(image, lo) <= hi
    ensures Tiled(image, lo, hi) <==> Tiled(image, EndOf(image, lo), hi)
    ensures TileStarts(image, lo, hi) == {lo} + TileStarts(image, EndOf(image, lo), hi)
  {
  }

  lemma GuardedReached()
    ensures GuardedScope().Closed({16, 18, 20})
    ensures forall s: set<Addr> | GuardedScope().Closed(s) :: {16, 18, 20} <= s
  {
    var sc := GuardedScope();
    assert sc.Leads(16, 18) && sc.Leads(16, 20) && sc.Recordable(16) && sc.Recordable(18) && sc.Recordable(20);
  }

  lemma GuardedRecords()
    ensures forall a | a in {16, 18, 20} :: Decodes(GuardedImage(), a)
    ensures Recorded(GuardedScope(), {16, 18, 20}, GuardedResult())
  {
    GuardedQueues();
    assert 18 in GuardedScope().Queued(16) && 20 in GuardedScope().Queued(16);
    hide Scope.Queued, Scope.BranchOf, Scope.CallsOut, Scope.TailCalls, Scope.HasTable;
  }

  lemma GuardedQueues()
    ensures forall a | a in {16, 18, 20} :: Decodes(GuardedImage(), a) && Decodes(GuardedScope().image, a)
    ensures var sc := GuardedScope();
      && sc.Queued(16) == [20, 18] && sc.Queued(18) == [] && sc.Queued(20) == []
      && forall a | a in {16, 18, 20} ::
           sc.BranchOf(a) == None && (forall t :: !sc.CallsOut(a, t) && !sc.TailCalls(a, t)) && forall jt :: !sc.HasTable(a, jt)
  {
    var sc := GuardedScope();
    GuardedJump();
    forall a | a in {16, 18, 20}
      ensures Decodes(sc.image, a) && sc.BranchOf(a) == None && (a != 16 ==> sc.Queued(a) == [])
      ensures (forall t :: !sc.CallsOut(a, t) && !sc.TailCalls(a, t)) && forall jt :: !sc.HasTable(a, jt)
    {
      GuardedLeaves(a);
    }
    hide Scope.Queued, Scope.BranchOf, Scope.CallsOut, Scope.TailCalls, Scope.HasTable;
  }

  lemma GuardedJump()
    ensures var sc := GuardedScope();
      && sc.IsInternalTarget(20) && sc.IsInternalTarget(18)
      && Decodes(sc.image, 16) && EndOf(sc.image, 16) == 18 && sc.Queued(16) == [20, 18]
  {
  }

  lemma GuardedLeaves(a: Addr)
    requires a in {16, 18, 20}
    ensures var sc := GuardedScope();
      && Decodes(sc.image, a) && sc.BranchOf(a) == None && (a != 16 ==> sc.Queued(a) == [])
      && (forall t :: !sc.CallsOut(a, t) && !sc.TailCalls(a, t)) && forall jt :: !sc.HasTable(a, jt)
  {
    GuardedJump();
    var insn := GuardedImage()[a];
    assert if a == 16 then insn.flow == ConditionalBranch && insn.target == 20 else insn.flow == Next || insn.flow == Flow.Return;
  }

  /** The body of the merged blocks is the text of the three instructions. */
  lemma GuardedBody()
    ensures var sc, r := GuardedScope(), GuardedResult();
      Body(sc.image, {}, r.labels, SealedBlocks(r.blocks)) == Guarded().Code()
  {
    var sc, r := GuardedScope(), GuardedResult();
    GuardedTranslatable();
    EmittedIsValid(sc.image, sc.entry, r.blocks, Found(r), {}, r.labels);
    var f := Emitted(sc.image, r.blocks, {}, r.labels);
    GuardedOrder(f.addrs);
    GuardedLabels(f.emitted);
  }

  lemma GuardedOrder(addrs: seq<Addr>)
    requires Increasing(addrs) && Elements(addrs) == {16, 18, 20}
    ensures addrs == [16, 18, 20]
  {
    forall x: Addr ensures x in addrs <==> x in [16, 18, 20] {
      assert x in addrs <==> x in Elements(addrs);
    }
    OnlyOrder(addrs, [16, 18, 20]);
  }

  lemma GuardedLabels(emitted: set<Addr>)
    requires emitted == LabelSet(GuardedImage(), {18, 20}, {16, 18, 20})
    ensures emitted == {18, 20}
  {
    assert !exists a :: a in {16, 18, 20} && Jumps(GuardedImage(), a, 16);
  }

  lemma GuardedGuest(m: Machine<int>, s: int)
    requires !m.taken(16, s) && AllDecode(GuardedImage(), {16, 18, 20})
    ensures GuestRun(GuardedImage(), {16, 18, 20}, m, At(16, s, []), 2) == Astray
  {
    var image, d, start := GuardedImage(), {16, 18, 20}, At(16, s, []);
    assert GuestRun(image, d, m, start, 0) == start;
    assert GuestRun(image, d, m, start, 1) == At(18, s, [Ran(16)]);
  }

  lemma GuardedHost(m: Machine<int>, s: int)
    requires !m.taken(16, s)
    ensures HostRun([BranchTo(16, 20), Label(18), Plain(18), Label(20), CStmt.Return(20), Leave], m, Running(0, s, []), 5) ==
            Done(Returned(20), m.exec(18, s), [Ran(16), Ran(18), Ran(20)])
  {
    var body := [BranchTo(16, 20), Label(18), Plain(18), Label(20), CStmt.Return(20), Leave];
    var h: Host<int> := Running(0, s, []);
    assert HostRun(body, m, h, 0) == h;
    assert HostRun(body, m, h, 1) == Running(1, s, [Ran(16)]);
    assert HostRun(body, m, h, 2) == Running(2, s, [Ran(16)]);
    assert HostRun(body, m, h, 3) == Running(3, m.exec(18, s), [Ran(16), Ran(18)]);
    assert HostRun(body, m, h, 4) == Running(4, m.exec(18, s), [Ran(16), Ran(18)]);
  }

  lemma GuardedText()
    ensures var f := Guarded();
      f.Code() == [BranchTo(16, 20), Label(18), Plain(18), Label(20), CStmt.Return(20), Leave]
  {
    var f := Guarded();
    var addrs: seq<Addr> := [16, 18, 20];
    assert addrs[..2] == [16, 18] && addrs[..2][..1] == [16] && addrs[..1][..0] == [];
    assert Text(f.image, {}, f.emitted, []) == [];
    assert Text(f.image, {}, f.emitted, [16]) == [BranchTo(16, 20)] by { assert [16][..0] == []; }
    assert Text(f.image, {}, f.emitted, [16, 18]) == [BranchTo(16, 20), Label(18), Plain(18)];
  }
}
