/** The process tree in every run of module Processes: whose child each process is, what exit, wait, fork and kill
    leave behind when they are done, and why no process waits for a spin lock for ever. */
module ProcessTree {
  import opened Options
  import opened Processes
  import opened SleepWakeup

  // ---- parents ----

  /** The slots, from the first on, that exit has taken the children out of: all of them once reparent has returned. */
  function Given(pc: Pc): nat {
    match pc
    case ExReparent(i) => i
    case Wakeup(c, i, w) => if w.FromReparent? then w.j + 1 else if w.FromExit? then NPROC else 0
    case ExLock => NPROC
    case ExMark => NPROC
    case ExUnlock => NPROC
    case ExSched => NPROC
    case Dead => NPROC
    case NoThread => NPROC
    case _ => 0
  }

  predicate Born(st: PState) { st != UNUSED && st != USED }

  /** Nobody is the child of a process that has given its children away, or of a free slot; every process but the
      first has a parent. */
  ghost predicate InvTree(s: State) {
    && Wf(s)
    && (forall i: nat, q: nat | i < NPROC && q < NPROC && s.parent[i] == Some(q) :: Given(s.pc[q]) <= i)
    && (forall p: nat | p < NPROC && p != s.init && Born(s.st[p]) :: s.parent[p].Some?)
  }

  /** How a step can change the parent of q: reparent, fork, or wait taking q away. */
  ghost predicate NewParent(s: State, s': State, t: Step, q: nat)
    requires Wf(s) && Wf(s') && q < NPROC
  {
    && t.Advance? && t.p < NPROC
    && (|| (s.pc[t.p] == ExReparent(q) && s.parent[q] == Some(t.p) && s'.parent[q] == Some(s.init)
             && s'.pc[t.p] == Wakeup(OnProc(s.init), 0, FromReparent(q)))
        || (s.pc[t.p] == FkParent(q) && WaitLock !in s.own && s'.parent[q] == Some(t.p) && s'.pc[t.p] == FkRun(q))
        || (s.pc[t.p].WtScan? && s.pc[t.p].i == q && Reaped(s, s', t.p, q)))
  }

  /** wait(), called by p, returned the pid of its zombie child j and freed j's slot. */
  predicate Reaped(s: State, s': State, p: nat, j: nat)
    requires Wf(s) && Wf(s') && j < NPROC && p < NPROC
  {
    && ZombieChild(s, j, p) && s'.reaped == s.reaped + [s.pid[j]]
    && s'.st[j] == UNUSED && s'.pc[j] == NoThread && s'.parent[j] == None && s'.pc[p] == Elsewhere
  }

  /** What a step does to the place of q in the tree. */
  ghost predicate TreeEffect(s: State, s': State, t: Step, q: nat)
    requires Wf(s) && Wf(s') && q < NPROC
  {
    && (s'.parent[q] == s.parent[q] || NewParent(s, s', t, q))
    && (Given(s'.pc[q]) > Given(s.pc[q]) ==>
          t == Advance(q) && s.pc[q].ExReparent?
          && (s.pc[q].i < NPROC ==> Given(s'.pc[q]) == s.pc[q].i + 1 && s'.parent[s.pc[q].i] != Some(q)))
    && (Born(s'.st[q]) ==> Born(s.st[q]) || (t.Advance? && t.p < NPROC && s.pc[t.p] == FkRun(q)))
  }

  lemma {:induction false} TreeSleep(s: State, p: nat, q: nat)
    requires Wf(s) && p < NPROC && CanAdvance(s, p) && Sleeping(s.pc[p]) && q < NPROC && LocalOk(s, p)
    ensures Wf(DoSleep(s, p)) && TreeEffect(s, DoSleep(s, p), Advance(p), q)
  {
  }

  lemma {:induction false} TreeWakeup(s: State, p: nat, q: nat)
    requires Wf(s) && p < NPROC && s.pc[p].Wakeup? && q < NPROC && LocalOk(s, p)
    ensures var s' := DoWakeup(s, p, s.pc[p].c, s.pc[p].i, s.pc[p].w); Wf(s') && TreeEffect(s, s', Advance(p), q)
  {
  }

  lemma {:induction false} TreeWait(s: State, p: nat, q: nat)
    requires Wf(s) && p < NPROC && s.pc[p].WtScan? && q < NPROC && LocalOk(s, q) && LocalOk(s, p)
    ensures var s' := DoWait(s, p, s.pc[p].i, s.pc[p].kids); Wf(s') && TreeEffect(s, s', Advance(p), q)
  {
  }

  lemma {:induction false} TreeFork(s: State, p: nat, q: nat)
    requires Wf(s) && p < NPROC && CanAdvance(s, p) && (s.pc[p].FkParent? || s.pc[p].FkRun?) && q < NPROC
    requires LocalOk(s, p) && LocalOk(s, q)
    ensures Wf(DoFork(s, p)) && TreeEffect(s, DoFork(s, p), Advance(p), q)
  {
  }

  lemma {:induction false} TreeExit(s: State, p: nat, q: nat)
    requires Wf(s) && p < NPROC && CanAdvance(s, p) && q < NPROC && LocalOk(s, p)
    requires !Sleeping(s.pc[p]) && !s.pc[p].Wakeup? && !s.pc[p].WtScan? && !s.pc[p].FkParent? && !s.pc[p].FkRun?
    ensures Wf(DoExit(s, p)) && TreeEffect(s, DoExit(s, p), Advance(p), q)
  {
  }

  /** Code under other spin locks, in a process or a handler, and the scheduler. */
  predicate Aside(t: Step) { IsData(t) || t.Schedule? || t.Yield? || t.Kill? }

  lemma {:induction false} TreeOther(s: State, t: Step, q: nat)
    requires Enabled(s, t) && Aside(t) && q < NPROC && LocalOk(s, q)
    ensures Wf(Do(s, t)) && TreeEffect(s, Do(s, t), t, q)
  {
    hide DoAdvance;
  }

  lemma {:induction false} TreeIrq(s: State, t: Step, q: nat)
    requires Enabled(s, t) && IsIrq(t) && q < NPROC
    ensures Wf(Do(s, t)) && TreeEffect(s, Do(s, t), t, q)
  {
    hide DoAdvance;
  }

  lemma {:induction false} TreeCall(s: State, t: Step, q: nat)
    requires Enabled(s, t) && !t.Advance? && q < NPROC && LocalOk(s, q)
    ensures Wf(Do(s, t)) && TreeEffect(s, Do(s, t), t, q)
  {
    hide DoAdvance;
    if Aside(t) { TreeOther(s, t, q); } else if IsIrq(t) { TreeIrq(s, t, q); }
  }

  lemma {:induction false} TreeStep(s: State, t: Step, q: nat)
    requires Base(s) && Enabled(s, t) && q < NPROC
    ensures Wf(Do(s, t)) && TreeEffect(s, Do(s, t), t, q)
  {
    hide InvLocal, InvLocks, DoSleep, DoWakeup, DoWait, DoFork, DoExit, TreeEffect;
    LocalAt(s, q);
    if !t.Advance? { TreeCall(s, t, q); }
    else {
      var pc := s.pc[t.p];
      LocalAt(s, t.p);
      if Sleeping(pc) { TreeSleep(s, t.p, q); }
      else if pc.Wakeup? { TreeWakeup(s, t.p, q); }
      else if pc.WtScan? { TreeWait(s, t.p, q); }
      else if pc.FkParent? || pc.FkRun? { TreeFork(s, t.p, q); }
      else { TreeExit(s, t.p, q); }
    }
  }

  lemma {:induction false} ParentStep(s: State, t: Step, i: nat, q: nat)
    requires Base(s) && InvTree(s) && Enabled(s, t) && i < NPROC && q < NPROC && Wf(Do(s, t))
    requires Do(s, t).parent[i] == Some(q)
    ensures Given(Do(s, t).pc[q]) <= i
  {
    hide Do, InvLocal, InvLocks;
    TreeStep(s, t, i);
    TreeStep(s, t, q);
    LocalAt(s, q);
    InitAlive(s);
    if s.parent[i] != Some(q) { LocalAt(s, s.init); }
  }

  lemma {:induction false} InitAlive(s: State)
    requires Base(s)
    ensures Born(s.st[s.init]) && Given(s.pc[s.init]) == 0
  {
    hide InvLocks;
    assert LocalOk(s, s.init);
  }

  lemma {:induction false} OrphanStep(s: State, t: Step, q: nat)
    requires Base(s) && InvTree(s) && Enabled(s, t) && q < NPROC && Wf(Do(s, t)) && q != s.init
    requires Born(Do(s, t).st[q])
    ensures Do(s, t).parent[q].Some?
  {
    hide Do, InvLocal, InvLocks;
    TreeStep(s, t, q);
    if t.Advance? { LocalAt(s, t.p); }
  }

  lemma {:induction false} TreeInvStep(s: State, t: Step)
    requires Base(s) && InvTree(s) && Enabled(s, t)
    ensures InvTree(Do(s, t))
  {
    hide Do, Base;
    var s' := Do(s, t);
    StepWf(s, t);
    assert Wf(s') by { BaseWf(s'); }
    forall i: nat, q: nat | i < NPROC && q < NPROC && s'.parent[i] == Some(q) ensures Given(s'.pc[q]) <= i {
      ParentStep(s, t, i, q);
    }
    forall q: nat | q < NPROC && q != s'.init && Born(s'.st[q]) ensures s'.parent[q].Some? { OrphanStep(s, t, q); }
  }

  // ---- wait ----

  /** Some process below n has p as its parent. */
  ghost predicate HasChild(s: State, p: nat, n: nat)
    requires Wf(s) && n <= NPROC
  {
    exists j: nat | j < n :: s.parent[j] == Some(p)
  }

  /** A process in wait, on its way to sleep. */
  predicate Retiring(pc: Pc) { pc == SlpLock(FromWait) || pc == SlpRelease(FromWait) }

  /** havekids is true exactly if a child was passed; who goes to sleep in wait has a child. */
  ghost predicate KidsOk(s: State, p: nat)
    requires Wf(s) && p < NPROC
  {
    && (s.pc[p].WtScan? ==> s.pc[p].i <= NPROC && (s.pc[p].kids <==> HasChild(s, p, s.pc[p].i)))
    && (Retiring(s.pc[p]) ==> HasChild(s, p, NPROC))
  }

  ghost predicate InvKids(s: State) { Wf(s) && forall p: nat | p < NPROC :: KidsOk(s, p) }

  /** How a process can come to be in wait. */
  predicate WaitPc(s: State, s': State, t: Step, q: nat)
    requires Wf(s) && Wf(s') && q < NPROC
  {
    && (s'.pc[q].WtScan? ==>
          || (s'.pc[q] == s.pc[q] && t != Advance(q))
          || s'.pc[q] == WtScan(0, false)
          || (t == Advance(q) && s.pc[q].WtScan? && s.pc[q].i < NPROC && s'.parent == s.parent
               && s'.pc[q] == WtScan(s.pc[q].i + 1, s.pc[q].kids || s.parent[s.pc[q].i] == Some(q))))
    && (Retiring(s'.pc[q]) ==>
          || (s'.pc[q] == s.pc[q] && t != Advance(q))
          || (t == Advance(q) && s'.parent == s.parent
               && (s.pc[q] == SlpLock(FromWait)
                   || (s.pc[q].WtScan? && s.pc[q].i >= NPROC && s.pc[q].kids && !s.killed[q]))))
  }

  lemma {:induction false} PcSleep(s: State, p: nat, q: nat)
    requires Wf(s) && p < NPROC && CanAdvance(s, p) && Sleeping(s.pc[p]) && q < NPROC
    ensures Wf(DoSleep(s, p)) && WaitPc(s, DoSleep(s, p), Advance(p), q)
  {
  }

  lemma {:induction false} PcWait(s: State, p: nat, q: nat)
    requires Wf(s) && p < NPROC && s.pc[p].WtScan? && q < NPROC
    ensures var s' := DoWait(s, p, s.pc[p].i, s.pc[p].kids); Wf(s') && WaitPc(s, s', Advance(p), q)
  {
  }

  lemma {:induction false} PcExit(s: State, p: nat, q: nat)
    requires Wf(s) && p < NPROC && CanAdvance(s, p) && q < NPROC
    requires !Sleeping(s.pc[p]) && !s.pc[p].Wakeup? && !s.pc[p].WtScan? && !s.pc[p].FkParent? && !s.pc[p].FkRun?
    ensures Wf(DoExit(s, p)) && WaitPc(s, DoExit(s, p), Advance(p), q)
  {
  }

  lemma {:induction false} PcOther(s: State, p: nat, q: nat)
    requires Wf(s) && p < NPROC && CanAdvance(s, p) && q < NPROC && !Sleeping(s.pc[p]) && !s.pc[p].WtScan?
    ensures Wf(DoAdvance(s, p)) && WaitPc(s, DoAdvance(s, p), Advance(p), q)
  {
    hide DoSleep, DoWait, DoExit;
    if !s.pc[p].Wakeup? && !s.pc[p].FkParent? && !s.pc[p].FkRun? {
      hide DoWakeup, DoFork, WaitPc;
      PcExit(s, p, q);
    }
  }

  lemma {:induction false} PcAside(s: State, t: Step, q: nat)
    requires Enabled(s, t) && Aside(t) && q < NPROC
    ensures Wf(Do(s, t)) && WaitPc(s, Do(s, t), t, q)
  {
    hide DoAdvance;
  }

  lemma {:induction false} PcIrq(s: State, t: Step, q: nat)
    requires Enabled(s, t) && IsIrq(t) && q < NPROC
    ensures Wf(Do(s, t)) && WaitPc(s, Do(s, t), t, q)
  {
    hide DoAdvance;
  }

  lemma {:induction false} PcCall(s: State, t: Step, q: nat)
    requires Enabled(s, t) && !t.Advance? && q < NPROC
    ensures Wf(Do(s, t)) && WaitPc(s, Do(s, t), t, q)
  {
    hide DoAdvance;
    if Aside(t) { PcAside(s, t, q); } else if IsIrq(t) { PcIrq(s, t, q); }
  }

  lemma {:induction false} PcStep(s: State, t: Step, q: nat)
    requires Enabled(s, t) && q < NPROC
    ensures Wf(Do(s, t)) && WaitPc(s, Do(s, t), t, q)
  {
    hide DoSleep, DoWakeup, DoWait, DoFork, DoExit, WaitPc;
    if !t.Advance? { PcCall(s, t, q); }
    else if Sleeping(s.pc[t.p]) { PcSleep(s, t.p, q); }
    else if s.pc[t.p].WtScan? { PcWait(s, t.p, q); }
    else { PcOther(s, t.p, q); }
  }

  lemma {:induction false} OnlyHolder(s: State, p: nat, q: nat)
    requires InvLocks(s.pc, s.own) && p < |s.pc| && q < |s.pc| && p != q && Holds(s.pc[p], p, WaitLock)
    ensures !Holds(s.pc[q], q, WaitLock)
  {
    if Holds(s.pc[q], q, WaitLock) { Exclusive(s.pc, s.own, p, q, WaitLock); }
  }

  /** While p holds wait_lock, nobody else gives it a child or takes one away. */
  lemma {:induction false} ChildrenKept(s: State, t: Step, p: nat, j: nat)
    requires Base(s) && Enabled(s, t) && p < NPROC && j < NPROC && Holds(s.pc[p], p, WaitLock) && t != Advance(p)
    ensures Wf(Do(s, t)) && (Do(s, t).parent[j] == Some(p) <==> s.parent[j] == Some(p))
  {
    hide Do, InvLocal;
    if t.Advance? { OnlyHolder(s, p, t.p); }
    assert WaitLock in s.own;
    TreeStep(s, t, j);
  }

  lemma {:induction false} KidsStep(s: State, t: Step, p: nat)
    requires Base(s) && InvKids(s) && Enabled(s, t) && p < NPROC
    ensures Wf(Do(s, t)) && KidsOk(Do(s, t), p)
  {
    hide Do, InvLocal, InvLocks;
    var s' := Do(s, t);
    PcStep(s, t, p);
    assert KidsOk(s, p);
    if (s'.pc[p].WtScan? || Retiring(s'.pc[p])) && s'.pc[p] == s.pc[p] && t != Advance(p) {
      forall j: nat | j < NPROC ensures s'.parent[j] == Some(p) <==> s.parent[j] == Some(p) {
        ChildrenKept(s, t, p, j);
      }
    }
  }

  lemma {:induction false} KidsInvStep(s: State, t: Step)
    requires Base(s) && InvKids(s) && Enabled(s, t)
    ensures InvKids(Do(s, t))
  {
    hide Do, Base, KidsOk;
    KidsStep(s, t, 0);
    forall p: nat | p < NPROC ensures KidsOk(Do(s, t), p) { KidsStep(s, t, p); }
  }

  // ---- sleep locks by index ----

  /** Calls name sleep locks that exist; a process that has cleared lk->locked no longer has the lock; p->chan is set
      exactly from where sleep sets it to where it clears it. */
  predicate HoldOk(s: State, p: nat)
    requires Wf(s) && p < NPROC
  {
    && (s.chan[p].Some? <==> s.pc[p].SlpSched? || s.pc[p].Asleep? || s.pc[p].SlpTidy?)
    && match s.pc[p]
       case AcqTest(l) => l < |s.locked|
       case RelClear(l) => l < |s.locked|
       case Wakeup(c, i, w) => w.FromRelease? ==> (w.l, p) !in s.has
       case RelUnlock(l) => (l, p) !in s.has
       case SlpLock(k) => k.FromAcquire? ==> k.l < |s.locked|
       case SlpRelease(k) => k.FromAcquire? ==> k.l < |s.locked|
       case SlpMark(k) => k.FromAcquire? ==> k.l < |s.locked|
       case SlpSched(k) => k.FromAcquire? ==> k.l < |s.locked|
       case Asleep(k) => k.FromAcquire? ==> k.l < |s.locked|
       case SlpTidy(k) => k.FromAcquire? ==> k.l < |s.locked|
       case SlpUnlock(k) => k.FromAcquire? ==> k.l < |s.locked|
       case SlpReacquire(k) => k.FromAcquire? ==> k.l < |s.locked|
       case _ => true
  }

  ghost predicate InvHold(s: State) { Wf(s) && forall p: nat | p < NPROC :: HoldOk(s, p) }

  lemma {:induction false} HoldSleep(s: State, p: nat, q: nat)
    requires Wf(s) && p < NPROC && CanAdvance(s, p) && Sleeping(s.pc[p]) && q < NPROC && HoldOk(s, p) && HoldOk(s, q)
    ensures Wf(DoSleep(s, p)) && HoldOk(DoSleep(s, p), q)
  {
  }

  lemma {:induction false} HoldExit(s: State, p: nat, q: nat)
    requires Wf(s) && p < NPROC && CanAdvance(s, p) && q < NPROC && HoldOk(s, p) && HoldOk(s, q)
    requires !Sleeping(s.pc[p]) && !s.pc[p].Wakeup? && !s.pc[p].WtScan? && !s.pc[p].FkParent? && !s.pc[p].FkRun?
    ensures Wf(DoExit(s, p)) && HoldOk(DoExit(s, p), q)
  {
  }

  lemma {:induction false} HoldWakeup(s: State, p: nat, q: nat)
    requires Wf(s) && p < NPROC && s.pc[p].Wakeup? && q < NPROC && HoldOk(s, p) && HoldOk(s, q)
    ensures var s' := DoWakeup(s, p, s.pc[p].c, s.pc[p].i, s.pc[p].w); Wf(s') && HoldOk(s', q)
  {
  }

  lemma {:induction false} HoldWait(s: State, p: nat, q: nat)
    requires Wf(s) && p < NPROC && s.pc[p].WtScan? && q < NPROC && HoldOk(s, p) && HoldOk(s, q)
    ensures var s' := DoWait(s, p, s.pc[p].i, s.pc[p].kids); Wf(s') && HoldOk(s', q)
  {
  }

  lemma {:induction false} HoldFork(s: State, p: nat, q: nat)
    requires Wf(s) && p < NPROC && (s.pc[p].FkParent? || s.pc[p].FkRun?) && q < NPROC && HoldOk(s, p) && HoldOk(s, q)
    requires LocalOk(s, p) && LocalOk(s, q)
    ensures Wf(DoFork(s, p)) && HoldOk(DoFork(s, p), q)
  {
  }

  lemma {:induction false} HoldAside(s: State, t: Step, q: nat)
    requires Enabled(s, t) && Aside(t) && q < NPROC && HoldOk(s, q)
    ensures Wf(Do(s, t)) && HoldOk(Do(s, t), q)
  {
    hide DoAdvance;
  }

  lemma {:induction false} HoldIrq(s: State, t: Step, q: nat)
    requires Enabled(s, t) && IsIrq(t) && q < NPROC && HoldOk(s, q)
    ensures Wf(Do(s, t)) && HoldOk(Do(s, t), q)
  {
    hide DoAdvance;
  }

  lemma {:induction false} HoldCall(s: State, t: Step, q: nat)
    requires Enabled(s, t) && !t.Advance? && q < NPROC && HoldOk(s, q)
    ensures Wf(Do(s, t)) && HoldOk(Do(s, t), q)
  {
    hide DoAdvance;
    if Aside(t) { HoldAside(s, t, q); } else if IsIrq(t) { HoldIrq(s, t, q); }
  }

  lemma {:induction false} HoldAt(s: State, t: Step, q: nat)
    requires Base(s) && InvHold(s) && Enabled(s, t) && q < NPROC
    ensures Wf(Do(s, t)) && HoldOk(Do(s, t), q)
  {
    hide InvLocal, InvLocks, HoldOk, DoSleep, DoWakeup, DoWait, DoFork, DoExit;
    assert HoldOk(s, q);
    LocalAt(s, q);
    if !t.Advance? { HoldCall(s, t, q); }
    else {
      var pc := s.pc[t.p];
      assert HoldOk(s, t.p);
      LocalAt(s, t.p);
      if Sleeping(pc) { HoldSleep(s, t.p, q); }
      else if pc.Wakeup? { HoldWakeup(s, t.p, q); }
      else if pc.WtScan? { HoldWait(s, t.p, q); }
      else if pc.FkParent? || pc.FkRun? { HoldFork(s, t.p, q); }
      else { HoldExit(s, t.p, q); }
    }
  }

  lemma {:induction false} HoldStep(s: State, t: Step)
    requires Base(s) && InvHold(s) && Enabled(s, t)
    ensures InvHold(Do(s, t))
  {
    hide Base, HoldOk, Do, Enabled;
    HoldAt(s, t, 0);
    forall q: nat | q < NPROC ensures HoldOk(Do(s, t), q) { HoldAt(s, t, q); }
  }

  // ---- how calls end ----

  ghost predicate HasZombie(s: State, p: nat)
    requires Wf(s)
  {
    exists j: nat | j < NPROC :: ZombieChild(s, j, p)
  }

  ghost predicate ReapedSome(s: State, s': State, p: nat)
    requires Wf(s) && Wf(s') && p < NPROC
  {
    exists j: nat | j < NPROC :: Reaped(s, s', p, j)
  }

  /** wait(), called by p, returns -1. */
  ghost predicate NoPid(s: State, s': State, t: Step, p: nat)
    requires Wf(s) && p < NPROC
  {
    && s'.parent == s.parent && s'.st == s.st
    && if t == ReapFails(p) then HasZombie(s, p) else !HasZombie(s, p) && (s.killed[p] || !HasChild(s, p, NPROC))
  }

  /** What is true when p leaves the code of this model, by where it leaves from. Nobody leaves from exit, nor from
      inside sleep or wakeup. */
  ghost predicate Returned(s: State, s': State, t: Step, p: nat)
    requires Wf(s) && Wf(s') && p < NPROC
  {
    match s.pc[p]
    // acquiresleep: the lock was free and is p's now
    case AcqTest(l) => l < |s.locked| && s.locked[l] == None && s'.locked == s.locked[l := Some(p)] && (l, p) in s'.has
    // releasesleep: p does not have it any more
    case RelUnlock(l) => (l, p) !in s'.has
    // wait: with the pid of a zombie child of p; or, if copyout fails, or if p has no zombie child, and no child at
    // all or was killed, without
    case WtScan(i, kids) =>
      if s'.reaped != s.reaped then HasZombie(s, p) && ReapedSome(s, s', p)
      else NoPid(s, s', t, p)
    // fork: the child is free again if there was no memory, else it can run, and it is p's child
    case FkParent(i) => i < NPROC && t == ForkFails(p) && s'.st[i] == UNUSED && s'.parent[i] == None
    case FkRun(i) => i < NPROC && s'.st[i] == RUNNABLE && s'.pc[i] == Elsewhere && s'.parent[i] == Some(p)
      && s'.pid[i] == s.pid[i]
    case Inside(m) => DataLock(m) !in s'.own
    // a new process starts: some fork is done
    case NoThread => t.Advance? && t.p < NPROC && s.pc[t.p] == FkRun(p) && s'.st[p] == RUNNABLE
    case _ => false
  }

  lemma {:induction false} ReturnSleep(s: State, p: nat, q: nat)
    requires Wf(s) && p < NPROC && CanAdvance(s, p) && Sleeping(s.pc[p]) && q < NPROC
    requires s.pc[q] != Elsewhere && DoSleep(s, p).pc[q] == Elsewhere
    ensures Wf(DoSleep(s, p)) && Returned(s, DoSleep(s, p), Advance(p), q)
  {
  }

  lemma {:induction false} ReturnWait(s: State, p: nat, q: nat)
    requires Wf(s) && p < NPROC && s.pc[p].WtScan? && q < NPROC && KidsOk(s, p) && LocalOk(s, p)
    requires forall j: nat | j < s.pc[p].i && j < NPROC :: !ZombieChild(s, j, p)
    requires s.pc[q] != Elsewhere && DoWait(s, p, s.pc[p].i, s.pc[p].kids).pc[q] == Elsewhere
    ensures Wf(DoWait(s, p, s.pc[p].i, s.pc[p].kids))
    ensures Returned(s, DoWait(s, p, s.pc[p].i, s.pc[p].kids), Advance(p), q)
  {
    var s', i := DoWait(s, p, s.pc[p].i, s.pc[p].kids), s.pc[p].i;
    if i < NPROC && s.parent[i] == Some(p) && s.st[i] == ZOMBIE { assert ZombieChild(s, i, p) && Reaped(s, s', p, i); }
  }

  lemma {:induction false} ReturnExit(s: State, p: nat, q: nat)
    requires Wf(s) && p < NPROC && CanAdvance(s, p) && q < NPROC && HoldOk(s, p)
    requires !Sleeping(s.pc[p]) && !s.pc[p].Wakeup? && !s.pc[p].WtScan? && !s.pc[p].FkParent? && !s.pc[p].FkRun?
    requires s.pc[q] != Elsewhere && DoExit(s, p).pc[q] == Elsewhere
    ensures Wf(DoExit(s, p)) && Returned(s, DoExit(s, p), Advance(p), q)
  {
  }

  lemma {:induction false} ReturnFork(s: State, p: nat, q: nat)
    requires Wf(s) && p < NPROC && CanAdvance(s, p) && (s.pc[p].FkParent? || s.pc[p].FkRun?) && q < NPROC
    requires LocalOk(s, p) && LocalOk(s, s.pc[p].i) && s.pc[q] != Elsewhere && DoFork(s, p).pc[q] == Elsewhere
    ensures Wf(DoFork(s, p)) && Returned(s, DoFork(s, p), Advance(p), q)
  {
  }

  lemma {:induction false} ReturnCall(s: State, t: Step, q: nat)
    requires Enabled(s, t) && !t.Advance? && q < NPROC && LocalOk(s, q) && s.pc[q] != Elsewhere
    requires Wf(Do(s, t)) && Do(s, t).pc[q] == Elsewhere
    ensures Returned(s, Do(s, t), t, q)
  {
    hide DoAdvance;
    if t.ReapFails? { assert ZombieChild(s, s.pc[t.p].i, t.p); }
  }

  lemma {:induction false} ReturnStep(s: State, t: Step, q: nat)
    requires Base(s) && InvHold(s) && InvKids(s) && InvWait(s) && Enabled(s, t) && q < NPROC && s.pc[q] != Elsewhere
    requires Wf(Do(s, t)) && Do(s, t).pc[q] == Elsewhere
    ensures Returned(s, Do(s, t), t, q)
  {
    hide InvLocal, InvLocks, DoSleep, DoWakeup, DoWait, DoFork, DoExit, Returned, KidsOk, HoldOk;
    LocalAt(s, q);
    if !t.Advance? { ReturnCall(s, t, q); }
    else {
      var pc := s.pc[t.p];
      LocalAt(s, t.p);
      assert KidsOk(s, t.p) && HoldOk(s, t.p);
      if Sleeping(pc) { ReturnSleep(s, t.p, q); }
      else if pc.Wakeup? { WakesOnly(s, t.p, q); }
      else if pc.WtScan? { ReturnWait(s, t.p, q); }
      else if pc.FkParent? || pc.FkRun? { LocalAt(s, pc.i); ReturnFork(s, t.p, q); }
      else { ReturnExit(s, t.p, q); }
    }
  }

  lemma {:induction false} WakesOnly(s: State, p: nat, q: nat)
    requires Wf(s) && p < NPROC && s.pc[p].Wakeup? && q < NPROC && s.pc[q] != Elsewhere
    ensures var s' := DoWakeup(s, p, s.pc[p].c, s.pc[p].i, s.pc[p].w); q < |s'.pc| && s'.pc[q] != Elsewhere
  {
  }

  /** The points of exit. */
  predicate InExit(pc: Pc) {
    pc.ExReparent? || (pc.Wakeup? && (pc.w.FromReparent? || pc.w.FromExit?)) || pc.ExLock? || pc.ExMark? || pc.ExUnlock?
    || pc.ExSched? || pc.Dead?
  }

  /** A process in exit stays there until its parent's wait takes it away. */
  predicate ExitOn(s: State, s': State, t: Step, q: nat)
    requires Wf(s) && Wf(s') && q < NPROC
  {
    InExit(s'.pc[q]) || (t.Advance? && t.p < NPROC && s.parent[q] == Some(t.p) && Reaped(s, s', t.p, q))
  }

  lemma {:induction false} ExitOnExit(s: State, p: nat, q: nat)
    requires Wf(s) && p < NPROC && CanAdvance(s, p) && q < NPROC && InExit(s.pc[q])
    requires !Sleeping(s.pc[p]) && !s.pc[p].WtScan? && !s.pc[p].FkParent? && !s.pc[p].FkRun?
    ensures Wf(DoAdvance(s, p)) && InExit(DoAdvance(s, p).pc[q])
  {
    hide DoSleep, DoWait, DoFork;
  }

  lemma {:induction false} ExitOnSleep(s: State, p: nat, q: nat)
    requires Wf(s) && p < NPROC && CanAdvance(s, p) && q < NPROC && InExit(s.pc[q]) && Sleeping(s.pc[p])
    ensures Wf(DoSleep(s, p)) && InExit(DoSleep(s, p).pc[q])
  {
  }

  lemma {:induction false} ExitOnWait(s: State, p: nat, q: nat)
    requires Wf(s) && p < NPROC && q < NPROC && InExit(s.pc[q]) && s.pc[p].WtScan? && LocalOk(s, p)
    ensures var s' := DoWait(s, p, s.pc[p].i, s.pc[p].kids); Wf(s') && ExitOn(s, s', Advance(p), q)
  {
  }

  lemma {:induction false} ExitOnFork(s: State, p: nat, q: nat)
    requires Wf(s) && p < NPROC && CanAdvance(s, p) && q < NPROC && InExit(s.pc[q]) && LocalOk(s, p) && LocalOk(s, q)
    requires s.pc[p].FkParent? || s.pc[p].FkRun?
    ensures Wf(DoFork(s, p)) && InExit(DoFork(s, p).pc[q])
  {
  }

  lemma {:induction false} ExitOnCall(s: State, t: Step, q: nat)
    requires Enabled(s, t) && !t.Advance? && q < NPROC && InExit(s.pc[q]) && LocalOk(s, q)
    ensures Wf(Do(s, t)) && InExit(Do(s, t).pc[q])
  {
    hide DoAdvance;
  }

  lemma {:induction false} ExitOnStep(s: State, t: Step, q: nat)
    requires Base(s) && Enabled(s, t) && q < NPROC && InExit(s.pc[q])
    ensures Wf(Do(s, t)) && ExitOn(s, Do(s, t), t, q)
  {
    hide InvLocal, InvLocks, InExit, DoSleep, DoWakeup, DoWait, DoFork, DoExit;
    LocalAt(s, q);
    if !t.Advance? { ExitOnCall(s, t, q); }
    else {
      LocalAt(s, t.p);
      var pc := s.pc[t.p];
      if Sleeping(pc) { ExitOnSleep(s, t.p, q); }
      else if pc.WtScan? { ExitOnWait(s, t.p, q); }
      else if pc.FkParent? || pc.FkRun? { ExitOnFork(s, t.p, q); }
      else { ExitOnExit(s, t.p, q); }
    }
  }

  // ---- no deadlock ----

  /** A bound on the steps p can still take in its call before it returns or sleeps. */
  function Rank(pc: Pc): nat {
    match pc
    case SlpTidy(k) => 2
    case SlpUnlock(k) => 1
    case SlpSched(k) => 1
    case SlpMark(k) => 2
    case SlpRelease(k) => 3
    case SlpLock(k) => 4
    case AcqTest(l) => 5
    case WtScan(i, kids) => if i < NPROC then 5 + NPROC - i else 5
    case RelUnlock(l) => 1
    case RelClear(l) => NPROC + 3
    case FkRun(i) => 1
    case FkParent(i) => 2
    case ExSched => 1
    case ExUnlock => 2
    case ExMark => 3
    case ExLock => 4
    case ExReparent(i) => RankReparent(i)
    case Wakeup(c, i, w) => (if i < NPROC then NPROC + 1 - i else 1) + RankAfter(w)
    case _ => 0
  }

  function RankReparent(i: nat): nat { NPROC + 6 + if i < NPROC then (NPROC - i) * (NPROC + 3) else 0 }

  function RankAfter(w: Waker): nat {
    match w
    case FromRelease(l) => 1
    case FromReparent(j) => RankReparent(j + 1)
    case FromExit => 4
    case InData(m) => 0
  }

  lemma {:induction false} ProgressExit(s: State, p: nat)
    requires Wf(s) && p < NPROC && CanAdvance(s, p)
    requires !Sleeping(s.pc[p]) && !s.pc[p].Wakeup? && !s.pc[p].WtScan? && !s.pc[p].FkParent? && !s.pc[p].FkRun?
    ensures p < |DoExit(s, p).pc| && Rank(DoExit(s, p).pc[p]) < Rank(s.pc[p])
  {
  }

  /** Every step of a call but the return from sleep brings the call nearer to its end. */
  lemma {:induction false} Progress(s: State, p: nat)
    requires Base(s) && p < NPROC && CanAdvance(s, p) && !s.pc[p].SlpReacquire?
    ensures p < |DoAdvance(s, p).pc| && Rank(DoAdvance(s, p).pc[p]) < Rank(s.pc[p])
  {
    hide InvLocal, InvLocks, DoExit;
    LocalAt(s, p);
    if Sleeping(s.pc[p]) { hide DoWait, DoWakeup, DoFork; }
    else if s.pc[p].Wakeup? || s.pc[p].FkParent? || s.pc[p].FkRun? || s.pc[p].WtScan? { hide DoSleep; }
    else {
      hide DoWait, DoSleep, DoWakeup, DoFork, Rank;
      ProgressExit(s, p);
    }
  }

  /** The next step of a process or handler that holds a spin lock. */
  function NextOf(s: State, h: nat): Step
    requires h < |s.pc|
  {
    if h < NPROC then (if s.pc[h].Inside? then Leave(h) else Advance(h))
    else if s.pc[h].Inside? then IrqLeave(h) else IrqScan(h)
  }

  predicate ProcLocked(s: State, i: nat) { ProcLock(i) in s.own }

  /** Who holds a p->lock waits for nothing. */
  lemma {:induction false} ProcLockMoves(s: State, i: nat)
    requires Base(s) && ProcLock(i) in s.own
    ensures s.own[ProcLock(i)] == i < NPROC && Enabled(s, NextOf(s, i))
  {
    hide InvLocal;
    var h := s.own[ProcLock(i)];
    assert Holds(s.pc[h], h, ProcLock(i));
    if h < NPROC { LocalAt(s, h); } else { HandlerAt(s, h); }
  }

  /** Who holds any other lock waits for a p->lock at most. */
  lemma {:induction false} OtherLockMoves(s: State, x: Lock)
    requires Base(s) && InvHold(s) && x in s.own && !x.ProcLock? && forall i :: !ProcLocked(s, i)
    ensures s.own[x] < |s.pc| && Enabled(s, NextOf(s, s.own[x]))
  {
    hide InvLocal;
    var h := s.own[x];
    assert Holds(s.pc[h], h, x);
    assert forall i | ProcLock(i) in s.own :: ProcLocked(s, i);
    if h < NPROC { LocalAt(s, h); assert HoldOk(s, h); } else { HandlerAt(s, h); }
  }

  // ---- every run ----

  ghost predicate AllInv(s: State) { Inv(s) && InvTree(s) && InvKids(s) && InvHold(s) }

  lemma {:induction false} AllInit(s: State)
    requires Init(s)
    ensures AllInv(s)
  {
    hide Inv;
    InitInv(s);
    forall p: nat | p < NPROC ensures KidsOk(s, p) && HoldOk(s, p) && (p != s.init ==> !Born(s.st[p])) { InitPc(s, p); }
  }

  lemma {:induction false} AllStep(s: State, t: Step)
    requires AllInv(s) && Enabled(s, t)
    ensures AllInv(Do(s, t))
  {
    hide Base, InvScan, InvWait, InvPids, LockOk, InvTree, InvKids, InvHold, Do, Enabled;
    StepInv(s, t);
    TreeInvStep(s, t);
    KidsInvStep(s, t);
    HoldStep(s, t);
  }

  lemma {:induction false} RunAll(ss: seq<State>, ts: seq<Step>, k: nat)
    requires Run(ss, ts) && k < |ss|
    ensures AllInv(ss[k])
  {
    hide AllInv, Init, Do, Enabled;
    if k == 0 { AllInit(ss[0]); } else { RunAll(ss, ts, k - 1); AllStep(ss[k - 1], ts[k - 1]); }
  }

  /** In every run, the parent of a process is a process that has not given its children away: it is neither free nor a
      zombie nor past reparent in exit, and in reparent it has yet to come to this child. While wait_lock is free it is
      not in exit at all. */
  lemma {:induction false} LiveParent(ss: seq<State>, ts: seq<Step>, k: nat, i: nat, q: nat)
    requires Run(ss, ts) && k < |ss| && i < NPROC && Wf(ss[k]) && ss[k].parent[i] == Some(q)
    ensures q < NPROC && Born(ss[k].st[q]) && ss[k].st[q] != ZOMBIE && Given(ss[k].pc[q]) <= i
    ensures WaitLock !in ss[k].own ==> !InExit(ss[k].pc[q])
  {
    hide InvLocks, InvLocal;
    RunAll(ss, ts, k);
    LocalAt(ss[k], q);
    if WaitLock !in ss[k].own { NotHeld(ss[k].pc, ss[k].own, q, WaitLock); }
  }

  /** Every process but the first has such a parent; a slot that is free has none. */
  lemma {:induction false} EveryParent(ss: seq<State>, ts: seq<Step>, k: nat, p: nat)
    requires Run(ss, ts) && k < |ss| && p < NPROC && Wf(ss[k]) && p != ss[k].init
    ensures Born(ss[k].st[p]) ==> ss[k].parent[p].Some? && ss[k].parent[p] != Some(p)
    ensures ss[k].st[p] == UNUSED ==> ss[k].parent[p] == None
  {
    hide InvLocks, InvLocal;
    RunAll(ss, ts, k);
    LocalAt(ss[k], p);
  }

  /** A process loses its parent q in two ways: q's wait returns its pid, or q, which is not the first process, exits
      and gives it to the first, which is then woken if it sleeps in wait. */
  lemma {:induction false} ParentChange(ss: seq<State>, ts: seq<Step>, k: nat, i: nat, q: nat)
    requires Run(ss, ts) && k < |ts| && i < NPROC && Wf(ss[k]) && Wf(ss[k + 1])
    requires ss[k].parent[i] == Some(q) && ss[k + 1].parent[i] != Some(q)
    ensures q < NPROC && ts[k] == Advance(q)
    ensures || (ss[k].pc[q].WtScan? && Reaped(ss[k], ss[k + 1], q, i))
            || (q != ss[k].init && ss[k].pc[q] == ExReparent(i) && ss[k + 1].parent[i] == Some(ss[k].init)
                 && ss[k + 1].pc[q] == Wakeup(OnProc(ss[k].init), 0, FromReparent(i)))
  {
    hide InvLocks, InvLocal, Do;
    RunAll(ss, ts, k);
    TreeStep(ss[k], ts[k], i);
    LocalAt(ss[k], ts[k].p);
    LocalAt(ss[k], q);
  }

  /** How every call ends. */
  lemma {:induction false} CallReturns(ss: seq<State>, ts: seq<Step>, k: nat, p: nat)
    requires Run(ss, ts) && k < |ts| && p < NPROC && Wf(ss[k]) && Wf(ss[k + 1])
    requires ss[k].pc[p] != Elsewhere && ss[k + 1].pc[p] == Elsewhere
    ensures Returned(ss[k], ss[k + 1], ts[k], p)
  {
    hide InvLocks, InvLocal, Do, Returned;
    RunAll(ss, ts, k);
    ReturnStep(ss[k], ts[k], p);
  }

  /** A process goes to sleep in wait only if it has a child, none that is a zombie, and was not killed. */
  lemma {:induction false} WaitSleeps(ss: seq<State>, ts: seq<Step>, k: nat, p: nat)
    requires Run(ss, ts) && k < |ts| && p < NPROC && Wf(ss[k]) && Wf(ss[k + 1])
    requires ss[k].pc[p].WtScan? && ss[k + 1].pc[p] == SlpLock(FromWait)
    ensures HasChild(ss[k], p, NPROC) && !HasZombie(ss[k], p) && !ss[k].killed[p] && ss[k + 1].parent == ss[k].parent
  {
    hide InvLocks, InvLocal, Do;
    RunAll(ss, ts, k);
    PcStep(ss[k], ts[k], p);
    LocalAt(ss[k], p);
    assert KidsOk(ss[k], p);
  }

  /** wait returns only pids of zombie children of the caller. */
  lemma {:induction false} ReapedChild(ss: seq<State>, ts: seq<Step>, k: nat)
    requires Run(ss, ts) && k < |ts| && Wf(ss[k]) && Wf(ss[k + 1]) && ss[k + 1].reaped != ss[k].reaped
    ensures ts[k].Advance? && ts[k].p < NPROC && ss[k].pc[ts[k].p].WtScan?
    ensures ReapedSome(ss[k], ss[k + 1], ts[k].p)
  {
    hide InvLocks, InvLocal;
    RunAll(ss, ts, k);
    ReapEffect(ss[k], ts[k]);
    LocalAt(ss[k], ts[k].p);
    ReapLeaves(ss[k], ts[k].p);
    CallReturns(ss, ts, k, ts[k].p);
  }

  lemma {:induction false} ReapLeaves(s: State, p: nat)
    requires Enabled(s, Advance(p)) && s.pc[p].WtScan? && Do(s, Advance(p)).reaped != s.reaped
    ensures Do(s, Advance(p)).pc[p] == Elsewhere
  {
    hide DoSleep, DoExit, DoFork, DoWakeup;
  }

  /** exit does not return, and the exit of every process reaches wait at most once: the process stays in exit, as a
      zombie in the end, or a call of wait has returned its pid. */
  lemma {:induction false} ExitFinal(ss: seq<State>, ts: seq<Step>, k: nat, m: nat, p: nat)
    requires Run(ss, ts) && k <= m < |ss| && p < NPROC && Wf(ss[k]) && InExit(ss[k].pc[p])
    ensures Wf(ss[m])
    ensures (InExit(ss[m].pc[p]) && ss[m].pid[p] == ss[k].pid[p]) || ss[k].pid[p] in ss[m].reaped
  {
    hide Do, Enabled, Reaped, InExit, InvScan, InvWait, InvPids, LockOk, InvTree, InvKids, InvHold, Base;
    RunAll(ss, ts, m);
    BaseWf(ss[m]);
    if m > k {
      ExitFinal(ss, ts, k, m - 1, p);
      RunAll(ss, ts, m - 1);
      ReapEffect(ss[m - 1], ts[m - 1]);
      if InExit(ss[m - 1].pc[p]) { ExitKeepsPid(ss[m - 1], ts[m - 1], p); }
    }
  }

  lemma {:induction false} ExitKeepsPid(s: State, t: Step, p: nat)
    requires Base(s) && Enabled(s, t) && p < NPROC && InExit(s.pc[p])
    ensures Wf(Do(s, t)) && ((InExit(Do(s, t).pc[p]) && Do(s, t).pid[p] == s.pid[p]) || s.pid[p] in Do(s, t).reaped)
  {
    hide InvLocks, InvLocal, Do;
    ExitOnStep(s, t, p);
    PidEffect(s, t, p);
    StepWf(s, t);
    LocalAt(s, p);
    LocalAt(Do(s, t), p);
  }

  /** Where each call starts, holding what; kill marks the process and wakes it if it sleeps; a scheduled process runs,
      and goes on in sleep if it slept. */
  lemma {:induction false} Begins(s: State, t: Step)
    requires Enabled(s, t)
    ensures Wf(Do(s, t)) && |Do(s, t).pc| == |s.pc| && var s' := Do(s, t);
            match t
            case AcquireSleep(p, l) => s'.pc[p] == AcqTest(l) && Held(s', SpinOf(l), p)
            case ReleaseSleep(p, l) => s'.pc[p] == RelClear(l) && Held(s', SpinOf(l), p)
            case Exit(p) => s'.pc[p] == ExReparent(0) && Held(s', WaitLock, p)
            case Wait(p) => s'.pc[p] == WtScan(0, false) && Held(s', WaitLock, p)
            case Fork(p, i) => s'.pc[p] == FkParent(i) && s'.st[i] == USED && s'.pid[i] == s.nextpid < s'.nextpid
            case Enter(p, m) => s'.pc[p] == Inside(m) && Held(s', DataLock(m), p)
            case SleepOn(p, a) => s'.pc[p].SlpLock? && ChanOf(s'.pc[p].k, p) == OnData(a, s.pc[p].m)
            case WakeOn(p, a) => s'.pc[p].Wakeup? && s'.pc[p].c == OnData(a, s.pc[p].m) && s'.pc[p].i == 0
            case IrqWake(h, a) => s'.pc[h].Wakeup? && s'.pc[h].c == OnData(a, s.pc[h].m) && s'.pc[h].i == 0
            case Kill(i) => s'.killed[i] && s'.st[i] == if s.st[i] == SLEEPING then RUNNABLE else s.st[i]
            case Schedule(p) => s'.st[p] == RUNNING && !s'.pc[p].Asleep?
            case Yield(p) => s'.st[p] == RUNNABLE && s'.pc == s.pc
            case _ => true
  {
    hide DoAdvance;
    SamePcs(s, t);
    if t.Advance? { StepSized(s, t.p); }
  }

  lemma {:induction false} StepSized(s: State, p: nat)
    requires Wf(s) && p < NPROC && CanAdvance(s, p)
    ensures Wf(DoAdvance(s, p))
  {
    if Sleeping(s.pc[p]) { hide DoWait, DoWakeup, DoFork, DoExit; }
    else if s.pc[p].Wakeup? || s.pc[p].FkParent? || s.pc[p].FkRun? || s.pc[p].WtScan? { hide DoSleep, DoExit; }
    else { hide DoWait, DoSleep, DoWakeup, DoFork; }
  }

  predicate Held(s: State, x: Lock, p: nat) { x in s.own && s.own[x] == p }

  /** No deadlock: while any spin lock is held, by processes or handlers, one of the holders can take its next step; by
      Progress, a finite number of them lead to the lock's release. */
  lemma {:induction false} NoDeadlock(ss: seq<State>, ts: seq<Step>, k: nat, x: Lock) returns (h: nat)
    requires Run(ss, ts) && k < |ss| && x in ss[k].own
    ensures h < |ss[k].pc| && (exists y :: y in ss[k].own && ss[k].own[y] == h) && Enabled(ss[k], NextOf(ss[k], h))
  {
    hide InvLocks, InvLocal, Enabled;
    RunAll(ss, ts, k);
    if i: nat :| ProcLocked(ss[k], i) {
      ProcLockMoves(ss[k], i);
      h := i;
    } else {
      assert x.ProcLock? ==> ProcLocked(ss[k], x.p);
      OtherLockMoves(ss[k], x);
      h := ss[k].own[x];
    }
  }
}
