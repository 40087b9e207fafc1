/** What sleep, wakeup, sleep locks, exit and wait guarantee in every run of module Processes. */
module SleepWakeup {
  import opened Options
  import opened Processes

  /** Process q has gone past release(lk) in sleep(c, lk) and has not been woken since. */
  predicate Committed(s: State, q: nat, c: Chan)
    requires Wf(s) && q < NPROC
  {
    match s.pc[q]
    case SlpMark(k) => ChanOf(k, q) == c
    case SlpSched(k) => ChanOf(k, q) == c
    case Asleep(k) => s.st[q] == SLEEPING && ChanOf(k, q) == c
    case _ => false
  }

  ghost predicate Base(s: State) { Wf(s) && InvLocks(s.pc, s.own) && InvLocal(s) }

  // ---- what a step can change ----

  /** What one step can do to process q: it commits q to sleep only if it is q's own release(lk);
      it makes q a zombie only in exit; it gives q a parent only in reparent or fork; it moves q
      into, inside or out of wakeup only if q takes the step. `p` is the process that advances. */
  ghost predicate Effect(s: State, s': State, p: Option<nat>, q: nat)
    requires Wf(s) && Wf(s') && (p.Some? ==> p.value < NPROC) && q < NPROC
  {
    && (forall c | Committed(s', q, c) ::
          Committed(s, q, c) || (p == Some(q) && s.pc[q].SlpRelease? && ChanOf(s.pc[q].k, q) == c))
    && (s'.st[q] == ZOMBIE ==> s.st[q] == ZOMBIE || (p == Some(q) && s.pc[q] == ExMark))
    && (p != Some(q) && (s'.pc[q].Wakeup? || s.pc[q].Wakeup?) ==> s'.pc[q] == s.pc[q])
    && (s'.pc[q].Wakeup? && s'.pc[q] != s.pc[q] ==>
          s'.pc[q].i == 0 || (s.pc[q].Wakeup? && s'.pc[q] == Wakeup(s.pc[q].c, s.pc[q].i + 1, s.pc[q].w)))
    && (s'.parent[q].Some? && s'.parent[q] != s.parent[q] ==>
          p.Some? && ((s.pc[p.value] == ExReparent(q) && s'.parent[q] == Some(s.init)
          && s'.pc[p.value] == Wakeup(OnProc(s.init), 0, FromReparent(q)))
                      || (s.pc[p.value] == FkParent(q) && s'.parent[q] == Some(p.value))))
  }

  /** The process whose own step t is, if it can start or move a wakeup. */
  function Mover(t: Step): Option<nat> { if t.Advance? || t.WakeOn? then Some(t.p) else None }

  lemma {:induction false} EffectSleep(s: State, p: nat, q: nat)
    requires Wf(s) && p < NPROC && CanAdvance(s, p) && Sleeping(s.pc[p]) && q < NPROC && LocalOk(s, q)
    ensures Wf(DoSleep(s, p)) && Effect(s, DoSleep(s, p), Some(p), q)
  {
  }

  lemma {:induction false} EffectWakeup(s: State, p: nat, q: nat)
    requires Wf(s) && p < NPROC && s.pc[p].Wakeup? && q < NPROC && LocalOk(s, q)
    ensures var s' := DoWakeup(s, p, s.pc[p].c, s.pc[p].i, s.pc[p].w); Wf(s') && Effect(s, s', Some(p), q)
  {
  }

  lemma {:induction false} EffectReap(s: State, p: nat, q: nat, i: nat, kids: bool)
    requires Wf(s) && p < NPROC && s.pc[p] == WtScan(i, kids) && q < NPROC && LocalOk(s, q) && LocalOk(s, p)
    requires i < NPROC && s.parent[i] == Some(p) && s.st[i] == ZOMBIE
    ensures var s' := DoWait(s, p, i, kids); Wf(s') && Effect(s, s', Some(p), q)
  {
    var s' := DoWait(s, p, i, kids);
    assert forall c :: !Committed(s', p, c) && !Committed(s', i, c);
  }

  lemma {:induction false} EffectWait(s: State, p: nat, q: nat, i: nat, kids: bool)
    requires Wf(s) && p < NPROC && s.pc[p] == WtScan(i, kids) && q < NPROC && LocalOk(s, q) && LocalOk(s, p)
    ensures var s' := DoWait(s, p, i, kids); Wf(s') && Effect(s, s', Some(p), q)
  {
    if i < NPROC && s.parent[i] == Some(p) && s.st[i] == ZOMBIE { EffectReap(s, p, q, i, kids); }
  }

  lemma {:induction false} EffectFork(s: State, p: nat, q: nat)
    requires Wf(s) && p < NPROC && (s.pc[p].FkParent? || s.pc[p].FkRun?) && q < NPROC && LocalOk(s, p) && LocalOk(s, q)
    ensures Wf(DoFork(s, p)) && Effect(s, DoFork(s, p), Some(p), q)
  {
  }

  lemma {:induction false} EffectReparent(s: State, p: nat, q: nat)
    requires Wf(s) && p < NPROC && CanAdvance(s, p) && q < NPROC && LocalOk(s, q) && s.pc[p].ExReparent?
    ensures Wf(DoExit(s, p)) && Effect(s, DoExit(s, p), Some(p), q)
  {
  }

  lemma {:induction false} EffectExit(s: State, p: nat, q: nat)
    requires Wf(s) && p < NPROC && CanAdvance(s, p) && q < NPROC && LocalOk(s, q)
    requires !Sleeping(s.pc[p]) && !s.pc[p].Wakeup? && !s.pc[p].WtScan? && !s.pc[p].FkParent? && !s.pc[p].FkRun?
    requires !s.pc[p].ExReparent?
    ensures Wf(DoExit(s, p)) && Effect(s, DoExit(s, p), Some(p), q)
  {
  }

  lemma {:induction false} EffectData(s: State, t: Step, q: nat)
    requires Enabled(s, t) && IsData(t) && q < NPROC
    ensures Wf(Do(s, t)) && Effect(s, Do(s, t), Mover(t), q)
  {
    hide DoAdvance;
  }

  lemma {:induction false} EffectIrq(s: State, t: Step, q: nat)
    requires Enabled(s, t) && IsIrq(t) && q < NPROC && LocalOk(s, q)
    ensures Wf(Do(s, t)) && Effect(s, Do(s, t), Mover(t), q)
  {
    hide DoAdvance;
  }

  lemma {:induction false} EffectSched(s: State, t: Step, q: nat)
    requires Enabled(s, t) && (t.Schedule? || t.Yield? || t.Kill?) && q < NPROC && LocalOk(s, q)
    ensures Wf(Do(s, t)) && Effect(s, Do(s, t), Mover(t), q)
  {
    hide DoAdvance;
  }

  /** Steps other than Advance. */
  lemma {:induction false} EffectCall(s: State, t: Step, q: nat)
    requires Enabled(s, t) && !t.Advance? && q < NPROC && LocalOk(s, q)
    ensures Wf(Do(s, t)) && Effect(s, Do(s, t), Mover(t), q)
  {
    hide DoAdvance;
    if IsData(t) { EffectData(s, t, q); }
    else if IsIrq(t) { EffectIrq(s, t, q); }
    else if t.Schedule? || t.Yield? || t.Kill? { EffectSched(s, t, q); }
  }

  lemma {:induction false} EffectStep(s: State, t: Step, q: nat)
    requires Base(s) && Enabled(s, t) && q < NPROC
    ensures Wf(Do(s, t)) && Effect(s, Do(s, t), Mover(t), q)
  {
    hide InvLocal, InvLocks, DoSleep, DoWakeup, DoWait, DoFork, DoExit, Effect;
    LocalAt(s, q);
    if !t.Advance? { EffectCall(s, t, q); }
    else {
      var pc := s.pc[t.p];
      LocalAt(s, t.p);
      if Sleeping(pc) { EffectSleep(s, t.p, q); }
      else if pc.Wakeup? { EffectWakeup(s, t.p, q); }
      else if pc.WtScan? { EffectWait(s, t.p, q, pc.i, pc.kids); }
      else if pc.FkParent? || pc.FkRun? { EffectFork(s, t.p, q); }
      else if pc.ExReparent? { EffectReparent(s, t.p, q); }
      else { EffectExit(s, t.p, q); }
    }
  }

  lemma {:induction false} SamePcs(s: State, t: Step)
    requires Enabled(s, t)
    ensures |Do(s, t).pc| == |s.pc|
  {
    hide DoAdvance;
    if t.Advance? { AdvancePcs(s, t.p); }
  }

  lemma {:induction false} AdvancePcs(s: State, p: nat)
    requires Wf(s) && p < NPROC && CanAdvance(s, p)
    ensures |DoAdvance(s, p).pc| == |s.pc|
  {
    if Sleeping(s.pc[p]) {
      hide DoWait, DoWakeup, DoFork, DoExit;
    } else if s.pc[p].Wakeup? || s.pc[p].FkParent? || s.pc[p].FkRun? || s.pc[p].WtScan? {
      hide DoSleep, DoExit;
    } else {
      hide DoWait, DoSleep, DoWakeup, DoFork;
    }
  }

  lemma {:induction false} StepWf(s: State, t: Step)
    requires Base(s) && Enabled(s, t)
    ensures Base(Do(s, t)) && Do(s, t).init == s.init && |Do(s, t).locked| == |s.locked| && |Do(s, t).pc| == |s.pc|
  {
    hide InvLocal, InvLocks;
    LocksStep(s, t);
    LocalStep(s, t);
    assert Wf(Do(s, t)) by { LocalAt(Do(s, t), 0); }
    assert |Do(s, t).pc| == |s.pc| by { SamePcs(s, t); }
  }

  // ---- no lost wakeup ----

  /** A scan of wakeup(c) leaves behind it no process committed to sleep on c. */
  ghost predicate InvScan(s: State) {
    && Wf(s)
    && forall w: nat, q: nat | w < |s.pc| && q < NPROC && s.pc[w].Wakeup? && q < s.pc[w].i && q != w ::
         !Committed(s, q, s.pc[w].c)
  }

  /** wakeup looks at proc[i]: afterwards it is not committed to sleep on c. */
  lemma {:induction false} Woken(s: State, p: nat, c: Chan, i: nat, w: Waker)
    requires Base(s) && p < |s.pc| && s.pc[p] == Wakeup(c, i, w) && i < NPROC && i != p && ProcLock(i) !in s.own
    ensures Wf(DoWakeup(s, p, c, i, w)) && !Committed(DoWakeup(s, p, c, i, w), i, c)
  {
    assert LocalOk(s, i);
    assert !Holds(s.pc[i], i, ProcLock(i));
  }

  /** While a scan stands still, no process commits to sleep on its channel: the channel's lock is held. */
  lemma {:induction false} ScanHolds(s: State, t: Step, w: nat, q: nat)
    requires Base(s) && InvScan(s) && Enabled(s, t) && w < |s.pc| && q < NPROC && s.pc[w].Wakeup? && q < s.pc[w].i
        && q != w
    ensures Wf(Do(s, t)) && !Committed(Do(s, t), q, s.pc[w].c)
  {
    hide Do, DoAdvance, InvLocal, InvLocks;
    EffectStep(s, t, q);
    LocalAt(s, q);
    if w < NPROC { LocalAt(s, w); } else { HandlerAt(s, w); }
    if Committed(Do(s, t), q, s.pc[w].c) && !Committed(s, q, s.pc[w].c) {
      Exclusive(s.pc, s.own, w, q, LockOfChan(s.pc[w].c));
    }
  }

  /** The scan of a process, after one step. */
  lemma {:induction false} ScanProcess(s: State, t: Step, w: nat, q: nat)
    requires Base(s) && InvScan(s) && Enabled(s, t) && w < NPROC && q < NPROC && q != w && Wf(Do(s, t))
    requires Do(s, t).pc[w].Wakeup? && q < Do(s, t).pc[w].i
    ensures !Committed(Do(s, t), q, Do(s, t).pc[w].c)
  {
    var s' := Do(s, t);
    EffectStep(s, t, w);
    assert LocalOk(s, w);
    if s.pc[w].Wakeup? && q < s.pc[w].i {
      ScanHolds(s, t, w, q);
    } else {
      Woken(s, w, s.pc[w].c, s.pc[w].i, s.pc[w].w);
    }
  }

  /** The scan of a handler, after one step. */
  lemma {:induction false} ScanHandler(s: State, t: Step, h: nat, q: nat)
    requires Base(s) && InvScan(s) && Enabled(s, t) && NPROC <= h < |s.pc| && q < NPROC && Wf(Do(s, t))
    requires |Do(s, t).pc| == |s.pc| && Do(s, t).pc[h].Wakeup? && q < Do(s, t).pc[h].i
    ensures !Committed(Do(s, t), q, Do(s, t).pc[h].c)
  {
    hide InvLocal, InvLocks, Do;
    HandlerKept(s, t, h);
    if s.pc[h].Wakeup? && q < s.pc[h].i {
      ScanHolds(s, t, h, q);
    } else {
      Woken(s, h, s.pc[h].c, s.pc[h].i, s.pc[h].w);
    }
  }

  /** Only its own steps move a handler. */
  lemma {:induction false} HandlerKept(s: State, t: Step, h: nat)
    requires Base(s) && Enabled(s, t) && NPROC <= h < |s.pc|
    ensures |Do(s, t).pc| == |s.pc|
    ensures Do(s, t).pc[h].Wakeup? ==>
      || Do(s, t).pc[h] == s.pc[h] || Do(s, t).pc[h].i == 0
      || (t == IrqScan(h) && s.pc[h].i < NPROC && Do(s, t) == DoWakeup(s, h, s.pc[h].c, s.pc[h].i, s.pc[h].w)
          && Do(s, t).pc[h] == Wakeup(s.pc[h].c, s.pc[h].i + 1, s.pc[h].w))
  {
    hide InvLocks, InvLocal, DoAdvance;
    if t.Advance? { AdvanceAside(s, t.p, h); }
    HandlerAt(s, h);
  }

  lemma {:induction false} AdvanceAside(s: State, p: nat, h: nat)
    requires Base(s) && p < NPROC && CanAdvance(s, p) && NPROC <= h < |s.pc|
    ensures |DoAdvance(s, p).pc| == |s.pc| && DoAdvance(s, p).pc[h] == s.pc[h]
  {
    hide InvLocks, InvLocal;
    LocalAt(s, p);
    if Sleeping(s.pc[p]) {
      hide DoWait, DoWakeup, DoFork, DoExit;
    } else if s.pc[p].Wakeup? || s.pc[p].FkParent? || s.pc[p].FkRun? || s.pc[p].WtScan? {
      hide DoSleep, DoExit;
    } else {
      hide DoWait, DoSleep, DoWakeup, DoFork;
    }
  }

  lemma {:induction false} ScanStep(s: State, t: Step)
    requires Base(s) && InvScan(s) && Enabled(s, t)
    ensures InvScan(Do(s, t))
  {
    hide Base, Do, Enabled;
    var s' := Do(s, t);
    StepWf(s, t);
    assert Wf(s') by { BaseWf(s'); }
    forall w: nat, q: nat | w < |s'.pc| && q < NPROC && s'.pc[w].Wakeup? && q < s'.pc[w].i && q != w
      ensures !Committed(s', q, s'.pc[w].c)
    {
      if w < NPROC { ScanProcess(s, t, w, q); } else { ScanHandler(s, t, w, q); }
    }
  }

  lemma {:induction false} BaseWf(s: State)
    requires Base(s)
    ensures Wf(s)
  {
  }

  // ---- sleep locks ----

  /** What one step can do to the sleep lock l and to a process q on its way to sleep on it. */
  ghost predicate LockEffect(s: State, s': State, p: Option<nat>, q: nat, l: nat)
    requires Wf(s) && Wf(s') && (p.Some? ==> p.value < NPROC) && q < NPROC && l < |s.locked|
  {
    && |s'.locked| == |s.locked|
    && (s'.locked[l] != s.locked[l] || ((l, q) in s'.has) != ((l, q) in s.has) ==>
          p.Some? && if s.locked[l] == None
                     then s.pc[p.value] == AcqTest(l) && s'.locked[l] == Some(p.value)
                       && s'.has == s.has + {(l, p.value)}
                     else s.pc[p.value] == RelClear(l) && s'.locked[l] == None && s'.has == s.has - {(l, p.value)}
                          && s'.pc[p.value] == Wakeup(OnLock(l), 0, FromRelease(l)))
    && (s'.pc[q] == SlpLock(FromAcquire(l)) ==>
          s.pc[q] == s'.pc[q] || (p == Some(q) && s.pc[q] == AcqTest(l) && s.locked[l].Some?
          && s'.locked[l] == s.locked[l]))
    && (s'.pc[q] == SlpRelease(FromAcquire(l)) ==>
          s.pc[q] == s'.pc[q] || (p == Some(q) && s.pc[q] == SlpLock(FromAcquire(l)) && s'.locked[l] == s.locked[l]))
    && (s'.pc[q] == RelClear(l) ==> s.pc[q] == s'.pc[q] || (p == None && (l, q) in s.has && s'.has == s.has))
  }

  /** l's record names its holder; a process on its way to sleep on l found it taken; one releasing l has it. */
  predicate OwnerOk(s: State, l: nat, q: nat)
    requires Wf(s) && l < |s.locked| && q < NPROC
  {
    && ((l, q) in s.has <==> s.locked[l] == Some(q))
    && (s.pc[q] == SlpLock(FromAcquire(l)) || s.pc[q] == SlpRelease(FromAcquire(l)) ==> s.locked[l].Some?)
    && (s.pc[q] == RelClear(l) ==> (l, q) in s.has)
  }

  /** A sleep lock's record, its holder and the processes waiting for it. */
  ghost predicate LockOk(s: State, l: nat)
    requires Wf(s) && l < |s.locked|
  {
    && (forall q: nat | q < NPROC :: OwnerOk(s, l, q))
    && (forall q: nat | q < NPROC && s.locked[l] == None && Committed(s, q, OnLock(l)) :: WakerBefore(s, OnLock(l), q))
  }

  /** The holder of c's lock is scanning in wakeup(c) and has yet to look at q. */
  predicate WakerBefore(s: State, c: Chan, q: nat)
    requires Wf(s)
  {
    && LockOfChan(c) in s.own
    && var w := s.own[LockOfChan(c)];
       w < NPROC && w != q && s.pc[w].Wakeup? && s.pc[w].c == c && s.pc[w].i <= q
  }

  lemma {:induction false} LockEffectSleep(s: State, p: nat, q: nat, l: nat)
    requires Wf(s) && p < NPROC && CanAdvance(s, p) && Sleeping(s.pc[p]) && q < NPROC && l < |s.locked|
    ensures Wf(DoSleep(s, p)) && LockEffect(s, DoSleep(s, p), Some(p), q, l)
  {
  }

  lemma {:induction false} LockEffectExit(s: State, p: nat, q: nat, l: nat)
    requires Wf(s) && p < NPROC && CanAdvance(s, p) && q < NPROC && l < |s.locked|
    requires !Sleeping(s.pc[p]) && !s.pc[p].Wakeup? && !s.pc[p].WtScan? && !s.pc[p].FkParent? && !s.pc[p].FkRun?
    requires s.locked[l] == None ==> s.pc[p] != RelClear(l)
    ensures Wf(DoExit(s, p)) && LockEffect(s, DoExit(s, p), Some(p), q, l)
  {
  }

  lemma {:induction false} LockEffectWait(s: State, p: nat, q: nat, l: nat)
    requires Wf(s) && p < NPROC && s.pc[p].WtScan? && q < NPROC && l < |s.locked|
    ensures var s' := DoWait(s, p, s.pc[p].i, s.pc[p].kids); Wf(s') && LockEffect(s, s', Some(p), q, l)
  {
  }

  lemma {:induction false} LockEffectOther(s: State, p: nat, q: nat, l: nat)
    requires Wf(s) && p < NPROC && CanAdvance(s, p) && q < NPROC && l < |s.locked|
    requires s.pc[p].Wakeup? || s.pc[p].WtScan? || s.pc[p].FkParent? || s.pc[p].FkRun?
    ensures Wf(DoAdvance(s, p)) && LockEffect(s, DoAdvance(s, p), Some(p), q, l)
  {
    hide DoSleep, DoExit;
    if s.pc[p].WtScan? { LockEffectWait(s, p, q, l); }
  }

  lemma {:induction false} LockEffectCall(s: State, t: Step, q: nat, l: nat)
    requires Enabled(s, t) && !t.Advance? && q < NPROC && l < |s.locked|
    ensures Wf(Do(s, t)) && LockEffect(s, Do(s, t), None, q, l)
  {
    hide DoAdvance;
  }

  lemma {:induction false} LockEffectStep(s: State, t: Step, q: nat, l: nat)
    requires Enabled(s, t) && q < NPROC && l < |s.locked|
    requires t.Advance? && s.pc[t.p] == RelClear(l) ==> s.locked[l].Some?
    ensures Wf(Do(s, t)) && LockEffect(s, Do(s, t), if t.Advance? then Some(t.p) else None, q, l)
  {
    hide LockEffect, DoSleep, DoWakeup, DoWait, DoFork, DoExit;
    if !t.Advance? { LockEffectCall(s, t, q, l); }
    else if Sleeping(s.pc[t.p]) { LockEffectSleep(s, t.p, q, l); }
    else if s.pc[t.p].Wakeup? || s.pc[t.p].WtScan? || s.pc[t.p].FkParent?
      || s.pc[t.p].FkRun? { LockEffectOther(s, t.p, q, l); }
    else { LockEffectExit(s, t.p, q, l); }
  }

  /** A scan in wakeup(c) that has yet to look at q either stays so or wakes q. */
  lemma {:induction false} WakerKept(s: State, t: Step, c: Chan, q: nat)
    requires Base(s) && Enabled(s, t) && q < NPROC && WakerBefore(s, c, q)
    ensures Wf(Do(s, t)) && (Committed(Do(s, t), q, c) ==> WakerBefore(Do(s, t), c, q))
  {
    var s', w := Do(s, t), s.own[LockOfChan(c)];
    EffectStep(s, t, w);
    StepWf(s, t);
    assert LocalOk(s, w);
    assert Holds(s.pc[w], w, LockOfChan(c));
    if s'.pc[w] == s.pc[w] {
      assert Holds(s'.pc[w], w, LockOfChan(c));
    } else {
      assert t == Advance(w) && s' == DoWakeup(s, w, c, s.pc[w].i, s.pc[w].w);
      assert s'.pc[w] == Wakeup(c, s.pc[w].i + 1, s.pc[w].w);
      assert Holds(s'.pc[w], w, LockOfChan(c));
      if s.pc[w].i == q { Woken(s, w, c, q, s.pc[w].w); }
    }
  }

  lemma {:induction false} LockStepOwner(s: State, t: Step, l: nat, q: nat)
    requires Base(s) && Enabled(s, t) && l < |s.locked| && LockOk(s, l) && q < NPROC
    ensures Wf(Do(s, t)) && |Do(s, t).locked| == |s.locked|
    ensures OwnerOk(Do(s, t), l, q)
  {
    var s' := Do(s, t);
    if t.Advance? { assert OwnerOk(s, l, t.p); }
    assert OwnerOk(s, l, q);
    LockEffectStep(s, t, q, l);
    if t.Advance? && t.p != q && (s.pc[t.p] == AcqTest(l) || s.pc[t.p] == RelClear(l)) {
      if Holds(s.pc[q], q, SpinOf(l)) { Exclusive(s.pc, s.own, t.p, q, SpinOf(l)); }
    }
  }

  lemma {:induction false} LockStepWaiter(s: State, t: Step, l: nat, q: nat)
    requires Base(s) && Enabled(s, t) && l < |s.locked| && LockOk(s, l) && q < NPROC
    ensures Wf(Do(s, t)) && |Do(s, t).locked| == |s.locked|
    ensures Do(s, t).locked[l] == None && Committed(Do(s, t), q, OnLock(l)) ==> WakerBefore(Do(s, t), OnLock(l), q)
  {
    var s' := Do(s, t);
    if t.Advance? { assert OwnerOk(s, l, t.p); }
    assert OwnerOk(s, l, q);
    LockEffectStep(s, t, q, l);
    EffectStep(s, t, q);
    StepWf(s, t);
    if s'.locked[l] == None && Committed(s', q, OnLock(l)) {
      if s.locked[l] == None && Committed(s, q, OnLock(l)) {
        WakerKept(s, t, OnLock(l), q);
      } else if Committed(s, q, OnLock(l)) {
        assert Holds(s'.pc[t.p], t.p, SpinOf(l));
      }
    }
  }

  lemma {:induction false} LockStep(s: State, t: Step, l: nat)
    requires Base(s) && Enabled(s, t) && l < |s.locked| && LockOk(s, l)
    ensures Wf(Do(s, t)) && |Do(s, t).locked| == |s.locked| && LockOk(Do(s, t), l)
  {
    var s' := Do(s, t);
    LockStepOwner(s, t, l, 0);
    forall q: nat | q < NPROC ensures OwnerOk(s', l, q) { LockStepOwner(s, t, l, q); }
    forall q: nat | q < NPROC && s'.locked[l] == None && Committed(s', q, OnLock(l))
      ensures WakerBefore(s', OnLock(l), q)
    {
      LockStepWaiter(s, t, l, q);
    }
  }

  // ---- exit and wait ----

  predicate ZombieChild(s: State, j: nat, q: nat)
    requires Wf(s) && j < NPROC
  {
    s.parent[j] == Some(q) && s.st[j] == ZOMBIE
  }

  /** How many slots the scan in wait has passed. */
  function Looked(pc: Pc): nat {
    match pc
    case WtScan(i, kids) => i
    case SlpLock(k) => if k == FromWait then NPROC else 0
    case SlpRelease(k) => if k == FromWait then NPROC else 0
    case _ => 0
  }

  predicate Exiting(pc: Pc) { pc == ExLock || pc == ExMark }

  /** What one step can do to a process q in wait or exit. */
  ghost predicate WaitEffect(s: State, s': State, p: Option<nat>, q: nat)
    requires Wf(s) && Wf(s') && q < NPROC
  {
    && (Looked(s'.pc[q]) <= Looked(s.pc[q])
        || (p == Some(q) && s.pc[q].WtScan? && s.pc[q].i < NPROC && Looked(s'.pc[q]) == s.pc[q].i + 1
             && !ZombieChild(s, s.pc[q].i, q)))
    && (Exiting(s'.pc[q]) ==>
          || Exiting(s.pc[q])
          || (p == Some(q) && s.pc[q].Wakeup? && s.pc[q].w == FromExit && s.pc[q].i >= NPROC)
          || (p == Some(q) && s.pc[q].ExReparent? && s'.parent[q] == None))
  }

  lemma {:induction false} WaitEffectWait(s: State, p: nat, q: nat)
    requires Wf(s) && p < NPROC && s.pc[p].WtScan? && q < NPROC
    ensures var s' := DoWait(s, p, s.pc[p].i, s.pc[p].kids); Wf(s') && WaitEffect(s, s', Some(p), q)
  {
  }

  lemma {:induction false} WaitEffectSleep(s: State, p: nat, q: nat)
    requires Wf(s) && p < NPROC && CanAdvance(s, p) && Sleeping(s.pc[p]) && q < NPROC
    ensures Wf(DoSleep(s, p)) && WaitEffect(s, DoSleep(s, p), Some(p), q)
  {
  }

  lemma {:induction false} WaitEffectExit(s: State, p: nat, q: nat)
    requires Wf(s) && p < NPROC && CanAdvance(s, p) && q < NPROC
    requires !Sleeping(s.pc[p]) && !s.pc[p].Wakeup? && !s.pc[p].WtScan? && !s.pc[p].FkParent? && !s.pc[p].FkRun?
    ensures Wf(DoExit(s, p)) && WaitEffect(s, DoExit(s, p), Some(p), q)
  {
  }

  lemma {:induction false} WaitEffectOther(s: State, p: nat, q: nat)
    requires Wf(s) && p < NPROC && CanAdvance(s, p) && q < NPROC
    requires (s.pc[p].Wakeup? || s.pc[p].FkParent? || s.pc[p].FkRun?)
    ensures Wf(DoAdvance(s, p)) && WaitEffect(s, DoAdvance(s, p), Some(p), q)
  {
    hide DoSleep, DoWait, DoExit;
  }

  lemma {:induction false} WaitEffectCall(s: State, t: Step, q: nat)
    requires Enabled(s, t) && !t.Advance? && q < NPROC
    ensures Wf(Do(s, t)) && WaitEffect(s, Do(s, t), None, q)
  {
    hide DoAdvance;
    if IsIrq(t) { WaitEffectIrq(s, t, q); }
  }

  lemma {:induction false} WaitEffectIrq(s: State, t: Step, q: nat)
    requires Enabled(s, t) && IsIrq(t) && q < NPROC
    ensures Wf(Do(s, t)) && WaitEffect(s, Do(s, t), None, q)
  {
    hide DoAdvance;
  }

  lemma {:induction false} WaitEffectStep(s: State, t: Step, q: nat)
    requires Enabled(s, t) && q < NPROC
    ensures Wf(Do(s, t)) && WaitEffect(s, Do(s, t), if t.Advance? then Some(t.p) else None, q)
  {
    hide DoSleep, DoWakeup, DoWait, DoFork, DoExit, WaitEffect;
    if t.Advance? {
      var pc := s.pc[t.p];
      if Sleeping(pc) { WaitEffectSleep(s, t.p, q); }
      else if pc.WtScan? { WaitEffectWait(s, t.p, q); }
      else if pc.Wakeup? || pc.FkParent? || pc.FkRun? { WaitEffectOther(s, t.p, q); }
      else { WaitEffectExit(s, t.p, q); }
    } else {
      WaitEffectCall(s, t, q);
    }
  }

  ghost predicate InvWait(s: State) {
    && Wf(s)
    && (forall q: nat, j: nat | q < NPROC && j < NPROC && j < Looked(s.pc[q]) :: !ZombieChild(s, j, q))
    && (forall q: nat | q < NPROC && Exiting(s.pc[q]) && s.parent[q].Some? ::
          !Committed(s, s.parent[q].value, OnProc(s.parent[q].value)))
    && (forall q: nat, j: nat | q < NPROC && j < NPROC && Committed(s, q, OnProc(q)) && ZombieChild(s, j, q) ::
          WakerBefore(s, OnProc(q), q))
  }

  /** Only a process that holds wait_lock can make j a zombie child of q. */
  lemma {:induction false} NewZombieChild(s: State, t: Step, q: nat, j: nat)
    requires Base(s) && Enabled(s, t) && q < NPROC && j < NPROC && Wf(Do(s, t)) && ZombieChild(Do(s, t), j, q)
    requires !ZombieChild(s, j, q)
    ensures t.Advance? && Holds(s.pc[t.p], t.p, WaitLock)
    ensures (t.p == j && s.pc[j] == ExMark && s.parent[j] == Some(q))
            || (s.pc[t.p] == ExReparent(j) && q == s.init && Do(s, t).pc[t.p] == Wakeup(OnProc(q), 0, FromReparent(j)))
  {
    EffectStep(s, t, j);
    if t.Advance? { assert LocalOk(s, t.p); }
  }

  lemma {:induction false} WaitStepScan(s: State, t: Step, q: nat, j: nat)
    requires Base(s) && InvWait(s) && Enabled(s, t) && q < NPROC && j < NPROC
    ensures Wf(Do(s, t)) && (j < Looked(Do(s, t).pc[q]) ==> !ZombieChild(Do(s, t), j, q))
  {
    hide Do, InvLocal, LocalOk;
    var s' := Do(s, t);
    WaitEffectStep(s, t, q);
    if t.Advance? && Holds(s.pc[t.p], t.p, WaitLock) && Holds(s.pc[q], q, WaitLock) {
      Exclusive(s.pc, s.own, q, t.p, WaitLock);
    }
    if j < Looked(s'.pc[q]) && ZombieChild(s', j, q) && !ZombieChild(s, j, q) { NewZombieChild(s, t, q, j); }
  }

  /** The parent of a process past its wakeup in exit stays its parent, and does not go to sleep in wait. */
  lemma {:induction false} ParentAwake(s: State, t: Step, q: nat)
    requires Base(s) && InvWait(s) && Enabled(s, t) && q < NPROC && Exiting(s.pc[q]) && Wf(Do(s, t))
    requires Do(s, t).parent[q].Some?
    ensures var v := Do(s, t).parent[q].value; v < NPROC && !Committed(Do(s, t), v, OnProc(v))
  {
    hide Do, InvLocal, InvLocks, LocalOk;
    var s' := Do(s, t);
    var v := s'.parent[q].value;
    EffectStep(s, t, q);
    EffectStep(s, t, v);
    ExitingFacts(s, q);
    if t.Advance? {
      if Holds(s.pc[t.p], t.p, WaitLock) { Exclusive(s.pc, s.own, q, t.p, WaitLock); }
      if s.pc[t.p] == FkParent(q) { ForkSlot(s, t.p); }
    }
  }

  lemma {:induction false} ExitingFacts(s: State, q: nat)
    requires Base(s) && q < NPROC && (Exiting(s.pc[q]) || s.pc[q].Wakeup?)
    ensures s.st[q] == RUNNING && s.parent[q] != Some(q)
    ensures s.pc[q].Wakeup? && s.pc[q].w == FromExit ==> s.pc[q].c.OnProc? && s.parent[q] == Some(s.pc[q].c.p)
  {
    hide InvLocal, InvLocks;
    LocalAt(s, q);
  }

  lemma {:induction false} WaitStepExit(s: State, t: Step, q: nat)
    requires Base(s) && InvScan(s) && InvWait(s) && Enabled(s, t) && q < NPROC
    ensures Wf(Do(s, t)) && var s' := Do(s, t);
      Exiting(s'.pc[q]) && s'.parent[q].Some? ==> !Committed(s', s'.parent[q].value, OnProc(s'.parent[q].value))
  {
    hide Do, InvLocal, InvLocks, LocalOk, Holds;
    var s' := Do(s, t);
    WaitEffectStep(s, t, q);
    if Exiting(s'.pc[q]) && s'.parent[q].Some? {
      if Exiting(s.pc[q]) {
        ParentAwake(s, t, q);
      } else if s.pc[q].Wakeup? {
        EffectStep(s, t, q);
        EffectStep(s, t, s'.parent[q].value);
        ExitingFacts(s, q);
      }
    }
  }

  lemma {:induction false} WaitStepAsleep(s: State, t: Step, q: nat, j: nat)
    requires Base(s) && InvWait(s) && Enabled(s, t) && q < NPROC && j < NPROC
    ensures Wf(Do(s, t))
    ensures (Committed(Do(s, t), q, OnProc(q)) && ZombieChild(Do(s, t), j, q) ==> WakerBefore(Do(s, t), OnProc(q), q))
  {
    var s' := Do(s, t);
    EffectStep(s, t, q);
    if Committed(s', q, OnProc(q)) && ZombieChild(s', j, q) {
      StepWf(s, t);
      if !ZombieChild(s, j, q) {
        NewZombieChild(s, t, q, j);
        assert LocalOk(s, t.p);
        assert Holds(s'.pc[t.p], t.p, WaitLock);
      } else if Committed(s, q, OnProc(q)) {
        WakerKept(s, t, OnProc(q), q);
      }
    }
  }

  lemma {:induction false} WaitStep(s: State, t: Step)
    requires Base(s) && InvScan(s) && InvWait(s) && Enabled(s, t)
    ensures InvWait(Do(s, t))
  {
    var s' := Do(s, t);
    StepWf(s, t);
    forall q: nat, j: nat | q < NPROC && j < NPROC && j < Looked(s'.pc[q])
      ensures !ZombieChild(s', j, q)
    {
      WaitStepScan(s, t, q, j);
    }
    forall q: nat | q < NPROC && Exiting(s'.pc[q]) && s'.parent[q].Some?
      ensures !Committed(s', s'.parent[q].value, OnProc(s'.parent[q].value))
    {
      WaitStepExit(s, t, q);
    }
    forall q: nat, j: nat | q < NPROC && j < NPROC && Committed(s', q, OnProc(q)) && ZombieChild(s', j, q)
      ensures WakerBefore(s', OnProc(q), q)
    {
      WaitStepAsleep(s, t, q, j);
    }
  }

  // ---- pids ----

  /** Live processes have distinct pids below nextpid; no pid was returned by wait twice, nor while in use. */
  ghost predicate InvPids(s: State) {
    && Wf(s)
    && (forall p: nat | p < NPROC && s.st[p] != UNUSED :: 0 < s.pid[p] < s.nextpid && s.pid[p] !in s.reaped)
    && (forall p: nat, q: nat | p < q < NPROC && s.st[p] != UNUSED && s.st[q] != UNUSED :: s.pid[p] != s.pid[q])
    && (forall x | x in s.reaped :: 0 < x < s.nextpid)
    && (forall a: nat, b: nat | a < b < |s.reaped| :: s.reaped[a] != s.reaped[b])
  }

  /** Only fork hands out a pid, and only wait returns one. */
  ghost predicate PidKept(s: State, s': State, t: Step, q: nat)
    requires Wf(s) && Wf(s') && q < NPROC
  {
    && (s'.st[q] != UNUSED ==>
          || (s.st[q] != UNUSED && s'.pid[q] == s.pid[q])
          || (t.Fork? && t.i == q && s'.pid[q] == s.nextpid))
    && s.nextpid <= s'.nextpid && (t.Fork? ==> s'.nextpid == s.nextpid + 1)
  }

  lemma {:induction false} PidWait(s: State, p: nat, q: nat)
    requires Wf(s) && p < NPROC && s.pc[p].WtScan? && q < NPROC
    ensures var s' := DoWait(s, p, s.pc[p].i, s.pc[p].kids); Wf(s') && PidKept(s, s', Advance(p), q)
  {
  }

  lemma {:induction false} PidOther(s: State, p: nat, q: nat)
    requires Wf(s) && p < NPROC && CanAdvance(s, p) && !s.pc[p].WtScan? && q < NPROC && LocalOk(s, p)
    ensures Wf(DoAdvance(s, p)) && PidKept(s, DoAdvance(s, p), Advance(p), q)
  {
    if Sleeping(s.pc[p]) {
      hide DoWait, DoWakeup, DoFork, DoExit;
    } else if s.pc[p].Wakeup? || s.pc[p].FkParent? || s.pc[p].FkRun? {
      hide DoWait, DoSleep, DoExit;
    } else {
      hide DoWait, DoSleep, DoWakeup, DoFork;
    }
  }

  lemma {:induction false} PidAdvance(s: State, p: nat, q: nat)
    requires Wf(s) && p < NPROC && CanAdvance(s, p) && q < NPROC && LocalOk(s, p)
    ensures Wf(DoAdvance(s, p)) && PidKept(s, DoAdvance(s, p), Advance(p), q)
  {
    var s' := DoAdvance(s, p);
    if s.pc[p].WtScan? {
      hide DoSleep, DoExit, DoFork, DoWakeup;
      PidWait(s, p, q);
    } else {
      PidOther(s, p, q);
    }
  }

  lemma {:induction false} PidEffect(s: State, t: Step, q: nat)
    requires Base(s) && Enabled(s, t) && q < NPROC
    ensures Wf(Do(s, t)) && PidKept(s, Do(s, t), t, q)
  {
    hide InvLocal, InvLocks, DoAdvance;
    LocalAt(s, q);
    if t.Advance? { LocalAt(s, t.p); PidAdvance(s, t.p, q); }
  }

  lemma {:induction false} ReapEffect(s: State, t: Step)
    requires Enabled(s, t)
    ensures var s' := Do(s, t);
      s'.reaped == s.reaped || (t.Advance? && s.pc[t.p].WtScan? && s.pc[t.p].i < NPROC && s.st[s.pc[t.p].i] == ZOMBIE
                                && s'.reaped == s.reaped + [s.pid[s.pc[t.p].i]] && |s'.st| == NPROC
                                && s'.st[s.pc[t.p].i] == UNUSED)
  {
    if t.Advance? && s.pc[t.p].WtScan? {
      hide DoSleep, DoExit, DoFork, DoWakeup;
    } else if t.Advance? {
      ReapOther(s, t.p);
    } else {
      hide DoAdvance;
    }
  }

  lemma {:induction false} ReapOther(s: State, p: nat)
    requires Wf(s) && p < NPROC && CanAdvance(s, p) && !s.pc[p].WtScan?
    ensures DoAdvance(s, p).reaped == s.reaped
  {
    hide DoWait;
  }

  lemma {:induction false} PidStep(s: State, t: Step)
    requires Base(s) && InvPids(s) && Enabled(s, t)
    ensures InvPids(Do(s, t))
  {
    hide Do, LocalOk, InvLocal, InvLocks;
    var s' := Do(s, t);
    StepWf(s, t);
    ReapEffect(s, t);
    PidEffect(s, t, s.init);
    forall p: nat | p < NPROC && s'.st[p] != UNUSED ensures 0 < s'.pid[p] < s'.nextpid && s'.pid[p] !in s'.reaped {
      PidEffect(s, t, p);
    }
    forall p: nat, q: nat | p < q < NPROC && s'.st[p] != UNUSED && s'.st[q] != UNUSED ensures s'.pid[p] != s'.pid[q] {
      PidEffect(s, t, p);
      PidEffect(s, t, q);
    }
  }

  // ---- every run ----

  ghost predicate Inv(s: State) {
    Base(s) && InvScan(s) && InvWait(s) && InvPids(s) && forall l: nat | l < |s.locked| :: LockOk(s, l)
  }

  /** The states of a run. */
  ghost predicate Run(ss: seq<State>, ts: seq<Step>) {
    && |ss| == |ts| + 1 && Init(ss[0])
    && forall k: nat | k < |ts| :: Enabled(ss[k], ts[k]) && ss[k + 1] == Do(ss[k], ts[k])
  }

  lemma {:induction false} InitPc(s: State, p: nat)
    requires Init(s) && p < NPROC
    ensures (s.pc[p] == NoThread && s.st[p] == UNUSED && p != s.init)
        || (s.pc[p] == Elsewhere && s.st[p] == RUNNABLE && p == s.init)
  {
  }

  lemma {:induction false} InitBase(s: State)
    requires Init(s)
    ensures Base(s)
  {
    forall p: nat | p < NPROC ensures LocalOk(s, p) && ForkOf(s.pc[p]) == None { InitPc(s, p); }
    forall p: nat, x: Lock | p < |s.pc| ensures Holds(s.pc[p], p, x) <==> x in s.own && s.own[x] == p {
      if p < NPROC { InitPc(s, p); }
    }
  }

  lemma {:induction false} InitInv(s: State)
    requires Init(s)
    ensures Inv(s)
  {
    hide InvLocks, InvLocal, LocalOk;
    InitBase(s);
    forall p: nat | p < |s.pc| ensures s.pc[p] == NoThread || s.pc[p] == Elsewhere { if p < NPROC { InitPc(s, p); } }
    forall p: nat | p < NPROC && s.st[p] != UNUSED ensures p == s.init { InitPc(s, p); }
  }

  lemma {:induction false} StepInv(s: State, t: Step)
    requires Inv(s) && Enabled(s, t)
    ensures Inv(Do(s, t))
  {
    hide Base, InvScan, InvWait, InvPids, LockOk, Do, Enabled;
    assert Base(s);
    StepWf(s, t);
    ScanStep(s, t);
    WaitStep(s, t);
    PidStep(s, t);
    forall l: nat | l < |Do(s, t).locked| ensures LockOk(Do(s, t), l) { LockStep(s, t, l); }
  }

  lemma {:induction false} RunInv(ss: seq<State>, ts: seq<Step>, k: nat)
    requires Run(ss, ts) && k < |ss|
    ensures Inv(ss[k])
  {
    if k == 0 { InitInv(ss[0]); } else { RunInv(ss, ts, k - 1); StepInv(ss[k - 1], ts[k - 1]); }
  }

  /** No lost wakeup: when the scan of a wakeup(c) ends, in a process or an interrupt handler, no other process is
      committed to sleep on c. */
  lemma {:induction false} NoLostWakeup(ss: seq<State>, ts: seq<Step>, k: nat, w: nat, q: nat)
    requires Run(ss, ts) && k < |ss| && w < |ss[k].pc| && q < NPROC && q != w
    requires Wf(ss[k]) && ss[k].pc[w].Wakeup? && ss[k].pc[w].i >= NPROC
    ensures !Committed(ss[k], q, ss[k].pc[w].c)
  {
    RunInv(ss, ts, k);
  }

  /** A sleep lock has at most one holder at a time. */
  lemma {:induction false} SleepLockExclusive(ss: seq<State>, ts: seq<Step>, k: nat, l: nat, p: nat, q: nat)
    requires Run(ss, ts) && k < |ss| && p < NPROC && q < NPROC && l < |ss[k].locked|
    requires (l, p) in ss[k].has && (l, q) in ss[k].has
    ensures p == q
  {
    RunInv(ss, ts, k);
    assert LockOk(ss[k], l);
    assert OwnerOk(ss[k], l, p) && OwnerOk(ss[k], l, q);
  }

  /** A sleep lock is never free, with its spin lock free, while a process sleeps on it. */
  lemma {:induction false} NoStrandedWaiter(ss: seq<State>, ts: seq<Step>, k: nat, l: nat, q: nat)
    requires Run(ss, ts) && k < |ss| && q < NPROC && l < |ss[k].locked|
    requires ss[k].locked[l] == None && SpinOf(l) !in ss[k].own
    ensures Wf(ss[k]) && !Committed(ss[k], q, OnLock(l))
    ensures !(ss[k].st[q] == SLEEPING && ss[k].chan[q] == Some(OnLock(l)))
  {
    RunInv(ss, ts, k);
    assert LockOk(ss[k], l);
    assert LocalOk(ss[k], q);
  }

  /** While wait_lock is free, no process is asleep in wait with a zombie child. */
  lemma {:induction false} ExitWaitHandover(ss: seq<State>, ts: seq<Step>, k: nat, q: nat, j: nat)
    requires Run(ss, ts) && k < |ss| && q < NPROC && j < NPROC && WaitLock !in ss[k].own
    requires Wf(ss[k]) && ZombieChild(ss[k], j, q)
    ensures !Committed(ss[k], q, OnProc(q))
    ensures !(ss[k].st[q] == SLEEPING && ss[k].chan[q] == Some(OnProc(q)))
  {
    RunInv(ss, ts, k);
    assert LocalOk(ss[k], q);
  }

  /** No pid is returned by two calls of wait. */
  lemma {:induction false} ReapedOnce(ss: seq<State>, ts: seq<Step>, k: nat, a: nat, b: nat)
    requires Run(ss, ts) && k < |ss| && a < b < |ss[k].reaped|
    ensures ss[k].reaped[a] != ss[k].reaped[b]
  {
    RunInv(ss, ts, k);
  }
}
