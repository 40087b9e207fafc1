/** kernel/proc.c and kernel/sleeplock.c: sleep and wakeup, sleep locks, fork, exit and wait, as a
    state machine over every interleaving. A step is one lock operation or one critical section of
    a single p->lock; the scheduler hands p->lock over with swtch. */
module Processes {
  import opened Options

  const NPROC := 64

  datatype PState = UNUSED | USED | SLEEPING | RUNNABLE | RUNNING | ZOMBIE

  /** &sleeplock, &proc, and the address a of any other data, guarded by spin lock m */
  datatype Chan = OnLock(l: nat) | OnProc(p: nat) | OnData(a: nat, m: nat)
  /** p->lock, wait_lock, sleeplock.lk, any other spin lock */
  datatype Lock = ProcLock(p: nat) | WaitLock | SpinOf(l: nat) | DataLock(m: nat)

  /** Who called sleep. */
  datatype Sleeper = FromAcquire(l: nat) | FromWait | FromData(a: nat, m: nat)
  /** Who called wakeup, and how far it was. */
  datatype Waker = FromRelease(l: nat) | FromReparent(j: nat) | FromExit | InData(m: nat)

  datatype Pc =
    | NoThread                      // UNUSED and USED slots
    | Elsewhere                     // user code, or kernel code outside this model
    | AcqTest(l: nat)               // acquiresleep: holds lk, looks at lk->locked
    | SlpLock(k: Sleeper)           // sleep: before acquire(&p->lock)
    | SlpRelease(k: Sleeper)        //   before release(lk)
    | SlpMark(k: Sleeper)           //   before p->chan = chan; p->state = SLEEPING
    | SlpSched(k: Sleeper)          //   before sched()
    | Asleep(k: Sleeper)            //   switched out
    | SlpTidy(k: Sleeper)           //   back from sched(), before p->chan = 0
    | SlpUnlock(k: Sleeper)         //   before release(&p->lock)
    | SlpReacquire(k: Sleeper)      //   before acquire(lk)
    | RelClear(l: nat)              // releasesleep: holds lk, before locked = 0
    | Wakeup(c: Chan, i: nat, w: Waker)  // wakeup(c): before looking at proc[i]
    | RelUnlock(l: nat)             // releasesleep: before release(lk)
    | ExReparent(i: nat)            // exit: holds wait_lock, reparent at proc[i]
    | ExLock                        //   before acquire(&p->lock)
    | ExMark                        //   before p->state = ZOMBIE
    | ExUnlock                      //   before release(&wait_lock)
    | ExSched                       //   before sched()
    | Dead                          //   switched out for good
    | WtScan(i: nat, kids: bool)    // wait: holds wait_lock, before looking at proc[i]
    | FkParent(i: nat)              // fork: before np->parent = p
    | FkRun(i: nat)                 //   before np->state = RUNNABLE
    | Inside(m: nat)                // any other code that holds spin lock m (pipes, the log, the disk)

  /** Indexes below NPROC are processes; those of pc from NPROC on are the interrupt handlers of the CPUs. */
  datatype State = State(
    st: seq<PState>, pc: seq<Pc>, chan: seq<Option<Chan>>, killed: seq<bool>, pid: seq<nat>, parent: seq<Option<nat>>,
    own: map<Lock, nat>,            // who holds each held spin lock
    locked: seq<Option<nat>>,       // for each sleep lock, the process recorded as its holder
    init: nat, nextpid: nat,
    has: set<(nat, nat)>,           // (sleep lock, process between acquiresleep and releasesleep)
    reaped: seq<nat>)               // pids returned by wait

  function ChanOf(k: Sleeper, p: nat): Chan {
    if k.FromAcquire? then OnLock(k.l) else if k.FromWait? then OnProc(p) else OnData(k.a, k.m)
  }
  function LockOf(k: Sleeper): Lock {
    if k.FromAcquire? then SpinOf(k.l) else if k.FromWait? then WaitLock else DataLock(k.m)
  }
  function LockOfWaker(w: Waker): Lock {
    if w.FromRelease? then SpinOf(w.l) else if w.InData? then DataLock(w.m) else WaitLock
  }
  /** The condition lock of a channel. */
  function LockOfChan(c: Chan): Lock {
    if c.OnLock? then SpinOf(c.l) else if c.OnProc? then WaitLock else DataLock(c.m)
  }
  /** Where sleep returns to. */
  function Resume(k: Sleeper): Pc {
    if k.FromAcquire? then AcqTest(k.l) else if k.FromWait? then WtScan(0, false) else Inside(k.m)
  }

  /** Whether process p, at pc, holds lock x. */
  predicate Holds(pc: Pc, p: nat, x: Lock) {
    match pc
    case AcqTest(l) => x == SpinOf(l)
    case SlpLock(k) => x == LockOf(k)
    case SlpRelease(k) => x == LockOf(k) || x == ProcLock(p)
    case SlpMark(k) => x == ProcLock(p)
    case SlpSched(k) => x == ProcLock(p)
    case SlpTidy(k) => x == ProcLock(p)
    case SlpUnlock(k) => x == ProcLock(p)
    case RelClear(l) => x == SpinOf(l)
    case Wakeup(c, i, w) => x == LockOfWaker(w)
    case RelUnlock(l) => x == SpinOf(l)
    case ExReparent(i) => x == WaitLock
    case ExLock => x == WaitLock
    case ExMark => x == WaitLock || x == ProcLock(p)
    case ExUnlock => x == WaitLock || x == ProcLock(p)
    case ExSched => x == ProcLock(p)
    case WtScan(i, kids) => x == WaitLock
    case Inside(m) => x == DataLock(m)
    case _ => false
  }

  datatype Step =
    | AcquireSleep(p: nat, l: nat) | ReleaseSleep(p: nat, l: nat) | Exit(p: nat) | Wait(p: nat) | Fork(p: nat, i: nat)
    | Advance(p: nat)                    // the next step of the call p is in
    | ReapFails(p: nat)                  // wait: copyout of the exit status fails
    | ForkFails(p: nat)                  // fork: uvmcopy fails, freeproc(np)
    | Schedule(p: nat) | Yield(p: nat) | Kill(i: nat)
    // code under spin lock m, in a process and in an interrupt handler
    | Enter(p: nat, m: nat) | Leave(p: nat) | SleepOn(p: nat, a: nat) | WakeOn(p: nat, a: nat)
    | IrqEnter(h: nat, m: nat) | IrqLeave(h: nat) | IrqWake(h: nat, a: nat) | IrqScan(h: nat)

  predicate Wf(s: State) {
    && |s.st| == |s.chan| == |s.killed| == |s.pid| == |s.parent| == NPROC <= |s.pc| && s.init < NPROC
    && forall p | 0 <= p < NPROC && s.parent[p].Some? :: s.parent[p].value < NPROC
  }

  ghost predicate Init(s: State) {
    && Wf(s) && s.own == map[] && s.has == {} && s.reaped == []
    && (forall p: nat | p < NPROC :: s.parent[p] == None && s.chan[p] == None)
    && (forall p: nat | p < NPROC && p != s.init :: s.st[p] == UNUSED && s.pc[p] == NoThread)
    && s.st[s.init] == RUNNABLE && s.pc[s.init] == Elsewhere && 0 < s.pid[s.init] < s.nextpid
    && (forall l | 0 <= l < |s.locked| :: s.locked[l] == None)
    && (forall h: nat | NPROC <= h < |s.pc| :: s.pc[h] == Elsewhere)
  }

  /** Process p takes a step of its own: it is on a CPU, at pc. */
  predicate At(s: State, p: nat, pc: Pc)
    requires Wf(s)
  {
    p < NPROC && s.st[p] == RUNNING && s.pc[p] == pc
  }

  predicate IsInside(s: State, p: nat)
    requires Wf(s)
  {
    p < NPROC && s.st[p] == RUNNING && s.pc[p].Inside?
  }

  predicate Enabled(s: State, t: Step) {
    && Wf(s)
    && match t
       case AcquireSleep(p, l) => At(s, p, Elsewhere) && l < |s.locked| && SpinOf(l) !in s.own
       case ReleaseSleep(p, l) => At(s, p, Elsewhere) && (l, p) in s.has && l < |s.locked| && SpinOf(l) !in s.own
       case Exit(p) => At(s, p, Elsewhere) && p != s.init && WaitLock !in s.own
       case Wait(p) => At(s, p, Elsewhere) && WaitLock !in s.own
       case Fork(p, i) => At(s, p, Elsewhere) && i < NPROC && s.st[i] == UNUSED && ProcLock(i) !in s.own
       case Advance(p) => p < NPROC && CanAdvance(s, p)
       case ReapFails(p) => p < NPROC && s.st[p] == RUNNING && s.pc[p].WtScan? && s.pc[p].i < NPROC
                            && s.parent[s.pc[p].i] == Some(p) && s.st[s.pc[p].i] == ZOMBIE
                            && ProcLock(s.pc[p].i) !in s.own
       case ForkFails(p) => p < NPROC && s.st[p] == RUNNING && s.pc[p].FkParent? && s.pc[p].i < NPROC
       case Schedule(p) => p < NPROC && s.st[p] == RUNNABLE && ProcLock(p) !in s.own
       case Yield(p) => p < NPROC && s.st[p] == RUNNING && Preemptible(s.pc[p]) && ProcLock(p) !in s.own
       case Kill(i) => i < NPROC && ProcLock(i) !in s.own
       case Enter(p, m) => At(s, p, Elsewhere) && DataLock(m) !in s.own
       case Leave(p) => IsInside(s, p)
       case SleepOn(p, a) => IsInside(s, p)
       case WakeOn(p, a) => IsInside(s, p)
       case IrqEnter(h, m) => NPROC <= h < |s.pc| && s.pc[h] == Elsewhere && DataLock(m) !in s.own
       case IrqLeave(h) => NPROC <= h < |s.pc| && s.pc[h].Inside?
       case IrqWake(h, a) => NPROC <= h < |s.pc| && s.pc[h].Inside?
       case IrqScan(h) =>
         && NPROC <= h < |s.pc| && s.pc[h].Wakeup?
         && (s.pc[h].i < NPROC ==> ProcLock(s.pc[h].i) !in s.own)
  }

  /** No spin lock held, so interrupts are on. */
  predicate Preemptible(pc: Pc) { pc == Elsewhere || pc.SlpReacquire? || pc.FkParent? || pc.FkRun? }

  predicate CanAdvance(s: State, p: nat)
    requires Wf(s) && p < NPROC
  {
    match s.pc[p]
    case SlpLock(k) => s.st[p] == RUNNING && ProcLock(p) !in s.own
    case SlpSched(k) => true
    case SlpReacquire(k) => s.st[p] == RUNNING && LockOf(k) !in s.own
    case AcqTest(l) => s.st[p] == RUNNING && l < |s.locked|
    case RelClear(l) => s.st[p] == RUNNING && l < |s.locked|
    case Wakeup(c, i, w) => s.st[p] == RUNNING && (i < NPROC && i != p ==> ProcLock(i) !in s.own)
    case ExLock => s.st[p] == RUNNING && ProcLock(p) !in s.own
    case ExUnlock => true
    case ExSched => true
    case WtScan(i, kids) => s.st[p] == RUNNING &&
      (if i < NPROC then s.parent[i] == Some(p) ==> ProcLock(i) !in s.own else ProcLock(p) !in s.own)
    case FkParent(i) => s.st[p] == RUNNING && WaitLock !in s.own && i < NPROC
    case FkRun(i) => s.st[p] == RUNNING && i < NPROC && ProcLock(i) !in s.own
    case Elsewhere => false
    case Asleep(k) => false
    case Dead => false
    case NoThread => false
    case Inside(m) => false
    case _ => s.st[p] == RUNNING
  }

  function Go(s: State, p: nat, pc: Pc): State
    requires Wf(s) && p < |s.pc|
  {
    s.(pc := s.pc[p := pc])
  }

  function Take(s: State, p: nat, x: Lock): State { s.(own := s.own[x := p]) }
  function Drop(s: State, x: Lock): State { s.(own := s.own - {x}) }

  function Do(s: State, t: Step): State
    requires Enabled(s, t)
  {
    match t
    case AcquireSleep(p, l) => Take(Go(s, p, AcqTest(l)), p, SpinOf(l))
    case ReleaseSleep(p, l) => Take(Go(s, p, RelClear(l)), p, SpinOf(l))
    case Exit(p) => Take(Go(s, p, ExReparent(0)), p, WaitLock)
    case Wait(p) => Take(Go(s, p, WtScan(0, false)), p, WaitLock)
    case Fork(p, i) => Go(s, p, FkParent(i)).(
        st := s.st[i := USED], pid := s.pid[i := s.nextpid], nextpid := s.nextpid + 1)
    case Advance(p) => DoAdvance(s, p)
    case ReapFails(p) => Drop(Go(s, p, Elsewhere), WaitLock)
    case ForkFails(p) => Go(s, p, Elsewhere).(st := s.st[s.pc[p].i := UNUSED], pid := s.pid[s.pc[p].i := 0])
    case Schedule(p) =>
      var s1 := s.(st := s.st[p := RUNNING]);
      if s.pc[p].Asleep? then Take(Go(s1, p, SlpTidy(s.pc[p].k)), p, ProcLock(p)) else s1
    case Yield(p) => s.(st := s.st[p := RUNNABLE])
    case Kill(i) => s.(killed := s.killed[i := true], st := if s.st[i] == SLEEPING then s.st[i := RUNNABLE] else s.st)
    case Enter(p, m) => Take(Go(s, p, Inside(m)), p, DataLock(m))
    case Leave(p) => Drop(Go(s, p, Elsewhere), DataLock(s.pc[p].m))
    case SleepOn(p, a) => Go(s, p, SlpLock(FromData(a, s.pc[p].m)))
    case WakeOn(p, a) => Go(s, p, Wakeup(OnData(a, s.pc[p].m), 0, InData(s.pc[p].m)))
    // a handler has no process of its own, and never sleeps
    case IrqEnter(h, m) => Take(Go(s, h, Inside(m)), h, DataLock(m))
    case IrqLeave(h) => Drop(Go(s, h, Elsewhere), DataLock(s.pc[h].m))
    case IrqWake(h, a) => Go(s, h, Wakeup(OnData(a, s.pc[h].m), 0, InData(s.pc[h].m)))
    case IrqScan(h) => DoWakeup(s, h, s.pc[h].c, s.pc[h].i, s.pc[h].w)
  }

  predicate IsIrq(t: Step) { t.IrqEnter? || t.IrqLeave? || t.IrqWake? || t.IrqScan? }

  /** The points of sleep and acquiresleep. */
  predicate Sleeping(pc: Pc) {
    pc.AcqTest? || pc.SlpLock? || pc.SlpRelease? || pc.SlpMark? || pc.SlpSched? || pc.SlpTidy? || pc.SlpUnlock?
    || pc.SlpReacquire?
  }

  function DoAdvance(s: State, p: nat): State
    requires Wf(s) && p < NPROC && CanAdvance(s, p)
  {
    if Sleeping(s.pc[p]) then DoSleep(s, p)
    else if s.pc[p].Wakeup? then DoWakeup(s, p, s.pc[p].c, s.pc[p].i, s.pc[p].w)
    else if s.pc[p].WtScan? then DoWait(s, p, s.pc[p].i, s.pc[p].kids)
    else if s.pc[p].FkParent? || s.pc[p].FkRun? then DoFork(s, p)
    else DoExit(s, p)
  }

  function DoSleep(s: State, p: nat): State
    requires Wf(s) && p < NPROC && CanAdvance(s, p) && Sleeping(s.pc[p])
  {
    match s.pc[p]
    case AcqTest(l) =>
      if s.locked[l].Some? then Go(s, p, SlpLock(FromAcquire(l)))
      else Drop(Go(s, p, Elsewhere), SpinOf(l)).(locked := s.locked[l := Some(p)], has := s.has + {(l, p)})
    case SlpLock(k) => Take(Go(s, p, SlpRelease(k)), p, ProcLock(p))
    case SlpRelease(k) => Drop(Go(s, p, SlpMark(k)), LockOf(k))
    case SlpMark(k) => Go(s, p, SlpSched(k)).(chan := s.chan[p := Some(ChanOf(k, p))], st := s.st[p := SLEEPING])
    case SlpSched(k) => Drop(Go(s, p, Asleep(k)), ProcLock(p))
    case SlpTidy(k) => Go(s, p, SlpUnlock(k)).(chan := s.chan[p := None])
    case SlpUnlock(k) => Drop(Go(s, p, SlpReacquire(k)), ProcLock(p))
    case SlpReacquire(k) => Take(Go(s, p, Resume(k)), p, LockOf(k))
  }

  function DoFork(s: State, p: nat): State
    requires Wf(s) && p < NPROC && (s.pc[p].FkParent? || s.pc[p].FkRun?) && s.pc[p].i < NPROC
  {
    var i := s.pc[p].i;
    if s.pc[p].FkParent? then Go(s, p, FkRun(i)).(parent := s.parent[i := Some(p)])
    else s.(pc := s.pc[i := Elsewhere][p := Elsewhere], st := s.st[i := RUNNABLE])
  }

  /** releasesleep and exit, apart from the calls of wakeup */
  function DoExit(s: State, p: nat): State
    requires Wf(s) && p < NPROC && CanAdvance(s, p)
    requires !Sleeping(s.pc[p]) && !s.pc[p].Wakeup? && !s.pc[p].WtScan? && !s.pc[p].FkParent? && !s.pc[p].FkRun?
  {
    match s.pc[p]
    case RelClear(l) => Go(s, p, Wakeup(OnLock(l), 0, FromRelease(l))).(
        locked := s.locked[l := None], has := s.has - {(l, p)})
    case RelUnlock(l) => Drop(Go(s, p, Elsewhere), SpinOf(l))
    case ExReparent(i) =>
      if i < NPROC then
        if s.parent[i] == Some(p) then
          Go(s, p, Wakeup(OnProc(s.init), 0, FromReparent(i))).(parent := s.parent[i := Some(s.init)])
        else Go(s, p, ExReparent(i + 1))
      else if s.parent[p].Some? then Go(s, p, Wakeup(OnProc(s.parent[p].value), 0, FromExit))
      else Go(s, p, ExLock)
    case ExLock => Take(Go(s, p, ExMark), p, ProcLock(p))
    case ExMark => Go(s, p, ExUnlock).(st := s.st[p := ZOMBIE])
    case ExUnlock => Drop(Go(s, p, ExSched), WaitLock)
    case ExSched => Drop(Go(s, p, Dead), ProcLock(p))
  }

  function DoWakeup(s: State, p: nat, c: Chan, i: nat, w: Waker): State
    requires Wf(s) && p < |s.pc|
  {
    if i < NPROC then
      Go(s, p, Wakeup(c, i + 1, w)).(st := if i != p && s.st[i] == SLEEPING && s.chan[i] == Some(c)
        then s.st[i := RUNNABLE] else s.st)
    else
      Go(s, p, AfterWakeup(w))
  }

  function AfterWakeup(w: Waker): Pc {
    match w
    case FromRelease(l) => RelUnlock(l)
    case FromReparent(j) => ExReparent(j + 1)
    case FromExit => ExLock
    case InData(m) => Inside(m)
  }

  function DoWait(s: State, p: nat, i: nat, kids: bool): State
    requires Wf(s) && p < NPROC
  {
    if i < NPROC then
      if s.parent[i] == Some(p) then
        if s.st[i] == ZOMBIE then  // freeproc
          Drop(Go(s, p, Elsewhere), WaitLock).(
            pc := s.pc[i := NoThread][p := Elsewhere], st := s.st[i := UNUSED], pid := s.pid[i := 0],
            parent := s.parent[i := None],
            chan := s.chan[i := None], killed := s.killed[i := false], reaped := s.reaped + [s.pid[i]])
        else Go(s, p, WtScan(i + 1, true))
      else Go(s, p, WtScan(i + 1, kids))
    else if !kids || s.killed[p] then Drop(Go(s, p, Elsewhere), WaitLock)
    else Go(s, p, SlpLock(FromWait))
  }

  // ---- locks and process states ----

  /** A spin lock is owned by p exactly when p is at a point of the code where it holds it. */
  ghost predicate InvLocks(pc: seq<Pc>, own: map<Lock, nat>) {
    && NPROC <= |pc| && (forall x | x in own :: own[x] < |pc|)
    && forall p: nat, x: Lock {:trigger Holds(pc[p], p, x)} | p < |pc| :: Holds(pc[p], p, x) <==>
         x in own && own[x] == p
  }

  lemma {:induction false} Exclusive(pc: seq<Pc>, own: map<Lock, nat>, p: nat, q: nat, x: Lock)
    requires InvLocks(pc, own) && p < |pc| && q < |pc| && Holds(pc[p], p, x) && Holds(pc[q], q, x)
    ensures x in own && p == q == own[x]
  {
    assert Holds(pc[p], p, x) <==> x in own && own[x] == p;
    assert Holds(pc[q], q, x) <==> x in own && own[x] == q;
  }

  /** Moving one process keeps the lock invariant, given how its own locks change. */
  lemma {:induction false} LocksGo(pc: seq<Pc>, own: map<Lock, nat>, p: nat, pc': Pc, own': map<Lock, nat>)
    requires InvLocks(pc, own) && p < |pc|
    requires forall x :: (x in own' && own'[x] == p) <==> Holds(pc', p, x)
    requires forall x | x in own' && own'[x] != p :: x in own && own'[x] == own[x]
    requires forall x | x in own && own[x] != p :: x in own' && own'[x] == own[x]
    ensures InvLocks(pc[p := pc'], own')
  {
    var pcs := pc[p := pc'];
    forall q: nat, x: Lock | q < |pc| ensures Holds(pcs[q], q, x) <==> x in own' && own'[x] == q {
      if q != p { assert Holds(pc[q], q, x) <==> x in own && own[x] == q; }
    }
  }

  /** acquire(x): p, which did not hold x, now does. */
  lemma {:induction false} LocksTake(pc: seq<Pc>, own: map<Lock, nat>, p: nat, pc': Pc, x: Lock)
    requires InvLocks(pc, own) && p < |pc| && x !in own
    requires forall y :: Holds(pc', p, y) <==> Holds(pc[p], p, y) || y == x
    ensures InvLocks(pc[p := pc'], own[x := p])
  {
    LocksGo(pc, own, p, pc', own[x := p]);
  }

  /** release(x) */
  lemma {:induction false} LocksDrop(pc: seq<Pc>, own: map<Lock, nat>, p: nat, pc': Pc, x: Lock)
    requires InvLocks(pc, own) && p < |pc| && Holds(pc[p], p, x)
    requires forall y :: Holds(pc', p, y) <==> Holds(pc[p], p, y) && y != x
    ensures InvLocks(pc[p := pc'], own - {x})
  {
    LocksGo(pc, own, p, pc', own - {x});
  }

  lemma {:induction false} LocksSame(pc: seq<Pc>, own: map<Lock, nat>, p: nat, pc': Pc)
    requires InvLocks(pc, own) && p < |pc|
    requires forall y :: Holds(pc', p, y) <==> Holds(pc[p], p, y)
    ensures InvLocks(pc[p := pc'], own)
  {
    LocksGo(pc, own, p, pc', own);
  }

  lemma {:induction false} LocksSleep(s: State, p: nat)
    requires Wf(s) && p < NPROC && CanAdvance(s, p) && InvLocks(s.pc, s.own) && Sleeping(s.pc[p])
    ensures InvLocks(DoAdvance(s, p).pc, DoAdvance(s, p).own)
  {
    hide InvLocks;
    var pc, own := s.pc, s.own;
    match pc[p] {
      case AcqTest(l) =>
        if s.locked[l].Some? {
          LocksSame(pc, own, p, SlpLock(FromAcquire(l)));
        } else {
          LocksDrop(pc, own, p, Elsewhere, SpinOf(l));
        }
      case SlpLock(k) => LocksTake(pc, own, p, SlpRelease(k), ProcLock(p));
      case SlpRelease(k) => LocksDrop(pc, own, p, SlpMark(k), LockOf(k));
      case SlpMark(k) => LocksSame(pc, own, p, SlpSched(k));
      case SlpSched(k) => LocksDrop(pc, own, p, Asleep(k), ProcLock(p));
      case SlpTidy(k) => LocksSame(pc, own, p, SlpUnlock(k));
      case SlpUnlock(k) => LocksDrop(pc, own, p, SlpReacquire(k), ProcLock(p));
      case SlpReacquire(k) => LocksTake(pc, own, p, Resume(k), LockOf(k));
    }
  }

  /** The points of releasesleep, wakeup and exit. */
  predicate Waking(pc: Pc) {
    pc.RelClear? || pc.Wakeup? || pc.RelUnlock? || pc.ExReparent? || pc.ExLock? || pc.ExMark? || pc.ExUnlock?
    || pc.ExSched?
  }

  lemma {:induction false} LocksReparent(s: State, p: nat, i: nat)
    requires Wf(s) && p < NPROC && CanAdvance(s, p) && InvLocks(s.pc, s.own) && s.pc[p] == ExReparent(i)
    ensures InvLocks(DoAdvance(s, p).pc, DoAdvance(s, p).own)
  {
    hide InvLocks;
    LocksSame(s.pc, s.own, p, DoAdvance(s, p).pc[p]);
  }

  lemma {:induction false} LocksWaking(s: State, p: nat)
    requires Wf(s) && p < NPROC && CanAdvance(s, p) && InvLocks(s.pc, s.own) && Waking(s.pc[p])
    ensures InvLocks(DoAdvance(s, p).pc, DoAdvance(s, p).own)
  {
    hide InvLocks;
    var pc, own := s.pc, s.own;
    match pc[p] {
      case RelClear(l) => LocksSame(pc, own, p, Wakeup(OnLock(l), 0, FromRelease(l)));
      case Wakeup(c, i, w) => LocksSame(pc, own, p, if i < NPROC then Wakeup(c, i + 1, w) else AfterWakeup(w));
      case RelUnlock(l) => LocksDrop(pc, own, p, Elsewhere, SpinOf(l));
      case ExReparent(i) => LocksReparent(s, p, i);
      case ExLock => LocksTake(pc, own, p, ExMark, ProcLock(p));
      case ExMark => LocksSame(pc, own, p, ExUnlock);
      case ExUnlock => LocksDrop(pc, own, p, ExSched, WaitLock);
      case ExSched => LocksDrop(pc, own, p, Dead, ProcLock(p));
    }
  }

  lemma {:induction false} LocksFork(s: State, p: nat)
    requires Wf(s) && p < NPROC && CanAdvance(s, p) && InvLocks(s.pc, s.own) && InvLocal(s)
    requires (s.pc[p].FkParent? || s.pc[p].FkRun?)
    ensures InvLocks(DoAdvance(s, p).pc, DoAdvance(s, p).own)
  {
    hide InvLocks, InvLocal;
    LocalAt(s, p);
    LocalAt(s, s.pc[p].i);
    if s.pc[p].FkParent? {
      LocksSame(s.pc, s.own, p, FkRun(s.pc[p].i));
    } else {
      LocksSame(s.pc, s.own, s.pc[p].i, Elsewhere);
      LocksSame(s.pc[s.pc[p].i := Elsewhere], s.own, p, Elsewhere);
    }
  }

  lemma {:induction false} NotHeld(pc: seq<Pc>, own: map<Lock, nat>, p: nat, x: Lock)
    requires InvLocks(pc, own) && p < |pc| && x !in own
    ensures !Holds(pc[p], p, x)
  {
    assert Holds(pc[p], p, x) ==> x in own;
  }

  lemma {:induction false} LocalAt(s: State, p: nat)
    requires InvLocal(s) && p < NPROC
    ensures Wf(s) && LocalOk(s, p)
  {
    hide LocalOk;
  }

  lemma {:induction false} LocksWait(s: State, p: nat, i: nat, kids: bool)
    requires Wf(s) && p < NPROC && s.pc[p] == WtScan(i, kids) && CanAdvance(s, p) && InvLocks(s.pc, s.own)
    requires InvLocal(s)
    ensures InvLocks(DoWait(s, p, i, kids).pc, DoWait(s, p, i, kids).own)
  {
    hide InvLocks, InvLocal;
    var pc, own := s.pc, s.own;
    if i < NPROC && s.parent[i] == Some(p) && s.st[i] == ZOMBIE {
      LocalAt(s, i);
      LocalAt(s, p);
      assert !Holds(pc[i], i, ProcLock(i)) by { NotHeld(pc, own, i, ProcLock(i)); }
      assert pc[i] == Dead;
      LocksSame(pc, own, i, NoThread);
      LocksDrop(pc[i := NoThread], own, p, Elsewhere, WaitLock);
    } else if i < NPROC || (kids && !s.killed[p]) {
      LocksSame(pc, own, p, DoWait(s, p, i, kids).pc[p]);
    } else {
      LocksDrop(pc, own, p, Elsewhere, WaitLock);
    }
  }

  lemma {:induction false} LocksAdvance(s: State, p: nat)
    requires Wf(s) && p < NPROC && CanAdvance(s, p) && InvLocks(s.pc, s.own) && InvLocal(s)
    ensures InvLocks(DoAdvance(s, p).pc, DoAdvance(s, p).own)
  {
    hide InvLocks, InvLocal, DoSleep, DoWakeup, DoFork, DoExit, DoWait;
    if Sleeping(s.pc[p]) { LocksSleep(s, p); }
    else if Waking(s.pc[p]) { LocksWaking(s, p); }
    else if s.pc[p].WtScan? { LocksWait(s, p, s.pc[p].i, s.pc[p].kids); }
    else { LocksFork(s, p); }
  }

  predicate IsData(t: Step) { t.Enter? || t.Leave? || t.SleepOn? || t.WakeOn? }

  lemma {:induction false} LocksData(s: State, t: Step)
    requires Enabled(s, t) && InvLocks(s.pc, s.own) && IsData(t)
    ensures InvLocks(Do(s, t).pc, Do(s, t).own)
  {
    hide InvLocks, DoAdvance;
    match t {
      case Enter(p, m) => LocksTake(s.pc, s.own, p, Inside(m), DataLock(m));
      case Leave(p) => LocksDrop(s.pc, s.own, p, Elsewhere, DataLock(s.pc[p].m));
      case SleepOn(p, a) => LocksSame(s.pc, s.own, p, SlpLock(FromData(a, s.pc[p].m)));
      case WakeOn(p, a) => LocksSame(s.pc, s.own, p, Wakeup(OnData(a, s.pc[p].m), 0, InData(s.pc[p].m)));
    }
  }

  lemma {:induction false} LocksIrq(s: State, t: Step)
    requires Enabled(s, t) && InvLocks(s.pc, s.own) && IsIrq(t) && InvLocal(s)
    ensures InvLocks(Do(s, t).pc, Do(s, t).own)
  {
    hide InvLocks, InvLocal, DoAdvance;
    HandlerAt(s, t.h);
    match t {
      case IrqEnter(h, m) => LocksTake(s.pc, s.own, h, Inside(m), DataLock(m));
      case IrqLeave(h) => LocksDrop(s.pc, s.own, h, Elsewhere, DataLock(s.pc[h].m));
      case IrqWake(h, a) => LocksSame(s.pc, s.own, h, Wakeup(OnData(a, s.pc[h].m), 0, InData(s.pc[h].m)));
      case IrqScan(h) => LocksSame(s.pc, s.own, h, Do(s, t).pc[h]);
    }
  }

  lemma {:induction false} LocksStep(s: State, t: Step)
    requires Enabled(s, t) && InvLocks(s.pc, s.own) && InvLocal(s)
    ensures InvLocks(Do(s, t).pc, Do(s, t).own)
  {
    hide InvLocks, InvLocal, DoAdvance;
    match t {
      case AcquireSleep(p, l) => LocksTake(s.pc, s.own, p, AcqTest(l), SpinOf(l));
      case ReleaseSleep(p, l) => LocksTake(s.pc, s.own, p, RelClear(l), SpinOf(l));
      case Exit(p) => LocksTake(s.pc, s.own, p, ExReparent(0), WaitLock);
      case Wait(p) => LocksTake(s.pc, s.own, p, WtScan(0, false), WaitLock);
      case Fork(p, i) => LocksSame(s.pc, s.own, p, FkParent(i));
      case Advance(p) => LocksAdvance(s, p);
      case ReapFails(p) => LocksDrop(s.pc, s.own, p, Elsewhere, WaitLock);
      case ForkFails(p) => LocksSame(s.pc, s.own, p, Elsewhere);
      case Schedule(p) => if s.pc[p].Asleep? { LocksTake(s.pc, s.own, p, SlpTidy(s.pc[p].k), ProcLock(p)); }
      case Yield(p) =>
      case Kill(i) =>
      case _ => if IsData(t) { LocksData(s, t); } else { LocksIrq(s, t); }
    }
  }

  /** How a process's state, channel and parent fit the point it has reached. */
  predicate LocalOk(s: State, p: nat)
    requires Wf(s) && p < NPROC
  {
    var st := s.st[p];
    && s.parent[p] != Some(p)
    && (st == UNUSED ==> s.parent[p] == None)
    && match s.pc[p]
       case NoThread => st == UNUSED || st == USED
       case Elsewhere => st == RUNNING || st == RUNNABLE
       case SlpSched(k) => st == SLEEPING && s.chan[p] == Some(ChanOf(k, p))
       case Asleep(k) => (st == SLEEPING && s.chan[p] == Some(ChanOf(k, p))) || st == RUNNABLE
       case SlpReacquire(k) => st == RUNNING || st == RUNNABLE
       case Wakeup(c, i, w) =>
         && st == RUNNING && i <= NPROC
         && (match w
             case FromRelease(l) => c == OnLock(l)
             case FromReparent(j) => c == OnProc(s.init) && j < NPROC && p != s.init
             case FromExit => c.OnProc? && s.parent[p] == Some(c.p) && p != s.init
             case InData(m) => c.OnData? && c.m == m)
       case ExReparent(i) => st == RUNNING && i <= NPROC && p != s.init
       case ExLock => st == RUNNING && p != s.init
       case ExMark => st == RUNNING && p != s.init
       case ExUnlock => st == ZOMBIE && p != s.init
       case ExSched => st == ZOMBIE && p != s.init
       case Dead => st == ZOMBIE && p != s.init
       case WtScan(i, kids) => st == RUNNING && i <= NPROC
       case FkParent(i) => (st == RUNNING || st == RUNNABLE) && i < NPROC && s.st[i] == USED && s.parent[i] == None
       case FkRun(i) => (st == RUNNING || st == RUNNABLE) && i < NPROC && s.st[i] == USED && s.parent[i] == Some(p)
       case _ => st == RUNNING
  }

  function ForkOf(pc: Pc): Option<nat> { if pc.FkParent? || pc.FkRun? then Some(pc.i) else None }

  /** The points a handler can be at. */
  predicate HandlerOk(pc: Pc) {
    pc == Elsewhere || pc.Inside? || (pc.Wakeup? && pc.i <= NPROC && pc.w.InData? && pc.c.OnData? && pc.c.m == pc.w.m)
  }

  lemma {:induction false} HandlerAt(s: State, h: nat)
    requires InvLocal(s) && NPROC <= h < |s.pc|
    ensures HandlerOk(s.pc[h])
  {
  }

  ghost predicate InvLocal(s: State) {
    && Wf(s) && s.parent[s.init] == None && s.st[s.init] != UNUSED && s.st[s.init] != USED
    && (forall p: nat | p < NPROC :: LocalOk(s, p)) && (forall h: nat | NPROC <= h < |s.pc| :: HandlerOk(s.pc[h]))
    && (forall p: nat, q: nat | p < q < NPROC && ForkOf(s.pc[p]).Some? :: ForkOf(s.pc[p]) != ForkOf(s.pc[q]))
  }

  /** A step that only moves p (and perhaps changes p's own state and channel). */
  lemma {:induction false} LocalMove(s: State, s': State, p: nat)
    requires InvLocal(s) && p < NPROC && Wf(s') && s'.init == s.init && s'.parent == s.parent && |s'.pc| == |s.pc|
    requires forall h: nat | NPROC <= h < |s.pc| :: s'.pc[h] == s.pc[h]
    requires forall q: nat | q < NPROC && q != p ::
               s'.pc[q] == s.pc[q] && s'.st[q] == s.st[q] && s'.chan[q] == s.chan[q]
    requires s'.st[p] != s.st[p] ==> s.st[p] != USED && s.st[p] != UNUSED && s'.st[p] != USED && s'.st[p] != UNUSED
    requires LocalOk(s', p) && (ForkOf(s'.pc[p]) == None || ForkOf(s'.pc[p]) == ForkOf(s.pc[p]))
    ensures InvLocal(s')
  {
    forall q: nat | q < NPROC ensures LocalOk(s', q) {
      if q != p { assert LocalOk(s, q); }
    }
  }

  lemma {:induction false} LocalSleep(s: State, p: nat)
    requires InvLocal(s) && p < NPROC && CanAdvance(s, p) && Sleeping(s.pc[p])
    ensures InvLocal(DoAdvance(s, p))
  {
    hide InvLocal;
    LocalAt(s, p);
    LocalMove(s, DoAdvance(s, p), p);
  }

  /** wakeup and kill: a sleeping process becomes runnable. */
  lemma {:induction false} LocalWake(s: State, i: nat)
    requires InvLocal(s) && InvLocks(s.pc, s.own) && i < NPROC && s.st[i] == SLEEPING && ProcLock(i) !in s.own
    ensures s.pc[i].Asleep? && InvLocal(s.(st := s.st[i := RUNNABLE]))
  {
    hide InvLocal, InvLocks;
    LocalAt(s, i);
    NotHeld(s.pc, s.own, i, ProcLock(i));
    LocalMove(s, s.(st := s.st[i := RUNNABLE]), i);
  }

  lemma {:induction false} LocalWakeupMove(s: State, s': State, p: nat, pc': Pc)
    requires InvLocal(s) && p < NPROC && s.pc[p].Wakeup? && s' == Go(s, p, pc')
    requires (pc' == Wakeup(s.pc[p].c, s.pc[p].i + 1, s.pc[p].w) && s.pc[p].i < NPROC) || pc' == AfterWakeup(s.pc[p].w)
    ensures InvLocal(s')
  {
    hide InvLocal;
    LocalAt(s, p);
    assert LocalOk(s', p);
    LocalMove(s, s', p);
  }

  lemma {:induction false} LocalWakeup(s: State, p: nat, c: Chan, i: nat, w: Waker)
    requires InvLocal(s) && InvLocks(s.pc, s.own) && p < NPROC && s.pc[p] == Wakeup(c, i, w) && CanAdvance(s, p)
    ensures InvLocal(DoWakeup(s, p, c, i, w))
  {
    hide InvLocal, InvLocks, LocalOk;
    LocalAt(s, p);
    if i < NPROC && i != p && s.st[i] == SLEEPING && s.chan[i] == Some(c) {
      LocalWake(s, i);
      LocalWakeupMove(s.(st := s.st[i := RUNNABLE]), DoWakeup(s, p, c, i, w), p, Wakeup(c, i + 1, w));
    } else if i < NPROC {
      LocalWakeupMove(s, DoWakeup(s, p, c, i, w), p, Wakeup(c, i + 1, w));
    } else {
      LocalWakeupMove(s, DoWakeup(s, p, c, i, w), p, AfterWakeup(w));
    }
  }

  lemma {:induction false} LocalReparent(s: State, p: nat, i: nat)
    requires InvLocal(s) && InvLocks(s.pc, s.own) && p < NPROC && s.st[p] == RUNNING && s.pc[p] == ExReparent(i)
    ensures InvLocal(DoAdvance(s, p))
  {
    var s' := DoAdvance(s, p);
    assert LocalOk(s, p);
    if i < NPROC && s.parent[i] == Some(p) {
      forall q: nat | q < NPROC ensures LocalOk(s', q) {
        assert LocalOk(s, q) && LocalOk(s, i);
        if q != p && s.pc[q].Wakeup? && s.pc[q].w == FromExit {
          Exclusive(s.pc, s.own, p, q, WaitLock);
        }
      }
    } else {
      LocalMove(s, s', p);
    }
  }

  lemma {:induction false} LocalExit(s: State, p: nat)
    requires InvLocal(s) && p < NPROC && CanAdvance(s, p)
    requires s.pc[p].ExLock? || s.pc[p].ExMark? || s.pc[p].ExUnlock? || s.pc[p].ExSched? || s.pc[p].RelClear?
        || s.pc[p].RelUnlock?
    ensures InvLocal(DoAdvance(s, p))
  {
    hide InvLocal;
    LocalAt(s, p);
    LocalMove(s, DoAdvance(s, p), p);
  }

  lemma {:induction false} LocalReap(s: State, p: nat, i: nat, kids: bool)
    requires InvLocal(s) && p < NPROC && s.pc[p] == WtScan(i, kids) && i < NPROC && s.parent[i] == Some(p)
    requires s.st[i] == ZOMBIE
    ensures InvLocal(DoWait(s, p, i, kids))
  {
    var s' := DoWait(s, p, i, kids);
    assert LocalOk(s, p) && LocalOk(s, i);
    forall q: nat | q < NPROC ensures LocalOk(s', q) { assert LocalOk(s, q); }
  }

  lemma {:induction false} LocalWait(s: State, p: nat, i: nat, kids: bool)
    requires InvLocal(s) && p < NPROC && s.pc[p] == WtScan(i, kids)
    ensures InvLocal(DoWait(s, p, i, kids))
  {
    hide InvLocal;
    LocalAt(s, p);
    if i < NPROC && s.parent[i] == Some(p) && s.st[i] == ZOMBIE {
      LocalReap(s, p, i, kids);
    } else {
      assert LocalOk(DoWait(s, p, i, kids), p);
      LocalMove(s, DoWait(s, p, i, kids), p);
    }
  }

  /** No other process is in a fork of the slot p is filling. */
  lemma {:induction false} ForksApart(s: State, p: nat, q: nat)
    requires InvLocal(s) && p < NPROC && q < NPROC && p != q && ForkOf(s.pc[p]).Some?
    ensures ForkOf(s.pc[q]) != ForkOf(s.pc[p])
  {
    hide LocalOk;
    assert if p < q then ForkOf(s.pc[p]) != ForkOf(s.pc[q]) else ForkOf(s.pc[q]).Some? ==>
      ForkOf(s.pc[q]) != ForkOf(s.pc[p]);
  }

  lemma {:induction false} ForkLocal(s: State, p: nat, q: nat)
    requires Wf(s) && p < NPROC && CanAdvance(s, p) && (s.pc[p].FkParent? || s.pc[p].FkRun?) && q < NPROC
    requires LocalOk(s, p) && LocalOk(s, q) && LocalOk(s, s.pc[p].i) && (q != p ==> ForkOf(s.pc[q]) != ForkOf(s.pc[p]))
    ensures Wf(DoFork(s, p)) && LocalOk(DoFork(s, p), q)
  {
  }

  lemma {:induction false} ForkSlot(s: State, p: nat)
    requires InvLocal(s) && p < NPROC && (s.pc[p].FkParent? || s.pc[p].FkRun?)
    ensures s.pc[p].i < NPROC && s.st[s.pc[p].i] == USED && s.pc[s.pc[p].i] == NoThread
  {
    hide InvLocal;
    LocalAt(s, p);
    LocalAt(s, s.pc[p].i);
  }

  lemma {:induction false} LocalFork(s: State, p: nat)
    requires InvLocal(s) && p < NPROC && CanAdvance(s, p) && (s.pc[p].FkParent? || s.pc[p].FkRun?)
    ensures InvLocal(DoAdvance(s, p))
  {
    hide LocalOk;
    var s', i := DoFork(s, p), s.pc[p].i;
    forall q: nat | q < NPROC ensures LocalOk(s', q) {
      LocalAt(s, p);
      LocalAt(s, q);
      LocalAt(s, i);
      if q != p { ForksApart(s, p, q); }
      ForkLocal(s, p, q);
    }
    ForkSlot(s, p);
  }

  lemma {:induction false} ForkFailsLocal(s: State, p: nat, q: nat)
    requires Enabled(s, ForkFails(p)) && q < NPROC
    requires LocalOk(s, p) && LocalOk(s, q) && LocalOk(s, s.pc[p].i) && (q != p ==> ForkOf(s.pc[q]) != ForkOf(s.pc[p]))
    ensures Wf(Do(s, ForkFails(p))) && LocalOk(Do(s, ForkFails(p)), q)
  {
    hide DoAdvance;
  }

  lemma {:induction false} LocalForkFails(s: State, p: nat)
    requires InvLocal(s) && Enabled(s, ForkFails(p))
    ensures InvLocal(Do(s, ForkFails(p)))
  {
    hide LocalOk, DoAdvance;
    var s', i := Do(s, ForkFails(p)), s.pc[p].i;
    forall q: nat | q < NPROC ensures LocalOk(s', q) {
      LocalAt(s, p);
      LocalAt(s, q);
      LocalAt(s, i);
      if q != p { ForksApart(s, p, q); }
      ForkFailsLocal(s, p, q);
    }
    ForkSlot(s, p);
  }

  lemma {:induction false} AllocLocal(s: State, p: nat, i: nat, q: nat)
    requires Enabled(s, Fork(p, i)) && q < NPROC && LocalOk(s, q) && LocalOk(s, i) && InvLocal(s)
    ensures Wf(Do(s, Fork(p, i))) && LocalOk(Do(s, Fork(p, i)), q)
  {
    hide InvLocal;
    if ForkOf(s.pc[q]).Some? { assert ForkOf(s.pc[q]) != Some(i); }
  }

  lemma {:induction false} AllocForks(s: State, p: nat, i: nat, a: nat, b: nat)
    requires Enabled(s, Fork(p, i)) && a < b < NPROC && InvLocal(s) && ForkOf(Do(s, Fork(p, i)).pc[a]).Some?
    ensures ForkOf(Do(s, Fork(p, i)).pc[a]) != ForkOf(Do(s, Fork(p, i)).pc[b])
  {
    assert LocalOk(s, a) && LocalOk(s, b);
  }

  lemma {:induction false} LocalAlloc(s: State, p: nat, i: nat)
    requires InvLocal(s) && Enabled(s, Fork(p, i))
    ensures InvLocal(Do(s, Fork(p, i)))
  {
    var s' := Do(s, Fork(p, i));
    assert LocalOk(s, p) && LocalOk(s, i);
    forall q: nat | q < NPROC ensures LocalOk(s', q) { AllocLocal(s, p, i, q); }
    forall a: nat, b: nat | a < b < NPROC && ForkOf(s'.pc[a]).Some? ensures ForkOf(s'.pc[a]) != ForkOf(s'.pc[b]) {
      AllocForks(s, p, i, a, b);
    }
  }

  /** Calls from outside, the scheduler, and the end of a failed wait. */
  lemma {:induction false} LocalCall(s: State, t: Step)
    requires InvLocal(s) && Enabled(s, t)
    requires t.AcquireSleep? || t.ReleaseSleep? || t.Exit? || t.Wait? || t.ReapFails? || t.Schedule? || t.Yield?
    ensures InvLocal(Do(s, t))
  {
    hide InvLocal, DoAdvance;
    LocalAt(s, t.p);
    assert LocalOk(Do(s, t), t.p);
    LocalMove(s, Do(s, t), t.p);
  }

  lemma {:induction false} LocalData(s: State, t: Step)
    requires InvLocal(s) && Enabled(s, t) && IsData(t)
    ensures InvLocal(Do(s, t))
  {
    hide InvLocal, DoAdvance;
    LocalAt(s, t.p);
    assert LocalOk(Do(s, t), t.p);
    LocalMove(s, Do(s, t), t.p);
  }

  lemma {:induction false} LocalKilled(s: State, s': State)
    requires InvLocal(s) && Wf(s') && s' == s.(killed := s'.killed)
    ensures InvLocal(s')
  {
    forall q: nat | q < NPROC ensures LocalOk(s', q) { assert LocalOk(s, q); }
  }

  lemma {:induction false} LocalStep(s: State, t: Step)
    requires InvLocal(s) && InvLocks(s.pc, s.own) && Enabled(s, t)
    ensures InvLocal(Do(s, t))
  {
    hide InvLocal, InvLocks, LocalOk;
    match t {
      case Fork(p, i) => LocalAlloc(s, p, i);
      case ForkFails(p) => LocalForkFails(s, p);
      case Advance(p) => LocalAdvance(s, p);
      case Kill(i) =>
        LocalAt(s, i);
        var s1 := if s.st[i] == SLEEPING then s.(st := s.st[i := RUNNABLE]) else s;
        if s.st[i] == SLEEPING { LocalWake(s, i); }
        LocalKilled(s1, Do(s, t));
      case _ => if IsData(t) { LocalData(s, t); } else if IsIrq(t) { LocalIrq(s, t); } else { LocalCall(s, t); }
    }
  }

  /** A handler moves. */
  lemma {:induction false} LocalHandler(s: State, s': State, h: nat)
    requires InvLocal(s) && NPROC <= h < |s.pc| == |s'.pc| && HandlerOk(s'.pc[h])
        && s' == s.(pc := s.pc[h := s'.pc[h]], own := s'.own)
    ensures InvLocal(s')
  {
    hide HandlerOk;
    forall q: nat | q < NPROC ensures LocalOk(s', q) { assert LocalOk(s, q); }
  }

  lemma {:induction false} LocalIrq(s: State, t: Step)
    requires InvLocal(s) && InvLocks(s.pc, s.own) && Enabled(s, t) && IsIrq(t)
    ensures InvLocal(Do(s, t))
  {
    hide InvLocal, InvLocks, LocalOk, DoAdvance;
    HandlerAt(s, t.h);
    var pc := s.pc[t.h];
    if t.IrqScan? && pc.i < NPROC && s.st[pc.i] == SLEEPING && s.chan[pc.i] == Some(pc.c) {
      LocalWake(s, pc.i);
      LocalHandler(s.(st := s.st[pc.i := RUNNABLE]), Do(s, t), t.h);
    } else {
      LocalHandler(s, Do(s, t), t.h);
    }
  }

  lemma {:induction false} LocalAdvance(s: State, p: nat)
    requires InvLocal(s) && InvLocks(s.pc, s.own) && p < NPROC && CanAdvance(s, p)
    ensures InvLocal(DoAdvance(s, p))
  {
    hide InvLocal, InvLocks, LocalOk;
    LocalAt(s, p);
    if s.pc[p].Wakeup? { LocalWakeup(s, p, s.pc[p].c, s.pc[p].i, s.pc[p].w); }
    else if s.pc[p].ExReparent? { LocalReparent(s, p, s.pc[p].i); }
    else if Waking(s.pc[p]) { LocalExit(s, p); }
    else if s.pc[p].WtScan? { LocalWait(s, p, s.pc[p].i, s.pc[p].kids); }
    else if Sleeping(s.pc[p]) { LocalSleep(s, p); }
    else { LocalFork(s, p); }
  }
}
