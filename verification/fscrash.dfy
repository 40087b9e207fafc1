/** The file system on the log: operations that lock inodes and log blocks for them, all interleaved, with
    group commit, crashes and recoveries in between. */
module FsCrash {
  import opened Blocks
  import opened FsFormat
  import opened FsSpec
  import opened FsLocal
  import opened RedoLog
  import Crash
  import Log = GroupCommit
  import Hist = GroupHistory

  /** Operation op unlocked inode i and left it with these contents. */
  datatype Upd<B> = Upd(op: nat, i: nat, data: seq<B>)

  datatype State<T, B> = State(
    log: Log.State<T>,
    own: seq<set<nat>>,     // the blocks of each inode
    lock: map<nat, nat>,    // the locked inodes, with the operations that hold the locks
    done: seq<Upd<B>>,      // what became of files, in the order of the unlocks
    kept: nat,              // how many of these have reached the disk with a commit record
    kown: seq<set<nat>>)    // the blocks of each inode at that time

  datatype Step<T, B> =
    | Lock(i: nat, k: nat)                          // ilock by operation number k
    | LogFor(i: nat, k: nat, bno: nat, x: T)        // its log_write of a block, on behalf of inode i
    | Unlock(i: nat, data: seq<B>)                  // iunlock
    | LogStep(t: Log.Step<T>)

  /** A file system with file contents `files` at first, on a disk with the log ahead of the inodes. */
  datatype Disk<!T(!new), !B(!new)> = Disk(L: Layout, C: Crash.Codec<T>, F: Format<T, B>, sb: Super,
                                           files: seq<seq<B>>) {
    ghost predicate Ok() {
      && Crash.Law(C) && Law(F) && L.Ok() && SuperOk(sb) && L.nblocks == sb.size && L.start + L.size <= sb.inodestart
      && |files| == sb.ninodes
    }
  }

  /** The contents of all files after the updates, in this order. */
  function Contents<B>(files: seq<seq<B>>, done: seq<Upd<B>>): (r: seq<seq<B>>)
    ensures |r| == |files|
  {
    if done == [] then files
    else var f, u := Contents(files, done[..|done| - 1]), done[|done| - 1]; if u.i < |f| then f[u.i := u.data] else f
  }

  ghost predicate Init<T(!new), B(!new)>(D: Disk<T, B>, s: State<T, B>) {
    && D.Ok() && Log.Init(D.L, D.C, s.log) && Parts(D.F, D.sb, s.log.init, s.own, D.files)
    && s.lock == map[] && s.done == [] && s.kept == 0 && s.kown == s.own
  }

  ghost predicate Enabled<T(!new), B(!new)>(D: Disk<T, B>, s: State<T, B>, t: Step<T, B>) {
    match t
    case Lock(i, k) => i < D.sb.ninodes && i !in s.lock && k < |s.log.ops|
    case LogFor(i, k, bno, x) =>
      && i in s.lock && k < |s.log.ops| && s.lock[i] == s.log.ops[k].id
      && Log.Enabled(D.L, D.C, s.log, Log.LogWrite(k, bno, x))
      && LocalWrite(D.F, D.sb, i, Rest(s.own, i), s.log.view, Write(bno, x))
    case Unlock(i, data) => i in s.lock && i < |s.own| && LocalOk(D.F, D.sb, s.log.view, i, s.own[i], data)
    case LogStep(u) =>
      && Log.Enabled(D.L, D.C, s.log, u) && !u.LogWrite?
      && (u.End? ==> forall i | i in s.lock :: s.lock[i] != s.log.ops[u.i].id)
  }

  ghost function Do<T(!new), B(!new)>(D: Disk<T, B>, s: State<T, B>, t: Step<T, B>): State<T, B>
    requires Enabled(D, s, t)
  {
    match t
    case Lock(i, k) => s.(lock := s.lock[i := s.log.ops[k].id])
    case LogFor(i, k, bno, x) =>
      var log := Log.Do(D.L, D.C, s.log, Log.LogWrite(k, bno, x));
      if log.fault.NoFault? && i < |s.own| then
        s.(log := log, own := s.own[i := OwnAfter(D.F, D.sb, Rest(s.own, i), log.view)])
      else s.(log := log)
    case Unlock(i, data) => s.(lock := s.lock - {i}, done := s.done + [Upd(s.lock[i], i, data)])
    case LogStep(u) => DoLog(s, u, Log.Do(D.L, D.C, s.log, u))
  }

  function DoLog<T(!new), B(!new)>(s: State<T, B>, u: Log.Step<T>, log: Log.State<T>): State<T, B> {
    match u
    case CommitIO =>
      if |log.groups| > |s.log.groups| then s.(log := log, kept := |s.done|, kown := s.own) else s.(log := log)
    case CrashNow =>
      s.(log := log, done := if s.kept <= |s.done| then s.done[..s.kept] else s.done, own := s.kown, lock := map[])
    case _ => s.(log := log)
  }

  ghost predicate Run<T(!new), B(!new)>(D: Disk<T, B>, ss: seq<State<T, B>>, ts: seq<Step<T, B>>) {
    && |ss| == |ts| + 1 && Init(D, ss[0])
    && forall k | 0 <= k < |ts| :: Enabled(D, ss[k], ts[k]) && ss[k + 1] == Do(D, ss[k], ts[k])
  }

  // ---- what the file system looks at ----

  /** The same blocks from the inodes on. */
  ghost predicate SameFs<T(!new)>(sb: Super, a: seq<T>, b: seq<T>) {
    |a| == |b| == sb.size && forall x | sb.inodestart <= x < sb.size :: a[x] == b[x]
  }

  lemma {:induction false} DinodeFrame<T(!new), B(!new)>(F: Format<T, B>, sb: Super, a: seq<T>, b: seq<T>, i: nat)
    requires SameFs(sb, a, b) && SuperOk(sb) && i < sb.ninodes
    ensures Dinode(F, sb, a, i) == Dinode(F, sb, b, i)
  {
    InodeBelow(sb, i);
  }

  lemma {:induction false} UsedFrame<T(!new), B(!new)>(F: Format<T, B>, sb: Super, a: seq<T>, b: seq<T>, x: nat)
    requires SameFs(sb, a, b) && SuperOk(sb) && x < sb.size
    ensures Used(F, sb, b, x) == Used(F, sb, a, x)
  {
  }

  lemma {:induction false} BitsFrame<T(!new), B(!new)>(F: Format<T, B>, sb: Super, a: seq<T>, b: seq<T>,
                                                       own: seq<set<nat>>)
    requires SameFs(sb, a, b) && Bits(F, sb, a, own)
    ensures Bits(F, sb, b, own)
  {
    hide Used;
    forall x: nat | x < sb.size ensures Used(F, sb, b, x) == Used(F, sb, a, x) { UsedFrame(F, sb, a, b, x); }
  }

  lemma {:induction false} PartsFrame<T(!new), B(!new)>(F: Format<T, B>, sb: Super, a: seq<T>, b: seq<T>,
                                                        own: seq<set<nat>>, files: seq<seq<B>>)
    requires SameFs(sb, a, b) && Parts(F, sb, a, own, files)
    ensures Parts(F, sb, b, own, files)
  {
    hide LocalOk, Used, Dinode;
    BitsFrame(F, sb, a, b, own);
    forall i: nat | i < sb.ninodes ensures LocalOk(F, sb, b, i, own[i], files[i]) {
      DinodeFrame(F, sb, a, b, i);
      forall x | x in own[i] && x < sb.size ensures b[x] == a[x] { assert Holds(own, i, x); }
      LocalFrame(F, sb, a, b, i, own[i], files[i]);
    }
  }

  /** A file system is a matter of these blocks alone. */
  lemma {:induction false} ImageFrame<T(!new), B(!new)>(F: Format<T, B>, sb: Super, a: seq<T>, b: seq<T>,
                                                        files: seq<seq<B>>)
    requires SameFs(sb, a, b) && Image(F, sb, a, files)
    ensures Image(F, sb, b, files)
  {
    hide ValidAt, Parts, SameFs;
    var inodes, owner :| ValidAt(F, sb, a, inodes, owner, files);
    ImageSplit(F, sb, a, inodes, owner, files);
    PartsFrame(F, sb, a, b, Split(sb, owner), files);
    ImageJoin(F, sb, b, Split(sb, owner), files);
  }

  lemma {:induction false} HomeFs<T(!new), B(!new)>(D: Disk<T, B>, a: seq<T>, b: seq<T>)
    requires D.Ok() && SameHome(D.L, a, b)
    ensures SameFs(D.sb, a, b)
  {
  }

  lemma {:induction false} SameFsSym<T(!new)>(sb: Super, a: seq<T>, b: seq<T>)
    requires SameFs(sb, a, b)
    ensures SameFs(sb, b, a)
  {
  }

  // ---- every step ----

  ghost predicate HasOp(ops: seq<Log.Op>, id: nat) { exists i :: 0 <= i < |ops| && ops[i].id == id }

  /** What bread shows: every inode that is not locked holds its file. */
  ghost predicate Showing<T(!new), B(!new)>(D: Disk<T, B>, view: seq<T>, own: seq<set<nat>>, lock: map<nat, nat>,
                                            files: seq<seq<B>>)
    requires |files| == D.sb.ninodes
  {
    && Bits(D.F, D.sb, view, own)
    && forall i: nat | i < D.sb.ninodes && i !in lock :: LocalOk(D.F, D.sb, view, i, own[i], files[i])
  }

  ghost predicate Held(ops: seq<Log.Op>, lock: map<nat, nat>, n: nat) {
    forall i | i in lock :: i < n && HasOp(ops, lock[i])
  }

  ghost predicate InvFs<T(!new), B(!new)>(D: Disk<T, B>, s: State<T, B>) {
    && D.Ok() && s.kept <= |s.done|
    && Parts(D.F, D.sb, Log.Committed(s.log), s.kown, Contents(D.files, s.done[..s.kept]))
    && match s.log.phase
       case Idle =>
         && Showing(D, s.log.view, s.own, s.lock, Contents(D.files, s.done))
         && Held(s.log.ops, s.lock, D.sb.ninodes)
       case Committing(k, _) =>
         && s.lock == map[] && Showing(D, s.log.view, s.own, s.lock, Contents(D.files, s.done))
         && (k > |s.log.lh| ==> s.kept == |s.done|)
       case Recovering(_, _) => s.lock == map[] && s.kept == |s.done| && s.own == s.kown
  }

  ghost predicate Inv<T(!new), B(!new)>(D: Disk<T, B>, s: State<T, B>) {
    D.Ok() && Log.Inv(D.L, D.C, s.log) && InvFs(D, s)
  }

  /** Operations are open only between commits. */
  lemma {:induction false} OpenIdle<T(!new), B(!new)>(D: Disk<T, B>, s: State<T, B>)
    requires Inv(D, s)
    ensures s.log.ops != [] ==> s.log.phase.Idle?
    ensures s.lock != map[] ==> s.log.phase.Idle? && s.log.ops != []
  {
    hide Parts, Showing, Log.InvDisk, Log.InvHist;
    if s.lock != map[] {
      var i :| i in s.lock;
      assert s.log.phase.Idle? && HasOp(s.log.ops, s.lock[i]);
    }
  }

  lemma {:induction false} StepLock<T(!new), B(!new)>(D: Disk<T, B>, s: State<T, B>, i: nat, k: nat)
    requires Inv(D, s) && Enabled(D, s, Lock(i, k))
    ensures InvFs(D, Do(D, s, Lock(i, k)))
  {
    hide Parts, Bits, LocalOk, Log.Inv;
    OpenIdle(D, s);
    assert HasOp(s.log.ops, s.log.ops[k].id);
  }

  lemma {:induction false} ContentsMore<B>(files: seq<seq<B>>, done: seq<Upd<B>>, u: Upd<B>)
    requires u.i < |files|
    ensures Contents(files, done + [u]) == Contents(files, done)[u.i := u.data]
  {
    assert (done + [u])[..|done|] == done;
  }

  lemma {:induction false} StepUnlock<T(!new), B(!new)>(D: Disk<T, B>, s: State<T, B>, i: nat, data: seq<B>)
    requires Inv(D, s) && Enabled(D, s, Unlock(i, data))
    ensures InvFs(D, Do(D, s, Unlock(i, data)))
  {
    hide Parts, Bits, LocalOk, Log.Inv, Contents;
    OpenIdle(D, s);
    ContentsMore(D.files, s.done, Upd(s.lock[i], i, data));
    assert (s.done + [Upd(s.lock[i], i, data)])[..s.kept] == s.done[..s.kept];
  }

  /** A log_write for one inode leaves what the others show. */
  lemma {:induction false} ShowingFor<T(!new), B(!new)>(D: Disk<T, B>, view: seq<T>, own: seq<set<nat>>,
                                                        lock: map<nat, nat>, files: seq<seq<B>>, i: nat, w: Write<T>)
    requires D.Ok() && |files| == D.sb.ninodes && Showing(D, view, own, lock, files) && i in lock && i < D.sb.ninodes
    requires LocalWrite(D.F, D.sb, i, Rest(own, i), view, w)
    ensures w.bno < |view| == D.sb.size && |own| == D.sb.ninodes
    ensures Showing(D, view[w.bno := w.data], own[i := OwnAfter(D.F, D.sb, Rest(own, i), view[w.bno := w.data])], lock,
        files)
  {
    hide LocalOk, LocalWrite, Aside, Law, Rest, OwnAfter, Used;
    LocalAside(D.F, D.sb, i, Rest(own, i), view, w);
    var view' := view[w.bno := w.data];
    BitsAside(D.F, D.sb, i, own, view, view');
    forall j: nat | j < D.sb.ninodes && j !in lock ensures LocalOk(D.F, D.sb, view', j, own[j], files[j]) {
      OtherAside(D.F, D.sb, i, own, view, view', j, files[j]);
    }
  }

  lemma {:induction false} HeldFor(ops: seq<Log.Op>, ops': seq<Log.Op>, lock: map<nat, nat>, n: nat)
    requires Held(ops, lock, n) && |ops'| == |ops| && forall k | 0 <= k < |ops| :: ops'[k].id == ops[k].id
    ensures Held(ops', lock, n)
  {
    forall i | i in lock ensures HasOp(ops', lock[i]) {
      var k :| 0 <= k < |ops| && ops[k].id == lock[i];
      assert ops'[k].id == lock[i];
    }
  }

  lemma {:induction false} StepFor<T(!new), B(!new)>(D: Disk<T, B>, s: State<T, B>, i: nat, k: nat, bno: nat, x: T)
    requires Inv(D, s) && Enabled(D, s, LogFor(i, k, bno, x))
    ensures InvFs(D, Do(D, s, LogFor(i, k, bno, x)))
  {
    hide Parts, Showing, Held, LocalWrite, Contents, Rest, OwnAfter, Log.InvDisk, Log.InvHist, D.Ok;
    OpenIdle(D, s);
    var s' := Do(D, s, LogFor(i, k, bno, x));
    assert Log.Committed(s'.log) == Log.Committed(s.log);
    FilesOk(D);
    HeldBelow(s.log.ops, s.lock, D.sb.ninodes, i);
    ShowingFor(D, s.log.view, s.own, s.lock, Contents(D.files, s.done), i, Write(bno, x));
    HeldFor(s.log.ops, s'.log.ops, s.lock, D.sb.ninodes);
  }

  lemma {:induction false} FilesOk<T(!new), B(!new)>(D: Disk<T, B>)
    requires D.Ok()
    ensures |D.files| == D.sb.ninodes
  {
  }

  lemma {:induction false} HeldBelow(ops: seq<Log.Op>, lock: map<nat, nat>, n: nat, i: nat)
    requires Held(ops, lock, n) && i in lock
    ensures i < n
  {
  }

  lemma {:induction false} HeldEnd(ops: seq<Log.Op>, lock: map<nat, nat>, n: nat, k: nat)
    requires Held(ops, lock, n) && k < |ops| && forall i | i in lock :: lock[i] != ops[k].id
    ensures Held(ops[..k] + ops[k + 1..], lock, n) && (|ops| == 1 ==> lock == map[])
  {
    var ops' := ops[..k] + ops[k + 1..];
    forall i | i in lock ensures HasOp(ops', lock[i]) && |ops| > 1 {
      var j :| 0 <= j < |ops| && ops[j].id == lock[i];
      assert ops'[if j < k then j else j - 1].id == lock[i];
    }
  }

  lemma {:induction false} HeldBegin(ops: seq<Log.Op>, lock: map<nat, nat>, n: nat, o: Log.Op)
    requires Held(ops, lock, n)
    ensures Held(ops + [o], lock, n)
  {
    forall i | i in lock ensures HasOp(ops + [o], lock[i]) {
      var j :| 0 <= j < |ops| && ops[j].id == lock[i];
      assert (ops + [o])[j].id == lock[i];
    }
  }

  lemma {:induction false} StepEnd<T(!new), B(!new)>(D: Disk<T, B>, s: State<T, B>, u: Log.Step<T>)
    requires Inv(D, s) && Enabled(D, s, LogStep(u)) && (u.End? || u.Begin?)
    ensures InvFs(D, Do(D, s, LogStep(u)))
  {
    hide Parts, Showing, Held, Contents, Log.InvDisk, Log.InvHist, D.Ok;
    OpenIdle(D, s);
    var s' := Do(D, s, LogStep(u));
    assert Log.Committed(s'.log) == Log.Committed(s.log);
    if u.End? {
      HeldEnd(s.log.ops, s.lock, D.sb.ninodes, u.i);
    } else if s.log.phase.Idle? {
      HeldBegin(s.log.ops, s.lock, D.sb.ninodes, Log.Op(s.log.nextId, 0));
    }
  }

  /** With the commit record, the committed groups amount to what bread shows. */
  lemma {:induction false} RecordShown<T(!new), B(!new)>(D: Disk<T, B>, s: Log.State<T>)
    requires D.Ok() && Log.InvDisk(D.L, D.C, s) && s.phase.Committing? && Log.WfCommit(D.L, D.C, s)
    requires s.phase.k == |s.lh| < |Crash.CommitSeq(D.L, D.C, s.phase.base, s.lh, s.view)|
    ensures SameFs(D.sb, s.view, Log.ApplyGroups(s.init, s.groups + [s.cur]))
  {
    hide SameFs, Log.ApplyGroups, Log.ApplyRecs, Apply, Crash.CommitSeq, Updated;
    Log.GroupsSnoc(s.init, s.groups, s.cur);
    HomeFs(D, s.view, Log.ApplyGroups(s.init, s.groups + [s.cur]));
  }

  lemma {:induction false} ShowingAll<T(!new), B(!new)>(D: Disk<T, B>, view: seq<T>, own: seq<set<nat>>,
                                                        files: seq<seq<B>>)
    requires |files| == D.sb.ninodes
    ensures Showing(D, view, own, map[], files) <==> Parts(D.F, D.sb, view, own, files)
  {
    hide Bits, LocalOk;
  }

  /** The write of the commit record makes all updates done durable. */
  lemma {:induction false} StepCommit<T(!new), B(!new)>(D: Disk<T, B>, s: State<T, B>)
    requires Inv(D, s) && Enabled(D, s, LogStep(Log.CommitIO))
    ensures InvFs(D, Do(D, s, LogStep(Log.CommitIO)))
  {
    hide Parts, Showing, Held, Contents, Log.InvHist, Log.InvDisk, D.Ok, SameFs, Apply, Crash.CommitSeq,
      Log.ApplyGroups;
    var s' := Do(D, s, LogStep(Log.CommitIO));
    if s.log.phase.k == |s.log.lh| {
      FilesOk(D);
      RecordShown(D, s.log);
      assert s.done[..|s.done|] == s.done;
      ShowingAll(D, s.log.view, s.own, Contents(D.files, s.done));
      PartsFrame(D.F, D.sb, s.log.view, Log.Committed(s'.log), s.own, Contents(D.files, s.done));
    }
  }

  lemma {:induction false} StepRecovered<T(!new), B(!new)>(D: Disk<T, B>, s: State<T, B>)
    requires Inv(D, s) && Enabled(D, s, LogStep(Log.RecoverDone))
    ensures InvFs(D, Do(D, s, LogStep(Log.RecoverDone)))
  {
    hide Parts, Showing, Contents, Log.InvHist, Apply, SameFs;
    Crash.RecoverRep(D.L, D.C, s.log.phase.base, Log.Committed(s.log), s.log.phase.k);
    HomeFs(D, s.log.disk, Log.Committed(s.log));
    SameFsSym(D.sb, s.log.disk, Log.Committed(s.log));
    assert s.done[..s.kept] == s.done;
    PartsFrame(D.F, D.sb, Log.Committed(s.log), s.log.disk, s.own, Contents(D.files, s.done));
    ShowingAll(D, s.log.disk, s.own, Contents(D.files, s.done));
  }

  lemma {:induction false} StepOther<T(!new), B(!new)>(D: Disk<T, B>, s: State<T, B>, u: Log.Step<T>)
    requires Inv(D, s) && Enabled(D, s, LogStep(u)) && (u.CommitDone? || u.CrashNow? || u.RecoverIO?)
    ensures InvFs(D, Do(D, s, LogStep(u)))
  {
    hide Parts, Showing, Contents, Log.InvHist, Log.InvDisk, Apply, D.Ok;
    var s' := Do(D, s, LogStep(u));
    assert Log.Committed(s'.log) == Log.Committed(s.log);
    if u.CrashNow? { assert s'.done[..s'.kept] == s.done[..s.kept]; }
  }

  lemma {:induction false} StepInv<T(!new), B(!new)>(D: Disk<T, B>, s: State<T, B>, t: Step<T, B>)
    requires Inv(D, s) && Enabled(D, s, t)
    ensures Inv(D, Do(D, s, t))
  {
    hide InvFs, Log.Inv, Log.Do, Log.Enabled, LocalOk, LocalWrite, D.Ok;
    match t {
      case Lock(i, k) => StepLock(D, s, i, k);
      case LogFor(i, k, bno, x) =>
        StepLog(D, s.log, Log.LogWrite(k, bno, x));
        StepFor(D, s, i, k, bno, x);
      case Unlock(i, data) => StepUnlock(D, s, i, data);
      case LogStep(u) =>
        StepLog(D, s.log, u);
        match u {
          case Begin => StepEnd(D, s, u);
          case End(_) => StepEnd(D, s, u);
          case CommitIO => StepCommit(D, s);
          case RecoverDone => StepRecovered(D, s);
          case _ => StepOther(D, s, u);
        }
    }
  }

  lemma {:induction false} StepLog<T(!new), B(!new)>(D: Disk<T, B>, s: Log.State<T>, u: Log.Step<T>)
    requires D.Ok() && Log.Inv(D.L, D.C, s) && Log.Enabled(D.L, D.C, s, u)
    ensures Log.Inv(D.L, D.C, Log.Do(D.L, D.C, s, u))
  {
    hide Log.InvCount, Log.InvDisk, Log.InvHist, Log.Do, Log.Enabled, Law;
    Log.CountStep(D.L, D.C, s, u);
    Log.DiskStep(D.L, D.C, s, u);
    Log.HistStep(D.L, D.C, s, u);
  }

  lemma {:induction false} InitInv<T(!new), B(!new)>(D: Disk<T, B>, s: State<T, B>)
    requires Init(D, s)
    ensures Inv(D, s)
  {
    hide Parts, Showing, Log.InvHist;
    Log.InitInv(D.L, D.C, s.log);
    assert s.done[..s.kept] == [] && Log.Committed(s.log) == s.log.init;
    ShowingAll(D, s.log.view, s.own, D.files);
  }

  lemma {:induction false} RunInv<T(!new), B(!new)>(D: Disk<T, B>, ss: seq<State<T, B>>, ts: seq<Step<T, B>>, k: nat)
    requires Run(D, ss, ts) && k < |ss|
    ensures Inv(D, ss[k])
  {
    hide Inv, Do, Enabled, Init;
    if k == 0 {
      InitInv(D, ss[0]);
    } else {
      RunInv(D, ss, ts, k - 1);
      StepInv(D, ss[k - 1], ts[k - 1]);
    }
  }

  // ---- what survives ----

  /** Crash at any point of any run, and during recovery as often as you like: the disk then holds a
      consistent file system whose files are those left by the first `kept` unlocks, in that order. */
  lemma {:induction false} FilesSurvive<T(!new), B(!new)>(D: Disk<T, B>, ss: seq<State<T, B>>, ts: seq<Step<T, B>>,
                                                          k: nat, ks: seq<nat>)
    requires Run(D, ss, ts) && k < |ss|
    ensures var s := ss[k];
      && s.kept <= |s.done| && Crash.Law(D.C) && Crash.HeaderOk(D.L, D.C, s.log.disk)
      && Image(D.F, D.sb, Crash.AfterCrashes(D.L, D.C, s.log.disk, ks), Contents(D.files, s.done[..s.kept]))
  {
    hide Run, Image, SameFs, Parts, Contents, Log.InvHist, Log.InvDisk, Showing, Held;
    RunInv(D, ss, ts, k);
    var s := ss[k];
    Log.InvRep(D.L, D.C, s.log);
    Crash.CrashesRecover(D.L, D.C, s.log.disk, Log.Committed(s.log), ks);
    var r := Crash.AfterCrashes(D.L, D.C, s.log.disk, ks);
    HomeFs(D, r, Log.Committed(s.log));
    SameFsSym(D.sb, r, Log.Committed(s.log));
    PartsFrame(D.F, D.sb, Log.Committed(s.log), r, s.kown, Contents(D.files, s.done[..s.kept]));
    ImageJoin(D.F, D.sb, r, s.kown, Contents(D.files, s.done[..s.kept]));
  }

  /** Whatever the others are doing, an inode that is not locked shows its file. */
  lemma {:induction false} FilesShown<T(!new), B(!new)>(D: Disk<T, B>, ss: seq<State<T, B>>, ts: seq<Step<T, B>>,
                                                        k: nat, i: nat)
    requires Run(D, ss, ts) && k < |ss| && ss[k].log.phase.Idle? && i < D.sb.ninodes && i !in ss[k].lock
    ensures SuperOk(D.sb) && |ss[k].log.view| == D.sb.size && |D.files| == D.sb.ninodes
    ensures FileOk(D.F, ss[k].log.view, Dinode(D.F, D.sb, ss[k].log.view, i), Contents(D.files, ss[k].done)[i])
  {
    hide Run, Parts, Contents, Log.Inv, Bits;
    RunInv(D, ss, ts, k);
  }

  lemma {:induction false} KeptStep<T(!new), B(!new)>(D: Disk<T, B>, s: State<T, B>, t: Step<T, B>)
    requires s.kept <= |s.done| && Enabled(D, s, t)
    ensures s.kept <= Do(D, s, t).kept <= |Do(D, s, t).done| && s.done[..s.kept] == Do(D, s, t).done[..s.kept]
  {
    hide Log.Do, Log.Enabled, LocalOk, LocalWrite, Rest, OwnAfter;
  }

  lemma {:induction false} PrefixTrans<X>(a: seq<X>, b: seq<X>, c: seq<X>, i: nat, j: nat)
    requires i <= j && i <= |a| && j <= |b| && j <= |c| && a[..i] == b[..i] && b[..j] == c[..j]
    ensures a[..i] == c[..i]
  {
    assert b[..i] == b[..j][..i] && c[..i] == c[..j][..i];
  }

  lemma {:induction false} KeptBound<T(!new), B(!new)>(D: Disk<T, B>, s: State<T, B>)
    requires Inv(D, s)
    ensures s.kept <= |s.done|
  {
  }

  /** An update that has become durable is never lost or changed. */
  lemma {:induction false} FilesDurable<T(!new), B(!new)>(D: Disk<T, B>, ss: seq<State<T, B>>, ts: seq<Step<T, B>>,
                                                          j: nat, k: nat)
    requires Run(D, ss, ts) && j <= k < |ss|
    ensures ss[j].kept <= ss[k].kept <= |ss[k].done| && ss[j].kept <= |ss[j].done|
    ensures ss[j].done[..ss[j].kept] == ss[k].done[..ss[j].kept]
    decreases k
  {
    hide Do, Enabled, Init, Inv;
    RunInv(D, ss, ts, j);
    KeptBound(D, ss[j]);
    if j < k {
      FilesDurable(D, ss, ts, j, k - 1);
      KeptStep(D, ss[k - 1], ts[k - 1]);
      PrefixTrans(ss[j].done, ss[k - 1].done, ss[k].done, ss[j].kept, ss[k - 1].kept);
    }
  }

  /** Once end_op's commit has returned, every update is durable, if anything was logged. */
  lemma {:induction false} CommittedKept<T(!new), B(!new)>(D: Disk<T, B>, ss: seq<State<T, B>>, ts: seq<Step<T, B>>,
                                                           k: nat)
    requires Run(D, ss, ts) && k < |ts| && ts[k] == LogStep(Log.CommitDone)
    ensures ss[k].log.lh != [] ==> ss[k + 1].kept == |ss[k + 1].done|
  {
    hide Parts, Contents, Log.InvHist, Showing;
    RunInv(D, ss, ts, k);
  }

  // ---- operations are all or nothing ----

  /** Updates of operations before log.lo are durable, the others are not. */
  ghost predicate InvIds<T(!new), B(!new)>(s: State<T, B>) {
    && (forall k | 0 <= k < |s.done| :: s.done[k].op < s.log.nextId && (k < s.kept <==> s.done[k].op < s.log.lo))
    && (forall i | i in s.lock :: s.log.lo <= s.lock[i] < s.log.nextId)
  }

  lemma {:induction false} IdsLog<T(!new), B(!new)>(D: Disk<T, B>, s: State<T, B>, u: Log.Step<T>)
    requires Inv(D, s) && InvIds(s) && Enabled(D, s, LogStep(u))
    ensures InvIds(Do(D, s, LogStep(u)))
  {
    hide Parts, Contents, Showing, Held, Log.InvDisk, Log.InvRecs, D.Ok, Crash.CommitSeq, Crash.RecoverSeq;
    assert s.log.lo <= s.log.nextId by { LowIds(s.log); }
  }

  lemma {:induction false} LowIds<T(!new)>(s: Log.State<T>)
    requires Log.InvHist(s)
    ensures s.lo <= s.nextId
  {
  }

  lemma {:induction false} IdsStep<T(!new), B(!new)>(D: Disk<T, B>, s: State<T, B>, t: Step<T, B>)
    requires Inv(D, s) && InvIds(s) && Enabled(D, s, t)
    ensures InvIds(Do(D, s, t))
  {
    hide Parts, Contents, Showing, Held, Log.InvDisk, Log.InvRecs, D.Ok, LocalOk, LocalWrite, Rest, OwnAfter;
    if t.LogStep? { IdsLog(D, s, t.t); }
  }

  lemma {:induction false} IdsInv<T(!new), B(!new)>(D: Disk<T, B>, ss: seq<State<T, B>>, ts: seq<Step<T, B>>, k: nat)
    requires Run(D, ss, ts) && k < |ss|
    ensures InvIds(ss[k])
  {
    hide Inv, Do, Enabled;
    if k > 0 {
      hide InvIds, Init;
      IdsInv(D, ss, ts, k - 1);
      RunInv(D, ss, ts, k - 1);
      IdsStep(D, ss[k - 1], ts[k - 1]);
    }
  }

  /** Of what an operation did to several files, a crash keeps all or nothing; nothing while it is open. */
  lemma {:induction false} OpsWhole<T(!new), B(!new)>(D: Disk<T, B>, ss: seq<State<T, B>>, ts: seq<Step<T, B>>, k: nat)
    requires Run(D, ss, ts) && k < |ss|
    ensures forall a, b | 0 <= a < ss[k].kept <= b < |ss[k].done| :: ss[k].done[a].op != ss[k].done[b].op
    ensures forall a, j | 0 <= a < ss[k].kept && a < |ss[k].done| && 0 <= j < |ss[k].log.ops| ::
              ss[k].done[a].op != ss[k].log.ops[j].id
  {
    hide Run, Parts, Contents, Showing, Held, Log.InvDisk, Log.InvRecs, D.Ok;
    IdsInv(D, ss, ts, k);
    RunInv(D, ss, ts, k);
  }

  // ---- no operation is too big ----

  ghost predicate InvRoom<T(!new)>(s: Log.State<T>) { Log.InvRoom(s) && Log.InvAdded(s) && s.fault.NoFault? }

  /** A log_write comes from an operation that has logged fewer than MAXOPBLOCKS different blocks so far. */
  ghost predicate Frugal<T(!new), B(!new)>(s: State<T, B>, t: Step<T, B>) {
    t.LogFor? ==> t.k < |s.log.ops| && |Log.Bnos(Log.OfOp(s.log.all, s.log.ops[t.k].id))| < MAXOPBLOCKS
  }

  lemma {:induction false} RoomWrite<T(!new), B(!new)>(D: Disk<T, B>, s: Log.State<T>, u: Log.Step<T>)
    requires D.Ok() && Log.Inv(D.L, D.C, s) && InvRoom(s) && Log.Enabled(D.L, D.C, s, u) && u.LogWrite?
        && D.L.size > LOGSIZE
    requires |Log.Bnos(Log.OfOp(s.all, s.ops[u.i].id))| < MAXOPBLOCKS
    ensures InvRoom(Log.Do(D.L, D.C, s, u))
  {
    hide Log.Bnos, Log.OfOp, Log.InvDisk, Log.InvHist, D.Ok;
    Log.RoomStep(D.L, D.C, s, u);
    Log.AddedStep(D.L, D.C, s, u);
    Log.UnspentBound(s.ops);
  }

  lemma {:induction false} RoomOther<T(!new), B(!new)>(D: Disk<T, B>, s: Log.State<T>, u: Log.Step<T>)
    requires D.Ok() && Log.Inv(D.L, D.C, s) && InvRoom(s) && Log.Enabled(D.L, D.C, s, u) && !u.LogWrite?
    ensures InvRoom(Log.Do(D.L, D.C, s, u))
  {
    hide Log.InvDisk, Log.InvHist, Log.InvRoom, Log.InvAdded, D.Ok;
    Log.RoomStep(D.L, D.C, s, u);
    Log.AddedStep(D.L, D.C, s, u);
    Log.CountStep(D.L, D.C, s, u);
    Log.StepFault(D.L, D.C, s, u);
  }

  lemma {:induction false} RoomStep<T(!new), B(!new)>(D: Disk<T, B>, s: State<T, B>, t: Step<T, B>)
    requires Inv(D, s) && InvRoom(s.log) && Enabled(D, s, t) && Frugal(s, t) && D.L.size > LOGSIZE
    ensures InvRoom(Do(D, s, t).log)
  {
    hide InvFs, InvRoom, Log.Inv, Log.Do, Log.Enabled, LocalOk, LocalWrite, Rest, OwnAfter, D.Ok;
    match t {
      case LogFor(i, k, bno, x) => RoomWrite(D, s.log, Log.LogWrite(k, bno, x));
      case LogStep(u) => RoomOther(D, s.log, u);
      case _ =>
    }
  }

  /** Operations that log no more than they may never meet the "too big a transaction" panic. */
  lemma {:induction false} NeverTooBig<T(!new), B(!new)>(D: Disk<T, B>, ss: seq<State<T, B>>, ts: seq<Step<T, B>>,
                                                         k: nat)
    requires Run(D, ss, ts) && k < |ss| && D.L.size > LOGSIZE
    requires forall j | 0 <= j < |ts| :: Frugal(ss[j], ts[j])
    ensures InvRoom(ss[k].log)
  {
    hide Inv, Do, Enabled, Frugal;
    if k == 0 {
      assert InvRoom(ss[0].log);
    } else {
      hide InvRoom, Init;
      NeverTooBig(D, ss, ts, k - 1);
      RunInv(D, ss, ts, k - 1);
      RoomStep(D, ss[k - 1], ts[k - 1]);
    }
  }

  // ---- filewrite among other operations ----

  /** The contents that the updates of file i leave, in order. */
  function Of<B>(done: seq<Upd<B>>, i: nat): seq<seq<B>> {
    if done == [] then []
    else Of(done[..|done| - 1], i) + if done[|done| - 1].i == i then [done[|done| - 1].data] else []
  }

  lemma {:induction false} LastOf<B>(files: seq<seq<B>>, done: seq<Upd<B>>, i: nat)
    requires i < |files|
    ensures Contents(files, done)[i] == if Of(done, i) == [] then files[i] else Of(done, i)[|Of(done, i)| - 1]
    decreases |done|
  {
    if done != [] { LastOf(files, done[..|done| - 1], i); }
  }

  lemma {:induction false} ContentsJoin<B>(files: seq<seq<B>>, a: seq<Upd<B>>, b: seq<Upd<B>>)
    ensures Contents(files, a + b) == Contents(Contents(files, a), b)
    decreases |b|
  {
    if b == [] {
      assert a + b == a;
    } else {
      ContentsJoin(files, a, b[..|b| - 1]);
      assert (a + b)[..|a + b| - 1] == a + b[..|b| - 1];
    }
  }

  lemma {:induction false} OfPrefix<B>(done: seq<Upd<B>>, i: nat, n: nat)
    requires n <= |done|
    ensures Of(done[..n], i) <= Of(done, i)
    decreases |done|
  {
    if n < |done| {
      OfPrefix(done[..|done| - 1], i, n);
      assert done[..|done| - 1][..n] == done[..n];
    } else {
      assert done[..n] == done;
    }
  }

  /** What filewrite's transactions make of a file that was f: one more whole chunk each, but for the last. */
  ghost predicate ChunkResults<B>(f: seq<B>, off: nat, src: seq<B>, rs: seq<seq<B>>) {
    && off <= |f|
    && forall k: nat | k < |rs| - 1 :: (k + 1) * CHUNK <= |src| && rs[k] == Overwrite(f, off, src[..(k + 1) * CHUNK])
  }

  function Results<T, B>(ops: seq<Txn<T, B>>, i: nat): (rs: seq<seq<B>>)
    requires forall k | 0 <= k < |ops| :: i < |ops[k].files|
    ensures |rs| == |ops| && forall k | 0 <= k < |ops| :: rs[k] == ops[k].files[i]
  {
    if ops == [] then [] else Results(ops[..|ops| - 1], i) + [ops[|ops| - 1].files[i]]
  }

  /** They are what FileWrite's contract says of its transactions. */
  lemma {:induction false} ChunkedResults<T, B>(files: seq<seq<B>>, i: nat, off: nat, src: seq<B>, ops: seq<Txn<T, B>>)
    requires Chunked(files, i, off, src, ops) && forall k | 0 <= k < |ops| :: i < |ops[k].files|
    ensures i < |files| && ChunkResults(files[i], off, src, Results(ops, i))
  {
    hide Overwrite;
  }

  /** The file after n of the results. */
  ghost predicate AfterChunks<B>(f: seq<B>, off: nat, src: seq<B>, rs: seq<seq<B>>, n: nat, data: seq<B>) {
    && n <= |rs| && off <= |f|
    && if n < |rs| then n * CHUNK <= |src| && data == Overwrite(f, off, src[..n * CHUNK])
       else data == if n == 0 then f else rs[n - 1]
  }

  lemma {:induction false} ChunksAre<B>(f: seq<B>, off: nat, src: seq<B>, rs: seq<seq<B>>, n: nat)
    requires ChunkResults(f, off, src, rs) && n <= |rs|
    ensures AfterChunks(f, off, src, rs, n, if n == 0 then f else rs[n - 1])
  {
    if n == 0 {
      assert src[..0] == [];
      OverwriteNone(f, off);
    }
  }

  /** A crash during filewrite, with any other operations on other files before and meanwhile: a whole number of
      chunks has been written, or all that was. The first p updates came before it, and those of file i since
      then are filewrite's. */
  lemma {:induction false} FileWriteSurvives<T(!new), B(!new)>(D: Disk<T, B>, ss: seq<State<T, B>>, ts: seq<Step<T, B>>,
                                                               k: nat, ks: seq<nat>, p: nat, i: nat, off: nat,
                                                               src: seq<B>, rs: seq<seq<B>>)
    returns (files: seq<seq<B>>, n: nat)
    requires Run(D, ss, ts) && k < |ss| && p <= |ss[k].done| && i < |D.files|
    requires ChunkResults(Contents(D.files, ss[k].done[..p])[i], off, src, rs) && Of(ss[k].done[p..], i) <= rs
    ensures Crash.Law(D.C) && Crash.HeaderOk(D.L, D.C, ss[k].log.disk)
    ensures Image(D.F, D.sb, Crash.AfterCrashes(D.L, D.C, ss[k].log.disk, ks), files)
    ensures |files| == |D.files| && ss[k].kept <= |ss[k].done|
    ensures if ss[k].kept < p then files == Contents(D.files, ss[k].done[..ss[k].kept])
            else
              && n == |Of(ss[k].done[p..ss[k].kept], i)|
              && AfterChunks(Contents(D.files, ss[k].done[..p])[i], off, src, rs, n, files[i])
  {
    hide Run, Image, ChunkResults, AfterChunks, Contents, Of;
    var s := ss[k];
    FilesSurvive(D, ss, ts, k, ks);
    files, n := Contents(D.files, s.done[..s.kept]), 0;
    if s.kept < p { return; }
    var before, since := s.done[..p], s.done[p..s.kept];
    assert s.done[..s.kept] == before + since;
    ContentsJoin(D.files, before, since);
    LastOf(Contents(D.files, before), since, i);
    OfPrefix(s.done[p..], i, s.kept - p);
    assert s.done[p..][..s.kept - p] == since;
    n := |Of(since, i)|;
    ChunksAre(Contents(D.files, before)[i], off, src, rs, n);
  }

  // ---- the transactions of the code are runs of this machine ----

  /** Nothing is going on. */
  ghost predicate Quiet<T(!new), B(!new)>(D: Disk<T, B>, s: State<T, B>) {
    Inv(D, s) && s.log.fault == Log.NoFault && s.log.phase.Idle? && s.log.ops == [] && s.lock == map[]
  }

  lemma {:induction false} QuietShown<T(!new), B(!new)>(D: Disk<T, B>, s: State<T, B>)
    requires Quiet(D, s)
    ensures SameFs(D.sb, s.log.view, Log.Committed(s.log))
  {
    hide Parts, Showing, Contents, SameFs, Log.InvHist, Log.ApplyGroups, Crash.Rep;
    Hist.NoneWait(D.L, D.C, s.log);
    HomeFs(D, s.log.view, Log.Committed(s.log));
  }

  /** Whenever no operation is in progress, all files are durable: a crash, and crashes during recovery, leave what
      bread shows, which is what all updates, in order, have made of them. */
  lemma {:induction false} QuietDurable<T(!new), B(!new)>(D: Disk<T, B>, ss: seq<State<T, B>>, ts: seq<Step<T, B>>,
                                                          k: nat, ks: seq<nat>)
    requires Run(D, ss, ts) && k < |ss| && Quiet(D, ss[k])
    ensures Crash.Law(D.C) && Crash.HeaderOk(D.L, D.C, ss[k].log.disk)
    ensures Image(D.F, D.sb, Crash.AfterCrashes(D.L, D.C, ss[k].log.disk, ks), Contents(D.files, ss[k].done))
  {
    hide Run, Parts, Contents, SameFs, Image, Log.Inv, Showing, Held;
    var s := ss[k];
    FilesSurvive(D, ss, ts, k, ks);
    QuietShown(D, s);
    QuietParts(D, s);
    PartsFrame(D.F, D.sb, s.log.view, Log.Committed(s.log), s.own, Contents(D.files, s.done));
    FilesUnique(D.F, D.sb, Log.Committed(s.log), s.own, s.kown, Contents(D.files, s.done),
                Contents(D.files, s.done[..s.kept]));
  }

  lemma {:induction false} Extend<T(!new), B(!new)>(D: Disk<T, B>, ss: seq<State<T, B>>, ts: seq<Step<T, B>>,
                                                    t: Step<T, B>) returns (ss': seq<State<T, B>>, ts': seq<Step<T, B>>)
    requires Run(D, ss, ts) && Enabled(D, ss[|ts|], t)
    ensures Run(D, ss', ts') && |ts'| == |ts| + 1 && ss' == ss + [Do(D, ss[|ts|], t)] && Inv(D, ss'[|ts'|])
  {
    hide Do, Enabled, Init, Inv;
    ss', ts' := ss + [Do(D, ss[|ts|], t)], ts + [t];
    RunInv(D, ss', ts', |ts'|);
  }

  /** Operation id, alone, has inode i locked and has made n of the log_writes ws since the blocks were `view`. */
  ghost predicate Midway<T(!new), B(!new)>(D: Disk<T, B>, s: State<T, B>, id: nat, i: nat, view: seq<T>, rest: set<nat>,
                                           ws: seq<Write<T>>, n: nat) {
    && Inv(D, s) && s.log.fault == Log.NoFault && s.log.phase.Idle? && |s.log.ops| == 1 && s.log.ops[0].id == id
    && s.lock == map[i := id]
    && n <= |ws| && s.log.view == Apply(view, ws[..n]) && Rest(s.own, i) == rest && i < D.sb.ninodes
    && Lists(s.log.lh, Bnos(ws[..n]))
  }

  /** The header lists these blocks, each once. */
  ghost predicate Lists(lh: seq<nat>, bnos: set<nat>) { |lh| == |bnos| && forall b :: b in lh <==> b in bnos }

  lemma {:induction false} ListsMore(lh: seq<nat>, bnos: set<nat>, b: nat)
    requires Lists(lh, bnos)
    ensures Lists(if b !in lh then lh + [b] else lh, bnos + {b})
  {
    if b in lh { assert bnos + {b} == bnos; }
  }

  lemma {:induction false} BnosNext<T(!new)>(ws: seq<Write<T>>, k: nat)
    requires k < |ws|
    ensures Bnos(ws[..k + 1]) == Bnos(ws[..k]) + {ws[k].bno}
  {
    assert ws[..k + 1] == ws[..k] + [ws[k]];
    assert ws[k] in ws[..k + 1];
    assert forall w | w in ws[..k + 1] :: w in ws[..k] || w == ws[k];
    assert forall w | w in ws[..k] :: w in ws[..k + 1];
  }

  lemma {:induction false} RestSame(own: seq<set<nat>>, i: nat, x: set<nat>)
    requires i < |own|
    ensures Rest(own[i := x], i) == Rest(own, i)
  {
    var own' := own[i := x];
    assert forall j: nat, b: nat | j != i :: Holds(own', j, b) == Holds(own, j, b);
  }

  lemma {:induction false} WriteEnabled<T(!new), B(!new)>(D: Disk<T, B>, s: State<T, B>, id: nat, i: nat, view: seq<T>,
                                                          rest: set<nat>, ws: seq<Write<T>>, n: nat)
    requires Midway(D, s, id, i, view, rest, ws, n) && n < |ws| && LocalTrace(D.F, D.sb, i, rest, view, ws)
    requires Thrifty(ws)
    ensures Enabled(D, s, LogFor(i, 0, ws[n].bno, ws[n].data)) && |s.log.lh| < MAXOPBLOCKS
    ensures D.sb.inodestart <= ws[n].bno < |s.log.view| == D.sb.size && |s.own| == D.sb.ninodes && SuperOk(D.sb)
  {
    hide LocalWrite, Log.Inv, Parts, Contents, Held, LocalOk, Rest, Bnos, Apply, Law;
    assert LocalWrite(D.F, D.sb, i, rest, s.log.view, ws[n]);
    LocalAside(D.F, D.sb, i, rest, s.log.view, ws[n]);
    assert |Bnos(ws[..n])| < MAXOPBLOCKS;
  }

  lemma {:induction false} OneWrite<T(!new), B(!new)>(D: Disk<T, B>, ss: seq<State<T, B>>, ts: seq<Step<T, B>>, id: nat,
                                                      i: nat, view: seq<T>, rest: set<nat>, ws: seq<Write<T>>, n: nat)
    returns (ss': seq<State<T, B>>, ts': seq<Step<T, B>>)
    requires Run(D, ss, ts) && Midway(D, ss[|ts|], id, i, view, rest, ws, n) && n < |ws| && D.L.size > MAXOPBLOCKS
    requires LocalTrace(D.F, D.sb, i, rest, view, ws) && Thrifty(ws)
    ensures Run(D, ss', ts') && ss <= ss' && Midway(D, ss'[|ts'|], id, i, view, rest, ws, n + 1)
    ensures ss'[|ts'|].done == ss[|ts|].done
  {
    hide Run, Inv, LocalTrace, LocalWrite, Thrifty, Lists, Bnos, Apply, Rest, OwnAfter, LocalOk, D.Ok;
    RunLength(D, ss, ts);
    var s := ss[|ts|];
    WriteEnabled(D, s, id, i, view, rest, ws, n);
    OneOpen(D, s);
    ss', ts' := Extend(D, ss, ts, LogFor(i, 0, ws[n].bno, ws[n].data));
    var s' := ss'[|ts'|];
    assert s'.log.fault == Log.NoFault;
    ListsMore(s.log.lh, Bnos(ws[..n]), ws[n].bno);
    BnosNext(ws, n);
    ApplyNext(view, ws, n);
    RestSame(s.own, i, OwnAfter(D.F, D.sb, Rest(s.own, i), s'.log.view));
  }

  lemma {:induction false} OneOpen<T(!new), B(!new)>(D: Disk<T, B>, s: State<T, B>)
    requires Inv(D, s)
    ensures s.log.outstanding == |s.log.ops| && (s.log.committing <==> s.log.phase.Committing?)
    ensures s.log.phase.Idle? && s.log.ops == [] ==> s.log.lh == []
  {
  }

  lemma {:induction false} RunLength<T(!new), B(!new)>(D: Disk<T, B>, ss: seq<State<T, B>>, ts: seq<Step<T, B>>)
    requires Run(D, ss, ts)
    ensures |ss| == |ts| + 1
  {
  }

  lemma {:induction false} AllWrites<T(!new), B(!new)>(D: Disk<T, B>, ss: seq<State<T, B>>, ts: seq<Step<T, B>>,
                                                       id: nat,
                                                       i: nat, view: seq<T>, rest: set<nat>, ws: seq<Write<T>>, n: nat)
    returns (ss': seq<State<T, B>>, ts': seq<Step<T, B>>)
    requires Run(D, ss, ts) && Midway(D, ss[|ts|], id, i, view, rest, ws, n) && D.L.size > MAXOPBLOCKS
    requires LocalTrace(D.F, D.sb, i, rest, view, ws) && Thrifty(ws)
    ensures Run(D, ss', ts') && ss <= ss' && Midway(D, ss'[|ts'|], id, i, view, rest, ws, |ws|)
    ensures ss'[|ts'|].done == ss[|ts|].done
    decreases |ws| - n
  {
    assert n <= |ws|;
    hide Run, Midway, LocalTrace, Thrifty;
    RunLength(D, ss, ts);
    ss', ts' := ss, ts;
    if n < |ws| {
      ss', ts' := OneWrite(D, ss, ts, id, i, view, rest, ws, n);
      ss', ts' := AllWrites(D, ss', ts', id, i, view, rest, ws, n + 1);
    }
  }

  /** begin_op and ilock. */
  lemma {:induction false} TxStart<T(!new), B(!new)>(D: Disk<T, B>, ss: seq<State<T, B>>, ts: seq<Step<T, B>>, i: nat,
                                                     ws: seq<Write<T>>)
    returns (ss': seq<State<T, B>>, ts': seq<Step<T, B>>, id: nat)
    requires Run(D, ss, ts) && Quiet(D, ss[|ts|]) && i < D.sb.ninodes && D.L.size > MAXOPBLOCKS
    ensures Run(D, ss', ts') && ss <= ss' && ss'[|ts'|].done == ss[|ts|].done && ss'[|ts'|].own == ss[|ts|].own
    ensures Midway(D, ss'[|ts'|], id, i, ss[|ts|].log.view, Rest(ss[|ts|].own, i), ws, 0)
  {
    hide Run, InvFs, Log.InvDisk, Log.InvHist, Rest, Apply, D.Ok;
    RunLength(D, ss, ts);
    var s := ss[|ts|];
    id := s.log.nextId;
    ss', ts' := Extend(D, ss, ts, LogStep(Log.Begin));
    RunLength(D, ss', ts');
    ss', ts' := Extend(D, ss', ts', Lock(i, 0));
    assert ws[..0] == [] && Apply(s.log.view, []) == s.log.view by { ApplyNone(s.log.view); }
  }

  /** iunlock and end_op. */
  lemma {:induction false} TxEnd<T(!new), B(!new)>(D: Disk<T, B>, ss: seq<State<T, B>>, ts: seq<Step<T, B>>, id: nat,
                                                   i: nat, view: seq<T>, rest: set<nat>, ws: seq<Write<T>>,
                                                   files: seq<seq<B>>)
    returns (ss': seq<State<T, B>>, ts': seq<Step<T, B>>)
    requires Run(D, ss, ts) && Midway(D, ss[|ts|], id, i, view, rest, ws, |ws|) && D.L.size > MAXOPBLOCKS
    requires Image(D.F, D.sb, Apply(view, ws), files)
    ensures Run(D, ss', ts') && ss <= ss' && ss'[|ts'|].log.fault == Log.NoFault && Inv(D, ss'[|ts'|])
    ensures ss'[|ts'|].log.phase.Committing? && ss'[|ts'|].log.ops == [] && ss'[|ts'|].lock == map[]
    ensures ss'[|ts'|].log.view == Apply(view, ws) && |files| == D.sb.ninodes && i < D.sb.ninodes
    ensures ss'[|ts'|].done == ss[|ts|].done + [Upd(id, i, files[i])]
    ensures |D.files| == D.sb.ninodes && Contents(D.files, ss'[|ts'|].done) == files
  {
    hide Run, Image, Log.InvDisk, Log.InvHist, Rest, Apply, Parts, Contents, LocalOk, Held, Bits, Bnos;
    RunLength(D, ss, ts);
    var s := ss[|ts|];
    assert ws[..|ws|] == ws;
    SoloEnd(D.F, D.sb, s.log.view, s.own, Contents(D.files, s.done), i, files);
    BitsShape(D.F, D.sb, s.log.view, s.own);
    ss', ts' := Extend(D, ss, ts, Unlock(i, files[i]));
    ContentsMore(D.files, s.done, Upd(id, i, files[i]));
    RunLength(D, ss', ts');
    ss', ts' := Extend(D, ss', ts', LogStep(Log.End(0)));
  }

  lemma {:induction false} CommitEnabled<T(!new), B(!new)>(D: Disk<T, B>, s: State<T, B>)
    requires Inv(D, s) && s.log.fault == Log.NoFault && s.log.phase.Committing?
    ensures Log.WfCommit(D.L, D.C, s.log)
    ensures var n := |Crash.CommitSeq(D.L, D.C, s.log.phase.base, s.log.lh, s.log.view)|;
      s.log.phase.k <= n && Enabled(D, s, LogStep(if s.log.phase.k < n then Log.CommitIO else Log.CommitDone))
  {
    hide InvFs, Log.InvHist, Crash.CommitSeq, Apply;
  }

  /** The commit runs to its end, and nothing that bread shows changes. */
  lemma {:induction false} CommitRuns<T(!new), B(!new)>(D: Disk<T, B>, ss: seq<State<T, B>>, ts: seq<Step<T, B>>)
    returns (ss': seq<State<T, B>>, ts': seq<Step<T, B>>)
    requires Run(D, ss, ts) && Inv(D, ss[|ts|]) && ss[|ts|].log.fault == Log.NoFault && ss[|ts|].log.phase.Committing?
    requires ss[|ts|].log.ops == [] && ss[|ts|].lock == map[] && Log.WfCommit(D.L, D.C, ss[|ts|].log)
    ensures Run(D, ss', ts') && ss <= ss' && Quiet(D, ss'[|ts'|])
    ensures ss'[|ts'|].log.view == ss[|ts|].log.view && ss'[|ts'|].done == ss[|ts|].done
    decreases |Crash.CommitSeq(D.L, D.C, ss[|ts|].log.phase.base, ss[|ts|].log.lh, ss[|ts|].log.view)| -
        ss[|ts|].log.phase.k
  {
    hide Run, Inv, Crash.CommitSeq, Apply;
    RunLength(D, ss, ts);
    var s := ss[|ts|];
    CommitEnabled(D, s);
    if s.log.phase.k < |Crash.CommitSeq(D.L, D.C, s.log.phase.base, s.log.lh, s.log.view)| {
      ss', ts' := Extend(D, ss, ts, LogStep(Log.CommitIO));
      RunLength(D, ss', ts');
      CommitEnabled(D, ss'[|ts'|]);
      ss', ts' := CommitRuns(D, ss', ts');
    } else {
      ss', ts' := Extend(D, ss, ts, LogStep(Log.CommitDone));
    }
  }

  /** A transaction of the code, begin_op to end_op with its commit, is part of a run. */
  lemma {:induction false} TxRuns<T(!new), B(!new)>(D: Disk<T, B>, ss: seq<State<T, B>>, ts: seq<Step<T, B>>, i: nat,
                                                    op: Txn<T, B>)
    returns (ss': seq<State<T, B>>, ts': seq<Step<T, B>>)
    requires Run(D, ss, ts) && Quiet(D, ss[|ts|]) && i < D.sb.ninodes && D.L.size > MAXOPBLOCKS && Thrifty(op.ws)
    requires Solo(D.F, D.sb, ss[|ts|].log.view, Contents(D.files, ss[|ts|].done), i, op.ws, op.files)
    ensures Run(D, ss', ts') && ss <= ss' && Quiet(D, ss'[|ts'|])
    ensures ss'[|ts'|].log.view == Apply(ss[|ts|].log.view, op.ws) && Contents(D.files, ss'[|ts'|].done) == op.files
    ensures |op.files| == D.sb.ninodes && exists id :: ss'[|ts'|].done == ss[|ts|].done + [Upd(id, i, op.files[i])]
  {
    hide Run, Midway, Inv, LocalTrace, Parts, Rest, Contents, Apply, Thrifty, Image;
    RunLength(D, ss, ts);
    var s := ss[|ts|];
    var own :| Parts(D.F, D.sb, s.log.view, own, Contents(D.files, s.done))
      && LocalTrace(D.F, D.sb, i, Rest(own, i), s.log.view, op.ws);
    QuietParts(D, s);
    PartsUnique(D.F, D.sb, s.log.view, own, s.own, Contents(D.files, s.done));
    var id;
    ss', ts', id := TxStart(D, ss, ts, i, op.ws);
    ss', ts' := AllWrites(D, ss', ts', id, i, s.log.view, Rest(s.own, i), op.ws, 0);
    ss', ts' := TxEnd(D, ss', ts', id, i, s.log.view, Rest(s.own, i), op.ws, op.files);
    RunLength(D, ss', ts');
    CommitEnabled(D, ss'[|ts'|]);
    ss', ts' := CommitRuns(D, ss', ts');
  }

  lemma {:induction false} QuietParts<T(!new), B(!new)>(D: Disk<T, B>, s: State<T, B>)
    requires Quiet(D, s)
    ensures Parts(D.F, D.sb, s.log.view, s.own, Contents(D.files, s.done))
  {
    hide Parts, Showing, Contents, Log.Inv;
    ShowingAll(D, s.log.view, s.own, Contents(D.files, s.done));
  }

  /** The updates `more` are those of the transactions ops on file i. */
  ghost predicate UpdatesOf<T, B>(ops: seq<Txn<T, B>>, i: nat, more: seq<Upd<B>>) {
    |more| == |ops| && forall k | 0 <= k < |ops| ::
      i < |ops[k].files| && more[k].i == i && more[k].data == ops[k].files[i]
  }

  lemma {:induction false} RanLess<T(!new), B(!new)>(F: Format<T, B>, sb: Super, disk: seq<T>, files: seq<seq<B>>,
                                                     i: nat, ops: seq<Txn<T, B>>)
    requires Ran(F, sb, disk, files, i, ops) && ops != []
    ensures var less, op := ops[..|ops| - 1], ops[|ops| - 1];
      Ran(F, sb, disk, files, i, less) && Thrifty(op.ws)
      && Solo(F, sb, DiskAfter(disk, less), FilesAfter(files, less), i, op.ws, op.files)
  {
    hide Solo, Thrifty;
    var less := ops[..|ops| - 1];
    forall k: nat | k < |less|
      ensures Solo(F, sb, DiskAfter(disk, less[..k]), FilesAfter(files, less[..k]), i, less[k].ws, less[k].files)
      ensures Thrifty(less[k].ws) && |Bnos(less[k].ws)| <= MAXOPBLOCKS
    {
      assert less[..k] == ops[..k];
    }
  }

  /** The transactions that FileWrite makes, by its contract, are part of a run: each begins and ends an
      operation, and leaves its update. */
  lemma {:induction false} FileWriteRuns<T(!new), B(!new)>(D: Disk<T, B>, ss: seq<State<T, B>>, ts: seq<Step<T, B>>,
                                                           i: nat, ops: seq<Txn<T, B>>)
    returns (ss': seq<State<T, B>>, ts': seq<Step<T, B>>, more: seq<Upd<B>>)
    requires Run(D, ss, ts) && Quiet(D, ss[|ts|]) && i < D.sb.ninodes && D.L.size > MAXOPBLOCKS
    requires Ran(D.F, D.sb, ss[|ts|].log.view, Contents(D.files, ss[|ts|].done), i, ops)
    ensures Run(D, ss', ts') && ss <= ss' && Quiet(D, ss'[|ts'|])
    ensures ss'[|ts'|].log.view == DiskAfter(ss[|ts|].log.view, ops)
    ensures Contents(D.files, ss'[|ts'|].done) == FilesAfter(Contents(D.files, ss[|ts|].done), ops)
    ensures ss'[|ts'|].done == ss[|ts|].done + more && UpdatesOf(ops, i, more)
    decreases |ops|
  {
    hide Run, Quiet, Ran, Solo, Thrifty, Contents, Apply;
    RunLength(D, ss, ts);
    var s := ss[|ts|];
    if ops == [] {
      ss', ts', more := ss, ts, [];
    } else {
      var less, op := ops[..|ops| - 1], ops[|ops| - 1];
      RanLess(D.F, D.sb, s.log.view, Contents(D.files, s.done), i, ops);
      ss', ts', more := FileWriteRuns(D, ss, ts, i, less);
      RunLength(D, ss', ts');
      ss', ts' := TxRuns(D, ss', ts', i, op);
      RunLength(D, ss', ts');
      var id :| ss'[|ts'|].done == s.done + more + [Upd(id, i, op.files[i])];
      more := more + [Upd(id, i, op.files[i])];
    }
  }

  /** Then the updates of file i are filewrite's results. */
  lemma {:induction false} UpdatesResults<T(!new), B(!new)>(ops: seq<Txn<T, B>>, i: nat, more: seq<Upd<B>>)
    requires UpdatesOf(ops, i, more)
    ensures Of(more, i) == Results(ops, i)
    decreases |ops|
  {
    if ops != [] { UpdatesResults(ops[..|ops| - 1], i, more[..|more| - 1]); }
  }
}
