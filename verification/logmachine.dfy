/** Group commit over whole runs: any number of file-system operations, the committer, crashes
    and recoveries, interleaved at the granularity of one critical section or one block write. */
module GroupCommit {
  import opened RedoLog
  import opened Crash

  /** One log_write call: which operation, which block, what contents. */
  datatype Rec<T> = Rec(op: nat, bno: nat, data: T)

  /** An operation between begin_op and end_op, and how many blocks it added to the header. */
  datatype Op = Op(id: nat, added: nat)

  datatype Phase<T> =
    | Idle
    | Committing(k: nat, base: seq<T>)  // k block writes of commit() done, starting from base
    | Recovering(k: nat, base: seq<T>)  // likewise for recover_from_log()

  datatype Fault = NoFault | TooBig | OutsideTrans | EndWhileCommitting

  datatype State<T> = State(
    disk: seq<T>,           // what survives a crash
    view: seq<T>,           // what bread returns
    lh: seq<nat>,           // log.lh.block[0..log.lh.n)
    outstanding: int,       // log.outstanding
    committing: bool,       // log.committing
    ops: seq<Op>,
    phase: Phase<T>,
    fault: Fault,
    // history
    init: seq<T>,           // home blocks at the start
    groups: seq<seq<Rec<T>>>,  // groups whose commit record reached the disk
    cur: seq<Rec<T>>,          // log_writes since the last commit record or crash
    all: seq<Rec<T>>,          // every log_write so far
    lo: nat, nextId: nat)   // operations of the current group have ids lo..nextId

  datatype Step<T> =
    | Begin | LogWrite(i: nat, bno: nat, data: T) | End(i: nat)
    | CommitIO | CommitDone | CrashNow | RecoverIO | RecoverDone

  function PutRec<T(!new)>(a: seq<T>, r: Rec<T>): (b: seq<T>)
    ensures |b| == |a|
  {
    if r.bno < |a| then a[r.bno := r.data] else a
  }

  /** log_writes in the order they were made. */
  function ApplyRecs<T(!new)>(a: seq<T>, rs: seq<Rec<T>>): (b: seq<T>)
    ensures |b| == |a|
  {
    if rs == [] then a else PutRec(ApplyRecs(a, rs[..|rs| - 1]), rs[|rs| - 1])
  }

  function ApplyGroups<T(!new)>(a: seq<T>, gs: seq<seq<Rec<T>>>): (b: seq<T>)
    ensures |b| == |a|
  {
    if gs == [] then a else ApplyRecs(ApplyGroups(a, gs[..|gs| - 1]), gs[|gs| - 1])
  }

  /** The home blocks as left by the committed groups, one after another. */
  function Committed<T(!new)>(s: State<T>): seq<T> { ApplyGroups(s.init, s.groups) }

  ghost predicate Init<T(!new)>(L: Layout, C: Codec<T>, s: State<T>) {
    && HeaderOk(L, C, s.disk) && C.head(s.disk[L.start]) == []
    && s.view == s.init == s.disk
    && s.lh == [] && s.outstanding == 0 && !s.committing && s.ops == []
    && s.phase == Idle && s.fault == NoFault
    && s.groups == [] && s.cur == [] && s.all == [] && s.lo == s.nextId
  }

  ghost predicate Enabled<T(!new)>(L: Layout, C: Codec<T>, s: State<T>, t: Step<T>) {
    && s.fault == NoFault
    && match t
       // begin_op otherwise sleeps and retries
       case Begin => !s.phase.Recovering? && !s.committing && |s.lh| + (s.outstanding + 1) * MAXOPBLOCKS <= LOGSIZE
       case LogWrite(i, bno, data) => i < |s.ops| && L.Home(bno)
       case End(i) => i < |s.ops|
       case CommitIO =>
         && s.phase.Committing? && WfCommit(L, C, s)
         && s.phase.k < |CommitSeq(L, C, s.phase.base, s.lh, s.view)|
       case CommitDone =>
         && s.phase.Committing? && WfCommit(L, C, s)
         && s.phase.k == |CommitSeq(L, C, s.phase.base, s.lh, s.view)|
       case CrashNow => HeaderOk(L, C, s.disk)
       case RecoverIO =>
         && s.phase.Recovering? && HeaderOk(L, C, s.phase.base)
         && s.phase.k < |RecoverSeq(L, C, s.phase.base)|
       case RecoverDone =>
         && s.phase.Recovering? && HeaderOk(L, C, s.phase.base)
         && s.phase.k == |RecoverSeq(L, C, s.phase.base)|
  }

  ghost predicate WfCommit<T(!new)>(L: Layout, C: Codec<T>, s: State<T>)
    requires s.phase.Committing?
  {
    HeaderOk(L, C, s.phase.base) && L.HomeList(s.lh) && |s.view| == L.nblocks
  }

  ghost function Do<T(!new)>(L: Layout, C: Codec<T>, s: State<T>, t: Step<T>): State<T>
    requires Enabled(L, C, s, t)
  {
    match t
    case Begin =>
      s.(outstanding := s.outstanding + 1, ops := s.ops + [Op(s.nextId, 0)], nextId := s.nextId + 1)
    case LogWrite(i, bno, data) => DoLogWrite(L, s, i, bno, data)
    case End(i) => DoEnd(s, i)
    case CommitIO => DoCommitIO(L, C, s)
    case CommitDone => s.(phase := Idle, committing := false, lh := [])
    case CrashNow =>
      s.(phase := Recovering(0, s.disk), lh := [], outstanding := 0, committing := false, ops := [],
         cur := [], lo := s.nextId)
    case RecoverIO => DoRecoverIO(L, C, s)
    case RecoverDone => s.(phase := Idle, view := s.disk)
  }

  function DoLogWrite<T(!new)>(L: Layout, s: State<T>, i: nat, bno: nat, data: T): State<T>
    requires i < |s.ops|
  {
    if |s.lh| >= LOGSIZE || |s.lh| >= L.size - 1 then s.(fault := TooBig)
    else if s.outstanding < 1 then s.(fault := OutsideTrans)
    else
      var o, isNew, r := s.ops[i], bno !in s.lh, Rec(s.ops[i].id, bno, data);
      s.(view := PutRec(s.view, r),
         lh := if isNew then s.lh + [bno] else s.lh,  // log absorption
         ops := s.ops[i := Op(o.id, if isNew then o.added + 1 else o.added)],
         cur := s.cur + [r], all := s.all + [r])
  }

  function DoEnd<T(!new)>(s: State<T>, i: nat): State<T>
    requires i < |s.ops|
  {
    var s1 := s.(outstanding := s.outstanding - 1, ops := s.ops[..i] + s.ops[i + 1..]);
    if s.committing then s1.(fault := EndWhileCommitting)
    else if s1.outstanding == 0 then s1.(committing := true, phase := Committing(0, s.disk))
    else s1
  }

  ghost function DoCommitIO<T(!new)>(L: Layout, C: Codec<T>, s: State<T>): State<T>
    requires s.phase.Committing? && WfCommit(L, C, s) && s.phase.k < |CommitSeq(L, C, s.phase.base, s.lh, s.view)|
  {
    var k, ws := s.phase.k, CommitSeq(L, C, s.phase.base, s.lh, s.view);
    var s1 := s.(disk := Put(s.disk, ws[k]), phase := Committing(k + 1, s.phase.base));
    if k == |s.lh| then s1.(groups := s.groups + [s.cur], cur := [], lo := s.nextId)  // the commit record
    else s1
  }

  ghost function DoRecoverIO<T(!new)>(L: Layout, C: Codec<T>, s: State<T>): State<T>
    requires s.phase.Recovering? && HeaderOk(L, C, s.phase.base) && s.phase.k < |RecoverSeq(L, C, s.phase.base)|
  {
    s.(disk := Put(s.disk, RecoverSeq(L, C, s.phase.base)[s.phase.k]),
       phase := Recovering(s.phase.k + 1, s.phase.base))
  }

  /** A run: the states and the steps between them, from an initial state. */
  ghost predicate Run<T(!new)>(L: Layout, C: Codec<T>, run: seq<State<T>>, ts: seq<Step<T>>) {
    && Law(C) && |run| == |ts| + 1 && Init(L, C, run[0])
    && forall i | 0 <= i < |ts| :: Enabled(L, C, run[i], ts[i]) && run[i + 1] == Do(L, C, run[i], ts[i])
  }

  // ---- counters ----

  ghost predicate InvCount<T(!new)>(L: Layout, s: State<T>) {
    && L.Ok() && L.HomeList(s.lh)
    && s.outstanding == |s.ops|
    && (s.committing <==> s.phase.Committing?)
    && (!s.phase.Idle? ==> s.ops == [])
    && (s.phase.Recovering? ==> s.lh == [])
    && (s.phase.Idle? && s.ops == [] ==> s.lh == [])
    && (s.fault == NoFault || s.fault == TooBig)
  }

  lemma {:induction false} CountStep<T(!new)>(L: Layout, C: Codec<T>, s: State<T>, t: Step<T>)
    requires InvCount(L, s) && Enabled(L, C, s, t)
    ensures InvCount(L, Do(L, C, s, t))
  {
  }

  // ---- what the disk recovers to ----

  /** bread returns the committed contents overwritten by the current group, and only logged
      blocks are overwritten. */
  ghost predicate ViewOk<T(!new)>(L: Layout, view: seq<T>, c: seq<T>, cur: seq<Rec<T>>, lh: seq<nat>) {
    && SameHome(L, view, ApplyRecs(c, cur))
    && forall r | r in cur :: r.bno in lh
  }

  /** k block writes into a commit that started from base, with committed home blocks c. */
  ghost predicate CommitOk<T(!new)>(L: Layout, C: Codec<T>, disk: seq<T>, view: seq<T>, lh: seq<nat>, cur: seq<Rec<T>>,
                                    c: seq<T>, k: nat, base: seq<T>) {
    && HeaderOk(L, C, base) && L.HomeList(lh) && |view| == L.nblocks
    && C.head(base[L.start]) == [] && ViewOk(L, view, c, cur, lh)
    && k <= |CommitSeq(L, C, base, lh, view)|
    && disk == Apply(base, CommitSeq(L, C, base, lh, view)[..k])
    && (k > |lh| ==> cur == [])
    && SameHome(L, if k <= |lh| then base else Updated(base, lh, view), c)
  }

  ghost predicate InvDisk<T(!new)>(L: Layout, C: Codec<T>, s: State<T>) {
    && |s.init| == L.nblocks
    && match s.phase
       case Idle =>
         && Rep(L, C, s.disk, Committed(s)) && C.head(s.disk[L.start]) == []
         && ViewOk(L, s.view, Committed(s), s.cur, s.lh)
       case Committing(k, base) => CommitOk(L, C, s.disk, s.view, s.lh, s.cur, Committed(s), k, base)
       case Recovering(k, base) =>
         && Rep(L, C, base, Committed(s)) && s.cur == []
         && k <= |RecoverSeq(L, C, base)| && s.disk == Apply(base, RecoverSeq(L, C, base)[..k])
  }

  /** Whatever the phase, the disk stands for the committed groups. */
  lemma {:induction false} InvRep<T(!new)>(L: Layout, C: Codec<T>, s: State<T>)
    requires Law(C)
    requires InvDisk(L, C, s)
    ensures Rep(L, C, s.disk, Committed(s))
  {
    match s.phase {
      case Idle =>
      case Committing(k, base) =>
        CommitRep(L, C, base, s.lh, s.view, k);
        RepSame(L, C, s.disk, if k <= |s.lh| then base else Updated(base, s.lh, s.view), Committed(s));
      case Recovering(k, base) => RecoverRep(L, C, base, Committed(s), k);
    }
  }

  lemma {:induction false} RepSame<T(!new)>(L: Layout, C: Codec<T>, d: seq<T>, a: seq<T>, b: seq<T>)
    requires Rep(L, C, d, a) && SameHome(L, a, b)
    ensures Rep(L, C, d, b)
  {
    var lh := C.head(d[L.start]);
    assert forall i | 0 <= i < |lh| :: L.Home(lh[i]);
  }

  lemma {:induction false} RecsFrame<T(!new)>(a: seq<T>, rs: seq<Rec<T>>, h: nat)
    requires h < |a| && forall r | r in rs :: r.bno != h
    ensures ApplyRecs(a, rs)[h] == a[h]
    decreases |rs|
  {
    if rs != [] {
      assert rs[|rs| - 1] in rs;
      RecsFrame(a, rs[..|rs| - 1], h);
    }
  }

  lemma {:induction false} RecsSnoc<T(!new)>(a: seq<T>, rs: seq<Rec<T>>, r: Rec<T>)
    ensures ApplyRecs(a, rs + [r]) == PutRec(ApplyRecs(a, rs), r)
  {
    assert (rs + [r])[..|rs|] == rs;
  }

  lemma {:induction false} GroupsSnoc<T(!new)>(a: seq<T>, gs: seq<seq<Rec<T>>>, g: seq<Rec<T>>)
    ensures ApplyGroups(a, gs + [g]) == ApplyRecs(ApplyGroups(a, gs), g)
  {
    assert (gs + [g])[..|gs|] == gs;
  }

  lemma {:induction false} DiskLogWrite<T(!new)>(L: Layout, C: Codec<T>, s: State<T>, i: nat, bno: nat, data: T)
    requires InvCount(L, s) && InvDisk(L, C, s) && i < |s.ops|
    ensures InvDisk(L, C, DoLogWrite(L, s, i, bno, data))
  {
    hide ApplyGroups, ApplyRecs, Rep;
    assert s.phase.Idle?;
    var r := Rec(s.ops[i].id, bno, data);
    RecsSnoc(Committed(s), s.cur, r);
    var s' := DoLogWrite(L, s, i, bno, data);
    assert Committed(s') == Committed(s) && s'.disk == s.disk && s'.phase == s.phase;
    if s'.fault == s.fault {
      forall h: nat | L.Home(h) ensures s'.view[h] == ApplyRecs(Committed(s), s'.cur)[h] {
        assert s.view[h] == ApplyRecs(Committed(s), s.cur)[h];
      }
    }
    assert ViewOk(L, s'.view, Committed(s'), s'.cur, s'.lh);
  }

  lemma {:induction false} DiskEnd<T(!new)>(L: Layout, C: Codec<T>, s: State<T>, i: nat)
    requires InvCount(L, s) && InvDisk(L, C, s) && i < |s.ops|
    ensures InvDisk(L, C, DoEnd(s, i))
  {
    assert s.phase.Idle?;
    assert CommitSeq(L, C, s.disk, s.lh, s.view)[..0] == [];
  }

  /** The write of the commit record adds exactly the current group. */
  lemma {:induction false} CommitRecord<T(!new)>(L: Layout, base: seq<T>, view: seq<T>, lh: seq<nat>, cur: seq<Rec<T>>,
                                                 c: seq<T>)
    requires L.HomeList(lh) && |base| == |view| == |c| == L.nblocks
    requires ViewOk(L, view, c, cur, lh) && SameHome(L, base, c)
    ensures SameHome(L, Updated(base, lh, view), ApplyRecs(c, cur))
  {
    forall h: nat | L.Home(h) && h !in lh ensures ApplyRecs(c, cur)[h] == base[h] {
      RecsFrame(c, cur, h);
    }
  }

  lemma {:induction false} CommitOkNext<T(!new)>(L: Layout, C: Codec<T>, disk: seq<T>, view: seq<T>, lh: seq<nat>,
                                                 cur: seq<Rec<T>>, c: seq<T>, k: nat, base: seq<T>)
    requires CommitOk(L, C, disk, view, lh, cur, c, k, base) && k < |CommitSeq(L, C, base, lh, view)|
    ensures var d := Put(disk, CommitSeq(L, C, base, lh, view)[k]);
            if k == |lh| then CommitOk(L, C, d, view, lh, [], ApplyRecs(c, cur), k + 1, base)
            else CommitOk(L, C, d, view, lh, cur, c, k + 1, base)
  {
    ApplyNext(base, CommitSeq(L, C, base, lh, view), k);
    if k == |lh| {
      CommitRecord(L, base, view, lh, cur, c);
      assert ApplyRecs(ApplyRecs(c, cur), []) == ApplyRecs(c, cur);
    }
  }

  lemma {:induction false} DiskCommitRecord<T(!new)>(L: Layout, C: Codec<T>, s: State<T>)
    requires InvDisk(L, C, s) && s.phase.Committing?
    requires s.phase.k == |s.lh| < |CommitSeq(L, C, s.phase.base, s.lh, s.view)|
    ensures InvDisk(L, C, DoCommitIO(L, C, s))
  {
    CommitOkNext(L, C, s.disk, s.view, s.lh, s.cur, Committed(s), s.phase.k, s.phase.base);
    assert Committed(DoCommitIO(L, C, s)) == ApplyRecs(Committed(s), s.cur) by { GroupsSnoc(s.init, s.groups, s.cur); }
  }

  lemma {:induction false} DiskCommitBlock<T(!new)>(L: Layout, C: Codec<T>, s: State<T>)
    requires InvDisk(L, C, s) && s.phase.Committing?
    requires |s.lh| != s.phase.k < |CommitSeq(L, C, s.phase.base, s.lh, s.view)|
    ensures InvDisk(L, C, DoCommitIO(L, C, s))
  {
    hide CommitSeq, ApplyGroups, Updated, ViewOk, SameHome;
    CommitOkNext(L, C, s.disk, s.view, s.lh, s.cur, Committed(s), s.phase.k, s.phase.base);
    assert Committed(DoCommitIO(L, C, s)) == Committed(s);
  }

  lemma {:induction false} DiskCommitDone<T(!new)>(L: Layout, C: Codec<T>, s: State<T>)
    requires Law(C)
    requires InvCount(L, s) && InvDisk(L, C, s) && s.phase.Committing?
    requires s.phase.k == |CommitSeq(L, C, s.phase.base, s.lh, s.view)|
    ensures InvDisk(L, C, s.(phase := Idle, committing := false, lh := []))
  {
    InvRep(L, C, s);
    CommitRep(L, C, s.phase.base, s.lh, s.view, s.phase.k);
    assert s.cur != [] ==> s.cur[0] in s.cur && s.cur[0].bno in s.lh;
  }

  lemma {:induction false} DiskCrash<T(!new)>(L: Layout, C: Codec<T>, s: State<T>)
    requires Law(C)
    requires InvDisk(L, C, s)
    ensures InvDisk(L, C, s.(phase := Recovering(0, s.disk), lh := [], outstanding := 0, committing := false, ops := [],
                          cur := [], lo := s.nextId))
  {
    InvRep(L, C, s);
    assert RecoverSeq(L, C, s.disk)[..0] == [];
  }

  lemma {:induction false} DiskRecoverIO<T(!new)>(L: Layout, C: Codec<T>, s: State<T>)
    requires InvDisk(L, C, s) && s.phase.Recovering? && s.phase.k < |RecoverSeq(L, C, s.phase.base)|
    ensures InvDisk(L, C, DoRecoverIO(L, C, s))
  {
    var k, base := s.phase.k, s.phase.base;
    ApplyNext(base, RecoverSeq(L, C, base), k);
  }

  lemma {:induction false} DiskRecoverDone<T(!new)>(L: Layout, C: Codec<T>, s: State<T>)
    requires Law(C)
    requires InvDisk(L, C, s) && s.phase.Recovering? && s.phase.k == |RecoverSeq(L, C, s.phase.base)|
    ensures InvDisk(L, C, s.(phase := Idle, view := s.disk))
  {
    RecoverRep(L, C, s.phase.base, Committed(s), s.phase.k);
  }

  lemma {:induction false} DiskStep<T(!new)>(L: Layout, C: Codec<T>, s: State<T>, t: Step<T>)
    requires Law(C)
    requires InvCount(L, s) && InvDisk(L, C, s) && Enabled(L, C, s, t)
    ensures InvDisk(L, C, Do(L, C, s, t))
  {
    match t {
      case Begin =>
      case LogWrite(i, bno, data) => DiskLogWrite(L, C, s, i, bno, data);
      case End(i) => DiskEnd(L, C, s, i);
      case CommitIO =>
        if s.phase.k == |s.lh| { DiskCommitRecord(L, C, s); } else { DiskCommitBlock(L, C, s); }
      case CommitDone => DiskCommitDone(L, C, s);
      case CrashNow => DiskCrash(L, C, s);
      case RecoverIO => DiskRecoverIO(L, C, s);
      case RecoverDone => DiskRecoverDone(L, C, s);
    }
  }

  // ---- which group an operation belongs to ----

  /** The log_writes of one operation. */
  function OfOp<T(!new)>(rs: seq<Rec<T>>, id: nat): seq<Rec<T>> {
    if rs == [] then []
    else OfOp(rs[..|rs| - 1], id) + if rs[|rs| - 1].op == id then [rs[|rs| - 1]] else []
  }

  /** Every operation that has a log_write in a committed group has all of them there, and
      none in any other group. */
  ghost predicate WholeOps<T(!new)>(groups: seq<seq<Rec<T>>>, all: seq<Rec<T>>) {
    && (forall j, r | 0 <= j < |groups| && r in groups[j] :: OfOp(groups[j], r.op) == OfOp(all, r.op))
    && (forall j, k, r, q | 0 <= j < k < |groups| && r in groups[j] && q in groups[k] :: r.op != q.op)
  }

  ghost predicate InvRecs<T(!new)>(groups: seq<seq<Rec<T>>>, cur: seq<Rec<T>>, all: seq<Rec<T>>, lo: nat, nextId: nat) {
    && lo <= nextId
    && (forall r | r in cur :: lo <= r.op < nextId)
    && (forall r | r in all :: r.op < nextId)
    && (forall id: nat | lo <= id :: OfOp(cur, id) == OfOp(all, id))
    && (forall j, r | 0 <= j < |groups| && r in groups[j] :: r.op < lo)
    && WholeOps(groups, all)
  }

  ghost predicate InvHist<T(!new)>(s: State<T>) {
    && (forall i | 0 <= i < |s.ops| :: s.lo <= s.ops[i].id < s.nextId)
    && InvRecs(s.groups, s.cur, s.all, s.lo, s.nextId)
  }

  lemma {:induction false} OfOpSnoc<T(!new)>(rs: seq<Rec<T>>, r: Rec<T>, id: nat)
    ensures OfOp(rs + [r], id) == OfOp(rs, id) + if r.op == id then [r] else []
  {
    assert (rs + [r])[..|rs|] == rs;
  }

  lemma {:induction false} OfOpNone<T(!new)>(rs: seq<Rec<T>>, id: nat)
    requires forall r | r in rs :: r.op != id
    ensures OfOp(rs, id) == []
    decreases |rs|
  {
    if rs != [] {
      assert rs[|rs| - 1] in rs;
      OfOpNone(rs[..|rs| - 1], id);
    }
  }

  lemma {:induction false} RecsLogWrite<T(!new)>(groups: seq<seq<Rec<T>>>, cur: seq<Rec<T>>, all: seq<Rec<T>>, lo: nat,
                                                 nextId: nat, r: Rec<T>)
    requires InvRecs(groups, cur, all, lo, nextId) && lo <= r.op < nextId
    ensures InvRecs(groups, cur + [r], all + [r], lo, nextId)
  {
    forall id: nat | lo <= id ensures OfOp(cur + [r], id) == OfOp(all + [r], id) {
      OfOpSnoc(all, r, id);
      OfOpSnoc(cur, r, id);
    }
    forall j, q | 0 <= j < |groups| && q in groups[j] ensures OfOp(groups[j], q.op) == OfOp(all + [r], q.op) {
      OfOpSnoc(all, r, q.op);
    }
  }

  /** Closing or dropping the current group. */
  lemma {:induction false} RecsCut<T(!new)>(groups: seq<seq<Rec<T>>>, cur: seq<Rec<T>>, all: seq<Rec<T>>, lo: nat,
                                            nextId: nat)
    requires InvRecs(groups, cur, all, lo, nextId)
    ensures InvRecs(groups, [], all, nextId, nextId)
    ensures InvRecs(groups + [cur], [], all, nextId, nextId)
  {
    forall id: nat | nextId <= id ensures OfOp([], id) == OfOp(all, id) {
      OfOpNone(all, id);
    }
    WholeOpsSnoc(groups, cur, all, lo);
    var gs := groups + [cur];
    assert forall j, r | 0 <= j < |gs| && r in gs[j] :: r in cur || r.op < lo;
  }

  lemma {:induction false} WholeOpsSnoc<T(!new)>(groups: seq<seq<Rec<T>>>, cur: seq<Rec<T>>, all: seq<Rec<T>>, lo: nat)
    requires WholeOps(groups, all)
    requires forall r | r in cur :: lo <= r.op && OfOp(cur, r.op) == OfOp(all, r.op)
    requires forall j, r | 0 <= j < |groups| && r in groups[j] :: r.op < lo
    ensures WholeOps(groups + [cur], all)
  {
    hide OfOp;
    var gs := groups + [cur];
    forall j, r: Rec<T> | 0 <= j < |gs| && r in gs[j] ensures OfOp(gs[j], r.op) == OfOp(all, r.op) {
      if j < |groups| { assert gs[j] == groups[j]; } else { assert gs[j] == cur; }
    }
  }

  lemma {:induction false} RecsBegin<T(!new)>(groups: seq<seq<Rec<T>>>, cur: seq<Rec<T>>, all: seq<Rec<T>>, lo: nat,
                                              nextId: nat)
    requires InvRecs(groups, cur, all, lo, nextId)
    ensures InvRecs(groups, cur, all, lo, nextId + 1)
  {
  }

  lemma {:induction false} HistEnd<T(!new)>(s: State<T>, i: nat)
    requires InvHist(s) && i < |s.ops|
    ensures InvHist(DoEnd(s, i))
  {
    var r := s.ops[..i] + s.ops[i + 1..];
    assert forall j | 0 <= j < |r| :: r[j] == if j < i then s.ops[j] else s.ops[j + 1];
  }

  lemma {:induction false} HistCommitIO<T(!new)>(L: Layout, C: Codec<T>, s: State<T>)
    requires s.phase.Committing? && WfCommit(L, C, s) && s.phase.k < |CommitSeq(L, C, s.phase.base, s.lh, s.view)|
    requires InvHist(s) && s.ops == []
    ensures InvHist(DoCommitIO(L, C, s))
  {
    RecsCut(s.groups, s.cur, s.all, s.lo, s.nextId);
  }

  lemma {:induction false} HistStep<T(!new)>(L: Layout, C: Codec<T>, s: State<T>, t: Step<T>)
    requires InvCount(L, s) && InvHist(s) && Enabled(L, C, s, t)
    ensures InvHist(Do(L, C, s, t))
  {
    var s' := Do(L, C, s, t);
    match t {
      case Begin =>
        RecsBegin(s.groups, s.cur, s.all, s.lo, s.nextId);
      case LogWrite(i, bno, data) =>
        RecsLogWrite(s.groups, s.cur, s.all, s.lo, s.nextId, Rec(s.ops[i].id, bno, data));
      case End(i) => HistEnd(s, i);
      case CommitIO => HistCommitIO(L, C, s);
      case CrashNow => RecsCut(s.groups, s.cur, s.all, s.lo, s.nextId);
      case _ =>
        assert s'.groups == s.groups && s'.cur == s.cur && s'.all == s.all;
        assert s'.lo == s.lo && s'.nextId == s.nextId && s'.ops == s.ops;
    }
  }

  // ---- whole runs ----

  ghost predicate Inv<T(!new)>(L: Layout, C: Codec<T>, s: State<T>) {
    InvCount(L, s) && InvDisk(L, C, s) && InvHist(s)
  }

  lemma {:induction false} InitInv<T(!new)>(L: Layout, C: Codec<T>, s: State<T>)
    requires Init(L, C, s)
    ensures Inv(L, C, s)
  {
  }

  lemma {:induction false} RunInv<T(!new)>(L: Layout, C: Codec<T>, run: seq<State<T>>, ts: seq<Step<T>>, i: nat)
    requires Run(L, C, run, ts) && i < |run|
    ensures Inv(L, C, run[i])
  {
    hide Enabled, Do, Init, InvCount, InvDisk, InvHist;
    if i == 0 {
      InitInv(L, C, run[0]);
    } else {
      RunInv(L, C, run, ts, i - 1);
      CountStep(L, C, run[i - 1], ts[i - 1]);
      DiskStep(L, C, run[i - 1], ts[i - 1]);
      HistStep(L, C, run[i - 1], ts[i - 1]);
    }
  }

  /** In every run, at every point: completing a recovery from the disk as it then is gives the
      home blocks left by the committed groups, in order, and nothing of any other group; every
      operation lies wholly inside one group or has left no trace in any. */
  lemma {:induction false} RecoversToGroups<T(!new)>(L: Layout, C: Codec<T>, run: seq<State<T>>, ts: seq<Step<T>>,
                                                     i: nat)
    requires Run(L, C, run, ts) && i < |run|
    ensures HeaderOk(L, C, run[i].disk)
    ensures SameHome(L, Recovered(L, C, run[i].disk), ApplyGroups(run[i].init, run[i].groups))
    ensures WholeOps(run[i].groups, run[i].all)
  {
    RunInv(L, C, run, ts, i);
    InvRep(L, C, run[i]);
    var d := run[i].disk;
    var ws := RecoverSeq(L, C, d);
    RecoverRep(L, C, d, Committed(run[i]), |ws|);
    assert ws[..|ws|] == ws;
  }

  lemma {:induction false} GroupsStep<T(!new)>(L: Layout, C: Codec<T>, s: State<T>, t: Step<T>)
    requires Enabled(L, C, s, t)
    ensures s.groups <= Do(L, C, s, t).groups && s.init == Do(L, C, s, t).init
  {
  }

  /** Durability: no later step, crash or recovery removes or alters a committed group. */
  lemma {:induction false} GroupsDurable<T(!new)>(L: Layout, C: Codec<T>, run: seq<State<T>>, ts: seq<Step<T>>, i: nat,
                                                  j: nat)
    requires Run(L, C, run, ts) && i <= j < |run|
    ensures run[i].groups <= run[j].groups && run[i].init == run[j].init
    decreases j
  {
    hide Enabled, Do, Init;
    if i < j {
      GroupsDurable(L, C, run, ts, i, j - 1);
      GroupsStep(L, C, run[j - 1], ts[j - 1]);
    }
  }

  /** commit() runs only while no operation is outstanding, so no log_write or end_op can happen
      during it; the "log.committing" and "log_write outside of trans" panics are unreachable. */
  lemma {:induction false} CommitExclusive<T(!new)>(L: Layout, C: Codec<T>, run: seq<State<T>>, ts: seq<Step<T>>,
                                                    i: nat)
    requires Run(L, C, run, ts) && i < |run|
    ensures run[i].phase.Committing? ==>
              run[i].outstanding == 0 && forall t | Enabled(L, C, run[i], t) :: !t.LogWrite? && !t.End? && !t.Begin?
    ensures run[i].fault != EndWhileCommitting && run[i].fault != OutsideTrans
  {
    RunInv(L, C, run, ts, i);
  }

  // ---- log reservation ----

  /** Blocks the active operations may still add. */
  function Unspent(ops: seq<Op>): int {
    if ops == [] then 0 else Unspent(ops[..|ops| - 1]) + MAXOPBLOCKS - ops[|ops| - 1].added
  }

  /** Every operation has added at most MAXOPBLOCKS blocks, and there is room for what the open ones may still add. */
  ghost predicate InvRoom<T(!new)>(s: State<T>) {
    && (forall i | 0 <= i < |s.ops| :: s.ops[i].added <= MAXOPBLOCKS)
    && |s.lh| + Unspent(s.ops) <= LOGSIZE
  }

  /** An operation adds no block to the header beyond its MAXOPBLOCKS. */
  predicate Within<T(!new)>(s: State<T>, t: Step<T>) {
    t.LogWrite? && t.i < |s.ops| && t.bno !in s.lh ==> s.ops[t.i].added < MAXOPBLOCKS
  }

  lemma {:induction false} UnspentBound(ops: seq<Op>)
    requires forall i | 0 <= i < |ops| :: ops[i].added <= MAXOPBLOCKS
    ensures 0 <= Unspent(ops) <= MAXOPBLOCKS * |ops|
    ensures forall i | 0 <= i < |ops| :: Unspent(ops) >= MAXOPBLOCKS - ops[i].added
    decreases |ops|
  {
    if ops != [] { UnspentBound(ops[..|ops| - 1]); }
  }

  lemma {:induction false} UnspentUpdate(ops: seq<Op>, i: nat, o: Op)
    requires i < |ops|
    ensures Unspent(ops[i := o]) == Unspent(ops) + ops[i].added - o.added
    decreases |ops|
  {
    var m := |ops| - 1;
    if i < m {
      UnspentUpdate(ops[..m], i, o);
      assert ops[i := o][..m] == ops[..m][i := o];
    } else {
      assert ops[i := o][..m] == ops[..m];
    }
  }

  lemma {:induction false} UnspentRemove(ops: seq<Op>, i: nat)
    requires i < |ops|
    ensures Unspent(ops[..i] + ops[i + 1..]) == Unspent(ops) - (MAXOPBLOCKS - ops[i].added)
    decreases |ops|
  {
    var m, r := |ops| - 1, ops[..i] + ops[i + 1..];
    if i < m {
      UnspentRemove(ops[..m], i);
      assert r[..m - 1] == ops[..m][..i] + ops[..m][i + 1..] && r[m - 1] == ops[m];
    } else {
      assert r == ops[..m];
    }
  }

  lemma {:induction false} RoomLogWrite<T(!new)>(L: Layout, s: State<T>, i: nat, bno: nat, data: T)
    requires InvRoom(s) && i < |s.ops| && (bno !in s.lh ==> s.ops[i].added < MAXOPBLOCKS)
    ensures InvRoom(DoLogWrite(L, s, i, bno, data))
  {
    UnspentBound(s.ops);
    UnspentUpdate(s.ops, i, Op(s.ops[i].id, if bno !in s.lh then s.ops[i].added + 1 else s.ops[i].added));
  }

  lemma {:induction false} RoomEnd<T(!new)>(s: State<T>, i: nat)
    requires InvRoom(s) && i < |s.ops|
    ensures InvRoom(DoEnd(s, i))
  {
    UnspentBound(s.ops);
    UnspentRemove(s.ops, i);
    var r := s.ops[..i] + s.ops[i + 1..];
    assert forall j | 0 <= j < |r| :: r[j] == if j < i then s.ops[j] else s.ops[j + 1];
  }

  /** begin_op's test keeps the reservation whatever the interleaving. */
  lemma {:induction false} RoomStep<T(!new)>(L: Layout, C: Codec<T>, s: State<T>, t: Step<T>)
    requires InvCount(L, s) && InvRoom(s) && Enabled(L, C, s, t) && Within(s, t)
    ensures InvRoom(Do(L, C, s, t))
  {
    match t {
      case Begin =>
        UnspentBound(s.ops);
        assert (s.ops + [Op(s.nextId, 0)])[..|s.ops|] == s.ops;
      case LogWrite(i, bno, data) => RoomLogWrite(L, s, i, bno, data);
      case End(i) => RoomEnd(s, i);
      case _ => assert InvRoom(s) && s.ops == [] ==> |s.lh| <= LOGSIZE;
    }
  }

  /** Every operation of the run adds at most MAXOPBLOCKS blocks to the header. */
  ghost predicate Modest<T(!new)>(run: seq<State<T>>, ts: seq<Step<T>>) {
    |run| == |ts| + 1 && forall i | 0 <= i < |ts| :: Within(run[i], ts[i])
  }

  lemma {:induction false} RoomInv<T(!new)>(L: Layout, C: Codec<T>, run: seq<State<T>>, ts: seq<Step<T>>, i: nat)
    requires Run(L, C, run, ts) && Modest(run, ts) && i < |run|
    ensures InvCount(L, run[i]) && InvRoom(run[i])
  {
    hide Enabled, Do, InvCount, InvDisk, InvHist, Within;
    RunInv(L, C, run, ts, i);
    if i > 0 {
      RoomInv(L, C, run, ts, i - 1);
      assert Within(run[i - 1], ts[i - 1]);
      RoomStep(L, C, run[i - 1], ts[i - 1]);
    }
  }

  /** The header plus everything the open operations may still add fits in the log, and an idle
      log is empty, so that begin_op then admits an operation at once. */
  lemma {:induction false} Reservation<T(!new)>(L: Layout, C: Codec<T>, run: seq<State<T>>, ts: seq<Step<T>>, i: nat)
    requires Run(L, C, run, ts) && Modest(run, ts) && i < |run|
    ensures |run[i].lh| + Unspent(run[i].ops) <= LOGSIZE
    ensures run[i].outstanding == 0 && run[i].phase.Idle? ==> run[i].lh == []
    ensures run[i].outstanding == 0 && run[i].phase.Idle? && run[i].fault == NoFault ==> Enabled(L, C, run[i], Begin)
  {
    RoomInv(L, C, run, ts, i);
  }

  // ---- the "too big a transaction" panic ----

  /** In a log larger than LOGSIZE blocks, a log_write panics exactly when the header lists LOGSIZE
      blocks. If operations keep within their MAXOPBLOCKS blocks, every open one has then used them up. */
  lemma {:induction false} TooBigExactly<T(!new)>(L: Layout, C: Codec<T>, run: seq<State<T>>, ts: seq<Step<T>>, i: nat)
    requires Run(L, C, run, ts) && i < |ts| && ts[i].LogWrite? && L.size > LOGSIZE
    ensures run[i + 1].fault == TooBig <==> |run[i].lh| == LOGSIZE
    ensures Modest(run, ts) && run[i + 1].fault == TooBig ==>
              forall j | 0 <= j < |run[i].ops| :: run[i].ops[j].added == MAXOPBLOCKS
  {
    RunInv(L, C, run, ts, i);
    if Modest(run, ts) {
      RoomInv(L, C, run, ts, i);
      UnspentBound(run[i].ops);
    }
  }

  /** Every log_write comes from an operation that has added fewer than MAXOPBLOCKS blocks so far. */
  ghost predicate Sparing<T(!new)>(run: seq<State<T>>, ts: seq<Step<T>>) {
    && |run| == |ts| + 1
    && forall i | 0 <= i < |ts| :: ts[i].LogWrite? ==> ts[i].i < |run[i].ops| && run[i].ops[ts[i].i].added < MAXOPBLOCKS
  }

  lemma {:induction false} NoTooBig<T(!new)>(L: Layout, C: Codec<T>, run: seq<State<T>>, ts: seq<Step<T>>, i: nat)
    requires Run(L, C, run, ts) && Sparing(run, ts) && L.size > LOGSIZE && i < |run|
    ensures run[i].fault == NoFault
  {
    hide Enabled, Do, InvDisk, InvHist;
    RunInv(L, C, run, ts, i);
    if i > 0 && run[i].fault != NoFault {
      RunInv(L, C, run, ts, i - 1);
      StepFault(L, C, run[i - 1], ts[i - 1]);
      SparingModest(run, ts);
      TooBigExactly(L, C, run, ts, i - 1);
    }
  }

  lemma {:induction false} StepFault<T(!new)>(L: Layout, C: Codec<T>, s: State<T>, t: Step<T>)
    requires InvCount(L, s) && Enabled(L, C, s, t)
    ensures Do(L, C, s, t).fault == TooBig ==> t.LogWrite?
  {
  }

  ghost function Bnos<T(!new)>(rs: seq<Rec<T>>): set<nat> { set r | r in rs :: r.bno }

  /** No operation added more blocks to the header than it passed to log_write. */
  ghost predicate InvAdded<T(!new)>(s: State<T>) {
    forall i | 0 <= i < |s.ops| :: s.ops[i].added <= |Bnos(OfOp(s.all, s.ops[i].id))|
  }

  lemma {:induction false} OfOpIn<T(!new)>(rs: seq<Rec<T>>, id: nat, r: Rec<T>)
    requires r in OfOp(rs, id)
    ensures r in rs
    decreases |rs|
  {
    if r !in OfOp(rs[..|rs| - 1], id) { assert r == rs[|rs| - 1]; } else { OfOpIn(rs[..|rs| - 1], id, r); }
  }

  lemma {:induction false} BnosGrow<T(!new)>(rs: seq<Rec<T>>, r: Rec<T>, id: nat)
    ensures Bnos(OfOp(rs + [r], id)) == if r.op == id then Bnos(OfOp(rs, id)) + {r.bno} else Bnos(OfOp(rs, id))
    ensures |Bnos(OfOp(rs, id))| <= |Bnos(OfOp(rs + [r], id))|
  {
    OfOpSnoc(rs, r, id);
    var o := OfOp(rs, id);
    assert r.op == id ==> r in o + [r];
    assert forall q | q in o + [r] :: q in o || q == r;
    assert |Bnos(o) + {r.bno}| == if r.bno in Bnos(o) then |Bnos(o)| else |Bnos(o)| + 1 by {
      if r.bno in Bnos(o) { assert Bnos(o) + {r.bno} == Bnos(o); }
    }
  }

  /** A block that is not in the header was not logged by any open operation. */
  lemma {:induction false} NotLogged<T(!new)>(L: Layout, C: Codec<T>, s: State<T>, i: nat, bno: nat)
    requires InvCount(L, s) && InvDisk(L, C, s) && InvHist(s) && i < |s.ops| && bno !in s.lh
    ensures bno !in Bnos(OfOp(s.all, s.ops[i].id))
  {
    hide OfOp, WholeOps;
    var id := s.ops[i].id;
    assert OfOp(s.cur, id) == OfOp(s.all, id);
    forall q | q in OfOp(s.all, id) ensures q.bno != bno { OfOpIn(s.cur, id, q); }
  }

  lemma {:induction false} AddedLogWrite<T(!new)>(L: Layout, C: Codec<T>, s: State<T>, i: nat, bno: nat, data: T)
    requires InvCount(L, s) && InvDisk(L, C, s) && InvHist(s) && InvAdded(s) && i < |s.ops|
    ensures InvAdded(DoLogWrite(L, s, i, bno, data))
  {
    hide InvCount, InvDisk, InvHist, OfOp, Bnos;
    var r, s' := Rec(s.ops[i].id, bno, data), DoLogWrite(L, s, i, bno, data);
    if bno !in s.lh { NotLogged(L, C, s, i, bno); }
    forall j | 0 <= j < |s'.ops| && s'.fault == s.fault ensures s'.ops[j].added <= |Bnos(OfOp(s'.all, s'.ops[j].id))| {
      BnosGrow(s.all, r, s.ops[j].id);
    }
  }

  lemma {:induction false} AddedStep<T(!new)>(L: Layout, C: Codec<T>, s: State<T>, t: Step<T>)
    requires InvCount(L, s) && InvDisk(L, C, s) && InvHist(s) && InvAdded(s) && Enabled(L, C, s, t)
    ensures InvAdded(Do(L, C, s, t))
  {
    hide InvDisk, InvHist;
    if t.LogWrite? { AddedLogWrite(L, C, s, t.i, t.bno, t.data); }
  }

  lemma {:induction false} AddedInv<T(!new)>(L: Layout, C: Codec<T>, run: seq<State<T>>, ts: seq<Step<T>>, i: nat)
    requires Run(L, C, run, ts) && i < |run|
    ensures InvAdded(run[i])
  {
    if i > 0 {
      hide Enabled, Do, InvAdded, InvCount, InvDisk, InvHist;
      AddedInv(L, C, run, ts, i - 1);
      RunInv(L, C, run, ts, i - 1);
      AddedStep(L, C, run[i - 1], ts[i - 1]);
    }
  }

  /** Every log_write comes from an operation that has passed fewer than MAXOPBLOCKS different blocks
      to log_write so far. */
  ghost predicate Thrifty<T(!new)>(run: seq<State<T>>, ts: seq<Step<T>>) {
    && |run| == |ts| + 1
    && forall i | 0 <= i < |ts| ::
         ts[i].LogWrite? ==> ts[i].i < |run[i].ops| && |Bnos(OfOp(run[i].all, run[i].ops[ts[i].i].id))| < MAXOPBLOCKS
  }

  /** What the operations themselves do, whatever the others do: then the panic is unreachable. */
  lemma {:induction false} ThriftyNoTooBig<T(!new)>(L: Layout, C: Codec<T>, run: seq<State<T>>, ts: seq<Step<T>>,
                                                    i: nat)
    requires Run(L, C, run, ts) && Thrifty(run, ts) && L.size > LOGSIZE && i < |run|
    ensures run[i].fault == NoFault
  {
    hide Enabled, Do, Init, Bnos;
    forall j | 0 <= j < |ts| && ts[j].LogWrite?
      ensures ts[j].i < |run[j].ops| && run[j].ops[ts[j].i].added < MAXOPBLOCKS
    {
      AddedInv(L, C, run, ts, j);
    }
    NoTooBig(L, C, run, ts, i);
  }

  /** The w-th block outside the log region. */
  function NthHome(L: Layout, w: nat): nat { if w < L.start then w else w + L.size }

  function Clamp(x: int): nat { if x < 0 then 0 else if x > MAXOPBLOCKS then MAXOPBLOCKS else x }

  ghost predicate Filling<T(!new)>(L: Layout, s: State<T>, w: nat) {
    && s.fault == NoFault && s.phase == Idle && !s.committing && s.outstanding == |s.ops| == 3
    && s.lh == seq(w, i requires 0 <= i < w => NthHome(L, i))
    && forall i | 0 <= i < 3 :: s.ops[i].added == Clamp(w - i * MAXOPBLOCKS)
  }

  lemma {:induction false} Extend<T(!new)>(L: Layout, C: Codec<T>, run: seq<State<T>>, ts: seq<Step<T>>, t: Step<T>)
    returns (run': seq<State<T>>, ts': seq<Step<T>>)
    requires Run(L, C, run, ts) && Enabled(L, C, run[|ts|], t)
    ensures Run(L, C, run', ts') && ts' == ts + [t] && run' == run + [Do(L, C, run[|ts|], t)]
    ensures Sparing(run, ts) && (t.LogWrite? ==> run[|ts|].ops[t.i].added < MAXOPBLOCKS) ==> Sparing(run', ts')
    ensures Modest(run, ts) && Within(run[|ts|], t) ==> Modest(run', ts')
  {
    hide Do, Within;
    run', ts' := run + [Do(L, C, run[|ts|], t)], ts + [t];
  }

  lemma {:induction false} FillNext<T(!new)>(L: Layout, C: Codec<T>, z: T, run: seq<State<T>>, ts: seq<Step<T>>, w: nat)
    returns (run': seq<State<T>>, ts': seq<Step<T>>)
    requires L.Ok() && 2 * L.size <= L.nblocks && w < L.size - 1 && w < LOGSIZE
    requires Run(L, C, run, ts) && Sparing(run, ts) && Filling(L, run[|ts|], w)
    ensures Run(L, C, run', ts') && Sparing(run', ts') && Filling(L, run'[|ts'|], w + 1)
  {
    hide Sparing, Modest, Init, Law;
    var s := run[|ts|];
    var i, b := w / MAXOPBLOCKS, NthHome(L, w);
    assert forall k | 0 <= k < w :: s.lh[k] == NthHome(L, k) < b;
    run', ts' := Extend(L, C, run, ts, LogWrite(i, b, z));
  }

  lemma {:induction false} FillStart<T(!new)>(L: Layout, C: Codec<T>, z: T)
    returns (run: seq<State<T>>, ts: seq<Step<T>>)
    requires Law(C) && C.head(z) == [] && L.Ok()
    ensures Run(L, C, run, ts) && Sparing(run, ts) && Filling(L, run[|ts|], 0)
  {
    var d := seq(L.nblocks, _ => z);
    run, ts := [State(d, d, [], 0, false, [], Idle, NoFault, d, [], [], [], 0, 0)], [];
    run, ts := Extend(L, C, run, ts, Begin);
    run, ts := Extend(L, C, run, ts, Begin);
    run, ts := Extend(L, C, run, ts, Begin);
  }

  /** Three operations, each within its budget, put w blocks into the header. */
  lemma {:induction false} Fill<T(!new)>(L: Layout, C: Codec<T>, z: T, w: nat)
    returns (run: seq<State<T>>, ts: seq<Step<T>>)
    requires Law(C) && C.head(z) == [] && L.Ok() && 2 * L.size <= L.nblocks && w <= L.size - 1 && w <= LOGSIZE
    ensures Run(L, C, run, ts) && Sparing(run, ts) && Filling(L, run[|ts|], w)
    decreases w
  {
    hide Sparing, Filling, Enabled, Do, Init;
    if w == 0 {
      run, ts := FillStart(L, C, z);
    } else {
      run, ts := Fill(L, C, z, w - 1);
      run, ts := FillNext(L, C, z, run, ts, w - 1);
    }
  }

  /** With log.size = LOGSIZE, as mkfs lays the disk out, three operations that each stay within
      MAXOPBLOCKS blocks reach the panic; exactly the layouts with log.size > LOGSIZE avoid it. */
  lemma {:induction false} TooBigUnreachableIff<T(!new)>(L: Layout, C: Codec<T>, z: T)
    requires Law(C) && C.head(z) == [] && L.Ok() && 2 * L.size <= L.nblocks
    ensures (forall run: seq<State<T>>, ts: seq<Step<T>> | Run(L, C, run, ts) && Sparing(run, ts) ::
        run[|ts|].fault == NoFault) <==> L.size > LOGSIZE
  {
    if L.size > LOGSIZE {
      forall run: seq<State<T>>, ts: seq<Step<T>> | Run(L, C, run, ts) && Sparing(run, ts)
        ensures run[|ts|].fault == NoFault
      {
        NoTooBig(L, C, run, ts, |ts|);
      }
    } else {
      var run, ts := Fill(L, C, z, L.size - 1);
      var s, i := run[|ts|], (L.size - 1) / MAXOPBLOCKS;
      var b := NthHome(L, L.size - 1);
      assert forall k | 0 <= k < L.size - 1 :: s.lh[k] == NthHome(L, k) < b;
      var bad, steps := Extend(L, C, run, ts, LogWrite(i, b, z));
      assert bad[|steps|].fault == TooBig;
    }
  }

  /** Adding no block beyond its MAXOPBLOCKS is not enough, whatever the log size: once the header is
      full even an absorbed log_write, which adds nothing, panics. */
  lemma {:induction false} AbsorbedWritePanics<T(!new)>(L: Layout, C: Codec<T>, z: T)
    returns (run: seq<State<T>>, ts: seq<Step<T>>)
    requires Law(C) && C.head(z) == [] && L.Ok() && 2 * L.size <= L.nblocks && L.size > LOGSIZE
    ensures Run(L, C, run, ts) && Modest(run, ts) && run[|ts|].fault == TooBig
  {
    run, ts := Fill(L, C, z, LOGSIZE);
    SparingModest(run, ts);
    var b := NthHome(L, 0);
    assert run[|ts|].lh[0] == b;
    run, ts := Extend(L, C, run, ts, LogWrite(0, b, z));
  }

  lemma {:induction false} SparingModest<T(!new)>(run: seq<State<T>>, ts: seq<Step<T>>)
    requires Sparing(run, ts)
    ensures Modest(run, ts)
  {
  }
}
