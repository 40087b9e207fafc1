/** The log told from the history of a run: which operations are open, what they logged, what bread returns, and that a
    commit that ends leaves nothing behind. */
module GroupHistory {
  import opened RedoLog
  import opened Crash
  import opened GroupCommit

  /** The log_write that step t makes, unless it panics. */
  function RecsOf<T(!new)>(L: Layout, s: State<T>, t: Step<T>): seq<Rec<T>> {
    if t.LogWrite? && t.i < |s.ops| && |s.lh| < LOGSIZE && |s.lh| < L.size - 1
    then [Rec(s.ops[t.i].id, t.bno, t.data)] else []
  }

  /** The log_writes from step j to step k. */
  ghost function Made<T(!new)>(L: Layout, run: seq<State<T>>, ts: seq<Step<T>>, j: nat, k: nat): seq<Rec<T>>
    requires j <= k < |run| == |ts| + 1
    decreases k
  {
    if j == k then [] else Made(L, run, ts, j, k - 1) + RecsOf(L, run[k - 1], ts[k - 1])
  }

  /** The groups one after another. */
  function Flat<T(!new)>(gs: seq<seq<Rec<T>>>): seq<Rec<T>> {
    if gs == [] then [] else Flat(gs[..|gs| - 1]) + gs[|gs| - 1]
  }

  lemma {:induction false} FlatSnoc<T(!new)>(gs: seq<seq<Rec<T>>>, g: seq<Rec<T>>)
    ensures Flat(gs + [g]) == Flat(gs) + g
  {
    assert (gs + [g])[..|gs|] == gs;
  }

  lemma {:induction false} StepOf<T(!new)>(L: Layout, C: Codec<T>, run: seq<State<T>>, ts: seq<Step<T>>, k: nat)
    requires Run(L, C, run, ts) && k < |ts|
    ensures |run| == |ts| + 1 && Enabled(L, C, run[k], ts[k]) && run[k + 1] == Do(L, C, run[k], ts[k])
    ensures InvCount(L, run[k]) && InvDisk(L, C, run[k]) && InvHist(run[k])
  {
    hide Do, Enabled, Init, InvCount, InvDisk, InvHist;
    RunInv(L, C, run, ts, k);
  }

  lemma {:induction false} RunLength<T(!new)>(L: Layout, C: Codec<T>, run: seq<State<T>>, ts: seq<Step<T>>)
    requires Run(L, C, run, ts)
    ensures |run| == |ts| + 1
  {
  }

  /** A step other than a crash adds its log_write to what is committed or waits for the commit, and loses nothing. */
  lemma {:induction false} KeptStep<T(!new)>(L: Layout, C: Codec<T>, s: State<T>, t: Step<T>)
    requires InvCount(L, s) && Enabled(L, C, s, t) && !t.CrashNow?
    ensures var s' := Do(L, C, s, t); Flat(s'.groups) + s'.cur == Flat(s.groups) + s.cur + RecsOf(L, s, t)
  {
    hide Flat, CommitSeq, RecoverSeq;
    if t.CommitIO? {
      FlatSnoc(s.groups, s.cur);
      assert Flat(s.groups) + s.cur + [] == Flat(s.groups) + s.cur;
    }
  }

  /** Nothing is lost without a crash: whatever was committed or waiting, and all log_writes made since, are committed
      or waiting, in order. */
  lemma {:induction false} NoneLost<T(!new)>(L: Layout, C: Codec<T>, run: seq<State<T>>, ts: seq<Step<T>>, j: nat,
                                             k: nat)
    requires Run(L, C, run, ts) && j <= k < |run| && forall i | j <= i < k :: !ts[i].CrashNow?
    ensures Flat(run[k].groups) + run[k].cur == Flat(run[j].groups) + run[j].cur + Made(L, run, ts, j, k)
    decreases k
  {
    hide Run, Do, Enabled, Flat, RecsOf, InvDisk, InvHist, InvCount;
    RunLength(L, C, run, ts);
    if j < k {
      NoneLost(L, C, run, ts, j, k - 1);
      StepOf(L, C, run, ts, k - 1);
      KeptStep(L, C, run[k - 1], ts[k - 1]);
      Append(Flat(run[j].groups) + run[j].cur, Made(L, run, ts, j, k - 1), RecsOf(L, run[k - 1], ts[k - 1]));
    }
  }

  lemma {:induction false} Append<X>(a: seq<X>, b: seq<X>, c: seq<X>)
    ensures a + (b + c) == a + b + c
  {
  }

  lemma {:induction false} AllStep<T(!new)>(L: Layout, C: Codec<T>, s: State<T>, t: Step<T>)
    requires InvCount(L, s) && Enabled(L, C, s, t)
    ensures Do(L, C, s, t).all == s.all + RecsOf(L, s, t)
  {
    hide CommitSeq, RecoverSeq;
  }

  /** `all`, in which every operation lies wholly within one group, is every log_write of the run. */
  lemma {:induction false} AllMade<T(!new)>(L: Layout, C: Codec<T>, run: seq<State<T>>, ts: seq<Step<T>>, k: nat)
    requires Run(L, C, run, ts) && k < |run|
    ensures |run| == |ts| + 1 && run[k].all == Made(L, run, ts, 0, k)
  {
    hide Do, Enabled, RecsOf, InvDisk, InvHist, InvCount;
    RunLength(L, C, run, ts);
    if k > 0 {
      hide Run;
      AllMade(L, C, run, ts, k - 1);
      StepOf(L, C, run, ts, k - 1);
      AllStep(L, C, run[k - 1], ts[k - 1]);
    }
  }

  lemma {:induction false} FirstListed<T(!new)>(cur: seq<Rec<T>>, lh: seq<nat>)
    requires forall r | r in cur :: r.bno in lh
    ensures |cur| > 0 ==> cur[0].bno in lh
  {
    assert |cur| > 0 ==> cur[0] in cur;
  }

  lemma {:induction false} NoneWait<T(!new)>(L: Layout, C: Codec<T>, s: State<T>)
    requires InvCount(L, s) && InvDisk(L, C, s) && s.phase.Idle? && s.outstanding == 0
    ensures s.cur == []
  {
    hide ApplyRecs, ApplyGroups, Rep;
    FirstListed(s.cur, s.lh);
  }

  /** When end_op's commit is over, or nothing has been logged since, nothing waits: every log_write made since the last
      crash is in a committed group, so that a crash keeps it. */
  lemma {:induction false} AllCommitted<T(!new)>(L: Layout, C: Codec<T>, run: seq<State<T>>, ts: seq<Step<T>>, j: nat,
                                                 k: nat)
    requires Run(L, C, run, ts) && j <= k < |run| && forall i | j <= i < k :: !ts[i].CrashNow?
    requires run[k].outstanding == 0 && !run[k].committing && run[k].phase.Idle?
    ensures Flat(run[k].groups) == Flat(run[j].groups) + run[j].cur + Made(L, run, ts, j, k)
  {
    hide Flat, Made, ApplyRecs, ApplyGroups, Rep;
    NoneLost(L, C, run, ts, j, k);
    RunInv(L, C, run, ts, k);
    NoneWait(L, C, run[k]);
  }

  /** The operations that are open, by their numbers: begin_op opens one, end_op closes one, a crash closes all. */
  ghost function Open<T(!new)>(run: seq<State<T>>, ts: seq<Step<T>>, k: nat): seq<nat>
    requires k < |run| == |ts| + 1
  {
    if k == 0 then []
    else Reopened(Open(run, ts, k - 1), ts[k - 1], Begun(ts, k - 1) + run[0].nextId)
  }

  function Reopened<T(!new)>(ids: seq<nat>, t: Step<T>, next: nat): seq<nat> {
    match t
    case Begin => ids + [next]
    case End(i) => if i < |ids| then ids[..i] + ids[i + 1..] else ids
    case CrashNow => []
    case _ => ids
  }

  /** How many operations have begun in the first k steps. */
  function Begun<T(!new)>(ts: seq<Step<T>>, k: nat): nat
    requires k <= |ts|
  {
    if k == 0 then 0 else Begun(ts, k - 1) + if ts[k - 1].Begin? then 1 else 0
  }

  ghost predicate SameIds(ops: seq<Op>, ids: seq<nat>) {
    |ops| == |ids| && forall i | 0 <= i < |ops| :: ops[i].id == ids[i]
  }

  lemma {:induction false} OpenStep<T(!new)>(L: Layout, C: Codec<T>, s: State<T>, t: Step<T>, ids: seq<nat>)
    requires InvCount(L, s) && Enabled(L, C, s, t) && SameIds(s.ops, ids)
    ensures SameIds(Do(L, C, s, t).ops, Reopened(ids, t, s.nextId))
    ensures Do(L, C, s, t).nextId == s.nextId + if t.Begin? then 1 else 0
  {
    hide CommitSeq, RecoverSeq;
  }

  /** log.outstanding counts the open operations, and begin_op numbers them in order. */
  lemma {:induction false} OpenExactly<T(!new)>(L: Layout, C: Codec<T>, run: seq<State<T>>, ts: seq<Step<T>>, k: nat)
    requires Run(L, C, run, ts) && k < |run|
    ensures SameIds(run[k].ops, Open(run, ts, k)) && run[k].outstanding == |Open(run, ts, k)|
    ensures run[k].nextId == run[0].nextId + Begun(ts, k)
  {
    hide Do, Enabled, Reopened, InvDisk, InvHist;
    RunLength(L, C, run, ts);
    RunInv(L, C, run, ts, k);
    if k > 0 {
      hide Run, InvCount;
      OpenExactly(L, C, run, ts, k - 1);
      StepOf(L, C, run, ts, k - 1);
      OpenStep(L, C, run[k - 1], ts[k - 1], Open(run, ts, k - 1));
    }
    assert run[k].outstanding == |run[k].ops| by { CountOps(L, run[k]); }
  }

  lemma {:induction false} CountOps<T(!new)>(L: Layout, s: State<T>)
    requires InvCount(L, s)
    ensures s.outstanding == |s.ops|
  {
  }

  // ---- the header, and what bread returns ----

  ghost predicate Logged<T(!new)>(cur: seq<Rec<T>>, b: nat) { exists r | r in cur :: r.bno == b }

  /** The header lists each block logged since the last commit once, and no other. */
  ghost predicate Listed<T(!new)>(s: State<T>) {
    && (forall i, j | 0 <= i < j < |s.lh| :: s.lh[i] != s.lh[j])
    && (s.phase.Idle? || (s.phase.Committing? && s.phase.k <= |s.lh|) ==>
          forall b: nat :: b in s.lh <==> Logged(s.cur, b))
  }

  lemma {:induction false} ListedLogWrite<T(!new)>(L: Layout, s: State<T>, i: nat, bno: nat, data: T)
    requires Listed(s) && i < |s.ops| && s.phase.Idle?
    ensures Listed(DoLogWrite(L, s, i, bno, data))
  {
    var s', r := DoLogWrite(L, s, i, bno, data), Rec(s.ops[i].id, bno, data);
    if s'.fault == s.fault && s'.cur == s.cur + [r] {
      forall b: nat ensures Logged(s'.cur, b) <==> Logged(s.cur, b) || b == bno {
        assert r in s'.cur;
        if Logged(s.cur, b) {
          var q :| q in s.cur && q.bno == b;
          assert q in s'.cur;
        }
      }
    }
  }

  lemma {:induction false} ListedNone<T(!new)>(s: State<T>)
    requires s.lh == [] && s.cur == []
    ensures Listed(s)
  {
  }

  lemma {:induction false} DoneEmpty<T(!new)>(L: Layout, C: Codec<T>, s: State<T>, t: Step<T>)
    requires InvCount(L, s) && InvDisk(L, C, s) && Enabled(L, C, s, t) && (t.CommitDone? || t.RecoverDone?)
    ensures s.cur == []
  {
    hide ApplyRecs, ApplyGroups, Apply, Rep, CommitSeq, RecoverSeq, Updated, SameHome;
    if t.CommitDone? { FirstListed(s.cur, s.lh); }
  }

  lemma {:induction false} ListedStep<T(!new)>(L: Layout, C: Codec<T>, s: State<T>, t: Step<T>)
    requires InvCount(L, s) && InvDisk(L, C, s) && Listed(s) && Enabled(L, C, s, t)
    ensures Listed(Do(L, C, s, t))
  {
    hide CommitSeq, RecoverSeq, InvDisk;
    match t {
      case LogWrite(i, bno, data) => ListedLogWrite(L, s, i, bno, data);
      case CommitDone => DoneEmpty(L, C, s, t); ListedNone(Do(L, C, s, t));
      case RecoverDone => DoneEmpty(L, C, s, t); ListedNone(Do(L, C, s, t));
      case _ =>
    }
  }

  /** Log absorption: in every run the header lists each block logged since the last commit exactly once. */
  lemma {:induction false} HeaderExact<T(!new)>(L: Layout, C: Codec<T>, run: seq<State<T>>, ts: seq<Step<T>>, k: nat)
    requires Run(L, C, run, ts) && k < |run|
    ensures Listed(run[k])
  {
    hide Do, Enabled, InvDisk, InvHist, InvCount;
    RunLength(L, C, run, ts);
    if k > 0 {
      hide Run, Listed;
      HeaderExact(L, C, run, ts, k - 1);
      StepOf(L, C, run, ts, k - 1);
      ListedStep(L, C, run[k - 1], ts[k - 1]);
    }
  }

  /** bread returns the home blocks as the committed groups and then every log_write since have left them, at once and
      for all: whether or not the blocks have been installed. */
  lemma {:induction false} BreadSees<T(!new)>(L: Layout, C: Codec<T>, run: seq<State<T>>, ts: seq<Step<T>>, k: nat)
    requires Run(L, C, run, ts) && k < |run| && !run[k].phase.Recovering?
    ensures SameHome(L, run[k].view, ApplyRecs(ApplyGroups(run[k].init, run[k].groups), run[k].cur))
  {
    hide ApplyRecs, ApplyGroups, Apply, Rep, CommitSeq, Updated, SameHome, InvHist;
    RunInv(L, C, run, ts, k);
  }

  /** A commit or a recovery that has begun can always go on: it has a next block to write, or is done. */
  lemma {:induction false} GoesOn<T(!new)>(L: Layout, C: Codec<T>, run: seq<State<T>>, ts: seq<Step<T>>, k: nat)
    requires Run(L, C, run, ts) && k < |run| && run[k].fault == NoFault
    ensures run[k].phase.Committing? ==> Enabled(L, C, run[k], CommitIO) != Enabled(L, C, run[k], CommitDone)
    ensures run[k].phase.Recovering? ==> Enabled(L, C, run[k], RecoverIO) != Enabled(L, C, run[k], RecoverDone)
  {
    hide ApplyRecs, ApplyGroups, Apply, CommitSeq, RecoverSeq, RepList, Updated, SameHome, InvHist;
    RunInv(L, C, run, ts, k);
  }

  /** The last end_op starts the commit, of the disk as it is; it writes one block after the other and then lets new
      operations begin. Recovery likewise, and then bread returns what is on the disk. */
  lemma {:induction false} Commits<T(!new)>(L: Layout, C: Codec<T>, s: State<T>, t: Step<T>)
    requires InvCount(L, s) && Enabled(L, C, s, t)
    ensures var s' := Do(L, C, s, t);
            match t
            case End(i) =>
              if |s.ops| == 1 then s'.committing && s'.phase == Committing(0, s.disk) else s'.phase == s.phase
            case CommitIO => s'.phase == Committing(s.phase.k + 1, s.phase.base)
            case CommitDone => !s'.committing && s'.phase.Idle? && s'.disk == s.disk && s'.view == s.view
            case CrashNow => s'.phase == Recovering(0, s.disk) && s'.disk == s.disk
            case RecoverIO => s'.phase == Recovering(s.phase.k + 1, s.phase.base)
            case RecoverDone => s'.phase.Idle? && s'.view == s'.disk == s.disk
            case _ => s'.phase == s.phase && s'.disk == s.disk
  {
    hide CommitSeq, RecoverSeq;
  }
}
