/** What virtio_disk_rw is for: with the contents of buffers and sectors beside the queue, every read brings in the
    sector and every write stores the buffer, whatever else is in flight. */
module DiskTransfer {
  import opened Options
  import opened VirtioDesc
  import opened Virtqueue

  /** The queue, the contents of buffers (b->data) and of disk sectors. */
  datatype Disk<T> = Disk(q: State, data: imap<nat, T>, disk: imap<nat, T>)

  datatype Move<T> =
    | Queue(t: Step)
    | Store(b: nat, x: T)      // code that holds b->lock changes b->data; no request on b is in flight

  ghost predicate Total<T>(s: Disk<T>) { forall i: nat :: i in s.data && i in s.disk }

  ghost predicate Starts<T>(s: Disk<T>) { Init(s.q) && Total(s) }

  ghost predicate Can<T>(s: Disk<T>, m: Move<T>) {
    match m
    case Queue(t) => Enabled(s.q, t)
    case Store(b, x) => b !in s.q.who
  }

  /** The device carries out the request it reads from the chain at h. */
  ghost function Transfer<T>(s: Disk<T>, h: nat): Disk<T>
    requires Total(s)
  {
    match DeviceView(s.q.desc, s.q.ops, h)
    case None => s
    case Some((header, b, mayWrite)) =>
      if header.write then s.(disk := s.disk[header.sector := s.data[b]])
      else if mayWrite then s.(data := s.data[b := s.disk[header.sector]])
      else s
  }

  ghost function Makes<T>(s: Disk<T>, m: Move<T>): Disk<T>
    requires Can(s, m) && Total(s)
  {
    match m
    case Queue(t) => if t.Complete? then Transfer(s, t.h).(q := Do(s.q, t)) else s.(q := Do(s.q, t))
    case Store(b, x) => s.(data := s.data[b := x])
  }

  ghost predicate Runs<T>(ss: seq<Disk<T>>, ms: seq<Move<T>>) {
    && |ss| == |ms| + 1 && Starts(ss[0]) && (forall k | 0 <= k < |ss| :: Total(ss[k]))
    && forall k | 0 <= k < |ms| :: Can(ss[k], ms[k]) && ss[k + 1] == Makes(ss[k], ms[k])
  }

  /** The queue of such a run is one of Virtqueue's states. */
  lemma {:induction false} QueueInv<T>(ss: seq<Disk<T>>, ms: seq<Move<T>>, k: nat)
    requires Runs(ss, ms) && k < |ss|
    ensures Inv(ss[k].q)
  {
    hide Inv, Do, Enabled, DeviceView;
    if k == 0 {
      InitInv(ss[0].q);
    } else {
      QueueInv(ss, ms, k - 1);
      if ms[k - 1].Queue? { StepInv(ss[k - 1].q, ms[k - 1].t); }
    }
  }

  /** A completion carries out the request as it was submitted, and touches nothing else. */
  lemma {:induction false} CompleteExact<T>(s: Disk<T>, h: nat)
    requires Inv(s.q) && Total(s) && Can(s, Queue(Complete(h)))
    ensures h in s.q.reqs && var r, s' := s.q.reqs[h], Makes(s, Queue(Complete(h)));
            if r.write then s'.disk == s.disk[r.sector := s.data[r.b]] && s'.data == s.data
            else s'.data == s.data[r.b := s.disk[r.sector]] && s'.disk == s.disk
  {
    hide InvDesc, InvBufs, RingOk, DeviceView;
    ReqView(s.q, h);
  }

  /** virtio_disk_rw(b, write) by descriptor h is under way, from step j on. */
  ghost predicate Submitted<T>(ss: seq<Disk<T>>, ms: seq<Move<T>>, j: nat, k: nat, r: Req, h: nat)
    requires Runs(ss, ms) && j < k < |ss|
  {
    && ms[j] == Queue(Fill(r.b, r.write, r.sector, h, r.d1, r.d2))
    && forall m | j < m < k :: ms[m] != Queue(Finish(h))
  }

  lemma {:induction false} StillThere(s: State, t: Step, h: nat)
    requires Inv(s) && Enabled(s, t) && h in s.reqs && t != Finish(h)
    ensures h in Do(s, t).reqs && Do(s, t).reqs[h] == s.reqs[h]
  {
    hide Inv;
    OwnedBy(s, h);
  }

  lemma {:induction false} Filled(s: State, t: Step)
    requires Enabled(s, t) && t.Fill?
    ensures t.i0 in Do(s, t).reqs && Do(s, t).reqs[t.i0] == Req(t.b, t.write, t.sector, t.i1, t.i2)
  {
  }

  lemma {:induction false} RequestKept<T>(ss: seq<Disk<T>>, ms: seq<Move<T>>, j: nat, k: nat, r: Req, h: nat)
    requires Runs(ss, ms) && j < k < |ss| && Submitted(ss, ms, j, k, r, h)
    ensures h in ss[k].q.reqs && ss[k].q.reqs[h] == r
    decreases k
  {
    hide Inv, Enabled, Do, DeviceView, Transfer;
    if k == j + 1 {
      Filled(ss[j].q, ms[j].t);
    } else {
      RequestKept(ss, ms, j, k - 1, r, h);
      QueueInv(ss, ms, k - 1);
      if ms[k - 1].Queue? { StillThere(ss[k - 1].q, ms[k - 1].t, h); }
    }
  }

  // ---- how far a request is ----

  function PhaseOf(s: State, h: nat): Option<Phase> { if h in s.phase then Some(s.phase[h]) else None }

  /** The request a step is for, and the phase it comes to. */
  function Turn(s: State, t: Step): Option<nat> {
    match t
    case Fill(b, write, sector, i0, i1, i2) => Some(i0)
    case Publish => s.filling
    case Fetch => if s.avq == [] then None else Some(s.avq[0])
    case Complete(h) => Some(h)
    case Intr => if s.doneq == [] then None else Some(s.doneq[0])
    case Finish(h) => Some(h)
  }

  function Comes(t: Step): Option<Phase> {
    match t
    case Fill(b, write, sector, i0, i1, i2) => Some(Filling)
    case Publish => Some(Queued)
    case Fetch => Some(Working)
    case Complete(h) => Some(Done)
    case Intr => Some(Seen)
    case Finish(h) => None
  }

  /** Each step takes the oldest request of its kind one phase further, and leaves all others where they are. */
  lemma {:induction false} Advances(s: State, t: Step, g: nat)
    requires Inv(s) && Enabled(s, t)
    ensures Turn(s, t).Some? && PhaseOf(Do(s, t), g) == if Turn(s, t) == Some(g) then Comes(t) else PhaseOf(s, g)
  {
    hide Inv;
    match t {
      case Fetch => FetchInv(s);
      case Intr => IntrInv(s);
      case _ =>
    }
  }

  /** From which phase. */
  lemma {:induction false} ComesFrom(s: State, t: Step)
    requires Inv(s) && Enabled(s, t) && Turn(s, t).Some?
    ensures PhaseOf(s, Turn(s, t).value) == match t
            case Fill(b, write, sector, i0, i1, i2) => None
            case Publish => Some(Filling)
            case Fetch => Some(Queued)
            case Complete(h) => Some(Working)
            case Intr => Some(Done)
            case Finish(h) => Some(Seen)
  {
    hide InvBufs, InvDesc, RingOk;
    match t {
      case Fill(b, write, sector, i0, i1, i2) => if i0 in s.reqs { OwnedBy(s, i0); }
      case Fetch => FetchInv(s); assert s.avq[0] in s.avq;
      case Intr => IntrInv(s); assert s.doneq[0] in s.doneq;
      case _ =>
    }
  }

  /** No request is stuck: in whatever phase it is, the step that takes a request of that phase further can be taken. */
  lemma {:induction false} NoneStuck(ss: seq<State>, ts: seq<Step>, k: nat, h: nat)
    requires Run(ss, ts) && k < |ss| && h in ss[k].reqs
    ensures h in ss[k].phase && var s := ss[k];
            match s.phase[h]
            case Filling => Enabled(s, Publish)
            case Queued => Enabled(s, Fetch)
            case Working => Enabled(s, Complete(h))
            case Done => s.filling == None ==> Enabled(s, Intr)
            case Seen => s.filling == None ==> Enabled(s, Finish(h))
  {
    hide InvBufs, InvDesc, RingOk;
    RunInv(ss, ts, k);
    var s := ss[k];
    ChainIntact(ss, ts, k, h);
    RingRoom(s);
    match s.phase[h] {
      case Queued => QueueMoves(s.ring, s.devIdx, s.avail, s.ds, s.av, s.avq, s.phase, h);
      case Done =>
        QueueMoves(s.used, s.seenIdx, s.usedIdx, s.ui, s.us, s.doneq, s.phase, h);
        if s.filling == None { CompletionExact(ss, ts, k); }
      case _ =>
    }
  }

  lemma {:induction false} QueueMoves(ring: seq<nat>, lo16: nat, hi16: nat, from: nat, to: nat, q: seq<nat>,
                                      phase: map<nat, Phase>, h: nat)
    requires RingOk(ring, lo16, hi16, from, to, q, phase) && h in q && |q| <= NUM
    ensures lo16 != hi16
  {
    Wrap(to, from);
  }

  // ---- reads and writes ----

  /** The contents of a request's buffer change by its own completion only. */
  lemma {:induction false} BufferKept<T>(s: Disk<T>, m: Move<T>, h: nat)
    requires Inv(s.q) && Total(s) && Can(s, m) && h in s.q.reqs && m != Queue(Complete(h))
    ensures s.q.reqs[h].b in Makes(s, m).data && Makes(s, m).data[s.q.reqs[h].b] == s.data[s.q.reqs[h].b]
  {
    if m.Queue? && m.t.Complete? { CompleteExact(s, m.t.h); }
    hide InvDesc, RingOk, InvPhase, DeviceView;
    assert s.q.reqs[h].b in s.q.who && s.q.who[s.q.reqs[h].b] == h;
    if m.Queue? && m.t.Complete? { assert s.q.who[s.q.reqs[m.t.h].b] == m.t.h; }
  }

  /** What has come of a request by step k: not carried out, and its buffer as it was; or carried out once, at step
      m. */
  ghost predicate Outcome<T>(ss: seq<Disk<T>>, ms: seq<Move<T>>, j: nat, k: nat, r: Req, h: nat, done: Option<nat>)
    requires Runs(ss, ms) && j < k < |ss|
  {
    && h in ss[k].q.phase && (done.Some? <==> ss[k].q.phase[h] == Done || ss[k].q.phase[h] == Seen)
    && (forall m | j < m < k && ms[m] == Queue(Complete(h)) :: done == Some(m))
    && (done == None ==> ss[k].data[r.b] == ss[j].data[r.b])
    && (done.Some? ==>
          && j < done.value < k && ms[done.value] == Queue(Complete(h))
          && if r.write then ss[done.value + 1].disk[r.sector] == ss[j].data[r.b] && ss[k].data[r.b] == ss[j].data[r.b]
             else ss[k].data[r.b] == ss[done.value].disk[r.sector])
  }

  /** One step of it. */
  lemma {:induction false} OutcomeStep<T>(ss: seq<Disk<T>>, ms: seq<Move<T>>, j: nat, k: nat, r: Req, h: nat,
                                          done: Option<nat>)
    returns (done': Option<nat>)
    requires Runs(ss, ms) && j < k < |ms| && Submitted(ss, ms, j, k + 1, r, h) && Outcome(ss, ms, j, k, r, h, done)
    ensures Outcome(ss, ms, j, k + 1, r, h, done')
  {
    hide Inv, Enabled, Do, DeviceView, Transfer;
    QueueInv(ss, ms, k);
    RequestKept(ss, ms, j, k, r, h);
    var s, m := ss[k], ms[k];
    if m == Queue(Complete(h)) {
      ComesFrom(s.q, m.t);
      Advances(s.q, m.t, h);
      CompleteExact(s, h);
      done' := Some(k);
    } else {
      BufferKept(s, m, h);
      if m.Queue? {
        Advances(s.q, m.t, h);
        if Turn(s.q, m.t) == Some(h) { ComesFrom(s.q, m.t); }
      }
      done' := done;
    }
  }

  lemma {:induction false} OutcomeStart<T>(ss: seq<Disk<T>>, ms: seq<Move<T>>, j: nat, r: Req, h: nat)
    requires Runs(ss, ms) && j < |ms| && Submitted(ss, ms, j, j + 1, r, h)
    ensures Outcome(ss, ms, j, j + 1, r, h, None)
  {
    hide Inv, Enabled, DeviceView;
    QueueInv(ss, ms, j);
    Advances(ss[j].q, ms[j].t, h);
  }

  lemma {:induction false} Tracked<T>(ss: seq<Disk<T>>, ms: seq<Move<T>>, j: nat, k: nat, r: Req, h: nat)
    returns (done: Option<nat>)
    requires Runs(ss, ms) && j < k < |ss| && Submitted(ss, ms, j, k, r, h)
    ensures Outcome(ss, ms, j, k, r, h, done)
    decreases k
  {
    hide Runs, Outcome;
    Length(ss, ms);
    if k == j + 1 {
      OutcomeStart(ss, ms, j, r, h);
      done := None;
    } else {
      done := Tracked(ss, ms, j, k - 1, r, h);
      done := OutcomeStep(ss, ms, j, k - 1, r, h, done);
    }
  }

  lemma {:induction false} Length<T>(ss: seq<Disk<T>>, ms: seq<Move<T>>)
    requires Runs(ss, ms)
    ensures |ss| == |ms| + 1
  {
  }

  /** virtio_disk_rw, from its submission at step j to its return at step k, whatever other requests are in flight: the
      device has carried it out exactly once, at some step m in between. A write has then stored in the sector what the
      buffer held when it was submitted; after a read the buffer holds what the sector held at step m. */
  lemma {:induction false} RwReturns<T>(ss: seq<Disk<T>>, ms: seq<Move<T>>, j: nat, k: nat, r: Req, h: nat)
    returns (m: nat)
    requires Runs(ss, ms) && j < k < |ms| && Submitted(ss, ms, j, k, r, h) && ms[k] == Queue(Finish(h))
    ensures j < m < k && ms[m] == Queue(Complete(h)) && forall i | j < i < k && ms[i] == Queue(Complete(h)) :: i == m
    ensures Total(ss[j]) && Total(ss[m]) && Total(ss[m + 1]) && Total(ss[k])
    ensures if r.write then ss[m + 1].disk[r.sector] == ss[j].data[r.b] == ss[k].data[r.b]
            else ss[k].data[r.b] == ss[m].disk[r.sector]
  {
    hide Inv, Enabled, Do, DeviceView;
    var done := Tracked(ss, ms, j, k, r, h);
    QueueInv(ss, ms, k);
    ComesFrom(ss[k].q, Finish(h));
    m := done.value;
  }
}
