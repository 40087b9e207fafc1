/** The buffer cache told from the history of a run: which buffer bget recycles, what bread returns, which blocks are
    pinned and what is on the disk, each a function of the steps taken. */
module CacheHistory {
  import opened Options
  import opened BufferRing
  import opened CacheCoherence

  /** Step t uses block x. */
  predicate On<T>(s: State<T>, t: Step<T>, x: nat) {
    (t.Modify? || t.LogWrite? || t.Bwrite? || t.Unpin?) && t.r < |s.refs| && s.refs[t.r].bno == x
  }

  /** Step t is the brelse that drops the last reference to buffer b. */
  predicate Frees<T>(s: State<T>, t: Step<T>, b: nat) {
    t.Drop? && t.r < |s.refs| && s.refs[t.r].b == b < |s.c.buf| && s.c.buf[b].refcnt == 1
  }

  // ---- least recently used ----

  /** When buffer b was last let go of; those that never were come before all others, in the order of their number. */
  ghost function Age<T>(run: seq<State<T>>, ts: seq<Step<T>>, k: nat, b: nat): (a: int)
    requires Run(run, ts) && k < |run| && b < NBUF
    ensures a < k
  {
    if k == 0 then b - NBUF else if Frees(run[k - 1], ts[k - 1], b) then k - 1 else Age(run, ts, k - 1, b)
  }

  ghost predicate ByAge<T>(run: seq<State<T>>, ts: seq<Step<T>>, k: nat)
    requires Run(run, ts) && k < |run|
  {
    forall x: nat, y: nat | x < NBUF && y < NBUF && Before(run[k].c.ring, x, y) ::
      Age(run, ts, k, x) > Age(run, ts, k, y)
  }

  /** What a step does to the ring. */
  lemma {:induction false} RingStep<T>(s: State<T>, t: Step<T>)
    requires Inv(s) && Enabled(s, t)
    ensures forall b: nat | b < NBUF && Frees(s, t, b) :: UsedLast(s.c.ring, Do(s, t).c.ring, b)
    ensures (forall b: nat | b < NBUF :: !Frees(s, t, b)) ==> Do(s, t).c.ring == s.c.ring
  {
    hide InvRefs, InvData, UsedLast, Released, Distinct;
    if t.Drop? {
      ReleasedOrder(s.c, s.refs[t.r].b);
      assert s.c.buf[s.refs[t.r].b].refcnt == 1 ==> Frees(s, t, s.refs[t.r].b);
    }
    if t.Bget? { GetFails(s.c, DEV, t.bno, Some(t.b), t.c'); }
  }

  lemma {:induction false} NotBeforeFirst(ring: seq<nat>, x: nat, y: nat)
    requires Distinct(ring) && Before(ring, x, y)
    ensures x != y && ring[0] != y
  {
  }

  lemma {:induction false} RingByAge<T>(run: seq<State<T>>, ts: seq<Step<T>>, k: nat)
    requires Run(run, ts) && k < |run|
    ensures ByAge(run, ts, k)
  {
    hide Before, Do, Enabled;
    RunInv(run, ts, k);
    if k == 0 {
      forall x: nat, y: nat | x < NBUF && y < NBUF && Before(run[0].c.ring, x, y) ensures x > y {
        FirstOrder(run[0], x, y);
      }
    } else {
      RingByAge(run, ts, k - 1);
      RunInv(run, ts, k - 1);
      var s, t := run[k - 1], ts[k - 1];
      RingStep(s, t);
      forall x: nat, y: nat | x < NBUF && y < NBUF && Before(run[k].c.ring, x, y)
        ensures Age(run, ts, k, x) > Age(run, ts, k, y)
      {
        NotBeforeFirst(run[k].c.ring, x, y);
        if b: nat :| b < NBUF && Frees(s, t, b) { assert UsedLast(s.c.ring, run[k].c.ring, b); }
      }
    }
  }

  lemma {:induction false} FirstOrder<T>(s: State<T>, x: nat, y: nat)
    requires Init(s) && Before(s.c.ring, x, y)
    ensures x > y
  {
  }

  /** bget recycles the least recently used buffer: in every run, if the block is not cached, the buffer taken has no
      references, and of all those without it is the one let go of longest ago. */
  lemma {:induction false} RecyclesOldest<T>(run: seq<State<T>>, ts: seq<Step<T>>, k: nat, x: nat)
    requires Run(run, ts) && k < |ts| && ts[k].Bget? && x < NBUF && |run[k].c.buf| == NBUF
    requires forall b: nat | b < NBUF :: !Holds(run[k].c.buf[b], DEV, ts[k].bno)
    ensures ts[k].b < NBUF && run[k].c.buf[ts[k].b].refcnt == 0
    ensures x != ts[k].b && run[k].c.buf[x].refcnt == 0 ==> Age(run, ts, k, ts[k].b) < Age(run, ts, k, x)
  {
    hide Age;
    RunInv(run, ts, k);
    RingByAge(run, ts, k);
    var c, b := run[k].c, ts[k].b;
    assert Enabled(run[k], ts[k]);
    if x != b && c.buf[x].refcnt == 0 { OlderLast(c, ts[k].bno, b, ts[k].c', x); }
  }

  lemma {:induction false} OlderLast(c: Cache, bno: nat, b: nat, c': Cache, x: nat)
    requires Wf(c) && IsGet(c, DEV, bno, Some(b), c') && x < NBUF && x != b && c.buf[x].refcnt == 0
    requires forall b: nat | b < NBUF :: !Holds(c.buf[b], DEV, bno)
    ensures Before(c.ring, x, b)
  {
    assert x in c.ring;
    var j :| 0 <= j < NBUF && c.ring[j] == x;
    assert exists i :: 0 <= i < NBUF && c.buf[c.ring[i]].refcnt == 0;
    var k :| 0 <= k < NBUF && c.ring[k] == b && forall i | k < i < NBUF :: c.buf[c.ring[i]].refcnt != 0;
  }

  // ---- contents ----

  /** The contents of every block as the last change left them, whoever made it and wherever they are now. */
  ghost function Contents<T>(run: seq<State<T>>, ts: seq<Step<T>>, k: nat): seq<T>
    requires Run(run, ts) && k < |run|
  {
    if k == 0 then run[0].disk else Stored(Contents(run, ts, k - 1), run[k - 1], ts[k - 1])
  }

  function Stored<T>(cur: seq<T>, s: State<T>, t: Step<T>): (r: seq<T>)
    ensures |r| == |cur|
  {
    if t.Modify? && t.r < |s.refs| && s.refs[t.r].bno < |cur| then cur[s.refs[t.r].bno := t.x] else cur
  }

  /** A block with a log_write and no bunpin since. */
  ghost function Logged<T>(run: seq<State<T>>, ts: seq<Step<T>>, k: nat, x: nat): bool
    requires Run(run, ts) && k < |run|
  {
    k > 0 && if ts[k - 1].LogWrite? && On(run[k - 1], ts[k - 1], x) then true
             else !(ts[k - 1].Unpin? && On(run[k - 1], ts[k - 1], x)) && Logged(run, ts, k - 1, x)
  }

  /** The disk, with each bwrite's block as its contents were at that time. */
  ghost function Disk<T>(run: seq<State<T>>, ts: seq<Step<T>>, k: nat): seq<T>
    requires Run(run, ts) && k < |run|
  {
    if k == 0 then run[0].disk
    else Flushed(Disk(run, ts, k - 1), Contents(run, ts, k - 1), run[k - 1], ts[k - 1])
  }

  function Flushed<T>(disk: seq<T>, cur: seq<T>, s: State<T>, t: Step<T>): seq<T> {
    if t.Bwrite? && t.r < |s.refs| && s.refs[t.r].bno < |disk| == |cur|
    then disk[s.refs[t.r].bno := cur[s.refs[t.r].bno]] else disk
  }

  /** A valid buffer holds the contents of its block; those of a block in no valid buffer were logged or written. */
  ghost predicate InvCur<T>(s: State<T>, cur: seq<T>)
    requires Inv(s)
  {
    && |cur| == |s.disk|
    && (forall b: nat | b < NBUF && s.c.buf[b].dev == DEV && s.c.buf[b].valid :: s.data[b] == cur[s.c.buf[b].blockno])
    && (forall x: nat | x < |cur| && !CachedBy(s.c.buf, x) :: s.view[x] == cur[x])
  }

  /** The same blocks, whatever the references. */
  predicate SameHeld(buf: seq<Buf>, buf': seq<Buf>) {
    && |buf| == |buf'|
    && forall b | 0 <= b < |buf| ::
         buf'[b].dev == buf[b].dev && buf'[b].blockno == buf[b].blockno && buf'[b].valid == buf[b].valid
  }

  lemma {:induction false} CachedSame(buf: seq<Buf>, buf': seq<Buf>, x: nat)
    requires SameHeld(buf, buf') && CachedBy(buf, x)
    ensures CachedBy(buf', x)
  {
    var b: nat :| b < |buf| && Holds(buf[b], DEV, x) && buf[b].valid;
    assert Holds(buf'[b], DEV, x) && buf'[b].valid;
  }

  /** Steps that change neither data nor what the buffers hold. */
  lemma {:induction false} CurSame<T>(s: State<T>, s': State<T>, cur: seq<T>)
    requires Inv(s) && Inv(s') && InvCur(s, cur) && s'.data == s.data && |s'.disk| == |s.disk|
    requires SameHeld(s.c.buf, s'.c.buf)
    requires forall x: nat | x < |cur| && !CachedBy(s.c.buf, x) :: s'.view[x] == s.view[x]
    ensures InvCur(s', cur)
  {
    hide InvRefs, CachedBy;
    forall x: nat | x < |cur| && !CachedBy(s'.c.buf, x) ensures s'.view[x] == cur[x] {
      if CachedBy(s.c.buf, x) { CachedSame(s.c.buf, s'.c.buf, x); }
    }
  }

  /** A block uncached and not pinned: the disk has its contents. */
  lemma {:induction false} UncachedOnDisk<T>(s: State<T>, cur: seq<T>, x: nat)
    requires Inv(s) && InvCur(s, cur) && x < |cur| && !CachedBy(s.c.buf, x)
    ensures s.disk[x] == s.view[x] == cur[x]
  {
    hide InvRefs;
    assert x in s.pins ==> CachedBy(s.c.buf, x);
  }

  /** The buffer a thread refers to is the only one with its block. */
  lemma {:induction false} OnlyBuffer<T>(s: State<T>, r: nat, b: nat)
    requires Inv(s) && r < |s.refs| && b < NBUF && Holds(s.c.buf[b], DEV, s.refs[r].bno)
    ensures b == s.refs[r].b
  {
  }

  lemma {:induction false} CurModify<T>(s: State<T>, t: Step<T>, cur: seq<T>)
    requires Inv(s) && Enabled(s, t) && t.Modify? && InvCur(s, cur) && Inv(Do(s, t))
    ensures InvCur(Do(s, t), Stored(cur, s, t))
  {
    hide InvRefs, CachedBy;
    var b, bno, s', cur' := s.refs[t.r].b, s.refs[t.r].bno, Do(s, t), Stored(cur, s, t);
    HeldBlock(s, t.r);
    assert CachedBy(s.c.buf, bno) by { Cached(s.c.buf, b, bno); }
    forall i: nat | i < NBUF && s'.c.buf[i].dev == DEV && s'.c.buf[i].valid
      ensures s'.data[i] == cur'[s'.c.buf[i].blockno]
    {
      if s.c.buf[i].blockno == bno { OnlyBuffer(s, t.r, i); }
    }
  }

  lemma {:induction false} Cached(buf: seq<Buf>, b: nat, x: nat)
    requires b < |buf| && Holds(buf[b], DEV, x) && buf[b].valid
    ensures CachedBy(buf, x)
  {
  }

  lemma {:induction false} CurLoad<T>(s: State<T>, r: nat, cur: seq<T>)
    requires Inv(s) && Enabled(s, Load(r)) && InvCur(s, cur) && Inv(DoLoad(s, r))
    ensures InvCur(DoLoad(s, r), cur)
  {
    hide InvRefs;
    var b, bno, s' := s.refs[r].b, s.refs[r].bno, DoLoad(s, r);
    HeldBlock(s, r);
    forall i: nat | i < NBUF && Holds(s.c.buf[i], DEV, bno) ensures i == b { OnlyBuffer(s, r, i); }
    UncachedOnDisk(s, cur, bno);
    forall x: nat | x < |cur| && !CachedBy(s'.c.buf, x) ensures !CachedBy(s.c.buf, x) {
      if i: nat :| i < |s.c.buf| && Holds(s.c.buf[i], DEV, x) && s.c.buf[i].valid { Cached(s'.c.buf, i, x); }
    }
  }

  /** A recycled buffer's block was logged or written as the buffer had it. */
  lemma {:induction false} CurRecycle<T>(s: State<T>, s': State<T>, b: nat, cur: seq<T>)
    requires Inv(s) && InvCur(s, cur) && Inv(s') && b < NBUF && s.c.buf[b].refcnt == 0
    requires s'.c.buf == s.c.buf[b := s'.c.buf[b]] && !s'.c.buf[b].valid
    requires s'.data == s.data && s'.disk == s.disk && s'.view == s.view
    ensures InvCur(s', cur)
  {
    assert s.lk[b].Free? by { HoldersLe(s.refs, b); }
    hide InvRefs;
    forall x: nat | x < |cur| && !CachedBy(s'.c.buf, x) ensures s'.view[x] == cur[x] {
      if i: nat :| i < |s.c.buf| && Holds(s.c.buf[i], DEV, x) && s.c.buf[i].valid {
        if i != b { Cached(s'.c.buf, i, x); } else { assert BufOk(s.c.buf[b], s.data[b], s.lk[b], s.disk, s.view); }
      }
    }
  }

  lemma {:induction false} CurBget<T>(s: State<T>, t: Step<T>, cur: seq<T>)
    requires Inv(s) && Enabled(s, t) && t.Bget? && InvCur(s, cur) && Inv(Do(s, t))
    ensures InvCur(Do(s, t), cur)
  {
    hide InvRefs, InvData, InvCur;
    var c, c' := s.c, t.c';
    if exists i :: 0 <= i < NBUF && Holds(c.buf[c.ring[i]], DEV, t.bno) { CurSame(s, Do(s, t), cur); }
    else { CurRecycle(s, Do(s, t), t.b, cur); }
  }

  lemma {:induction false} CurWrite<T>(s: State<T>, t: Step<T>, cur: seq<T>)
    requires Inv(s) && Enabled(s, t) && (t.LogWrite? || t.Bwrite?) && InvCur(s, cur) && Inv(Do(s, t))
    ensures InvCur(Do(s, t), cur)
  {
    hide InvRefs, InvData, CachedBy;
    HeldBlock(s, t.r);
    Cached(s.c.buf, s.refs[t.r].b, s.refs[t.r].bno);
    CurSame(s, Do(s, t), cur);
  }

  lemma {:induction false} CurStep<T>(s: State<T>, t: Step<T>, cur: seq<T>)
    requires Inv(s) && Enabled(s, t) && InvCur(s, cur) && Inv(Do(s, t))
    ensures InvCur(Do(s, t), Stored(cur, s, t))
  {
    hide InvRefs, InvData, CachedBy, InvCur, IsGet;
    match t {
      case Bget(bno, b, c') => CurBget(s, t, cur);
      case Load(r) => CurLoad(s, r, cur);
      case Modify(r, x) => CurModify(s, t, cur);
      case LogWrite(r) => CurWrite(s, t, cur);
      case Bwrite(r) => CurWrite(s, t, cur);
      case _ => CurSame(s, Do(s, t), cur);
    }
  }

  lemma {:induction false} ContentsInv<T>(run: seq<State<T>>, ts: seq<Step<T>>, k: nat)
    requires Run(run, ts) && k < |run|
    ensures Inv(run[k]) && InvCur(run[k], Contents(run, ts, k))
  {
    hide Inv, Do, Enabled, InvCur;
    RunInv(run, ts, k);
    if k == 0 { CurInit(run[0]); } else {
      ContentsInv(run, ts, k - 1);
      CurStep(run[k - 1], ts[k - 1], Contents(run, ts, k - 1));
    }
  }

  lemma {:induction false} CurInit<T>(s: State<T>)
    requires Init(s) && Inv(s)
    ensures InvCur(s, s.disk)
  {
  }

  /** bread returns the latest contents: in every run, a thread that holds a valid buffer finds in it what the last
      change of its block stored, whatever was cached, recycled, written or logged since; if the buffer is not valid
      yet, that is on the disk. */
  lemma {:induction false} BreadLatest<T>(run: seq<State<T>>, ts: seq<Step<T>>, k: nat, r: nat)
    requires Run(run, ts) && k < |run| && r < |run[k].refs|
    ensures var s, b, bno := run[k], run[k].refs[r].b, run[k].refs[r].bno;
            && b < |s.c.buf| && b < |s.data| && bno < |s.disk| == |Contents(run, ts, k)|
            && (if s.c.buf[b].valid then s.data[b] else s.disk[bno]) == Contents(run, ts, k)[bno]
  {
    hide Contents, InvRefs;
    ContentsInv(run, ts, k);
    HeldBlock(run[k], r);
    var s, b, bno := run[k], run[k].refs[r].b, run[k].refs[r].bno;
    if !s.c.buf[b].valid {
      forall i: nat | i < NBUF && Holds(s.c.buf[i], DEV, bno) ensures i == b { OnlyBuffer(s, r, i); }
      UncachedOnDisk(s, Contents(run, ts, k), bno);
    }
  }

  // ---- pins and the disk ----

  lemma {:induction false} PinStep<T>(s: State<T>, t: Step<T>, x: nat)
    requires Inv(s) && Enabled(s, t)
    ensures x in Do(s, t).pins <==> (t.LogWrite? && On(s, t, x)) || (!(t.Unpin? && On(s, t, x)) && x in s.pins)
  {
    hide InvRefs, IsGet, Released;
    if t.Unpin? { assert forall p :: p in s.pins <==> p == s.pins[0] || p in s.pins[1..]; }
  }

  /** A block is pinned exactly from log_write until bunpin. */
  lemma {:induction false} PinnedExactly<T>(run: seq<State<T>>, ts: seq<Step<T>>, k: nat, x: nat)
    requires Run(run, ts) && k < |run|
    ensures x in run[k].pins <==> Logged(run, ts, k, x)
  {
    hide Inv, Do, Enabled, On;
    if k > 0 {
      PinnedExactly(run, ts, k - 1, x);
      RunInv(run, ts, k - 1);
      PinStep(run[k - 1], ts[k - 1], x);
    }
  }

  lemma {:induction false} DiskStep<T>(s: State<T>, t: Step<T>, cur: seq<T>)
    requires Inv(s) && Enabled(s, t) && InvCur(s, cur)
    ensures Do(s, t).disk == Flushed(s.disk, cur, s, t)
  {
    hide InvRefs, IsGet, Released;
    if t.Bwrite? { HeldBlock(s, t.r); }
  }

  /** The disk holds each block as the last bwrite found it. */
  lemma {:induction false} DiskExactly<T>(run: seq<State<T>>, ts: seq<Step<T>>, k: nat)
    requires Run(run, ts) && k < |run|
    ensures run[k].disk == Disk(run, ts, k)
  {
    hide Inv, Do, Enabled, InvCur, Contents, Flushed;
    if k > 0 {
      DiskExactly(run, ts, k - 1);
      ContentsInv(run, ts, k - 1);
      DiskStep(run[k - 1], ts[k - 1], Contents(run, ts, k - 1));
    }
  }

  ghost predicate Unlogged<T>(s: State<T>, x: nat) {
    exists b: nat :: b < |s.c.buf| && b < |s.lk| && Holds(s.c.buf[b], DEV, x) && s.lk[b].Taken? && s.lk[b].dirty
  }

  /** Nothing is forgotten: a block whose contents are not on the disk is pinned by the log, or a thread holds its
      buffer and has yet to log or write its change. */
  lemma {:induction false} NothingForgotten<T>(run: seq<State<T>>, ts: seq<Step<T>>, k: nat, x: nat)
    requires Run(run, ts) && k < |run| && x < |run[k].disk|
    ensures |Contents(run, ts, k)| == |run[k].disk|
    ensures run[k].disk[x] != Contents(run, ts, k)[x] ==> Logged(run, ts, k, x) || Unlogged(run[k], x)
  {
    hide Contents, InvRefs, Logged, On;
    ContentsInv(run, ts, k);
    PinnedExactly(run, ts, k, x);
    var s, cur := run[k], Contents(run, ts, k);
    if b: nat :| b < |s.c.buf| && Holds(s.c.buf[b], DEV, x) && s.c.buf[b].valid {
      assert BufOk(s.c.buf[b], s.data[b], s.lk[b], s.disk, s.view);
    } else {
      UncachedOnDisk(s, cur, x);
    }
  }

  /** What becomes of the references: bget adds one to a buffer with the block, acquiresleep gives it the lock, brelse
      gives up the lock and then the reference. Loading makes the buffer valid. */
  lemma {:induction false} RefsStep<T>(s: State<T>, t: Step<T>)
    requires Inv(s) && Enabled(s, t)
    ensures var s' := Do(s, t);
            match t
            case Bget(bno, b, c') => s'.refs == s.refs + [Ref(b, bno, Waiting)] && b < |s'.c.buf|
              && Holds(s'.c.buf[b], DEV, bno)
            case Acquire(r) => s'.refs == SetUse(s.refs, r, Holding) && s'.lk[s.refs[r].b].Taken?
            case Unlock(r) => s'.refs == SetUse(s.refs, r, Dropping) && s'.lk[s.refs[r].b].Free?
            case Drop(r) => s'.refs == s.refs[..r] + s.refs[r + 1..]
            case Load(r) => s'.refs == s.refs && s'.c.buf[s.refs[r].b].valid
            case _ => s'.refs == s.refs
  {
    hide InvRefs, InvData, Released;
    if t.Bget? { GetFails(s.c, DEV, t.bno, Some(t.b), t.c'); }
  }
}
