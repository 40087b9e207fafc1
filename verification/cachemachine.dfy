/** Coherence of the buffer cache in every interleaving: any number of kernel threads call
    bread, bwrite, log_write, bunpin and brelse on one device, at the granularity of one critical
    section, one disk transfer or one change of a locked buffer. */
module CacheCoherence {
  import opened Options
  import opened BufferRing

  const DEV := 1  // ROOTDEV; fresh buffers carry device 0

  /** Where a thread is with a buffer it got from bget. */
  datatype Use = Waiting | Holding | Dropping  // in acquiresleep; holds b->lock; in brelse, after releasesleep
  datatype Ref = Ref(b: nat, bno: nat, use: Use)

  /** b->lock, and what its holder has done: changed the buffer without logging or writing it
      yet; written it with bwrite since the last change. */
  datatype Lock = Free | Taken(dirty: bool, written: bool)

  datatype State<T> = State(
    c: Cache,
    data: seq<T>,      // b->data
    lk: seq<Lock>,
    refs: seq<Ref>,
    disk: seq<T>,
    pins: seq<nat>,    // log.lh.block, without those install_trans has unpinned
    view: seq<T>)      // the latest contents logged or written, for each block

  /** How many threads refer to buffer b; how many of them hold its lock. */
  function Count(refs: seq<Ref>, b: nat): nat {
    if refs == [] then 0 else Count(refs[..|refs| - 1], b) + if refs[|refs| - 1].b == b then 1 else 0
  }

  function Holders(refs: seq<Ref>, b: nat): nat {
    if refs == [] then 0
    else Holders(refs[..|refs| - 1], b) + if refs[|refs| - 1].b == b && refs[|refs| - 1].use == Holding then 1 else 0
  }

  predicate Pinned(b: Buf, pins: seq<nat>) { b.dev == DEV && b.blockno in pins }

  ghost predicate Init<T>(s: State<T>) {
    && Wf(s.c) && |s.data| == |s.lk| == NBUF
    && (forall b | 0 <= b < NBUF :: s.c.buf[b] == Buf(false, 0, 0, 0) && s.lk[b] == Free)  // as binit leaves them
    && (forall i | 0 <= i < NBUF :: s.c.ring[i] == NBUF - 1 - i)
    && s.pins == [] && s.refs == [] && s.view == s.disk
  }

  datatype Step<T> =
    | Bget(bno: nat, b: nat, c': Cache) | Acquire(r: nat) | Load(r: nat) | Modify(r: nat, x: T)
    | LogWrite(r: nat) | Bwrite(r: nat) | Unpin(r: nat) | Unlock(r: nat) | Drop(r: nat)

  predicate Sized<T>(s: State<T>) {
    && |s.c.buf| == |s.data| == |s.lk| == NBUF && |s.disk| == |s.view|
    && forall r | 0 <= r < |s.refs| :: s.refs[r].b < NBUF && s.refs[r].bno < |s.disk|
  }

  /** Thread r holds the lock of its buffer. */
  predicate Has<T>(s: State<T>, r: nat)
    requires Sized(s)
  {
    r < |s.refs| && s.refs[r].use == Holding && s.lk[s.refs[r].b].Taken?
  }

  ghost predicate Enabled<T>(s: State<T>, t: Step<T>) {
    && Sized(s)
    && match t
       case Bget(bno, b, c') => Wf(s.c) && bno < |s.disk| && IsGet(s.c, DEV, bno, Some(b), c')
       case Acquire(r) => r < |s.refs| && s.refs[r].use == Waiting && s.lk[s.refs[r].b].Free?
       case Load(r) => Has(s, r) && !s.c.buf[s.refs[r].b].valid
       case Modify(r, x) => Has(s, r) && s.c.buf[s.refs[r].b].valid
       case LogWrite(r) => Has(s, r) && s.c.buf[s.refs[r].b].valid
       case Bwrite(r) => Has(s, r) && s.c.buf[s.refs[r].b].valid
       // install_trans unpins in header order, each block right after writing it
       case Unpin(r) => Has(s, r) && s.lk[s.refs[r].b].written && s.pins != [] && s.pins[0] == s.refs[r].bno
         && s.c.buf[s.refs[r].b].refcnt > 0
       // a changed buffer is logged or written before it is released
       case Unlock(r) => Has(s, r) && !s.lk[s.refs[r].b].dirty
       case Drop(r) => r < |s.refs| && s.refs[r].use == Dropping && s.c.buf[s.refs[r].b].refcnt > 0
  }

  function SetUse(refs: seq<Ref>, r: nat, u: Use): seq<Ref>
    requires r < |refs|
  {
    refs[r := refs[r].(use := u)]
  }

  function Bump(c: Cache, b: nat, n: nat): Cache
    requires b < |c.buf|
  {
    c.(buf := c.buf[b := c.buf[b].(refcnt := n)])
  }

  ghost function Do<T>(s: State<T>, t: Step<T>): State<T>
    requires Enabled(s, t)
  {
    match t
    case Bget(bno, b, c') => s.(c := c', refs := s.refs + [Ref(b, bno, Waiting)])
    case Acquire(r) => s.(refs := SetUse(s.refs, r, Holding), lk := s.lk[s.refs[r].b := Taken(false, false)])
    case Load(r) => DoLoad(s, r)
    case Modify(r, x) => s.(data := s.data[s.refs[r].b := x], lk := s.lk[s.refs[r].b := Taken(true, false)])
    case LogWrite(r) => DoLogWrite(s, r)
    case Bwrite(r) => DoBwrite(s, r)
    case Unpin(r) => s.(pins := s.pins[1..], c := Bump(s.c, s.refs[r].b, s.c.buf[s.refs[r].b].refcnt - 1))
    case Unlock(r) => s.(refs := SetUse(s.refs, r, Dropping), lk := s.lk[s.refs[r].b := Free])
    case Drop(r) => s.(c := Released(s.c, s.refs[r].b), refs := s.refs[..r] + s.refs[r + 1..])
  }

  function DoLoad<T>(s: State<T>, r: nat): State<T>
    requires Sized(s) && Has(s, r)
  {
    var b := s.refs[r].b;
    s.(data := s.data[b := s.disk[s.refs[r].bno]], c := s.c.(buf := s.c.buf[b := s.c.buf[b].(valid := true)]))
  }

  function DoLogWrite<T>(s: State<T>, r: nat): State<T>
    requires Sized(s) && Has(s, r)
  {
    var b, bno := s.refs[r].b, s.refs[r].bno;
    s.(view := s.view[bno := s.data[b]], lk := s.lk[b := Taken(false, s.lk[b].written)],
       pins := if bno in s.pins then s.pins else s.pins + [bno],
       c := if bno in s.pins then s.c else Bump(s.c, b, s.c.buf[b].refcnt + 1))
  }

  function DoBwrite<T>(s: State<T>, r: nat): State<T>
    requires Sized(s) && Has(s, r)
  {
    var b, bno := s.refs[r].b, s.refs[r].bno;
    s.(disk := s.disk[bno := s.data[b]], view := s.view[bno := s.data[b]], lk := s.lk[b := Taken(false, true)])
  }

  // ---- the invariant ----

  /** At most one buffer holds a given block of a real device. */
  ghost predicate Unique(buf: seq<Buf>) {
    forall i, j | 0 <= i < j < |buf| && buf[i].dev != 0 :: !Holds(buf[j], buf[i].dev, buf[i].blockno)
  }

  /** refcnt is the number of threads using the buffer, plus one if a log entry pins it; the
      lock is taken exactly while one thread holds it. */
  ghost predicate InvRefs(buf: seq<Buf>, lk: seq<Lock>, refs: seq<Ref>, pins: seq<nat>) {
    && |buf| == |lk| == NBUF
    && (forall b: nat | b < NBUF :: buf[b].refcnt == Count(refs, b) + if Pinned(buf[b], pins) then 1 else 0)
    && (forall b: nat | b < NBUF :: Holders(refs, b) == if lk[b].Taken? then 1 else 0)
    && (forall r | 0 <= r < |refs| :: refs[r].b < NBUF && Holds(buf[refs[r].b], DEV, refs[r].bno))
  }

  /** A valid buffer that is not being changed holds the latest contents of its block; for a
      block no log entry pins, those are on the disk; a pinned block is cached. */
  ghost predicate InvData<T>(buf: seq<Buf>, data: seq<T>, lk: seq<Lock>, disk: seq<T>, pins: seq<nat>, view: seq<T>) {
    && |buf| == |data| == |lk| == NBUF && |disk| == |view| && Unique(buf) && Distinct(pins)
    && (forall b: nat | b < NBUF && buf[b].dev == DEV :: BufOk(buf[b], data[b], lk[b], disk, view))
    && (forall b: nat | b < NBUF && lk[b].Taken? :: buf[b].dev == DEV)
    && (forall x: nat | x < |disk| && x !in pins :: view[x] == disk[x])
    && (forall p | p in pins :: CachedBy(buf, p))
  }

  ghost predicate CachedBy(buf: seq<Buf>, p: nat) {
    exists b: nat :: b < |buf| && Holds(buf[b], DEV, p) && buf[b].valid
  }

  predicate BufOk<T(==)>(b: Buf, data: T, lk: Lock, disk: seq<T>, view: seq<T>)
    requires |disk| == |view|
  {
    && b.blockno < |disk|
    && (b.valid && !(lk.Taken? && lk.dirty) ==> data == view[b.blockno])
    && (lk.Taken? && lk.dirty ==> b.valid)
    && (lk.Taken? && lk.written ==> !lk.dirty && view[b.blockno] == disk[b.blockno])
  }

  ghost predicate Inv<T>(s: State<T>) {
    && Wf(s.c) && InvRefs(s.c.buf, s.lk, s.refs, s.pins) && InvData(s.c.buf, s.data, s.lk, s.disk, s.pins, s.view)
  }

  // ---- counting references ----

  lemma {:induction false} CountSet(refs: seq<Ref>, r: nat, u: Use, b: nat)
    requires r < |refs|
    ensures Count(SetUse(refs, r, u), b) == Count(refs, b)
    ensures Holders(SetUse(refs, r, u), b) ==
              Holders(refs, b) + if refs[r].b != b || (refs[r].use == Holding) == (u == Holding) then 0
                else if u == Holding then 1 else -1
    decreases |refs|
  {
    var m, refs' := |refs| - 1, SetUse(refs, r, u);
    if r < m {
      CountSet(refs[..m], r, u, b);
      assert refs'[..m] == SetUse(refs[..m], r, u);
    } else {
      assert refs'[..m] == refs[..m];
    }
  }

  lemma {:induction false} CountRemove(refs: seq<Ref>, r: nat, b: nat)
    requires r < |refs|
    ensures Count(refs[..r] + refs[r + 1..], b) == Count(refs, b) - if refs[r].b == b then 1 else 0
    ensures Holders(refs[..r] + refs[r + 1..], b) == Holders(refs, b) - if refs[r].b == b && refs[r].use == Holding
        then 1 else 0
    decreases |refs|
  {
    var m, refs' := |refs| - 1, refs[..r] + refs[r + 1..];
    if r < m {
      var front := refs[..m];
      CountRemove(front, r, b);
      assert refs'[..m - 1] == front[..r] + front[r + 1..] && refs'[m - 1] == refs[m] && |refs'| == m;
      assert front[r] == refs[r];
    } else {
      assert refs' == refs[..m];
    }
  }

  lemma {:induction false} CountAdd(refs: seq<Ref>, q: Ref, b: nat)
    ensures Count(refs + [q], b) == Count(refs, b) + if q.b == b then 1 else 0
    ensures Holders(refs + [q], b) == Holders(refs, b) + if q.b == b && q.use == Holding then 1 else 0
  {
    assert (refs + [q])[..|refs|] == refs;
  }

  lemma {:induction false} CountPos(refs: seq<Ref>, r: nat)
    requires r < |refs|
    ensures Count(refs, refs[r].b) > 0
    ensures refs[r].use == Holding ==> Holders(refs, refs[r].b) > 0
    decreases |refs|
  {
    if r < |refs| - 1 { CountPos(refs[..|refs| - 1], r); }
  }

  /** Nobody can hold the lock of a buffer nobody refers to. */
  lemma {:induction false} HoldersLe(refs: seq<Ref>, b: nat)
    ensures Holders(refs, b) <= Count(refs, b)
    decreases |refs|
  {
    if refs != [] { HoldersLe(refs[..|refs| - 1], b); }
  }

  lemma {:induction false} ReleasedWf(c: Cache, b: nat)
    requires Wf(c) && b < NBUF && c.buf[b].refcnt > 0
    ensures Wf(Released(c, b))
  {
    assert b in c.ring;
    RingFront(c.ring, b);
  }

  // ---- every step keeps it ----

  /** The count of references plays no part in what a buffer holds. */
  lemma {:induction false} DataBump<T>(buf: seq<Buf>, data: seq<T>, lk: seq<Lock>, disk: seq<T>, pins: seq<nat>,
                                       view: seq<T>, b: nat, n: nat)
    requires InvData(buf, data, lk, disk, pins, view) && b < NBUF
    ensures InvData(buf[b := buf[b].(refcnt := n)], data, lk, disk, pins, view)
  {
    CachedFrame(buf, buf[b := buf[b].(refcnt := n)], pins);
  }

  lemma {:induction false} RefsHit(buf: seq<Buf>, lk: seq<Lock>, refs: seq<Ref>, pins: seq<nat>, b: nat, bno: nat)
    requires InvRefs(buf, lk, refs, pins) && b < NBUF && Holds(buf[b], DEV, bno)
    ensures InvRefs(buf[b := buf[b].(refcnt := buf[b].refcnt + 1)], lk, refs + [Ref(b, bno, Waiting)], pins)
  {
    hide Count, Holders;
    var buf', refs' := buf[b := buf[b].(refcnt := buf[b].refcnt + 1)], refs + [Ref(b, bno, Waiting)];
    forall i: nat | i < NBUF
      ensures buf'[i].refcnt == Count(refs', i) + if Pinned(buf'[i], pins) then 1 else 0
      ensures Holders(refs', i) == Holders(refs, i)
    {
      CountAdd(refs, Ref(b, bno, Waiting), i);
    }
  }

  /** bget finds the block cached: one more reference. */
  lemma {:induction false} StepHit<T>(s: State<T>, bno: nat, b: nat)
    requires Inv(s) && b < NBUF && Holds(s.c.buf[b], DEV, bno)
    ensures Inv(s.(c := Bump(s.c, b, s.c.buf[b].refcnt + 1), refs := s.refs + [Ref(b, bno, Waiting)]))
  {
    hide InvRefs, InvData, Holds;
    RefsHit(s.c.buf, s.lk, s.refs, s.pins, b, bno);
    DataBump(s.c.buf, s.data, s.lk, s.disk, s.pins, s.view, b, s.c.buf[b].refcnt + 1);
  }

  lemma {:induction false} CachedFrame(buf: seq<Buf>, buf': seq<Buf>, pins: seq<nat>)
    requires |buf| == |buf'| && forall p | p in pins :: CachedBy(buf, p)
    requires forall b: nat | b < |buf| && buf[b].dev == DEV && buf[b].blockno in pins ::
               Holds(buf'[b], DEV, buf[b].blockno) && (buf[b].valid ==> buf'[b].valid)
    ensures forall p | p in pins :: CachedBy(buf', p)
  {
    forall p | p in pins ensures CachedBy(buf', p) {
      assert CachedBy(buf, p);
      var b: nat :| b < |buf| && Holds(buf[b], DEV, p) && buf[b].valid;
      assert Holds(buf'[b], DEV, p) && buf'[b].valid;
    }
  }

  lemma {:induction false} RefsRecycle(buf: seq<Buf>, lk: seq<Lock>, refs: seq<Ref>, pins: seq<nat>, b: nat, bno: nat)
    requires InvRefs(buf, lk, refs, pins) && b < NBUF && buf[b].refcnt == 0 && bno !in pins
    ensures InvRefs(buf[b := Buf(false, DEV, bno, 1)], lk, refs + [Ref(b, bno, Waiting)], pins) && lk[b].Free?
    ensures !Pinned(buf[b], pins)
  {
    hide Count, Holders;
    var q := Ref(b, bno, Waiting);
    var buf', refs' := buf[b := Buf(false, DEV, bno, 1)], refs + [q];
    HoldersLe(refs, b);
    forall i: nat | i < NBUF
      ensures buf'[i].refcnt == Count(refs', i) + if Pinned(buf'[i], pins) then 1 else 0
      ensures Holders(refs', i) == Holders(refs, i)
    {
      CountAdd(refs, q, i);
    }
    forall r | 0 <= r < |refs| ensures refs[r].b != b { CountPos(refs, r); }
  }

  lemma {:induction false} DataRecycle<T>(buf: seq<Buf>, data: seq<T>, lk: seq<Lock>, disk: seq<T>, pins: seq<nat>,
                                          view: seq<T>, b: nat, bno: nat)
    requires InvData(buf, data, lk, disk, pins, view) && b < NBUF && bno < |disk| && lk[b].Free?
    requires !Pinned(buf[b], pins)
    requires forall i: nat | i < NBUF :: !Holds(buf[i], DEV, bno)
    ensures InvData(buf[b := Buf(false, DEV, bno, 1)], data, lk, disk, pins, view)
  {
    CachedFrame(buf, buf[b := Buf(false, DEV, bno, 1)], pins);
  }

  lemma {:induction false} NotPinned<T>(buf: seq<Buf>, data: seq<T>, lk: seq<Lock>, disk: seq<T>, pins: seq<nat>,
                                        view: seq<T>, bno: nat)
    requires InvData(buf, data, lk, disk, pins, view) && forall i: nat | i < NBUF :: !Holds(buf[i], DEV, bno)
    ensures bno !in pins
  {
    assert bno in pins ==> CachedBy(buf, bno);
  }

  /** bget recycles a buffer nobody refers to: it is not pinned, so no update is lost. */
  lemma {:induction false} StepRecycle<T>(s: State<T>, bno: nat, b: nat)
    requires Inv(s) && b < NBUF && bno < |s.disk| && s.c.buf[b].refcnt == 0
    requires forall i: nat | i < NBUF :: !Holds(s.c.buf[i], DEV, bno)
    ensures Inv(s.(c := s.c.(buf := s.c.buf[b := Buf(false, DEV, bno, 1)]), refs := s.refs + [Ref(b, bno, Waiting)]))
  {
    hide InvRefs, InvData;
    assert |s.lk| == NBUF by { Sizes(s); }
    NotPinned(s.c.buf, s.data, s.lk, s.disk, s.pins, s.view, bno);
    RefsRecycle(s.c.buf, s.lk, s.refs, s.pins, b, bno);
    DataRecycle(s.c.buf, s.data, s.lk, s.disk, s.pins, s.view, b, bno);
  }

  lemma {:induction false} Sizes<T>(s: State<T>)
    requires Inv(s)
    ensures |s.c.buf| == |s.lk| == |s.data| == NBUF && |s.disk| == |s.view|
  {
  }

  lemma {:induction false} NotCached(c: Cache, bno: nat)
    requires Wf(c) && forall i | 0 <= i < NBUF :: !Holds(c.buf[c.ring[i]], DEV, bno)
    ensures forall i: nat | i < NBUF :: !Holds(c.buf[i], DEV, bno)
  {
    forall i: nat | i < NBUF ensures !Holds(c.buf[i], DEV, bno) {
      assert i in c.ring;
      var k :| 0 <= k < |c.ring| && c.ring[k] == i;
    }
  }

  lemma {:induction false} StepBget<T>(s: State<T>, bno: nat, b: nat, c': Cache)
    requires Inv(s) && bno < |s.disk| && IsGet(s.c, DEV, bno, Some(b), c')
    ensures Inv(s.(c := c', refs := s.refs + [Ref(b, bno, Waiting)]))
  {
    hide InvRefs, InvData;
    if exists i :: 0 <= i < NBUF && Holds(s.c.buf[s.c.ring[i]], DEV, bno) {
      StepHit(s, bno, b);
    } else {
      NotCached(s.c, bno);
      StepRecycle(s, bno, b);
    }
  }

  lemma {:induction false} StepLock<T>(s: State<T>, t: Step<T>)
    requires Inv(s) && Enabled(s, t) && (t.Acquire? || t.Unlock?)
    ensures Inv(Do(s, t))
  {
    var u := if t.Acquire? then Holding else Dropping;
    forall i: nat | i < NBUF
      ensures Count(SetUse(s.refs, t.r, u), i) == Count(s.refs, i)
      ensures Holders(SetUse(s.refs, t.r, u), i) == if Do(s, t).lk[i].Taken? then 1 else 0
    {
      CountSet(s.refs, t.r, u, i);
    }
  }

  lemma {:induction false} StepLoad<T>(s: State<T>, r: nat)
    requires Inv(s) && Sized(s) && Has(s, r) && !s.c.buf[s.refs[r].b].valid
    ensures Inv(DoLoad(s, r))
  {
    var b, bno, s' := s.refs[r].b, s.refs[r].bno, DoLoad(s, r);
    assert forall i: nat | i < NBUF && Holds(s.c.buf[i], DEV, bno) :: i == b;
    assert !CachedBy(s.c.buf, bno);
    CachedFrame(s.c.buf, s'.c.buf, s.pins);
  }

  lemma {:induction false} StepModify<T>(s: State<T>, t: Step<T>)
    requires Inv(s) && Enabled(s, t) && t.Modify?
    ensures Inv(Do(s, t))
  {
  }

  lemma {:induction false} RefsPin(buf: seq<Buf>, lk: seq<Lock>, refs: seq<Ref>, pins: seq<nat>, b: nat, bno: nat)
    requires InvRefs(buf, lk, refs, pins) && Unique(buf) && b < NBUF && Holds(buf[b], DEV, bno) && bno !in pins
    ensures InvRefs(buf[b := buf[b].(refcnt := buf[b].refcnt + 1)], lk, refs, pins + [bno])
  {
    forall i: nat | i < NBUF && i != b ensures !Holds(buf[i], DEV, bno) {}
  }

  lemma {:induction false} DataLogWrite<T>(s: State<T>, b: nat, bno: nat, n: nat)
    requires InvData(s.c.buf, s.data, s.lk, s.disk, s.pins, s.view)
    requires b < NBUF && Holds(s.c.buf[b], DEV, bno) && s.c.buf[b].valid && s.lk[b].Taken?
    ensures bno < |s.view|
    ensures InvData(s.c.buf[b := s.c.buf[b].(refcnt := n)], s.data, s.lk[b := Taken(false, s.lk[b].written)], s.disk,
                    if bno in s.pins then s.pins else s.pins + [bno], s.view[bno := s.data[b]])
  {
    var buf', pins' := s.c.buf[b := s.c.buf[b].(refcnt := n)], if bno in s.pins then s.pins else s.pins + [bno];
    forall i: nat | i < NBUF && i != b ensures !Holds(s.c.buf[i], DEV, bno) {}
    CachedFrame(s.c.buf, buf', s.pins);
    assert Holds(buf'[b], DEV, bno) && buf'[b].valid;
    assert CachedBy(buf', bno);
  }

  lemma {:induction false} StepLogWrite<T>(s: State<T>, r: nat)
    requires Inv(s) && Sized(s) && Has(s, r) && s.c.buf[s.refs[r].b].valid
    ensures Inv(DoLogWrite(s, r))
  {
    var b, bno := s.refs[r].b, s.refs[r].bno;
    if bno in s.pins {
      DataLogWrite(s, b, bno, s.c.buf[b].refcnt);
      assert s.c.buf[b := s.c.buf[b].(refcnt := s.c.buf[b].refcnt)] == s.c.buf;
    } else {
      DataLogWrite(s, b, bno, s.c.buf[b].refcnt + 1);
      RefsPin(s.c.buf, s.lk, s.refs, s.pins, b, bno);
    }
  }

  lemma {:induction false} StepBwrite<T>(s: State<T>, r: nat)
    requires Inv(s) && Sized(s) && Has(s, r) && s.c.buf[s.refs[r].b].valid
    ensures Inv(DoBwrite(s, r))
  {
    var b, bno, s' := s.refs[r].b, s.refs[r].bno, DoBwrite(s, r);
    forall i: nat | i < NBUF && i != b ensures !Holds(s.c.buf[i], DEV, bno) {}
  }

  lemma {:induction false} StepUnpin<T>(s: State<T>, t: Step<T>)
    requires Inv(s) && Enabled(s, t) && t.Unpin?
    ensures Inv(Do(s, t))
  {
    hide InvRefs, InvData, Wf;
    var b, bno := s.refs[t.r].b, s.refs[t.r].bno;
    assert bno < |s.disk| && Holds(s.c.buf[b], DEV, bno) by { HeldBlock(s, t.r); }
    RefsUnpin(s.c.buf, s.data, s.lk, s.refs, s.disk, s.pins, s.view, b, bno);
    DataUnpin(s.c.buf, s.data, s.lk, s.disk, s.pins, s.view, b, bno);
    DataBump(s.c.buf, s.data, s.lk, s.disk, s.pins[1..], s.view, b, s.c.buf[b].refcnt - 1);
    assert Wf(Bump(s.c, b, s.c.buf[b].refcnt - 1)) by { BumpWf(s.c, b, s.c.buf[b].refcnt - 1); }
  }

  lemma {:induction false} BumpWf(c: Cache, b: nat, n: nat)
    requires Wf(c) && b < NBUF
    ensures Wf(Bump(c, b, n))
  {
  }

  lemma {:induction false} HeldBlock<T>(s: State<T>, r: nat)
    requires Inv(s) && r < |s.refs|
    ensures s.refs[r].b < NBUF == |s.c.buf| && Holds(s.c.buf[s.refs[r].b], DEV, s.refs[r].bno)
    ensures s.refs[r].bno < |s.disk|
  {
  }

  /** install_trans has written the block home: its pin can go. */
  lemma {:induction false} DataUnpin<T>(buf: seq<Buf>, data: seq<T>, lk: seq<Lock>, disk: seq<T>, pins: seq<nat>,
                                        view: seq<T>, b: nat, bno: nat)
    requires InvData(buf, data, lk, disk, pins, view) && b < NBUF && lk[b].Taken? && lk[b].written
    requires Holds(buf[b], DEV, bno)
    requires pins != [] && pins[0] == bno && bno < |disk|
    ensures InvData(buf, data, lk, disk, pins[1..], view)
  {
    assert view[bno] == disk[bno];
    assert forall p :: p in pins <==> p == bno || p in pins[1..];
  }

  lemma {:induction false} RefsUnpin<T>(buf: seq<Buf>, data: seq<T>, lk: seq<Lock>, refs: seq<Ref>, disk: seq<T>,
                                        pins: seq<nat>, view: seq<T>, b: nat, bno: nat)
    requires InvRefs(buf, lk, refs, pins) && InvData(buf, data, lk, disk, pins, view)
    requires b < NBUF && Holds(buf[b], DEV, bno) && buf[b].refcnt > 0 && pins != [] && pins[0] == bno
    ensures InvRefs(buf[b := buf[b].(refcnt := buf[b].refcnt - 1)], lk, refs, pins[1..])
  {
    forall i: nat | i < NBUF && i != b ensures !Holds(buf[i], DEV, bno) {}
    assert forall p :: p in pins <==> p == bno || p in pins[1..];
    assert bno !in pins[1..];
  }

  lemma {:induction false} RefsDrop(c: Cache, lk: seq<Lock>, refs: seq<Ref>, pins: seq<nat>, r: nat)
    requires InvRefs(c.buf, lk, refs, pins) && r < |refs| && refs[r].use == Dropping && c.buf[refs[r].b].refcnt > 0
    ensures InvRefs(Released(c, refs[r].b).buf, lk, refs[..r] + refs[r + 1..], pins)
  {
    hide Count, Holders;
    var buf', refs' := Released(c, refs[r].b).buf, refs[..r] + refs[r + 1..];
    forall i: nat | i < NBUF
      ensures buf'[i].refcnt == Count(refs', i) + if Pinned(buf'[i], pins) then 1 else 0
      ensures Holders(refs', i) == Holders(refs, i)
    {
      CountRemove(refs, r, i);
    }
    assert forall q | 0 <= q < |refs'| :: refs'[q] == refs[if q < r then q else q + 1];
  }

  lemma {:induction false} StepDrop<T>(s: State<T>, t: Step<T>)
    requires Inv(s) && Enabled(s, t) && t.Drop?
    ensures Inv(Do(s, t))
  {
    hide InvRefs, InvData, Wf;
    var b := s.refs[t.r].b;
    HeldBlock(s, t.r);
    ReleasedWf(s.c, b);
    RefsDrop(s.c, s.lk, s.refs, s.pins, t.r);
    DataBump(s.c.buf, s.data, s.lk, s.disk, s.pins, s.view, b, s.c.buf[b].refcnt - 1);
  }

  lemma {:induction false} StepInv<T>(s: State<T>, t: Step<T>)
    requires Inv(s) && Enabled(s, t)
    ensures Inv(Do(s, t))
  {
    match t {
      case Bget(bno, b, c') => StepBget(s, bno, b, c');
      case Acquire(r) => StepLock(s, t);
      case Load(r) => StepLoad(s, r);
      case Modify(r, x) => StepModify(s, t);
      case LogWrite(r) => StepLogWrite(s, r);
      case Bwrite(r) => StepBwrite(s, r);
      case Unpin(r) => StepUnpin(s, t);
      case Unlock(r) => StepLock(s, t);
      case Drop(r) => StepDrop(s, t);
    }
  }

  // ---- whole runs ----

  ghost predicate Run<T>(run: seq<State<T>>, ts: seq<Step<T>>) {
    && |run| == |ts| + 1 && Init(run[0])
    && forall k | 0 <= k < |ts| :: Enabled(run[k], ts[k]) && run[k + 1] == Do(run[k], ts[k])
  }

  lemma {:induction false} InitInv<T>(s: State<T>)
    requires Init(s)
    ensures Inv(s)
  {
  }

  lemma {:induction false} RunInv<T>(run: seq<State<T>>, ts: seq<Step<T>>, i: nat)
    requires Run(run, ts) && i < |run|
    ensures Inv(run[i])
  {
    hide Inv, Init, Enabled, Do;
    if i == 0 { InitInv(run[0]); } else { RunInv(run, ts, i - 1); StepInv(run[i - 1], ts[i - 1]); }
  }

  /** Cache coherence. In every state of every run: all NBUF buffers are on the ring once; at most
      one buffer holds a block; at most one thread holds a buffer's lock; every valid buffer whose
      lock is free holds the latest contents of its block, and either the disk holds them too or
      exactly one log entry pins the block; and a pinned block is always cached and referenced, so
      bget can never recycle its buffer. */
  lemma {:induction false} Coherence<T>(run: seq<State<T>>, ts: seq<Step<T>>, i: nat, b: nat)
    requires Run(run, ts) && i < |run| && b < NBUF
    ensures var s := run[i];
            && Wf(s.c) && |s.lk| == |s.data| == NBUF && |s.disk| == |s.view| && Unique(s.c.buf) && Distinct(s.pins)
            && (forall r, q | 0 <= r < q < |s.refs| && s.refs[r].use == Holding && s.refs[q].use == Holding ::
                  s.refs[r].b != s.refs[q].b)
            && (s.c.buf[b].dev == DEV && s.c.buf[b].valid && s.lk[b].Free? ==>
                  && s.c.buf[b].blockno < |s.disk|
                  && s.data[b] == s.view[s.c.buf[b].blockno]
                  && (s.data[b] == s.disk[s.c.buf[b].blockno] || s.c.buf[b].blockno in s.pins))
            && (forall p | p in s.pins ::
                  exists k: nat :: k < NBUF && Holds(s.c.buf[k], DEV, p) && s.c.buf[k].valid && s.c.buf[k].refcnt > 0)
  {
    RunInv(run, ts, i);
    var s := run[i];
    forall r, q | 0 <= r < q < |s.refs| && s.refs[r].use == Holding && s.refs[q].use == Holding
      ensures s.refs[r].b != s.refs[q].b
    {
      TwoHolders(s.refs, r, q);
    }
    forall p | p in s.pins
      ensures exists k: nat :: k < NBUF && Holds(s.c.buf[k], DEV, p) && s.c.buf[k].valid && s.c.buf[k].refcnt > 0
    {
      assert CachedBy(s.c.buf, p);
    }
  }

  lemma {:induction false} TwoHolders(refs: seq<Ref>, r: nat, q: nat)
    requires r < q < |refs| && refs[r].use == Holding && refs[q].use == Holding
    ensures refs[r].b == refs[q].b ==> Holders(refs, refs[r].b) >= 2
    decreases |refs|
  {
    var m := |refs| - 1;
    if q == m { CountPos(refs[..m], r); } else { TwoHolders(refs[..m], r, q); }
  }

  /** bread: a thread that holds a buffer it has not changed reads the latest contents of its block
      logged or written by anyone, as soon as the buffer is valid. */
  lemma {:induction false} BreadReturnsLatest<T>(run: seq<State<T>>, ts: seq<Step<T>>, i: nat, r: nat)
    requires Run(run, ts) && i < |run| && r < |run[i].refs| && run[i].refs[r].use == Holding
    ensures var s, b, bno := run[i], run[i].refs[r].b, run[i].refs[r].bno;
            && b < |s.c.buf| && b < |s.data| && b < |s.lk| && bno < |s.view| == |s.disk| && s.lk[b].Taken?
            && (s.c.buf[b].valid && !s.lk[b].dirty ==> s.data[b] == s.view[bno])
            && (!s.c.buf[b].valid ==> s.disk[bno] == s.view[bno])
  {
    RunInv(run, ts, i);
    var s, b, bno := run[i], run[i].refs[r].b, run[i].refs[r].bno;
    CountPos(s.refs, r);
    assert forall k: nat | k < NBUF && Holds(s.c.buf[k], DEV, bno) :: k == b;
    assert bno in s.pins ==> CachedBy(s.c.buf, bno);
  }
}
