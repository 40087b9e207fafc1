/** Every interleaving of requests, the device and the interrupt handler of kernel/virtio_disk.c. The
    16-bit ring indices wrap around; av, ds, us and ui are the same counters without wrap-around. */
module Virtqueue {
  import opened Options
  import opened VirtioDesc

  const U16 := 0x1_0000

  /** Filled in; in the avail ring; taken by the device; in the used ring; seen by the interrupt handler. */
  datatype Phase = Filling | Queued | Working | Done | Seen
  datatype Req = Req(b: nat, write: bool, sector: nat, d1: nat, d2: nat)
  datatype Header = Header(write: bool, sector: nat)

  datatype State = State(
    free: seq<bool>, desc: seq<Desc>, ops: seq<Header>, info: seq<Option<nat>>, status: seq<nat>,
    ring: seq<nat>, avail: nat,           // the avail ring and its idx, written by the driver
    used: seq<nat>, usedIdx: nat,         // the used ring and its idx, written by the device
    seenIdx: nat, devIdx: nat,            // disk.used_idx; how far the device has read the avail ring
    busy: set<nat>,                       // buffers with b->disk == 1
    filling: Option<nat>,                 // a request between the ring entry and the increment of avail->idx
    reqs: map<nat, Req>,                  // requests by first descriptor
    phase: map<nat, Phase>,               // how far each of them is
    own: seq<Option<nat>>,                // the request each descriptor belongs to
    who: map<nat, nat>,                   // the request of each buffer
    avq: seq<nat>, doneq: seq<nat>,       // requests in the avail ring and in the used ring, in order
    av: nat, ds: nat, us: nat, ui: nat)

  datatype Step =
    // virtio_disk_rw up to ring[idx % NUM] = idx[0]
    | Fill(b: nat, write: bool, sector: nat, i0: nat, i1: nat, i2: nat)
    | Publish                                                           // avail->idx += 1
    | Fetch | Complete(h: nat)                                          // the device
    | Intr                                                              // one round of virtio_disk_intr
    | Finish(h: nat)                                                    // the rest of virtio_disk_rw

  predicate Wf(s: State) {
    |s.free| == |s.desc| == |s.ops| == |s.info| == |s.status| == |s.ring| == |s.used| == |s.own| == NUM
  }

  ghost predicate Init(s: State) {
    && Wf(s) && (forall i | 0 <= i < NUM :: s.free[i] && s.own[i] == None)
    && s.avail == s.usedIdx == s.seenIdx == s.devIdx == s.av == s.ds == s.us == s.ui == 0
    && s.busy == {} && s.filling == None && s.reqs == map[] && s.phase == map[] && s.who == map[] && s.avq == []
    && s.doneq == []
  }

  predicate Enabled(s: State, t: Step) {
    && Wf(s)
    && match t
       case Fill(b, write, sector, i0, i1, i2) =>
         && s.filling == None && b !in s.who
         && i0 < NUM && i1 < NUM && i2 < NUM && i0 != i1 && i0 != i2 && i1 != i2 && s.free[i0] && s.free[i1]
         && s.free[i2]
       case Publish => s.filling.Some?
       case Fetch => s.devIdx != s.avail
       case Complete(h) => h in s.phase && s.phase[h] == Working && h < NUM
       case Intr => s.filling == None && s.seenIdx != s.usedIdx && !Panics(s)
       case Finish(h) =>
         && s.filling == None && h in s.reqs && s.reqs[h].b !in s.busy && h < NUM && s.reqs[h].d1 < NUM
         && s.reqs[h].d2 < NUM
  }

  /** "virtio_disk_intr status", or a completion for no request. */
  predicate Panics(s: State)
    requires Wf(s)
  {
    var id := s.used[s.seenIdx % NUM];
    id >= NUM || s.status[id] != 0 || s.info[id] == None || id !in s.reqs
  }

  function Do(s: State, t: Step): State
    requires Enabled(s, t)
  {
    match t
    case Fill(b, write, sector, i0, i1, i2) => DoFill(s, b, write, sector, i0, i1, i2)
    case Publish => DoPublish(s)
    case Fetch =>
      s.(phase := s.phase[s.ring[s.devIdx % NUM] := Working], devIdx := (s.devIdx + 1) % U16, ds := s.ds + 1,
         avq := if s.avq == [] then [] else s.avq[1..])
    case Complete(h) =>
      s.(phase := s.phase[h := Done], status := WriteStatus(s, h), used := s.used[s.usedIdx % NUM := h],
         usedIdx := (s.usedIdx + 1) % U16, us := s.us + 1, doneq := s.doneq + [h])
    case Intr =>
      var id := s.used[s.seenIdx % NUM];
      s.(phase := s.phase[id := Seen], busy := s.busy - {s.info[id].value}, seenIdx := (s.seenIdx + 1) % U16,
         ui := s.ui + 1, doneq := if s.doneq == [] then [] else s.doneq[1..])
    case Finish(h) =>
      var r := s.reqs[h];
      s.(info := s.info[h := None], free := s.free[h := true][r.d1 := true][r.d2 := true],
         desc := s.desc[h := Cleared][r.d1 := Cleared][r.d2 := Cleared],
         own := s.own[h := None][r.d1 := None][r.d2 := None], reqs := s.reqs - {h}, phase := s.phase - {h},
         who := s.who - {r.b})
  }

  function DoFill(s: State, b: nat, write: bool, sector: nat, i0: nat, i1: nat, i2: nat): State
    requires Wf(s) && i0 < NUM && i1 < NUM && i2 < NUM
  {
    s.(free := s.free[i0 := false][i1 := false][i2 := false],
       ops := s.ops[i0 := Header(write, sector)],
       desc := s.desc[i0 := Desc(Addr.Op(i0), 16, true, false, i1)][i1 := Desc(Data(b), 1024, true, !write, i2)]
                     [i2 := Desc(Status(i0), 1, false, true, 0)],
       status := s.status[i0 := 0xff], busy := s.busy + {b}, info := s.info[i0 := Some(b)],
       ring := s.ring[s.avail % NUM := i0], filling := Some(i0),
       reqs := s.reqs[i0 := Req(b, write, sector, i1, i2)], phase := s.phase[i0 := Filling],
       own := s.own[i0 := Some(i0)][i1 := Some(i0)][i2 := Some(i0)], who := s.who[b := i0])
  }

  function DoPublish(s: State): State
    requires s.filling.Some?
  {
    var h := s.filling.value;
    s.(phase := s.phase[h := Queued], avail := (s.avail + 1) % U16, av := s.av + 1, filling := None, avq := s.avq + [h])
  }

  /** The device writes 0 where the last descriptor of the chain points. */
  function WriteStatus(s: State, h: nat): seq<nat>
    requires Wf(s) && h < NUM
  {
    var d1 := s.desc[h].next;
    var d2 := if d1 < NUM then s.desc[d1].next else NUM;
    if d2 < NUM && s.desc[d2].addr.Status? && s.desc[d2].addr.i < NUM then s.status[s.desc[d2].addr.i := 0]
      else s.status
  }

  /** What the device reads from the chain at h: direction and sector from the header, the buffer, and
      whether it may write to the buffer. */
  function DeviceView(desc: seq<Desc>, ops: seq<Header>, h: nat): Option<(Header, nat, bool)> {
    if h < |desc| && desc[h].addr.Op? && desc[h].addr.i < |ops| && desc[h].more && desc[h].next < |desc|
      && desc[desc[h].next].addr.Data?
    then Some((ops[desc[h].addr.i], desc[desc[h].next].addr.b, desc[desc[h].next].write)) else None
  }

  // ---- the invariant ----

  /** The chain and header of request r with first descriptor h. */
  predicate ReqOk(desc: seq<Desc>, own: seq<Option<nat>>, ops: seq<Header>, info: seq<Option<nat>>, h: nat, r: Req)
    requires |desc| == |own| == |ops| == |info| == NUM
  {
    && h < NUM && r.d1 < NUM && r.d2 < NUM && h != r.d1 && h != r.d2 && r.d1 != r.d2
    && own[h] == own[r.d1] == own[r.d2] == Some(h)
    && desc[h] == Desc(Addr.Op(h), 16, true, false, r.d1) && desc[r.d1] == Desc(Data(r.b), 1024, true, !r.write, r.d2)
    && desc[r.d2] == Desc(Status(h), 1, false, true, 0)
    && ops[h] == Header(r.write, r.sector) && info[h] == Some(r.b)
  }

  /** Descriptors split into free ones and chains of three. */
  ghost predicate InvDesc(free: seq<bool>, desc: seq<Desc>, own: seq<Option<nat>>, ops: seq<Header>,
                          info: seq<Option<nat>>, reqs: map<nat, Req>) {
    && |free| == |desc| == |own| == |ops| == |info| == NUM
    && (forall h | h in reqs :: ReqOk(desc, own, ops, info, h, reqs[h]))
    && (forall i | 0 <= i < NUM :: free[i] <==> own[i] == None)
    && (forall i | 0 <= i < NUM && own[i].Some? ::
          own[i].value in reqs && (i == own[i].value || i == reqs[own[i].value].d1 || i == reqs[own[i].value].d2))
    && Count(free) + 3 * |reqs| == NUM
  }

  /** Each buffer has at most one request. */
  ghost predicate InvBufs(reqs: map<nat, Req>, who: map<nat, nat>) {
    && (forall h | h in reqs :: reqs[h].b in who && who[reqs[h].b] == h)
    && (forall b | b in who :: who[b] in reqs && reqs[who[b]].b == b)
  }

  /** b->disk is set until the interrupt handler has seen the request's completion. */
  ghost predicate InvPhase(reqs: map<nat, Req>, phase: map<nat, Phase>, who: map<nat, nat>, busy: set<nat>,
                           filling: Option<nat>, avq: seq<nat>, doneq: seq<nat>, status: seq<nat>) {
    && |status| == NUM && (forall h :: h in phase <==> h in reqs)
    && (forall h | h in reqs :: h < NUM && (reqs[h].b in busy <==> phase[h] != Seen))
    && (forall b | b in busy :: b in who)
    && (forall h | h in phase :: phase[h] == Filling <==> filling == Some(h))
    && (forall h | h in phase :: phase[h] == Queued <==> h in avq)
    && (forall h | h in phase :: phase[h] == Done <==> h in doneq)
    && (forall h | h in phase && (phase[h] == Done || phase[h] == Seen) :: status[h] == 0)
  }

  ghost predicate NoDup(q: seq<nat>) { forall j, k | 0 <= j < k < |q| :: q[j] != q[k] }

  /** From position `from` on, the ring holds q; its two indices are the counters modulo 2^16. */
  ghost predicate RingOk(ring: seq<nat>, lo16: nat, hi16: nat, from: nat, to: nat, q: seq<nat>,
                         phase: map<nat, Phase>) {
    && |ring| == NUM && to == from + |q| && lo16 == from % U16 && hi16 == to % U16 && NoDup(q)
    && forall k | 0 <= k < |q| :: q[k] in phase && ring[(from + k) % NUM] == q[k]
  }

  ghost predicate Inv(s: State) {
    && Wf(s) && InvDesc(s.free, s.desc, s.own, s.ops, s.info, s.reqs) && InvBufs(s.reqs, s.who)
    && InvPhase(s.reqs, s.phase, s.who, s.busy, s.filling, s.avq, s.doneq, s.status)
    && RingOk(s.ring, s.devIdx, s.avail, s.ds, s.av, s.avq, s.phase)
    && RingOk(s.used, s.seenIdx, s.usedIdx, s.ui, s.us, s.doneq, s.phase)
    && (s.filling.Some? ==> s.filling.value in s.phase && s.ring[s.av % NUM] == s.filling.value)
  }

  /** A queue of different requests is no longer than the number of requests. */
  lemma {:induction false} QueueBound(q: seq<nat>, keys: set<nat>)
    requires NoDup(q) && forall k | 0 <= k < |q| :: q[k] in keys
    ensures |q| <= |keys|
  {
    if q != [] {
      var n := |q| - 1;
      assert forall k | 0 <= k < n :: q[..n][k] in keys - {q[n]};
      QueueBound(q[..n], keys - {q[n]});
    }
  }

  /** At most two requests are in flight, so the rings never fill up. */
  lemma {:induction false} RingRoom(s: State)
    requires Inv(s)
    ensures |s.reqs| <= 2 && |s.avq| <= 2 && |s.doneq| <= 2
  {
    hide ReqOk, InvBufs;
    assert s.phase.Keys == s.reqs.Keys && |s.reqs| == |s.reqs.Keys|;
    QueueBound(s.avq, s.reqs.Keys);
    QueueBound(s.doneq, s.reqs.Keys);
  }

  /** Wrapping at 2^16 keeps ring positions and, for close counters, equality. */
  lemma {:induction false} Wrap(a: nat, b: nat)
    requires b <= a <= b + NUM
    ensures a % U16 % NUM == a % NUM && (a % U16 == b % U16 <==> a == b) && (a % U16 + 1) % U16 == (a + 1) % U16
  {
    WrapSlot(a);
    WrapApart(a, b);
    WrapNext(a);
  }

  lemma {:induction false} WrapSlot(a: nat)
    ensures a % U16 % NUM == a % NUM
  {
    assert a == NUM * (8192 * (a / U16)) + a % U16;
  }

  lemma {:induction false} WrapApart(a: nat, b: nat)
    requires b <= a <= b + NUM
    ensures a % U16 == b % U16 <==> a == b
  {
    assert a - b == U16 * (a / U16 - b / U16) + (a % U16 - b % U16);
  }

  lemma {:induction false} WrapNext(a: nat)
    ensures (a % U16 + 1) % U16 == (a + 1) % U16
  {
    assert a + 1 == U16 * (a / U16) + (a % U16 + 1);
  }

  lemma {:induction false} SlotsApart(j: nat, to: nat)
    requires j < to < j + NUM
    ensures j % NUM != to % NUM
  {
  }

  // ---- each step keeps the invariant ----

  lemma {:induction false} CountFill(free: seq<bool>, i0: nat, i1: nat, i2: nat, on: bool)
    requires i0 < |free| && i1 < |free| && i2 < |free| && i0 != i1 && i0 != i2 && i1 != i2
    requires free[i0] == free[i1] == free[i2] == !on
    ensures Count(free[i0 := on][i1 := on][i2 := on]) == Count(free) + if on then 3 else -3
  {
    CountSet(free, i0, on);
    CountSet(free[i0 := on], i1, on);
    CountSet(free[i0 := on][i1 := on], i2, on);
  }

  /** The descriptors of a request that none of i0, i1, i2 belongs to. */
  lemma {:induction false} ReqApart(desc: seq<Desc>, own: seq<Option<nat>>, ops: seq<Header>, info: seq<Option<nat>>,
                                    h: nat, r: Req, desc': seq<Desc>, own': seq<Option<nat>>, ops': seq<Header>,
                                    info': seq<Option<nat>>, i0: nat, i1: nat, i2: nat)
    requires |desc| == |own| == |ops| == |info| == |desc'| == |own'| == |ops'| == |info'| == NUM
    requires ReqOk(desc, own, ops, info, h, r)
    requires i0 < NUM && i1 < NUM && i2 < NUM && own[i0] != Some(h) && own[i1] != Some(h) && own[i2] != Some(h)
    requires forall i | 0 <= i < NUM && i != i0 && i != i1 && i != i2 :: desc'[i] == desc[i] && own'[i] == own[i]
    requires forall i | 0 <= i < NUM && i != i0 :: ops'[i] == ops[i] && info'[i] == info[i]
    ensures ReqOk(desc', own', ops', info', h, r)
  {
  }

  lemma {:induction false} FillDesc(free: seq<bool>, desc: seq<Desc>, own: seq<Option<nat>>, ops: seq<Header>,
                                    info: seq<Option<nat>>, reqs: map<nat, Req>, free': seq<bool>, desc': seq<Desc>,
                                    own': seq<Option<nat>>, ops': seq<Header>, info': seq<Option<nat>>, r: Req, i0: nat,
                                    i1: nat, i2: nat)
    requires InvDesc(free, desc, own, ops, info, reqs) && i0 !in reqs
    requires i0 < NUM && i1 < NUM && i2 < NUM && own[i0] == None && own[i1] == None && own[i2] == None && r.d1 == i1
    requires r.d2 == i2
    requires |free'| == |desc'| == |own'| == |ops'| == |info'| == NUM && Count(free') + 3 == Count(free)
    requires forall i | 0 <= i < NUM && i != i0 && i != i1 && i != i2 ::
               free'[i] == free[i] && desc'[i] == desc[i] && own'[i] == own[i]
    requires forall i | 0 <= i < NUM && i != i0 :: ops'[i] == ops[i] && info'[i] == info[i]
    requires !free'[i0] && !free'[i1] && !free'[i2] && ReqOk(desc', own', ops', info', i0, r)
    requires own'[i0] == own'[i1] == own'[i2] == Some(i0)
    ensures InvDesc(free', desc', own', ops', info', reqs[i0 := r])
  {
    hide Count, ReqOk;
    forall h | h in reqs ensures ReqOk(desc', own', ops', info', h, reqs[h]) {
      assert ReqOk(desc, own, ops, info, h, reqs[h]);
      ReqApart(desc, own, ops, info, h, reqs[h], desc', own', ops', info', i0, i1, i2);
    }
  }

  lemma {:induction false} FinishDesc(free: seq<bool>, desc: seq<Desc>, own: seq<Option<nat>>, ops: seq<Header>,
                                      info: seq<Option<nat>>, reqs: map<nat, Req>, free': seq<bool>, desc': seq<Desc>,
                                      own': seq<Option<nat>>, info': seq<Option<nat>>, h: nat, r: Req)
    requires InvDesc(free, desc, own, ops, info, reqs) && h in reqs && r == reqs[h] && h < NUM && r.d1 < NUM
    requires r.d2 < NUM
    requires own[h] == own[r.d1] == own[r.d2] == Some(h)
    requires |free'| == |desc'| == |own'| == |info'| == NUM && Count(free') == Count(free) + 3
    requires forall i | 0 <= i < NUM && i != h && i != r.d1 && i != r.d2 ::
               free'[i] == free[i] && desc'[i] == desc[i] && own'[i] == own[i]
    requires forall i | 0 <= i < NUM && i != h :: info'[i] == info[i]
    requires free'[h] && free'[r.d1] && free'[r.d2] && own'[h] == None && own'[r.d1] == None && own'[r.d2] == None
    ensures InvDesc(free', desc', own', ops, info', reqs - {h})
  {
    hide Count, ReqOk;
    forall g | g in reqs && g != h ensures ReqOk(desc', own', ops, info', g, reqs[g]) {
      assert ReqOk(desc, own, ops, info, g, reqs[g]);
      ReqApart(desc, own, ops, info, g, reqs[g], desc', own', ops, info', h, r.d1, r.d2);
    }
  }

  /** Writing the slot after a ring that is not full overwrites nothing that is waiting in it. */
  lemma {:induction false} SlotFree(ring: seq<nat>, lo16: nat, hi16: nat, from: nat, to: nat, q: seq<nat>,
                                    phase: map<nat, Phase>, x: nat, phase': map<nat, Phase>)
    requires RingOk(ring, lo16, hi16, from, to, q, phase) && |q| < NUM && forall h | h in phase :: h in phase'
    ensures hi16 % NUM == to % NUM
    ensures RingOk(ring[hi16 % NUM := x], lo16, hi16, from, to, q, phase')
    ensures forall j | from <= j < to :: ring[hi16 % NUM := x][j % NUM] == ring[j % NUM]
  {
    Wrap(to, to);
    forall j: nat | from <= j < to ensures j % NUM != to % NUM { SlotsApart(j, to); }
  }

  /** The written slot joins the ring. */
  lemma {:induction false} RingPush(ring: seq<nat>, lo16: nat, hi16: nat, from: nat, to: nat, q: seq<nat>,
                                    phase: map<nat, Phase>, x: nat)
    requires RingOk(ring, lo16, hi16, from, to, q, phase) && ring[to % NUM] == x && x in phase && x !in q
    ensures RingOk(ring, lo16, (hi16 + 1) % U16, from, to + 1, q + [x], phase)
  {
    Wrap(to, to);
  }

  /** The first waiting slot is read. */
  lemma {:induction false} RingPop(ring: seq<nat>, lo16: nat, hi16: nat, from: nat, to: nat, q: seq<nat>,
                                   phase: map<nat, Phase>)
    requires RingOk(ring, lo16, hi16, from, to, q, phase) && lo16 != hi16 && |q| <= NUM
    ensures q != [] && ring[lo16 % NUM] == q[0] && q[0] in phase
    ensures RingOk(ring, (lo16 + 1) % U16, hi16, from + 1, to, q[1..], phase)
    ensures forall h :: h in q[1..] <==> h in q && h != q[0]
  {
    Wrap(to, from);
    Wrap(from, from);
    assert ring[(from + 0) % NUM] == q[0];
    forall k | 0 <= k < |q| - 1
      ensures ring[(from + 1 + k) % NUM] == q[1..][k]
    {
      assert ring[(from + (k + 1)) % NUM] == q[k + 1];
    }
    forall h ensures h in q[1..] <==> h in q && h != q[0] { }
  }

  lemma {:induction false} RingPhase(ring: seq<nat>, lo16: nat, hi16: nat, from: nat, to: nat, q: seq<nat>,
                                     phase: map<nat, Phase>, phase': map<nat, Phase>)
    requires RingOk(ring, lo16, hi16, from, to, q, phase) && forall k | 0 <= k < |q| :: q[k] in phase'
    ensures RingOk(ring, lo16, hi16, from, to, q, phase')
  {
  }

  lemma {:induction false} FillParts(s: State, b: nat, write: bool, sector: nat, i0: nat, i1: nat, i2: nat)
    requires Inv(s) && Enabled(s, Fill(b, write, sector, i0, i1, i2))
    ensures var s' := DoFill(s, b, write, sector, i0, i1, i2);
      i0 !in s.reqs && InvDesc(s'.free, s'.desc, s'.own, s'.ops, s'.info, s'.reqs)
  {
    hide Count, InvDesc, InvPhase, RingOk, InvBufs, ReqOk;
    var s' := DoFill(s, b, write, sector, i0, i1, i2);
    CountFill(s.free, i0, i1, i2, false);
    OwnFree(s, i0);
    OwnFree(s, i1);
    OwnFree(s, i2);
    NewReq(s.desc, s.own, s.ops, s.info, b, write, sector, i0, i1, i2);
    FillDesc(s.free, s.desc, s.own, s.ops, s.info, s.reqs, s'.free, s'.desc, s'.own, s'.ops, s'.info,
             Req(b, write, sector, i1, i2), i0, i1, i2);
  }

  lemma {:induction false} NewReq(desc: seq<Desc>, own: seq<Option<nat>>, ops: seq<Header>, info: seq<Option<nat>>,
                                  b: nat, write: bool, sector: nat, i0: nat, i1: nat, i2: nat)
    requires |desc| == |own| == |ops| == |info| == NUM && i0 < NUM && i1 < NUM && i2 < NUM && i0 != i1 && i0 != i2
    requires i1 != i2
    ensures ReqOk(desc[i0 := Desc(Addr.Op(i0), 16, true, false, i1)][i1 := Desc(Data(b), 1024, true, !write, i2)]
                      [i2 := Desc(Status(i0), 1, false, true, 0)],
                  own[i0 := Some(i0)][i1 := Some(i0)][i2 := Some(i0)], ops[i0 := Header(write, sector)],
                  info[i0 := Some(b)], i0, Req(b, write, sector, i1, i2))
  {
  }

  lemma {:induction false} OwnFree(s: State, i: nat)
    requires Inv(s) && i < NUM && s.free[i]
    ensures s.own[i] == None && i !in s.reqs
  {
    hide InvDesc, InvPhase, RingOk, InvBufs;
    FreeUnowned(s.free, s.desc, s.own, s.ops, s.info, s.reqs, i);
    if i in s.reqs { OwnedBy(s, i); }
  }

  lemma {:induction false} FreeUnowned(free: seq<bool>, desc: seq<Desc>, own: seq<Option<nat>>, ops: seq<Header>,
                                       info: seq<Option<nat>>, reqs: map<nat, Req>, i: nat)
    requires InvDesc(free, desc, own, ops, info, reqs) && i < NUM && free[i]
    ensures own[i] == None
  {
    hide Count, ReqOk;
  }

  lemma {:induction false} FillRings(s: State, b: nat, write: bool, sector: nat, i0: nat, i1: nat, i2: nat)
    requires Inv(s) && Enabled(s, Fill(b, write, sector, i0, i1, i2))
    ensures var s' := DoFill(s, b, write, sector, i0, i1, i2);
      && RingOk(s'.ring, s'.devIdx, s'.avail, s'.ds, s'.av, s'.avq, s'.phase)
      && RingOk(s'.used, s'.seenIdx, s'.usedIdx, s'.ui, s'.us, s'.doneq, s'.phase)
      && s'.ring[s'.av % NUM] == i0 && forall j | s.ds <= j < s.av :: s'.ring[j % NUM] == s.ring[j % NUM]
  {
    hide InvDesc, InvPhase, InvBufs, RingOk;
    var s' := DoFill(s, b, write, sector, i0, i1, i2);
    RingRoom(s);
    SlotFree(s.ring, s.devIdx, s.avail, s.ds, s.av, s.avq, s.phase, i0, s'.phase);
    RingFacts(s.used, s.seenIdx, s.usedIdx, s.ui, s.us, s.doneq, s.phase);
    RingPhase(s.used, s.seenIdx, s.usedIdx, s.ui, s.us, s.doneq, s.phase, s'.phase);
  }

  lemma {:induction false} FillPhase(reqs: map<nat, Req>, phase: map<nat, Phase>, who: map<nat, nat>, busy: set<nat>,
                                     avq: seq<nat>, doneq: seq<nat>, status: seq<nat>, h: nat, r: Req)
    requires InvPhase(reqs, phase, who, busy, None, avq, doneq, status) && InvBufs(reqs, who) && h !in reqs
    requires r.b !in who && h < NUM && h !in avq && h !in doneq
    ensures InvPhase(reqs[h := r], phase[h := Filling], who[r.b := h], busy + {r.b}, Some(h), avq, doneq,
        status[h := 0xff])
    ensures InvBufs(reqs[h := r], who[r.b := h])
  {
  }

  lemma {:induction false} FillInv(s: State, b: nat, write: bool, sector: nat, i0: nat, i1: nat, i2: nat)
    requires Inv(s) && Enabled(s, Fill(b, write, sector, i0, i1, i2))
    ensures Inv(DoFill(s, b, write, sector, i0, i1, i2))
    ensures forall j | s.ds <= j < s.av :: DoFill(s, b, write, sector, i0, i1, i2).ring[j % NUM] == s.ring[j % NUM]
  {
    hide InvDesc, RingOk, InvPhase, InvBufs;
    FillParts(s, b, write, sector, i0, i1, i2);
    FillRings(s, b, write, sector, i0, i1, i2);
    QueuesOnly(s, i0);
    FillPhase(s.reqs, s.phase, s.who, s.busy, s.avq, s.doneq, s.status, i0, Req(b, write, sector, i1, i2));
  }

  lemma {:induction false} QueuesOnly(s: State, i: nat)
    requires Inv(s) && i !in s.reqs
    ensures i !in s.phase && i !in s.avq && i !in s.doneq
  {
    hide InvDesc, InvBufs;
  }

  lemma {:induction false} RingFacts(ring: seq<nat>, lo16: nat, hi16: nat, from: nat, to: nat, q: seq<nat>,
                                     phase: map<nat, Phase>)
    requires RingOk(ring, lo16, hi16, from, to, q, phase)
    ensures forall h | h in q :: h in phase
  {
  }

  lemma {:induction false} PublishInv(s: State)
    requires Inv(s) && s.filling.Some?
    ensures Inv(DoPublish(s))
  {
    hide InvDesc, RingOk, InvBufs;
    var s', h := DoPublish(s), s.filling.value;
    RingFacts(s.used, s.seenIdx, s.usedIdx, s.ui, s.us, s.doneq, s.phase);
    RingFacts(s.ring, s.devIdx, s.avail, s.ds, s.av, s.avq, s.phase);
    RingPush(s.ring, s.devIdx, s.avail, s.ds, s.av, s.avq, s.phase, h);
    RingPhase(s'.ring, s'.devIdx, s'.avail, s'.ds, s'.av, s'.avq, s.phase, s'.phase);
    RingPhase(s.used, s.seenIdx, s.usedIdx, s.ui, s.us, s.doneq, s.phase, s'.phase);
  }

  lemma {:induction false} PhaseFetch(reqs: map<nat, Req>, phase: map<nat, Phase>, who: map<nat, nat>, busy: set<nat>,
                                      filling: Option<nat>, avq: seq<nat>, doneq: seq<nat>, status: seq<nat>)
    requires InvPhase(reqs, phase, who, busy, filling, avq, doneq, status)
    ensures forall h :: h in phase <==> h in reqs
    ensures avq != [] && avq[0] in phase && (forall h :: h in avq[1..] <==> h in avq && h != avq[0]) ==>
      InvPhase(reqs, phase[avq[0] := Working], who, busy, filling, avq[1..], doneq, status)
  {
    if avq != [] && avq[0] in phase { assert avq[0] in avq; }
  }

  lemma {:induction false} FetchInv(s: State)
    requires Inv(s) && Enabled(s, Fetch)
    ensures Inv(Do(s, Fetch)) && s.avq != [] && s.ring[s.devIdx % NUM] == s.avq[0] && s.avq[0] in s.reqs
  {
    hide InvDesc, RingOk, InvBufs, InvPhase;
    RingRoom(s);
    PhaseFetch(s.reqs, s.phase, s.who, s.busy, s.filling, s.avq, s.doneq, s.status);
    var s' := Do(s, Fetch);
    RingFacts(s.used, s.seenIdx, s.usedIdx, s.ui, s.us, s.doneq, s.phase);
    RingFacts(s.ring, s.devIdx, s.avail, s.ds, s.av, s.avq, s.phase);
    RingPop(s.ring, s.devIdx, s.avail, s.ds, s.av, s.avq, s.phase);
    RingPhase(s'.ring, s'.devIdx, s'.avail, s'.ds, s'.av, s'.avq, s.phase, s'.phase);
    RingPhase(s.used, s.seenIdx, s.usedIdx, s.ui, s.us, s.doneq, s.phase, s'.phase);
  }

  lemma {:induction false} StatusWritten(s: State, h: nat)
    requires Inv(s) && h in s.reqs
    ensures h < NUM && WriteStatus(s, h) == s.status[h := 0]
  {
    hide InvPhase, RingOk, InvBufs, Count;
    assert ReqOk(s.desc, s.own, s.ops, s.info, h, s.reqs[h]);
  }

  lemma {:induction false} CompleteInv(s: State, h: nat)
    requires Inv(s) && Enabled(s, Complete(h))
    ensures Inv(Do(s, Complete(h)))
    ensures forall j | s.ui <= j < s.us :: Do(s, Complete(h)).used[j % NUM] == s.used[j % NUM]
  {
    hide InvDesc, RingOk, InvBufs, WriteStatus;
    RingRoom(s);
    StatusWritten(s, h);
    var s' := Do(s, Complete(h));
    RingFacts(s.ring, s.devIdx, s.avail, s.ds, s.av, s.avq, s.phase);
    RingPhase(s.ring, s.devIdx, s.avail, s.ds, s.av, s.avq, s.phase, s'.phase);
    SlotFree(s.used, s.seenIdx, s.usedIdx, s.ui, s.us, s.doneq, s.phase, h, s'.phase);
    RingPush(s'.used, s.seenIdx, s.usedIdx, s.ui, s.us, s.doneq, s'.phase, h);
  }

  lemma {:induction false} IntrPhase(s: State)
    requires Inv(s) && Enabled(s, Intr) && s.doneq != [] && s.used[s.seenIdx % NUM] == s.doneq[0]
    requires forall h :: h in s.doneq[1..] <==> h in s.doneq && h != s.doneq[0]
    ensures s.doneq[0] in s.reqs && s.info[s.doneq[0]] == Some(s.reqs[s.doneq[0]].b)
    ensures var s' := Do(s, Intr);
      InvBufs(s'.reqs, s'.who) && InvPhase(s'.reqs, s'.phase, s'.who, s'.busy, s'.filling, s'.avq, s'.doneq, s'.status)
  {
    hide InvDesc, RingOk;
    RingFacts(s.used, s.seenIdx, s.usedIdx, s.ui, s.us, s.doneq, s.phase);
    InfoOf(s, s.doneq[0]);
  }

  lemma {:induction false} IntrInv(s: State)
    requires Inv(s) && Enabled(s, Intr)
    ensures Inv(Do(s, Intr)) && s.doneq != [] && s.used[s.seenIdx % NUM] == s.doneq[0] && s.doneq[0] in s.reqs
    ensures s.info[s.doneq[0]] == Some(s.reqs[s.doneq[0]].b)
  {
    hide InvDesc, RingOk, InvPhase, InvBufs;
    RingRoom(s);
    var s' := Do(s, Intr);
    RingFacts(s.used, s.seenIdx, s.usedIdx, s.ui, s.us, s.doneq, s.phase);
    RingFacts(s.ring, s.devIdx, s.avail, s.ds, s.av, s.avq, s.phase);
    RingPop(s.used, s.seenIdx, s.usedIdx, s.ui, s.us, s.doneq, s.phase);
    IntrPhase(s);
    RingPhase(s'.used, s'.seenIdx, s'.usedIdx, s'.ui, s'.us, s'.doneq, s.phase, s'.phase);
    RingPhase(s.ring, s.devIdx, s.avail, s.ds, s.av, s.avq, s.phase, s'.phase);
  }

  lemma {:induction false} InfoOf(s: State, h: nat)
    requires Inv(s) && h in s.reqs
    ensures h < NUM && s.info[h] == Some(s.reqs[h].b)
  {
    hide InvPhase, RingOk, InvBufs, Count;
    assert ReqOk(s.desc, s.own, s.ops, s.info, h, s.reqs[h]);
  }

  lemma {:induction false} OwnedBy(s: State, h: nat)
    requires Inv(s) && h in s.reqs
    ensures var r := s.reqs[h];
      && h < NUM && r.d1 < NUM && r.d2 < NUM && h != r.d1 && h != r.d2 && r.d1 != r.d2
      && s.own[h] == s.own[r.d1] == s.own[r.d2] == Some(h) && !s.free[h] && !s.free[r.d1] && !s.free[r.d2]
      && Chain(s.desc, [h, r.d1, r.d2])
  {
    hide Count, InvPhase, RingOk, InvBufs, ReqOk, Chain;
    assert ReqOk(s.desc, s.own, s.ops, s.info, h, s.reqs[h]);
    ReqChain(s.free, s.desc, s.own, s.ops, s.info, h, s.reqs[h]);
  }

  lemma {:induction false} ReqChain(free: seq<bool>, desc: seq<Desc>, own: seq<Option<nat>>, ops: seq<Header>,
                                    info: seq<Option<nat>>, h: nat, r: Req)
    requires |free| == |desc| == |own| == |ops| == |info| == NUM && ReqOk(desc, own, ops, info, h, r)
    requires forall i | 0 <= i < NUM :: free[i] <==> own[i] == None
    ensures h < NUM && r.d1 < NUM && r.d2 < NUM && h != r.d1 && h != r.d2 && r.d1 != r.d2
    ensures own[h] == own[r.d1] == own[r.d2] == Some(h) && !free[h] && !free[r.d1] && !free[r.d2]
    ensures Chain(desc, [h, r.d1, r.d2])
  {
  }

  lemma {:induction false} FinishParts(s: State, h: nat)
    requires Inv(s) && Enabled(s, Finish(h))
    ensures var s' := Do(s, Finish(h)); InvDesc(s'.free, s'.desc, s'.own, s'.ops, s'.info, s'.reqs)
  {
    hide Count, InvDesc, InvPhase, RingOk, InvBufs, ReqOk;
    var s', r := Do(s, Finish(h)), s.reqs[h];
    OwnedBy(s, h);
    CountFill(s.free, h, r.d1, r.d2, true);
    FinishDesc(s.free, s.desc, s.own, s.ops, s.info, s.reqs, s'.free, s'.desc, s'.own, s'.info, h, r);
  }

  lemma {:induction false} FinishPhase(s: State, h: nat)
    requires Inv(s) && Enabled(s, Finish(h))
    ensures s.phase[h] == Seen && h !in s.avq && h !in s.doneq && s.filling != Some(h)
    ensures var s' := Do(s, Finish(h));
      InvBufs(s'.reqs, s'.who) && InvPhase(s'.reqs, s'.phase, s'.who, s'.busy, s'.filling, s'.avq, s'.doneq, s'.status)
  {
    hide InvDesc;
    RingFacts(s.used, s.seenIdx, s.usedIdx, s.ui, s.us, s.doneq, s.phase);
    RingFacts(s.ring, s.devIdx, s.avail, s.ds, s.av, s.avq, s.phase);
  }

  lemma {:induction false} FinishInv(s: State, h: nat)
    requires Inv(s) && Enabled(s, Finish(h))
    ensures Inv(Do(s, Finish(h)))
  {
    hide InvDesc, RingOk, InvPhase, InvBufs;
    var s' := Do(s, Finish(h));
    FinishParts(s, h);
    RingFacts(s.used, s.seenIdx, s.usedIdx, s.ui, s.us, s.doneq, s.phase);
    RingFacts(s.ring, s.devIdx, s.avail, s.ds, s.av, s.avq, s.phase);
    FinishPhase(s, h);
    RingPhase(s.used, s.seenIdx, s.usedIdx, s.ui, s.us, s.doneq, s.phase, s'.phase);
    RingPhase(s.ring, s.devIdx, s.avail, s.ds, s.av, s.avq, s.phase, s'.phase);
  }

  lemma {:induction false} StepInv(s: State, t: Step)
    requires Inv(s) && Enabled(s, t)
    ensures Inv(Do(s, t))
  {
    hide Inv;
    match t {
      case Fill(b, write, sector, i0, i1, i2) => FillInv(s, b, write, sector, i0, i1, i2);
      case Publish => PublishInv(s);
      case Fetch => FetchInv(s);
      case Complete(h) => CompleteInv(s, h);
      case Intr => IntrInv(s);
      case Finish(h) => FinishInv(s, h);
    }
  }

  lemma {:induction false} ReqView(s: State, h: nat)
    requires Inv(s) && h in s.reqs
    ensures DeviceView(s.desc, s.ops, h) ==
        Some((Header(s.reqs[h].write, s.reqs[h].sector), s.reqs[h].b, !s.reqs[h].write))
  {
    hide InvPhase, RingOk, InvBufs, Count;
    assert ReqOk(s.desc, s.own, s.ops, s.info, h, s.reqs[h]);
  }

  // ---- every run ----

  ghost predicate Run(ss: seq<State>, ts: seq<Step>) {
    && |ss| == |ts| + 1 && Init(ss[0])
    && forall k | 0 <= k < |ts| :: Enabled(ss[k], ts[k]) && ss[k + 1] == Do(ss[k], ts[k])
  }

  lemma {:induction false} InitInv(s: State)
    requires Init(s)
    ensures Inv(s)
  {
    CountAll(s.free);
  }

  lemma {:induction false} RunInv(ss: seq<State>, ts: seq<Step>, k: nat)
    requires Run(ss, ts) && k < |ss|
    ensures Inv(ss[k])
  {
    hide Inv;
    if k == 0 {
      InitInv(ss[0]);
    } else {
      RunInv(ss, ts, k - 1);
      StepInv(ss[k - 1], ts[k - 1]);
    }
  }

  /** Every descriptor is free or belongs to the chain of exactly one request, three to a request. */
  lemma {:induction false} DescriptorsSplit(ss: seq<State>, ts: seq<Step>, k: nat, i: nat)
    requires Run(ss, ts) && k < |ss| && i < NUM
    ensures Wf(ss[k]) && Count(ss[k].free) + 3 * |ss[k].reqs| == NUM
    ensures var s := ss[k];
      && (!s.free[i] <==> exists h | h in s.reqs :: i == h || i == s.reqs[h].d1 || i == s.reqs[h].d2)
      && forall h, g | h in s.reqs && g in s.reqs && h != g ::
           !(i in {h, s.reqs[h].d1, s.reqs[h].d2} && i in {g, s.reqs[g].d1, s.reqs[g].d2})
  {
    hide InvPhase, RingOk, InvBufs, Count;
    RunInv(ss, ts, k);
    var s := ss[k];
    forall h | h in s.reqs ensures i in {h, s.reqs[h].d1, s.reqs[h].d2} ==> s.own[i] == Some(h) {
      assert ReqOk(s.desc, s.own, s.ops, s.info, h, s.reqs[h]);
    }
  }

  /** A new entry goes to a slot of the avail ring that the device has read; a completion goes to a slot
      of the used ring that the interrupt handler has seen. */
  lemma {:induction false} NoOverwrite(ss: seq<State>, ts: seq<Step>, k: nat)
    requires Run(ss, ts) && k < |ts|
    ensures Wf(ss[k]) && Wf(ss[k + 1])
    ensures forall j | ss[k].ds <= j < ss[k].av :: ss[k + 1].ring[j % NUM] == ss[k].ring[j % NUM]
    ensures forall j | ss[k].ui <= j < ss[k].us :: ss[k + 1].used[j % NUM] == ss[k].used[j % NUM]
  {
    hide Inv;
    RunInv(ss, ts, k);
    match ts[k] {
      case Fill(b, write, sector, i0, i1, i2) => FillInv(ss[k], b, write, sector, i0, i1, i2);
      case Complete(h) => CompleteInv(ss[k], h);
      case _ =>
    }
  }

  /** Whatever the device takes from the avail ring is a request as it was submitted, once. */
  lemma {:induction false} DeviceSeesRequest(ss: seq<State>, ts: seq<Step>, k: nat)
    requires Run(ss, ts) && k < |ss| && Wf(ss[k]) && ss[k].devIdx != ss[k].avail
    ensures var s := ss[k]; var h := s.ring[s.devIdx % NUM];
      && h in s.reqs && h in s.phase && s.phase[h] == Queued
      && DeviceView(s.desc, s.ops, h) ==
           Some((Header(s.reqs[h].write, s.reqs[h].sector), s.reqs[h].b, !s.reqs[h].write))
  {
    hide InvBufs, RingOk, InvDesc, DeviceView;
    RunInv(ss, ts, k);
    var s := ss[k];
    FetchInv(s);
    assert s.avq[0] in s.avq;
    ReqView(s, s.avq[0]);
  }

  /** The interrupt handler never panics: each new entry of the used ring is a completed request, and the
      handler clears b->disk of that request's buffer, which was set, and of no other. */
  lemma {:induction false} CompletionExact(ss: seq<State>, ts: seq<Step>, k: nat)
    requires Run(ss, ts) && k < |ss| && Wf(ss[k]) && ss[k].filling == None && ss[k].seenIdx != ss[k].usedIdx
    ensures var s := ss[k]; var id := s.used[s.seenIdx % NUM];
      && Enabled(s, Intr) && id in s.reqs && id in s.phase && s.phase[id] == Done && s.reqs[id].b in s.busy
      && Do(s, Intr).busy == s.busy - {s.reqs[id].b}
  {
    hide InvBufs, RingOk, InvDesc;
    RunInv(ss, ts, k);
    var s := ss[k];
    RingRoom(s);
    RingPop(s.used, s.seenIdx, s.usedIdx, s.ui, s.us, s.doneq, s.phase);
    assert s.doneq[0] in s.doneq;
    InfoOf(s, s.doneq[0]);
  }

  /** When virtio_disk_rw returns, its chain is intact and not free, so free_chain does not panic. */
  lemma {:induction false} ChainIntact(ss: seq<State>, ts: seq<Step>, k: nat, h: nat)
    requires Run(ss, ts) && k < |ss| && h in ss[k].reqs
    ensures var s := ss[k]; var r := s.reqs[h];
      Wf(s) && h < NUM && r.d1 < NUM && r.d2 < NUM && Chain(s.desc, [h, r.d1, r.d2]) && !s.free[h] && !s.free[r.d1]
      && !s.free[r.d2]
  {
    hide InvBufs, RingOk, InvDesc, InvPhase;
    RunInv(ss, ts, k);
    OwnedBy(ss[k], h);
  }

  /** b->disk is set as long as the device may still use the request. */
  lemma {:induction false} BusyWhilePending(ss: seq<State>, ts: seq<Step>, k: nat, h: nat)
    requires Run(ss, ts) && k < |ss| && h in ss[k].reqs
    ensures h in ss[k].phase && (ss[k].reqs[h].b in ss[k].busy <==> ss[k].phase[h] != Seen)
  {
    hide InvBufs, RingOk, InvDesc;
    RunInv(ss, ts, k);
  }
}
