/** kernel/pipe.c. PipeRing is the ring with its 32-bit counters; Pipe is every interleaving of readers,
    writers, closes and kills, with sleep and wakeup as single steps (module SleepWakeup). */
module PipeRing {
  const PIPESIZE := 512
  const U32 := 0x1_0000_0000

  function Slot(n: nat): (i: nat)
    ensures i < PIPESIZE
  {
    n % PIPESIZE
  }

  /** From position r on, the ring holds q. */
  ghost predicate Holds<T>(data: seq<T>, r: nat, q: seq<T>) {
    |data| == PIPESIZE && forall k | 0 <= k < |q| :: data[Slot(r + k)] == q[k]
  }

  lemma {:induction false} Pushed<T>(data: seq<T>, r: nat, q: seq<T>, x: T)
    requires Holds(data, r, q) && |q| < PIPESIZE
    ensures Holds(data[Slot(r + |q|) := x], r, q + [x])
  {
    var d := data[Slot(r + |q|) := x];
    forall k | 0 <= k < |q| ensures d[Slot(r + k)] == q[k] { Apart(r, k, |q|); }
  }

  lemma {:induction false} Popped<T>(data: seq<T>, r: nat, q: seq<T>)
    requires Holds(data, r, q) && q != [] && r < U32
    ensures data[Slot(r)] == q[0] && Holds(data, (r + 1) % U32, q[1..])
  {
    assert data[Slot(r + 0)] == q[0];
    forall k | 0 <= k < |q| - 1 ensures data[Slot((r + 1) % U32 + k)] == q[1..][k] {
      assert data[Slot(r + (k + 1))] == q[k + 1];
      Position(r + 1, k);
    }
  }

  /** The fields data, nread and nwrite; `q` is the bytes in the pipe, oldest first. */
  class Ring<T(0)> {
    var data: array<T>
    var nread: nat
    var nwrite: nat
    ghost var q: seq<T>

    ghost predicate Valid()
      reads this, data
    {
      nread < U32 && nwrite < U32 && |q| <= PIPESIZE && nwrite == (nread + |q|) % U32 && Holds(data[..], nread, q)
    }

    constructor ()
      ensures Valid() && q == [] && fresh(data)
    {
      data := new T[PIPESIZE];
      nread, nwrite, q := 0, 0, [];
    }

    /** The copying loop of pipewrite, up to a full pipe. */
    method Write(src: seq<T>) returns (i: nat)
      requires Valid()
      modifies this, data
      ensures Valid() && data == old(data) && i <= |src|
      ensures q == old(q) + src[..i]
      ensures i < |src| ==> |q| == PIPESIZE
    {
      hide Slot;
      i := 0;
      while i < |src|
        invariant i <= |src| && Valid() && data == old(data) && q == old(q) + src[..i]
      {
        Distance(nread, |q|);
        if nwrite == (nread + PIPESIZE) % U32 { return; }
        Position(nread, |q|);
        Pushed(data[..], nread, q, src[i]);
        Next(nread, |q|);
        ghost var d0 := data[..];
        data[Slot(nwrite)] := src[i];
        assert data[..] == d0[Slot(nwrite) := src[i]];
        nwrite := (nwrite + 1) % U32;
        q := q + [src[i]];
        i := i + 1;
      }
    }

    /** The copying loop of piperead. */
    method Read(n: nat) returns (out: seq<T>)
      requires Valid()
      modifies this
      ensures Valid() && data == old(data)
      ensures out + q == old(q) && |out| <= n && (|out| < n ==> q == [])
    {
      hide Slot;
      out := [];
      while |out| < n
        invariant |out| <= n && Valid() && data == old(data) && out + q == old(q)
      {
        Distance(nread, |q|);
        if nread == nwrite { return; }
        Popped(data[..], nread, q);
        Next(nread + 1, |q| - 1);
        var ch := data[Slot(nread)];
        nread := (nread + 1) % U32;
        assert out + q == out + [q[0]] + q[1..];
        out := out + [ch];
        q := q[1..];
      }
    }
  }

  lemma {:induction false} Next(r: nat, n: nat)
    ensures ((r + n) % U32 + 1) % U32 == (r + n + 1) % U32 && (r % U32 + n) % U32 == (r + n) % U32
  {
  }

  /** Counters modulo 2^32 tell a full ring and an empty one apart. */
  lemma {:induction false} Distance(r: nat, n: nat)
    requires r < U32 && n <= PIPESIZE
    ensures (r + n) % U32 == (r + PIPESIZE) % U32 <==> n == PIPESIZE
    ensures (r + n) % U32 == r <==> n == 0
  {
  }

  /** 2^32 is a multiple of the ring's size. */
  lemma {:induction false} Position(r: nat, n: nat)
    ensures Slot(r % U32 + n) == Slot(r + n) && Slot((r + n) % U32) == Slot(r + n)
  {
    assert U32 == PIPESIZE * 0x80_0000;
    Multiple(r, n, r / U32);
    Multiple((r + n) % U32, 0, 0);
    assert r == r % U32 + U32 * (r / U32);
    Multiple((r + n) % U32 + U32 * ((r + n) / U32), 0, (r + n) / U32);
  }

  lemma {:induction false} Multiple(r: nat, n: nat, k: nat)
    requires r >= U32 * k
    ensures (r - U32 * k + n) % PIPESIZE == (r + n) % PIPESIZE
  {
    assert r + n == (r - U32 * k + n) + PIPESIZE * (0x80_0000 * k);
  }

  /** Two of the ring's next 512 positions are different slots. */
  lemma {:induction false} Apart(r: nat, k: nat, n: nat)
    requires k < n < PIPESIZE
    ensures Slot(r + k) != Slot(r + n)
  {
  }
}

module Pipe {
  import opened Options
  import opened PipeRing

  /** Where a process is in pipewrite, with i bytes of the caller's buffer done, or in a piperead of n bytes, with
      the bytes it has got. */
  datatype Pc<T> =
    | Idle
    // holds the lock, at the top of the loop; dirty: wrote a byte since its last wakeup
    | WLoop(i: nat, buf: seq<T>, dirty: bool)
    | WSleep(i: nat, buf: seq<T>)          // asleep on &pi->nwrite
    | WWoken(i: nat, buf: seq<T>)          // woken, about to take the lock again
    | RCheck(n: nat)                       // holds the lock, at the top of the waiting loop
    | RSleep(n: nat)                       // asleep on &pi->nread
    | RWoken(n: nat)
    | RCopy(got: seq<T>, n: nat)           // holds the lock, in the copying loop

  datatype State<T> = State(
    data: seq<T>, nread: nat, nwrite: nat, readopen: bool, writeopen: bool, lock: Option<nat>, pc: seq<Pc<T>>,
    ins: seq<T>, taken: seq<T>, q: seq<T>)  // bytes inserted, bytes removed, bytes in the pipe

  datatype Step<T> =
    | WriteStart(p: nat, buf: seq<T>) | WriteByte(p: nat) | WriteFull(p: nat)
    | WriteEnd(p: nat)                      // all bytes written, or copyin failed
    | WriteClosed(p: nat) | WriteKilled(p: nat) | WriteResume(p: nat)
    | ReadStart(p: nat, n: nat) | ReadSleep(p: nat) | ReadKilled(p: nat) | ReadGo(p: nat) | ReadByte(p: nat)
    | ReadFault(p: nat)                     // takes a byte, and copyout fails
    | ReadEnd(p: nat) | ReadResume(p: nat)
    | CloseWrite | CloseRead
    | KillWake(p: nat)                      // kill() of a sleeping process

  ghost predicate Init<T>(s: State<T>) {
    && |s.data| == PIPESIZE && s.nread == 0 && s.nwrite == 0 && s.readopen && s.writeopen && s.lock == None
    && (forall p | 0 <= p < |s.pc| :: s.pc[p].Idle?) && s.ins == [] && s.taken == [] && s.q == []
  }

  /** pi->nwrite == pi->nread + PIPESIZE, and pi->nread == pi->nwrite, in 32 bits */
  predicate Full<T>(s: State<T>) { s.nwrite == (s.nread + PIPESIZE) % U32 }
  predicate Empty<T>(s: State<T>) { s.nread == s.nwrite }

  predicate Enabled<T>(s: State<T>, t: Step<T>) {
    match t
    case WriteStart(p, buf) => p < |s.pc| && s.pc[p].Idle? && s.lock == None
    case WriteByte(p) => p < |s.pc| && s.pc[p].WLoop? && s.pc[p].i < |s.pc[p].buf| && s.readopen && !Full(s)
      && |s.data| == PIPESIZE
    case WriteFull(p) => p < |s.pc| && s.pc[p].WLoop? && s.pc[p].i < |s.pc[p].buf| && s.readopen && Full(s)
    case WriteEnd(p) => p < |s.pc| && s.pc[p].WLoop? && (s.pc[p].i >= |s.pc[p].buf| || (s.readopen && !Full(s)))
    case WriteClosed(p) => p < |s.pc| && s.pc[p].WLoop? && s.pc[p].i < |s.pc[p].buf| && !s.readopen
    case WriteKilled(p) => p < |s.pc| && s.pc[p].WLoop? && s.pc[p].i < |s.pc[p].buf|
    case WriteResume(p) => p < |s.pc| && s.pc[p].WWoken? && s.lock == None
    case ReadStart(p, n) => p < |s.pc| && s.pc[p].Idle? && s.lock == None
    case ReadSleep(p) => p < |s.pc| && s.pc[p].RCheck? && Empty(s) && s.writeopen
    case ReadKilled(p) => p < |s.pc| && s.pc[p].RCheck? && Empty(s) && s.writeopen
    case ReadGo(p) => p < |s.pc| && s.pc[p].RCheck? && !(Empty(s) && s.writeopen)
    case ReadByte(p) => p < |s.pc| && s.pc[p].RCopy? && |s.pc[p].got| < s.pc[p].n && !Empty(s) && |s.data| == PIPESIZE
    case ReadFault(p) => p < |s.pc| && s.pc[p].RCopy? && |s.pc[p].got| < s.pc[p].n && !Empty(s) && |s.data| == PIPESIZE
    case ReadEnd(p) => p < |s.pc| && s.pc[p].RCopy? && (|s.pc[p].got| >= s.pc[p].n || Empty(s))
    case ReadResume(p) => p < |s.pc| && s.pc[p].RWoken? && s.lock == None
    case CloseWrite => s.lock == None
    case CloseRead => s.lock == None
    case KillWake(p) => p < |s.pc| && (s.pc[p].WSleep? || s.pc[p].RSleep?)
  }

  /** wakeup(&pi->nread) */
  function WakeReaders<T>(pc: seq<Pc<T>>): (r: seq<Pc<T>>)
    ensures |r| == |pc| && forall p | 0 <= p < |pc| :: r[p] == if pc[p].RSleep? then RWoken(pc[p].n) else pc[p]
  {
    if pc == [] then []
    else WakeReaders(pc[..|pc| - 1]) + [if pc[|pc| - 1].RSleep? then RWoken(pc[|pc| - 1].n) else pc[|pc| - 1]]
  }

  /** wakeup(&pi->nwrite) */
  function WakeWriters<T>(pc: seq<Pc<T>>): (r: seq<Pc<T>>)
    ensures |r| == |pc|
    ensures forall p | 0 <= p < |pc| :: r[p] == if pc[p].WSleep? then WWoken(pc[p].i, pc[p].buf) else pc[p]
  {
    if pc == [] then []
    else
      WakeWriters(pc[..|pc| - 1])
      + [if pc[|pc| - 1].WSleep? then WWoken(pc[|pc| - 1].i, pc[|pc| - 1].buf) else pc[|pc| - 1]]
  }

  function Go<T>(s: State<T>, p: nat, pc: Pc<T>): State<T>
    requires p < |s.pc|
  {
    s.(pc := s.pc[p := pc])
  }

  /** pi->nread++ */
  function TakeByte<T>(s: State<T>): State<T>
    requires |s.data| == PIPESIZE
  {
    s.(nread := (s.nread + 1) % U32, taken := s.taken + [s.data[Slot(s.nread)]],
       q := if s.q == [] then [] else s.q[1..])
  }

  function Do<T>(s: State<T>, t: Step<T>): State<T>
    requires Enabled(s, t)
  {
    match t
    case WriteStart(p, buf) => Go(s, p, WLoop(0, buf, false)).(lock := Some(p))
    case WriteByte(p) =>
      var ch := s.pc[p].buf[s.pc[p].i];
      Go(s, p, WLoop(s.pc[p].i + 1, s.pc[p].buf, true)).(
        data := s.data[Slot(s.nwrite) := ch], nwrite := (s.nwrite + 1) % U32, ins := s.ins + [ch], q := s.q + [ch])
    case WriteFull(p) => s.(pc := WakeReaders(s.pc[p := WSleep(s.pc[p].i, s.pc[p].buf)]), lock := None)
    case WriteEnd(p) => s.(pc := WakeReaders(s.pc[p := Idle]), lock := None)
    case WriteClosed(p) => Go(s, p, Idle).(lock := None)
    case WriteKilled(p) => Go(s, p, Idle).(lock := None)
    case WriteResume(p) => Go(s, p, WLoop(s.pc[p].i, s.pc[p].buf, false)).(lock := Some(p))
    case ReadStart(p, n) => Go(s, p, RCheck(n)).(lock := Some(p))
    case ReadSleep(p) => Go(s, p, RSleep(s.pc[p].n)).(lock := None)
    case ReadKilled(p) => Go(s, p, Idle).(lock := None)
    case ReadGo(p) => Go(s, p, RCopy([], s.pc[p].n))
    case ReadByte(p) => Go(TakeByte(s), p, RCopy(s.pc[p].got + [s.data[Slot(s.nread)]], s.pc[p].n))
    case ReadFault(p) => TakeByte(s).(pc := WakeWriters(s.pc[p := Idle]), lock := None)
    case ReadEnd(p) => s.(pc := WakeWriters(s.pc[p := Idle]), lock := None)
    case ReadResume(p) => Go(s, p, RCheck(s.pc[p].n)).(lock := Some(p))
    case CloseWrite => s.(writeopen := false, pc := WakeReaders(s.pc))
    case CloseRead => s.(readopen := false, pc := WakeWriters(s.pc))
    case KillWake(p) => Go(s, p, if s.pc[p].WSleep? then WWoken(s.pc[p].i, s.pc[p].buf) else RWoken(s.pc[p].n))
  }

  // ---- the bytes ----

  /** The ring holds what was inserted and not yet removed, at most PIPESIZE bytes, across wrap-around. */
  ghost predicate InvBytes<T>(s: State<T>) {
    && s.ins == s.taken + s.q && |s.q| <= PIPESIZE && s.nread < U32 && s.nwrite == (s.nread + |s.q|) % U32
    && Holds(s.data, s.nread, s.q)
  }

  lemma {:induction false} Taken<T>(s: State<T>)
    requires InvBytes(s) && !Empty(s)
    ensures s.q != [] && s.data[Slot(s.nread)] == s.q[0] && InvBytes(TakeByte(s))
  {
    hide Slot, Holds;
    Distance(s.nread, |s.q|);
    Popped(s.data, s.nread, s.q);
    Next(s.nread + 1, |s.q| - 1);
    assert s.taken + s.q == s.taken + [s.q[0]] + s.q[1..];
  }

  lemma {:induction false} Added<T>(s: State<T>, p: nat)
    requires InvBytes(s) && Enabled(s, WriteByte(p))
    ensures InvBytes(Do(s, WriteByte(p)))
  {
    hide Slot, Holds;
    Distance(s.nread, |s.q|);
    Position(s.nread, |s.q|);
    var ch := s.pc[p].buf[s.pc[p].i];
    Pushed(s.data, s.nread, s.q, ch);
    Next(s.nread, |s.q|);
    assert s.taken + s.q + [ch] == s.taken + (s.q + [ch]);
  }

  lemma {:induction false} BytesStep<T>(s: State<T>, t: Step<T>)
    requires InvBytes(s) && Enabled(s, t)
    ensures InvBytes(Do(s, t))
  {
    hide Slot, Holds, InvBytes;
    match t {
      case WriteByte(p) => Added(s, p);
      case ReadByte(p) => Taken(s); BytesSame(TakeByte(s), Do(s, t));
      case ReadFault(p) => Taken(s); BytesSame(TakeByte(s), Do(s, t));
      case _ => BytesSame(s, Do(s, t));
    }
  }

  lemma {:induction false} BytesSame<T>(s: State<T>, s': State<T>)
    requires InvBytes(s) && s'.ins == s.ins && s'.taken == s.taken && s'.q == s.q && s'.nread == s.nread
    requires s'.nwrite == s.nwrite && s'.data == s.data
    ensures InvBytes(s')
  {
  }

  // ---- sleepers ----

  predicate HoldsLock<T>(pc: Pc<T>) { pc.WLoop? || pc.RCheck? || pc.RCopy? }

  /** The lock's holder is the process inside a critical section; a writer that wrote found the read end open. */
  ghost predicate InvLock<T>(s: State<T>) {
    && (forall p: nat | p < |s.pc| :: HoldsLock(s.pc[p]) <==> s.lock == Some(p))
    && (s.lock.Some? ==> s.lock.value < |s.pc|)
    && (forall p: nat | p < |s.pc| && s.pc[p].WLoop? && s.pc[p].dirty :: s.readopen && s.q != [])
  }

  /** A writer sleeps on a pipe with room only while the lock is held by a reader that took bytes and
      will still call wakeup. */
  ghost predicate InvWriters<T>(s: State<T>) {
    forall p: nat | p < |s.pc| && s.pc[p].WSleep? && |s.q| < PIPESIZE ::
      s.lock.Some? && s.lock.value < |s.pc| && s.pc[s.lock.value].RCopy? && s.pc[s.lock.value].got != []
  }

  /** Who sleeps waits for an end that is open. A reader that copies and has got nothing found bytes, or no writer. */
  predicate OpenOk<T>(s: State<T>, p: nat)
    requires p < |s.pc|
  {
    && (s.pc[p].RSleep? ==> s.writeopen)
    && (s.pc[p].WSleep? ==> s.readopen)
    && (s.pc[p].RCopy? ==> |s.pc[p].got| <= s.pc[p].n && (|s.pc[p].got| == |s.q| == 0 ==> !s.writeopen))
    && (s.pc[p].WLoop? || s.pc[p].WSleep? || s.pc[p].WWoken? ==> s.pc[p].i <= |s.pc[p].buf|)
  }

  ghost predicate InvOpen<T>(s: State<T>) { forall p: nat | p < |s.pc| :: OpenOk(s, p) }

  ghost predicate Inv<T>(s: State<T>) { InvBytes(s) && InvLock(s) && InvWriters(s) && InvOpen(s) }

  predicate IsWrite<T>(t: Step<T>) {
    t.WriteStart? || t.WriteByte? || t.WriteFull? || t.WriteEnd? || t.WriteClosed? || t.WriteKilled? || t.WriteResume?
  }

  lemma {:induction false} LockWrite<T>(s: State<T>, t: Step<T>)
    requires InvLock(s) && Enabled(s, t) && IsWrite(t)
    ensures InvLock(Do(s, t))
  {
    hide Slot, WakeReaders, WakeWriters;
  }

  lemma {:induction false} LockRead<T>(s: State<T>, t: Step<T>)
    requires InvLock(s) && Enabled(s, t) && !IsWrite(t)
    ensures InvLock(Do(s, t))
  {
    hide Slot, WakeReaders, WakeWriters;
  }

  lemma {:induction false} LockStep<T>(s: State<T>, t: Step<T>)
    requires Inv(s) && Enabled(s, t)
    ensures InvLock(Do(s, t))
  {
    hide InvBytes, InvWriters, InvLock, InvOpen, Do, Enabled;
    if IsWrite(t) { LockWrite(s, t); } else { LockRead(s, t); }
  }

  lemma {:induction false} WritersWrite<T>(s: State<T>, t: Step<T>)
    requires InvLock(s) && InvWriters(s) && Enabled(s, t) && IsWrite(t) && (Full(s) <==> |s.q| == PIPESIZE)
    requires |s.q| <= PIPESIZE
    ensures InvWriters(Do(s, t))
  {
    hide Slot, WakeWriters;
  }

  lemma {:induction false} WritersRead<T>(s: State<T>, t: Step<T>)
    requires InvLock(s) && InvWriters(s) && Enabled(s, t) && !IsWrite(t) && (Empty(s) <==> s.q == [])
    ensures InvWriters(Do(s, t))
  {
    hide Slot, WakeReaders;
  }

  lemma {:induction false} WritersStep<T>(s: State<T>, t: Step<T>)
    requires Inv(s) && Enabled(s, t)
    ensures InvWriters(Do(s, t))
  {
    hide Holds, InvLock, InvWriters, InvOpen, Do, Enabled;
    Distance(s.nread, |s.q|);
    if IsWrite(t) { WritersWrite(s, t); } else { WritersRead(s, t); }
  }

  lemma {:induction false} OpenWrite<T>(s: State<T>, t: Step<T>, p: nat)
    requires InvLock(s) && Enabled(s, t) && IsWrite(t) && p < |s.pc| && OpenOk(s, p)
    ensures p < |Do(s, t).pc| && OpenOk(Do(s, t), p)
  {
    hide Slot, WakeReaders, WakeWriters;
  }

  lemma {:induction false} OpenRead<T>(s: State<T>, t: Step<T>, p: nat)
    requires InvLock(s) && Enabled(s, t) && !IsWrite(t) && p < |s.pc| && OpenOk(s, p) && (Empty(s) <==> s.q == [])
    ensures p < |Do(s, t).pc| && OpenOk(Do(s, t), p)
  {
    hide Slot, WakeReaders, WakeWriters;
  }

  lemma {:induction false} OpenStep<T>(s: State<T>, t: Step<T>)
    requires Inv(s) && Enabled(s, t)
    ensures InvOpen(Do(s, t))
  {
    hide InvBytes, InvLock, InvWriters, OpenOk, Do, Enabled, Empty;
    NotEmpty(s);
    SamePcs(s, t);
    forall p: nat | p < |Do(s, t).pc| ensures OpenOk(Do(s, t), p) {
      assert OpenOk(s, p);
      if IsWrite(t) { OpenWrite(s, t, p); } else { OpenRead(s, t, p); }
    }
  }

  lemma {:induction false} SamePcs<T>(s: State<T>, t: Step<T>)
    requires Enabled(s, t)
    ensures |Do(s, t).pc| == |s.pc|
  {
    hide Slot;
  }

  // ---- every run ----

  ghost predicate Run<T>(ss: seq<State<T>>, ts: seq<Step<T>>) {
    && |ss| == |ts| + 1 && Init(ss[0])
    && forall k | 0 <= k < |ts| :: Enabled(ss[k], ts[k]) && ss[k + 1] == Do(ss[k], ts[k])
  }

  lemma {:induction false} RunInv<T>(ss: seq<State<T>>, ts: seq<Step<T>>, k: nat)
    requires Run(ss, ts) && k < |ss|
    ensures Inv(ss[k])
  {
    if k > 0 {
      hide Inv;
      RunInv(ss, ts, k - 1);
      StepInv(ss[k - 1], ts[k - 1]);
    }
  }

  lemma {:induction false} StepInv<T>(s: State<T>, t: Step<T>)
    requires Inv(s) && Enabled(s, t)
    ensures Inv(Do(s, t))
  {
    hide InvBytes, InvLock, InvWriters, InvOpen, Do;
    BytesStep(s, t);
    LockStep(s, t);
    WritersStep(s, t);
    OpenStep(s, t);
  }

  /** The byte a step takes from a writer's buffer; the byte a step takes from the ring. */
  function Puts<T>(s: State<T>, t: Step<T>): seq<T>
    requires Enabled(s, t)
  {
    if t.WriteByte? then [s.pc[t.p].buf[s.pc[t.p].i]] else []
  }

  function Takes<T>(s: State<T>, t: Step<T>): seq<T>
    requires Enabled(s, t)
  {
    if t.ReadByte? || t.ReadFault? then [s.data[Slot(s.nread)]] else []
  }

  /** The bytes all writers put in, and all readers took out, in the first k steps. */
  ghost function Written<T>(ss: seq<State<T>>, ts: seq<Step<T>>, k: nat): seq<T>
    requires Run(ss, ts) && k < |ss|
  {
    if k == 0 then [] else Written(ss, ts, k - 1) + Puts(ss[k - 1], ts[k - 1])
  }

  ghost function Delivered<T>(ss: seq<State<T>>, ts: seq<Step<T>>, k: nat): seq<T>
    requires Run(ss, ts) && k < |ss|
  {
    if k == 0 then [] else Delivered(ss, ts, k - 1) + Takes(ss[k - 1], ts[k - 1])
  }

  lemma {:induction false} TracedStep<T>(s: State<T>, t: Step<T>)
    requires Enabled(s, t)
    ensures Do(s, t).ins == s.ins + Puts(s, t) && Do(s, t).taken == s.taken + Takes(s, t)
  {
    hide Slot;
  }

  lemma {:induction false} Traced<T>(ss: seq<State<T>>, ts: seq<Step<T>>, k: nat)
    requires Run(ss, ts) && k < |ss|
    ensures ss[k].ins == Written(ss, ts, k) && ss[k].taken == Delivered(ss, ts, k)
  {
    hide Do, Enabled, Puts, Takes;
    if k > 0 {
      Traced(ss, ts, k - 1);
      TracedStep(ss[k - 1], ts[k - 1]);
    }
  }

  /** Bytes come out in the order they went in, none lost and none twice, and at most PIPESIZE are in the pipe, across
      32-bit wrap-around. */
  lemma {:induction false} InOrder<T>(ss: seq<State<T>>, ts: seq<Step<T>>, k: nat)
    requires Run(ss, ts) && k < |ss|
    ensures Delivered(ss, ts, k) <= Written(ss, ts, k)
    ensures |Written(ss, ts, k)| - |Delivered(ss, ts, k)| == |ss[k].q| <= PIPESIZE
    ensures Full(ss[k]) <==> |ss[k].q| == PIPESIZE
    ensures Empty(ss[k]) <==> |ss[k].q| == 0
  {
    hide Written, Delivered, Holds;
    RunInv(ss, ts, k);
    Traced(ss, ts, k);
    Distance(ss[k].nread, |ss[k].q|);
  }

  // ---- calls ----

  predicate Writing<T>(pc: Pc<T>) { pc.WLoop? || pc.WSleep? || pc.WWoken? }

  predicate Reading<T>(pc: Pc<T>) { pc.RCheck? || pc.RSleep? || pc.RWoken? || pc.RCopy? }

  predicate Leaves<T>(t: Step<T>, p: nat) {
    (t.WriteEnd? || t.WriteClosed? || t.WriteKilled? || t.ReadEnd? || t.ReadFault? || t.ReadKilled?) && t.p == p
  }

  /** What process p put in and took out in the steps from j to k. */
  ghost function PutBy<T>(ss: seq<State<T>>, ts: seq<Step<T>>, p: nat, j: nat, k: nat): seq<T>
    requires Run(ss, ts) && j <= k < |ss|
    decreases k
  {
    if k == j then []
    else PutBy(ss, ts, p, j, k - 1) + if ts[k - 1] == WriteByte(p) then Puts(ss[k - 1], ts[k - 1]) else []
  }

  ghost function TakenBy<T>(ss: seq<State<T>>, ts: seq<Step<T>>, p: nat, j: nat, k: nat): seq<T>
    requires Run(ss, ts) && j <= k < |ss|
    decreases k
  {
    if k == j then []
    else TakenBy(ss, ts, p, j, k - 1) + if ts[k - 1] == ReadByte(p) then Takes(ss[k - 1], ts[k - 1]) else []
  }

  lemma {:induction false} WriterStep<T>(s: State<T>, t: Step<T>, p: nat)
    requires Enabled(s, t) && p < |s.pc| && Writing(s.pc[p]) && !Leaves(t, p)
    ensures p < |Do(s, t).pc| && Writing(Do(s, t).pc[p]) && Do(s, t).pc[p].buf == s.pc[p].buf
    ensures if t == WriteByte(p)
            then
              && s.pc[p].i < |s.pc[p].buf| && Do(s, t).pc[p].i == s.pc[p].i + 1
              && Puts(s, t) == [s.pc[p].buf[s.pc[p].i]]
            else Do(s, t).pc[p].i == s.pc[p].i
  {
    hide Slot, WakeReaders, WakeWriters;
  }

  /** A call of pipewrite: until it returns, it has put in exactly the first i bytes of its buffer, in order. */
  lemma {:induction false} WriteCall<T>(ss: seq<State<T>>, ts: seq<Step<T>>, p: nat, j: nat, k: nat)
    requires Run(ss, ts) && j < k < |ss| && ts[j].WriteStart? && ts[j].p == p
    requires forall m | j < m < k :: !Leaves(ts[m], p)
    ensures p < |ss[k].pc| && Writing(ss[k].pc[p]) && ss[k].pc[p].buf == ts[j].buf && ss[k].pc[p].i <= |ts[j].buf|
    ensures PutBy(ss, ts, p, j, k) == ts[j].buf[..ss[k].pc[p].i]
    decreases k
  {
    hide Do, Enabled, Puts;
    if k == j + 1 {
      Starts(ss[j], ts[j]);
      assert PutBy(ss, ts, p, j, j) == [];
    } else {
      WriteCall(ss, ts, p, j, k - 1);
      WriterStep(ss[k - 1], ts[k - 1], p);
    }
  }

  lemma {:induction false} Starts<T>(s: State<T>, t: Step<T>)
    requires Enabled(s, t) && (t.WriteStart? || t.ReadStart?)
    ensures t.p < |Do(s, t).pc| && Do(s, t).lock == Some(t.p)
    ensures Do(s, t).pc[t.p] == if t.WriteStart? then WLoop(0, t.buf, false) else RCheck(t.n)
  {
    hide Slot;
  }

  /** The bytes a reader has so far. */
  function Got<T>(pc: Pc<T>): seq<T> { if pc.RCopy? then pc.got else [] }

  lemma {:induction false} ReaderStep<T>(s: State<T>, t: Step<T>, p: nat)
    requires Enabled(s, t) && p < |s.pc| && Reading(s.pc[p]) && !Leaves(t, p)
    ensures p < |Do(s, t).pc| && Reading(Do(s, t).pc[p]) && Do(s, t).pc[p].n == s.pc[p].n
    ensures Got(Do(s, t).pc[p]) == Got(s.pc[p]) + if t == ReadByte(p) then Takes(s, t) else []
  {
    hide Slot, WakeReaders, WakeWriters;
  }

  /** A call of piperead: until it returns, the bytes it has are exactly those it took out. */
  lemma {:induction false} ReadCall<T>(ss: seq<State<T>>, ts: seq<Step<T>>, p: nat, j: nat, k: nat)
    requires Run(ss, ts) && j < k < |ss| && ts[j].ReadStart? && ts[j].p == p
    requires forall m | j < m < k :: !Leaves(ts[m], p)
    ensures p < |ss[k].pc| && Reading(ss[k].pc[p]) && ss[k].pc[p].n == ts[j].n
    ensures Got(ss[k].pc[p]) == TakenBy(ss, ts, p, j, k)
    decreases k
  {
    hide Do, Enabled, Takes;
    if k == j + 1 {
      Starts(ss[j], ts[j]);
      assert TakenBy(ss, ts, p, j, j) == [];
    } else {
      ReadCall(ss, ts, p, j, k - 1);
      ReaderStep(ss[k - 1], ts[k - 1], p);
    }
  }

  /** How calls end. pipewrite returns i: all of the buffer, or as much as copyin could read. It returns -1 if the read
      end is closed or the process was killed. piperead returns the bytes asked for, or all there were; it returns
      none, of n > 0, only at the end of the file: the pipe is empty and its write end is closed. Only a killed reader
      of an empty pipe, or one whose copyout fails, returns otherwise. */
  ghost predicate Returned<T>(s: State<T>, s': State<T>, t: Step<T>, p: nat)
    requires p < |s.pc| && p < |s'.pc|
  {
    && s'.pc[p].Idle? && s'.lock == None
    && match t
       case WriteEnd(_) => s.pc[p].WLoop? && (s.pc[p].i == |s.pc[p].buf| || (s.readopen && |s.q| < PIPESIZE))
       case WriteClosed(_) => s.pc[p].WLoop? && !s.readopen
       case WriteKilled(_) => s.pc[p].WLoop?
       case ReadEnd(_) => s.pc[p].RCopy? && (|s.pc[p].got| == s.pc[p].n || s.q == [])
         && (s.pc[p].got == [] && s.pc[p].n > 0 ==> s.q == [] && !s.writeopen)
       case ReadFault(_) => s.pc[p].RCopy? && s.q != []
       case ReadKilled(_) => s.pc[p].RCheck? && s.q == [] && s.writeopen
       case _ => false
  }

  lemma {:induction false} CallReturns<T>(ss: seq<State<T>>, ts: seq<Step<T>>, k: nat, p: nat)
    requires Run(ss, ts) && k < |ts| && Leaves(ts[k], p)
    ensures p < |ss[k].pc| && p < |ss[k + 1].pc| && Returned(ss[k], ss[k + 1], ts[k], p)
  {
    hide Holds, Slot, WakeReaders, WakeWriters;
    RunInv(ss, ts, k);
    Distance(ss[k].nread, |ss[k].q|);
    assert OpenOk(ss[k], p);
  }

  lemma {:induction false} CloseStep<T>(s: State<T>, t: Step<T>)
    requires Enabled(s, t)
    ensures Do(s, t).readopen <==> s.readopen && !t.CloseRead?
    ensures Do(s, t).writeopen <==> s.writeopen && !t.CloseWrite?
  {
    hide Slot;
  }

  /** The ends are open until they are closed. */
  lemma {:induction false} OpenUntilClosed<T>(ss: seq<State<T>>, ts: seq<Step<T>>, k: nat)
    requires Run(ss, ts) && k < |ss|
    ensures ss[k].readopen <==> forall j | 0 <= j < k :: !ts[j].CloseRead?
    ensures ss[k].writeopen <==> forall j | 0 <= j < k :: !ts[j].CloseWrite?
  {
    hide Do, Enabled;
    if k > 0 {
      OpenUntilClosed(ss, ts, k - 1);
      CloseStep(ss[k - 1], ts[k - 1]);
    }
  }

  /** A closed end leaves nobody asleep: no reader once the write end is closed, no writer once the read end is. */
  lemma {:induction false} ClosedWakes<T>(ss: seq<State<T>>, ts: seq<Step<T>>, k: nat, p: nat)
    requires Run(ss, ts) && k < |ss| && p < |ss[k].pc|
    ensures ss[k].pc[p].RSleep? ==> ss[k].writeopen
    ensures ss[k].pc[p].WSleep? ==> ss[k].readopen
  {
    RunInv(ss, ts, k);
    assert OpenOk(ss[k], p);
  }

  /** A writer asleep, with the lock free: the pipe is full and its read end open. */
  lemma {:induction false} WriterAsleep<T>(ss: seq<State<T>>, ts: seq<Step<T>>, k: nat, p: nat)
    requires Run(ss, ts) && k < |ss| && ss[k].lock == None && p < |ss[k].pc| && ss[k].pc[p].WSleep?
    ensures |ss[k].q| == PIPESIZE && Full(ss[k]) && ss[k].readopen
  {
    ClosedWakes(ss, ts, k, p);
    if !Full(ss[k]) { WriterNotStranded(ss, ts, k, p); }
    InOrder(ss, ts, k);
  }

  /** A reader asleep, with the lock free: the write end is open, and the pipe is empty unless a writer was killed. */
  lemma {:induction false} ReaderWaits<T>(ss: seq<State<T>>, ts: seq<Step<T>>, k: nat, p: nat)
    requires Run(ss, ts) && k < |ss| && ss[k].lock == None && p < |ss[k].pc| && ss[k].pc[p].RSleep?
    ensures ss[k].writeopen && (ss[k].q == [] || exists j: nat | j < k :: Since(ss, ts, j, k))
  {
    hide Since, Do, Enabled;
    ClosedWakes(ss, ts, k, p);
    InOrder(ss, ts, k);
    ReaderNotStranded(ss, ts, k);
  }

  /** kill wakes the process, whatever end it sleeps at. */
  lemma {:induction false} KillWakes<T>(s: State<T>, p: nat)
    requires Enabled(s, KillWake(p))
    ensures var pc' := Do(s, KillWake(p)).pc; p < |pc'| && if s.pc[p].WSleep? then pc'[p].WWoken? else pc'[p].RWoken?
  {
    hide Slot;
  }

  /** The steps the lock's holder can still take before it lets go of the lock. */
  function Work<T>(pc: Pc<T>): nat {
    match pc
    case WLoop(i, buf, dirty) => if i < |buf| then |buf| - i + 1 else 1
    case RCheck(n) => n + 2
    case RCopy(got, n) => if |got| < n then n - |got| + 1 else 1
    case _ => 0
  }

  /** The holder of the lock can always move, and each of its steps brings it nearer to letting go. */
  lemma {:induction false} HolderMoves<T>(ss: seq<State<T>>, ts: seq<Step<T>>, k: nat) returns (t: Step<T>)
    requires Run(ss, ts) && k < |ss| && ss[k].lock.Some?
    ensures Enabled(ss[k], t) && !t.CloseRead? && !t.CloseWrite? && Some(t.p) == ss[k].lock
  {
    hide Slot;
    RunInv(ss, ts, k);
    var s, p := ss[k], ss[k].lock.value;
    match s.pc[p] {
      case WLoop(i, buf, dirty) =>
        t := if i >= |buf| then WriteEnd(p) else if !s.readopen then WriteClosed(p)
             else if Full(s) then WriteFull(p) else WriteByte(p);
      case RCheck(n) => t := if Empty(s) && s.writeopen then ReadSleep(p) else ReadGo(p);
      case RCopy(got, n) => t := if |got| >= n || Empty(s) then ReadEnd(p) else ReadByte(p);
    }
  }

  lemma {:induction false} HolderProgress<T>(s: State<T>, t: Step<T>)
    requires Enabled(s, t) && !t.CloseRead? && !t.CloseWrite? && t.p < |s.pc| && HoldsLock(s.pc[t.p])
    ensures t.p < |Do(s, t).pc| && Work(Do(s, t).pc[t.p]) < Work(s.pc[t.p])
  {
    hide Slot, WakeReaders, WakeWriters;
  }

  /** While the lock is free, no writer sleeps on a pipe that is not full. */
  lemma {:induction false} WriterNotStranded<T>(ss: seq<State<T>>, ts: seq<Step<T>>, k: nat, p: nat)
    requires Run(ss, ts) && k < |ss| && ss[k].lock == None && !Full(ss[k]) && p < |ss[k].pc|
    ensures !ss[k].pc[p].WSleep?
  {
    RunInv(ss, ts, k);
    Distance(ss[k].nread, |ss[k].q|);
  }

  /** A writer returns because it was killed, after writing bytes it has not called wakeup for. */
  predicate LateKill<T>(s: State<T>, t: Step<T>) {
    t.WriteKilled? && t.p < |s.pc| && s.pc[t.p].WLoop? && s.pc[t.p].dirty
  }

  ghost predicate Asleep<T>(s: State<T>) { exists p: nat | p < |s.pc| :: s.pc[p].RSleep? }

  /** A reader sleeps on a nonempty pipe, and no writer holds the lock that will still call wakeup. */
  ghost predicate Left<T>(s: State<T>) {
    s.q != [] && Asleep(s)
    && !(s.lock.Some? && s.lock.value < |s.pc| && s.pc[s.lock.value].WLoop? && s.pc[s.lock.value].dirty)
  }

  lemma {:induction false} LeftWrite<T>(s: State<T>, t: Step<T>)
    requires InvLock(s) && Enabled(s, t) && IsWrite(t) && !Left(s)
    ensures Left(Do(s, t)) <==> LateKill(s, t) && Asleep(s)
  {
    hide Holds, Slot;
    if p: nat :| p < |s.pc| && s.pc[p].RSleep? && LateKill(s, t) { assert Do(s, t).pc[p].RSleep?; }
    if q: nat :| q < |Do(s, t).pc| && Do(s, t).pc[q].RSleep? { assert s.pc[q].RSleep?; }
  }

  lemma {:induction false} LeftRead<T>(s: State<T>, t: Step<T>)
    requires InvLock(s) && Enabled(s, t) && !IsWrite(t) && !Left(s) && (Empty(s) <==> s.q == [])
    ensures !Left(Do(s, t))
  {
    hide Holds, Slot;
    if q: nat :| q < |Do(s, t).pc| && Do(s, t).pc[q].RSleep? && !t.ReadSleep? { assert s.pc[q].RSleep?; }
  }

  /** Exactly the killed return, with a reader asleep, leaves a reader without a wakeup to come. */
  lemma {:induction false} LeftStep<T>(s: State<T>, t: Step<T>)
    requires InvBytes(s) && InvLock(s) && Enabled(s, t) && !Left(s)
    ensures Left(Do(s, t)) <==> LateKill(s, t) && Asleep(s)
  {
    hide InvBytes, InvLock, Left, Asleep, Do, Enabled, Empty;
    NotEmpty(s);
    if IsWrite(t) { LeftWrite(s, t); } else { LeftRead(s, t); }
  }

  /** The same in a run: whatever happened before. */
  lemma {:induction false} StrandedIff<T>(ss: seq<State<T>>, ts: seq<Step<T>>, k: nat)
    requires Run(ss, ts) && k < |ts| && !Left(ss[k])
    ensures Left(ss[k + 1]) <==> LateKill(ss[k], ts[k]) && Asleep(ss[k])
  {
    RunInv(ss, ts, k);
    LeftStep(ss[k], ts[k]);
  }

  /** A step that calls wakeup for the readers or will, takes the last byte, or wakes the last sleeper. */
  ghost predicate Relieves<T>(s: State<T>, t: Step<T>) {
    || t.WriteByte? || t.WriteFull? || t.WriteEnd? || t.CloseWrite? || ((t.ReadByte? || t.ReadFault?) && |s.q| == 1)
    || (t.KillWake? && forall p: nat | p < |s.pc| && s.pc[p].RSleep? :: p == t.p)
  }

  lemma {:induction false} KeptWrite<T>(s: State<T>, t: Step<T>)
    requires InvLock(s) && Enabled(s, t) && IsWrite(t) && Left(s)
    ensures Left(Do(s, t)) <==> !Relieves(s, t)
  {
    hide Holds, Slot;
    var p: nat :| p < |s.pc| && s.pc[p].RSleep?;
    assert !Relieves(s, t) ==> Do(s, t).pc[p].RSleep?;
  }

  lemma {:induction false} KeptRead<T>(s: State<T>, t: Step<T>)
    requires InvLock(s) && Enabled(s, t) && !IsWrite(t) && Left(s) && (Empty(s) <==> s.q == [])
    ensures Left(Do(s, t)) <==> !Relieves(s, t)
  {
    hide Holds, Slot;
    if t.KillWake? && !Relieves(s, t) {
      var p: nat :| p < |s.pc| && s.pc[p].RSleep? && p != t.p;
      assert Do(s, t).pc[p].RSleep?;
    } else if !Relieves(s, t) {
      var p: nat :| p < |s.pc| && s.pc[p].RSleep?;
      assert Do(s, t).pc[p].RSleep?;
    }
  }

  /** Exactly these steps end it. */
  lemma {:induction false} LeftKept<T>(s: State<T>, t: Step<T>)
    requires InvBytes(s) && InvLock(s) && Enabled(s, t) && Left(s)
    ensures Left(Do(s, t)) <==> !Relieves(s, t)
  {
    hide InvBytes, InvLock, Left, Relieves, Do, Enabled, Empty;
    NotEmpty(s);
    if IsWrite(t) { KeptWrite(s, t); } else { KeptRead(s, t); }
  }

  lemma {:induction false} LateNotLeft<T>(s: State<T>, t: Step<T>)
    requires InvLock(s) && LateKill(s, t)
    ensures !Left(s)
  {
    assert s.lock == Some(t.p);
  }

  /** A killed return at step j, with a reader asleep, and no relief since. */
  ghost predicate Since<T>(ss: seq<State<T>>, ts: seq<Step<T>>, j: nat, k: nat)
    requires Run(ss, ts) && j < k < |ss|
  {
    LateKill(ss[j], ts[j]) && Asleep(ss[j]) && forall m | j < m < k :: !Relieves(ss[m], ts[m])
  }

  /** Readers are without a wakeup to come exactly since such a return. */
  lemma {:induction false} LeftSince<T>(ss: seq<State<T>>, ts: seq<Step<T>>, k: nat)
    requires Run(ss, ts) && k < |ss|
    ensures Left(ss[k]) <==> exists j: nat | j < k :: Since(ss, ts, j, k)
  {
    hide Left, LateKill, Asleep, Relieves, Do, Enabled, InvBytes, InvLock, InvWriters, InvOpen;
    if k == 0 {
      NothingLeft(ss[0]);
    } else {
      RunInv(ss, ts, k - 1);
      LeftSince(ss, ts, k - 1);
      if Left(ss[k - 1]) {
        LeftKept(ss[k - 1], ts[k - 1]);
        var j: nat :| j < k - 1 && Since(ss, ts, j, k - 1);
        assert !Relieves(ss[k - 1], ts[k - 1]) ==> Since(ss, ts, j, k);
        if LateKill(ss[k - 1], ts[k - 1]) { LateNotLeft(ss[k - 1], ts[k - 1]); }
        assert forall i: nat | i < k - 1 && Since(ss, ts, i, k) :: !Relieves(ss[k - 1], ts[k - 1]);
      } else {
        StrandedIff(ss, ts, k - 1);
        assert LateKill(ss[k - 1], ts[k - 1]) && Asleep(ss[k - 1]) ==> Since(ss, ts, k - 1, k);
        assert forall i: nat | i < k - 1 && Since(ss, ts, i, k) :: Since(ss, ts, i, k - 1);
      }
    }
  }

  lemma {:induction false} NothingLeft<T>(s: State<T>)
    requires Init(s)
    ensures !Left(s)
  {
  }

  predicate Stranded<T>(s: State<T>) { s.lock == None && !Empty(s) && exists p: nat | p < |s.pc| :: s.pc[p].RSleep? }

  /** While the lock is free, no reader sleeps on a nonempty pipe, unless a writer was killed in
      between while a reader slept, and nothing has relieved the readers since. */
  lemma {:induction false} ReaderNotStranded<T>(ss: seq<State<T>>, ts: seq<Step<T>>, k: nat)
    requires Run(ss, ts) && k < |ss|
    ensures Stranded(ss[k]) <==> ss[k].lock == None && exists j: nat | j < k :: Since(ss, ts, j, k)
  {
    hide Since, Do, Enabled;
    RunInv(ss, ts, k);
    NotEmpty(ss[k]);
    LeftSince(ss, ts, k);
  }

  lemma {:induction false} NotEmpty<T>(s: State<T>)
    requires InvBytes(s)
    ensures Empty(s) <==> s.q == []
  {
    Distance(s.nread, |s.q|);
  }

  lemma {:induction false} RunOn<T>(ss: seq<State<T>>, ts: seq<Step<T>>, t: Step<T>, s': State<T>)
    requires Run(ss, ts) && Enabled(ss[|ts|], t) && s' == Do(ss[|ts|], t)
    ensures Run(ss + [s'], ts + [t])
  {
    hide Do, Enabled;
  }

  /** A reader goes to sleep on an empty pipe and a writer of two bytes takes the lock. */
  lemma {:induction false} ReaderAsleep<T>(data: seq<T>, buf: seq<T>) returns (ss: seq<State<T>>, ts: seq<Step<T>>)
    requires |data| == PIPESIZE
    ensures Run(ss, ts)
    ensures ss[|ts|] == State(data, 0, 0, true, true, Some(1), [RSleep(1), WLoop(0, buf, false)], [], [], [])
  {
    var s0 := State(data, 0, 0, true, true, None, [Idle, Idle], [], [], []);
    var s1 := s0.(lock := Some(0), pc := [RCheck(1), Idle]);
    var s2 := s1.(lock := None, pc := [RSleep(1), Idle]);
    var s3 := s2.(lock := Some(1), pc := [RSleep(1), WLoop(0, buf, false)]);
    RunOn([s0], [], ReadStart(0, 1), s1);
    RunOn([s0, s1], [ReadStart(0, 1)], ReadSleep(0), s2);
    RunOn([s0, s1, s2], [ReadStart(0, 1), ReadSleep(0)], WriteStart(1, buf), s3);
    ss, ts := [s0, s1, s2, s3], [ReadStart(0, 1), ReadSleep(0), WriteStart(1, buf)];
  }

  /** Such a run: a reader sleeps, a writer writes one of two bytes and is killed. */
  lemma {:induction false} KilledWriterStrands<T>(data: seq<T>, buf: seq<T>)
    returns (ss: seq<State<T>>, ts: seq<Step<T>>)
    requires |data| == PIPESIZE && |buf| == 2
    ensures Run(ss, ts) && Stranded(ss[|ts|])
  {
    hide Run, Slot;
    ss, ts := ReaderAsleep(data, buf);
    assert |ss| == |ts| + 1 by { RunLength(ss, ts); }
    var s3 := ss[|ts|];
    var s4 := Do(s3, WriteByte(1));
    RunOn(ss, ts, WriteByte(1), s4);
    ss, ts := ss + [s4], ts + [WriteByte(1)];
    var s5 := Do(s4, WriteKilled(1));
    RunOn(ss, ts, WriteKilled(1), s5);
    ss, ts := ss + [s5], ts + [WriteKilled(1)];
    assert s5.pc[0].RSleep?;
  }

  lemma {:induction false} RunLength<T>(ss: seq<State<T>>, ts: seq<Step<T>>)
    requires Run(ss, ts)
    ensures |ss| == |ts| + 1
  {
  }
}
