/** The redo log as sequences of atomic block writes, for any type of block contents. */
module RedoLog {
  const MAXOPBLOCKS := 10
  const LOGSIZE := 30  // MAXOPBLOCKS*3

  datatype Write<T> = Write(bno: nat, data: T)

  /** sb.logstart, sb.nlog and the size of the device */
  datatype Layout = Layout(start: nat, size: nat, nblocks: nat) {
    predicate Ok() { 1 <= size && start + size <= nblocks < 0x1_0000_0000 }

    /** A block outside the log region. */
    predicate Home(b: nat) { b < nblocks && !(start <= b < start + size) }

    /** What a header may list: blocks outside the log region, few enough to fit the log. */
    predicate HomeList(lh: seq<nat>) {
      && |lh| <= LOGSIZE && |lh| < size
      && (forall i | 0 <= i < |lh| :: Home(lh[i]))
    }
  }

  function Put<T>(d: seq<T>, w: Write<T>): (r: seq<T>)
    ensures |r| == |d|
  {
    if w.bno < |d| then d[w.bno := w.data] else d
  }

  function Apply<T>(d: seq<T>, ws: seq<Write<T>>): (r: seq<T>)
    ensures |r| == |d|
  {
    if ws == [] then d else Put(Apply(d, ws[..|ws| - 1]), ws[|ws| - 1])
  }

  lemma {:induction false} ApplyNone<T>(d: seq<T>)
    ensures Apply(d, []) == d
  {
  }

  lemma {:induction false} ApplyNext<T>(d: seq<T>, ws: seq<Write<T>>, k: nat)
    requires k < |ws|
    ensures Apply(d, ws[..k + 1]) == Put(Apply(d, ws[..k]), ws[k])
  {
    assert ws[..k + 1][..k] == ws[..k];
  }

  /** Block write number k of a commit: write_log, write_head, install_trans(0), write_head.
      `v` is what bread returns, `full` and `empty` the two headers written. */
  function CommitWrite<T>(L: Layout, lh: seq<nat>, v: seq<T>, full: T, empty: T, k: nat): Write<T>
    requires L.Ok() && L.HomeList(lh) && |v| == L.nblocks && k < 2 * |lh| + 2
  {
    var n := |lh|;
    if k < n then Write(L.start + 1 + k, v[lh[k]])
    else if k == n then Write(L.start, full)
    else if k <= 2 * n then Write(lh[k - n - 1], v[lh[k - n - 1]])
    else Write(L.start, empty)
  }

  function CommitWrites<T>(L: Layout, lh: seq<nat>, v: seq<T>, full: T, empty: T): (ws: seq<Write<T>>)
    requires L.Ok() && L.HomeList(lh) && |v| == L.nblocks
    ensures |ws| == if lh == [] then 0 else 2 * |lh| + 2
  {
    if lh == [] then []
    else seq(2 * |lh| + 2, k requires 0 <= k < 2 * |lh| + 2 => CommitWrite(L, lh, v, full, empty, k))
  }

  /** Block write number k of recover_from_log: install_trans(1), then write_head. */
  function RecoverWrite<T>(L: Layout, lh: seq<nat>, d: seq<T>, empty: T, k: nat): Write<T>
    requires L.Ok() && L.HomeList(lh) && |d| == L.nblocks && k <= |lh|
  {
    if k < |lh| then Write(lh[k], d[L.start + 1 + k]) else Write(L.start, empty)
  }

  function RecoverWrites<T>(L: Layout, lh: seq<nat>, d: seq<T>, empty: T): (ws: seq<Write<T>>)
    requires L.Ok() && L.HomeList(lh) && |d| == L.nblocks
    ensures |ws| == |lh| + 1
  {
    seq(|lh| + 1, k requires 0 <= k <= |lh| => RecoverWrite(L, lh, d, empty, k))
  }

  /** What the disk holds after the first k writes of a commit. */
  ghost predicate CommitStage<T>(L: Layout, d: seq<T>, lh: seq<nat>, v: seq<T>, full: T, empty: T, k: nat, dk: seq<T>)
  {
    var n := |lh|;
    && L.Ok() && L.HomeList(lh) && |v| == |d| == |dk| == L.nblocks
    && (forall i | 0 <= i < n && i < k :: dk[L.start + 1 + i] == v[lh[i]])
    && dk[L.start] == (if k <= n then d[L.start] else if k <= 2 * n + 1 then full else empty)
    && (forall i | 0 <= i < n && n + 1 + i < k :: dk[lh[i]] == v[lh[i]])
    && (k <= n + 1 ==> forall h: nat | L.Home(h) :: dk[h] == d[h])
    && (forall h: nat | L.Home(h) && h !in lh :: dk[h] == d[h])
  }

  lemma {:induction false} CommitNext<T>(L: Layout, d: seq<T>, lh: seq<nat>, v: seq<T>, full: T, empty: T, k: nat,
                                         dk: seq<T>)
    requires CommitStage(L, d, lh, v, full, empty, k, dk) && lh != [] && k < 2 * |lh| + 2
    ensures CommitStage(L, d, lh, v, full, empty, k + 1, Put(dk, CommitWrite(L, lh, v, full, empty, k)))
  {
    var n := |lh|;
    var r := Put(dk, CommitWrite(L, lh, v, full, empty, k));
    if n < k <= 2 * n {
      assert L.Home(lh[k - n - 1]);
      assert r[L.start] == dk[L.start];
    } else {
      assert forall h: nat | L.Home(h) :: r[h] == dk[h];
    }
  }

  function CommitDisk<T>(L: Layout, d: seq<T>, lh: seq<nat>, v: seq<T>, full: T, empty: T, k: nat): seq<T>
    requires L.Ok() && L.HomeList(lh) && |v| == L.nblocks && k <= 2 * |lh| + 2
  {
    if k == 0 then d
    else Put(CommitDisk(L, d, lh, v, full, empty, k - 1), CommitWrite(L, lh, v, full, empty, k - 1))
  }

  lemma {:induction false} CommitApply<T>(L: Layout, d: seq<T>, lh: seq<nat>, v: seq<T>, full: T, empty: T, k: nat)
    requires L.Ok() && L.HomeList(lh) && |v| == L.nblocks && lh != [] && k <= 2 * |lh| + 2
    ensures Apply(d, CommitWrites(L, lh, v, full, empty)[..k]) == CommitDisk(L, d, lh, v, full, empty, k)
  {
    var ws := CommitWrites(L, lh, v, full, empty);
    if k > 0 {
      CommitApply(L, d, lh, v, full, empty, k - 1);
      ApplyNext(d, ws, k - 1);
      assert ws[k - 1] == CommitWrite(L, lh, v, full, empty, k - 1);
    }
  }

  lemma {:induction false} CommitStart<T>(L: Layout, d: seq<T>, lh: seq<nat>, v: seq<T>, full: T, empty: T)
    requires L.Ok() && L.HomeList(lh) && |v| == |d| == L.nblocks
    ensures CommitStage(L, d, lh, v, full, empty, 0, d)
  {
  }

  lemma {:induction false} CommitStages<T>(L: Layout, d: seq<T>, lh: seq<nat>, v: seq<T>, full: T, empty: T, k: nat)
    returns (dk: seq<T>)
    requires L.Ok() && L.HomeList(lh) && |v| == |d| == L.nblocks && lh != [] && k <= 2 * |lh| + 2
    ensures dk == CommitDisk(L, d, lh, v, full, empty, k)
    ensures CommitStage(L, d, lh, v, full, empty, k, dk)
  {
    hide CommitStage, CommitWrite;
    CommitStart(L, d, lh, v, full, empty);
    dk := d;
    var j := 0;
    while j < k
      invariant j <= k && dk == CommitDisk(L, d, lh, v, full, empty, j)
      invariant CommitStage(L, d, lh, v, full, empty, j, dk)
    {
      CommitNext(L, d, lh, v, full, empty, j, dk);
      dk := Put(dk, CommitWrite(L, lh, v, full, empty, j));
      j := j + 1;
    }
  }

  /** The home blocks after the logged blocks of lh take their contents from v. */
  ghost function Updated<T>(d: seq<T>, lh: seq<nat>, v: seq<T>): (a: seq<T>)
    requires |v| == |d|
    ensures |a| == |d|
    ensures forall b: nat | b < |d| :: a[b] == if b in lh then v[b] else d[b]
  {
    seq(|d|, b requires 0 <= b < |d| => if b in lh then v[b] else d[b])
  }

  ghost predicate SameHome<T>(L: Layout, d: seq<T>, a: seq<T>) {
    && |d| == |a| == L.nblocks
    && (forall h: nat | L.Home(h) :: d[h] == a[h])
  }

  /** A disk whose header lists lh recovers to the home blocks of `a`. */
  ghost predicate RepList<T>(L: Layout, d: seq<T>, lh: seq<nat>, a: seq<T>) {
    && L.Ok() && L.HomeList(lh) && |d| == |a| == L.nblocks
    && (forall i | 0 <= i < |lh| :: d[L.start + 1 + i] == a[lh[i]])
    && (forall h: nat | L.Home(h) && h !in lh :: d[h] == a[h])
  }

  /** What the disk holds after the first k writes of a recovery. */
  ghost predicate RecoverStage<T>(L: Layout, d: seq<T>, lh: seq<nat>, a: seq<T>, empty: T, k: nat, dk: seq<T>)
  {
    && RepList(L, d, lh, a) && |dk| == L.nblocks
    && dk[L.start] == (if k <= |lh| then d[L.start] else empty)
    && (forall i | 0 <= i < |lh| :: dk[L.start + 1 + i] == a[lh[i]])
    && (forall i | 0 <= i < |lh| && i < k :: dk[lh[i]] == a[lh[i]])
    && (forall h: nat | L.Home(h) && h !in lh :: dk[h] == a[h])
  }

  lemma {:induction false} RecoverNext<T>(L: Layout, d: seq<T>, lh: seq<nat>, a: seq<T>, empty: T, k: nat, dk: seq<T>)
    requires RecoverStage(L, d, lh, a, empty, k, dk) && k <= |lh|
    ensures RecoverStage(L, d, lh, a, empty, k + 1, Put(dk, RecoverWrite(L, lh, d, empty, k)))
  {
    if k < |lh| {
      assert L.Home(lh[k]);
    }
  }

  lemma {:induction false} RecoverStages<T>(L: Layout, d: seq<T>, lh: seq<nat>, a: seq<T>, empty: T, k: nat)
    requires RepList(L, d, lh, a) && k <= |lh| + 1
    ensures RecoverStage(L, d, lh, a, empty, k, Apply(d, RecoverWrites(L, lh, d, empty)[..k]))
  {
    var ws := RecoverWrites(L, lh, d, empty);
    if k == 0 {
      assert ws[..0] == [];
    } else {
      RecoverStages(L, d, lh, a, empty, k - 1);
      ApplyNext(d, ws, k - 1);
      RecoverNext(L, d, lh, a, empty, k - 1, Apply(d, ws[..k - 1]));
    }
  }

  /** Before the commit record, and once it has been erased, the home blocks themselves count. */
  lemma {:induction false} StageOutside<T>(L: Layout, d: seq<T>, lh: seq<nat>, v: seq<T>, full: T, empty: T, k: nat,
                                           dk: seq<T>)
    requires CommitStage(L, d, lh, v, full, empty, k, dk) && lh != [] && (k <= |lh| || k == 2 * |lh| + 2)
    ensures RepList(L, dk, [], if k <= |lh| then d else Updated(d, lh, v))
  {
    hide Updated;
    if k > |lh| {
      forall h: nat | L.Home(h) ensures dk[h] == Updated(d, lh, v)[h] {
        if h in lh { var i :| 0 <= i < |lh| && lh[i] == h; }
      }
    }
  }

  /** From the commit record on, the log blocks do. */
  lemma {:induction false} StageInside<T>(L: Layout, d: seq<T>, lh: seq<nat>, v: seq<T>, full: T, empty: T, k: nat,
                                          dk: seq<T>)
    requires CommitStage(L, d, lh, v, full, empty, k, dk) && |lh| < k <= 2 * |lh| + 1
    ensures RepList(L, dk, lh, Updated(d, lh, v))
  {
    hide Updated;
    forall i | 0 <= i < |lh| ensures dk[L.start + 1 + i] == Updated(d, lh, v)[lh[i]] { assert L.Home(lh[i]); }
  }

  lemma {:induction false} StageHeader<T>(L: Layout, d: seq<T>, lh: seq<nat>, v: seq<T>, full: T, empty: T, k: nat,
                                          dk: seq<T>)
    requires CommitStage(L, d, lh, v, full, empty, k, dk)
    ensures |dk| == |d| == L.nblocks && L.start < L.nblocks
    ensures dk[L.start] == (if k <= |lh| then d[L.start] else if k <= 2 * |lh| + 1 then full else empty)
  {
  }

  /** Before the first write_head (k <= |lh|) the disk stands for the old home blocks, from
      then on for the new ones; at the end they are all in place. */
  lemma {:induction false} CommitRepList<T>(L: Layout, d: seq<T>, lh: seq<nat>, v: seq<T>, full: T, empty: T, k: nat)
    requires L.Ok() && L.HomeList(lh) && |v| == |d| == L.nblocks && lh != [] && k <= 2 * |lh| + 2
    ensures var dk := Apply(d, CommitWrites(L, lh, v, full, empty)[..k]);
            && |dk| == |d|
            && dk[L.start] == (if k <= |lh| then d[L.start] else if k <= 2 * |lh| + 1 then full else empty)
            && RepList(L, dk, if |lh| < k <= 2 * |lh| + 1 then lh else [], if k <= |lh| then d else Updated(d, lh, v))
  {
    hide CommitStage, RepList, Updated, CommitDisk, CommitWrites, Apply;
    CommitApply(L, d, lh, v, full, empty, k);
    var dk := CommitStages(L, d, lh, v, full, empty, k);
    StageHeader(L, d, lh, v, full, empty, k, dk);
    if |lh| < k <= 2 * |lh| + 1 {
      StageInside(L, d, lh, v, full, empty, k, dk);
    } else {
      StageOutside(L, d, lh, v, full, empty, k, dk);
    }
  }

  lemma {:induction false} RecoverEnd<T>(L: Layout, d: seq<T>, lh: seq<nat>, a: seq<T>, empty: T, k: nat, dk: seq<T>)
    requires RecoverStage(L, d, lh, a, empty, k, dk) && k <= |lh| + 1
    ensures |dk| == |d| && dk[L.start] == (if k <= |lh| then d[L.start] else empty)
    ensures RepList(L, dk, if k <= |lh| then lh else [], a) && (k == |lh| + 1 ==> SameHome(L, dk, a))
  {
    if k == |lh| + 1 {
      forall h: nat | L.Home(h) ensures dk[h] == a[h] {
        if h in lh { var i :| 0 <= i < |lh| && lh[i] == h; }
      }
    }
  }

  /** Any part of a recovery keeps what the disk recovers to; a whole one reaches it. */
  lemma {:induction false} RecoverRepList<T>(L: Layout, d: seq<T>, lh: seq<nat>, a: seq<T>, empty: T, k: nat)
    requires RepList(L, d, lh, a) && k <= |lh| + 1
    ensures var dk := Apply(d, RecoverWrites(L, lh, d, empty)[..k]);
            && |dk| == |d|
            && dk[L.start] == (if k <= |lh| then d[L.start] else empty)
            && RepList(L, dk, if k <= |lh| then lh else [], a)
            && (k == |lh| + 1 ==> SameHome(L, dk, a))
  {
    hide RecoverStage, RecoverWrites, Apply;
    RecoverStages(L, d, lh, a, empty, k);
    RecoverEnd(L, d, lh, a, empty, k, Apply(d, RecoverWrites(L, lh, d, empty)[..k]));
  }
}

/** Crash atomicity of kernel/log.c: a crash between any two block writes, and recovery that may
    itself crash. The contents of blocks are arbitrary; a codec says how a header block lists
    block numbers. */
module Crash {
  import opened RedoLog

  /** How log.lh is laid out in the header block: read_head and the loop of write_head. */
  datatype Codec<!T> = Codec(head: T -> seq<nat>, put: (T, seq<nat>) -> T)

  predicate Fits(lh: seq<nat>) {
    |lh| <= LOGSIZE && forall i | 0 <= i < |lh| :: lh[i] < 0x1_0000_0000
  }

  /** What is written as header is read back as header. */
  ghost predicate Law<T(!new)>(C: Codec<T>) {
    forall b: T, lh: seq<nat> | Fits(lh) :: C.head(C.put(b, lh)) == lh
  }

  ghost predicate HeaderOk<T>(L: Layout, C: Codec<T>, d: seq<T>) {
    L.Ok() && |d| == L.nblocks && L.HomeList(C.head(d[L.start]))
  }

  /** The disk `d`, once recovered, has the home blocks of `a`. */
  ghost predicate Rep<T>(L: Layout, C: Codec<T>, d: seq<T>, a: seq<T>) {
    HeaderOk(L, C, d) && RepList(L, d, C.head(d[L.start]), a)
  }

  ghost function CommitSeq<T>(L: Layout, C: Codec<T>, d: seq<T>, lh: seq<nat>, v: seq<T>): (ws: seq<Write<T>>)
    requires L.Ok() && |d| == L.nblocks && L.HomeList(lh) && |v| == L.nblocks
    ensures |ws| == if lh == [] then 0 else 2 * |lh| + 2
  {
    var full := C.put(d[L.start], lh);
    CommitWrites(L, lh, v, full, C.put(full, []))
  }

  ghost function RecoverSeq<T>(L: Layout, C: Codec<T>, d: seq<T>): (ws: seq<Write<T>>)
    requires HeaderOk(L, C, d)
    ensures |ws| == |C.head(d[L.start])| + 1
  {
    RecoverWrites(L, C.head(d[L.start]), d, C.put(d[L.start], []))
  }

  ghost function Recovered<T>(L: Layout, C: Codec<T>, d: seq<T>): seq<T>
    requires HeaderOk(L, C, d)
  {
    Apply(d, RecoverSeq(L, C, d))
  }

  lemma {:induction false} CommitRep<T(!new)>(L: Layout, C: Codec<T>, d: seq<T>, lh: seq<nat>, v: seq<T>, k: nat)
    requires Law(C) && HeaderOk(L, C, d) && C.head(d[L.start]) == []
    requires L.HomeList(lh) && |v| == L.nblocks && k <= |CommitSeq(L, C, d, lh, v)|
    ensures Rep(L, C, Apply(d, CommitSeq(L, C, d, lh, v)[..k]), if k <= |lh| then d else Updated(d, lh, v))
    ensures k == |CommitSeq(L, C, d, lh, v)| ==>
              C.head(Apply(d, CommitSeq(L, C, d, lh, v)[..k])[L.start]) == []
  {
    if lh != [] {
      var full := C.put(d[L.start], lh);
      assert Fits(lh) && Fits([]);
      CommitRepList(L, d, lh, v, full, C.put(full, []), k);
    } else {
      assert CommitSeq(L, C, d, lh, v)[..k] == [];
    }
  }

  lemma {:induction false} RecoverRep<T(!new)>(L: Layout, C: Codec<T>, d: seq<T>, a: seq<T>, k: nat)
    requires Law(C) && Rep(L, C, d, a) && k <= |RecoverSeq(L, C, d)|
    ensures Rep(L, C, Apply(d, RecoverSeq(L, C, d)[..k]), a)
    ensures k == |RecoverSeq(L, C, d)| ==>
              && SameHome(L, Apply(d, RecoverSeq(L, C, d)[..k]), a)
              && C.head(Apply(d, RecoverSeq(L, C, d)[..k])[L.start]) == []
  {
    assert Fits([]);
    RecoverRepList(L, d, C.head(d[L.start]), a, C.put(d[L.start], []), k);
  }

  /** A partial recovery leaves a well-formed header. */
  lemma {:induction false} RecoverHeader<T(!new)>(L: Layout, C: Codec<T>, d: seq<T>, k: nat)
    requires Law(C) && HeaderOk(L, C, d) && k <= |RecoverSeq(L, C, d)|
    ensures var h := Apply(d, RecoverSeq(L, C, d)[..k])[L.start]; h == d[L.start] || h == C.put(d[L.start], [])
    ensures HeaderOk(L, C, Apply(d, RecoverSeq(L, C, d)[..k]))
  {
    var ws := RecoverSeq(L, C, d);
    assert Fits([]);
    if k > 0 {
      RecoverHeader(L, C, d, k - 1);
      ApplyNext(d, ws, k - 1);
      assert k - 1 < |C.head(d[L.start])| ==> L.Home(C.head(d[L.start])[k - 1]);
    }
  }

  /** A recovery cut short after ks[0] writes, then one cut short after ks[1], and so on,
      then one that completes. */
  ghost function AfterCrashes<T(!new)>(L: Layout, C: Codec<T>, d: seq<T>, ks: seq<nat>): seq<T>
    requires Law(C) && HeaderOk(L, C, d)
    decreases |ks|
  {
    if ks == [] then Recovered(L, C, d)
    else
      var ws := RecoverSeq(L, C, d);
      var k := if ks[0] <= |ws| then ks[0] else |ws|;
      RecoverHeader(L, C, d, k);
      AfterCrashes(L, C, Apply(d, ws[..k]), ks[1..])
  }

  /** Recovery cut short any number of times still reaches the same home blocks. */
  lemma {:induction false} CrashesRecover<T(!new)>(L: Layout, C: Codec<T>, d: seq<T>, a: seq<T>, ks: seq<nat>)
    requires Law(C) && Rep(L, C, d, a)
    ensures SameHome(L, AfterCrashes(L, C, d, ks), a)
    ensures C.head(AfterCrashes(L, C, d, ks)[L.start]) == []
    decreases |ks|
  {
    var ws := RecoverSeq(L, C, d);
    if ks == [] {
      RecoverRep(L, C, d, a, |ws|);
      assert ws[..|ws|] == ws;
    } else {
      var k := if ks[0] <= |ws| then ks[0] else |ws|;
      RecoverRep(L, C, d, a, k);
      CrashesRecover(L, C, Apply(d, ws[..k]), a, ks[1..]);
    }
  }

  /** Crash atomicity. Cut a commit after any k of its block writes and crash during recovery
      any number of times: once a recovery completes, every home block is old if the commit
      record was not written (k <= |lh|) and every logged one is new if it was. */
  lemma {:induction false} CrashAtomicity<T(!new)>(L: Layout, C: Codec<T>, d: seq<T>, lh: seq<nat>, v: seq<T>, k: nat,
                                                   ks: seq<nat>)
    requires Law(C) && HeaderOk(L, C, d) && C.head(d[L.start]) == []
    requires L.HomeList(lh) && |v| == L.nblocks && k <= |CommitSeq(L, C, d, lh, v)|
    ensures HeaderOk(L, C, Apply(d, CommitSeq(L, C, d, lh, v)[..k]))
    ensures var r := AfterCrashes(L, C, Apply(d, CommitSeq(L, C, d, lh, v)[..k]), ks);
            && |r| == |d|
            && forall h: nat | L.Home(h) :: r[h] == if h in lh && k > |lh| then v[h] else d[h]
  {
    CommitRep(L, C, d, lh, v, k);
    CrashesRecover(L, C, Apply(d, CommitSeq(L, C, d, lh, v)[..k]),
                   if k <= |lh| then d else Updated(d, lh, v), ks);
  }
}

/** The header block of kernel/log.c: `int n` followed by `int block[LOGSIZE]`. */
module LogHeader {
  import opened Blocks
  import opened RedoLog
  import opened Crash

  /** The block numbers a header block lists; a count above LOGSIZE is no header. */
  function Head(b: Block): (lh: seq<nat>)
    ensures GetWord(b, 0) <= LOGSIZE ==> |lh| == GetWord(b, 0) && forall i | 0 <= i < |lh| :: lh[i] == GetWord(b, 1 + i)
    ensures GetWord(b, 0) > LOGSIZE ==> |lh| > LOGSIZE
  {
    var n := GetWord(b, 0);
    if n <= LOGSIZE then seq(n, i requires 0 <= i < n => GetWord(b, 1 + i)) else seq(LOGSIZE + 1, _ => 0)
  }

  /** A header block overwritten with the list lh; words past it keep their old value. */
  function PutHead(b: Block, lh: seq<nat>): (c: Block)
    ensures Fits(lh) ==> Head(c) == lh
  {
    if Fits(lh) then
      WordRoundTrip(b, 0, |lh|);
      PutList(SetWord(b, 0, |lh|), lh)
    else b
  }

  function PutList(b: Block, lh: seq<nat>): (c: Block)
    requires Fits(lh)
    ensures GetWord(c, 0) == GetWord(b, 0)
    ensures forall i | 0 <= i < |lh| :: GetWord(c, 1 + i) == lh[i]
    decreases |lh|
  {
    if lh == [] then b
    else
      var c := PutList(b, lh[..|lh| - 1]);
      WordRoundTrip(c, |lh|, lh[|lh| - 1]);
      SetWord(c, |lh|, lh[|lh| - 1])
  }

  const XvCodec: Codec<Block> := Codec(Head, PutHead)

  /** The kernel's header format meets the law the crash theorems ask for. */
  lemma {:induction false} XvCodecLaw()
    ensures Law(XvCodec)
  {
    forall b: Block, lh: seq<nat> | Fits(lh) ensures XvCodec.head(XvCodec.put(b, lh)) == lh {
      assert Head(PutHead(b, lh)) == lh;
    }
  }

  /** struct logheader: the count in the first word, then the block numbers. */
  lemma {:induction false} HeaderLayout(b: Block, lh: seq<nat>)
    requires Fits(lh)
    ensures GetWord(PutHead(b, lh), 0) == |lh| && forall i | 0 <= i < |lh| :: GetWord(PutHead(b, lh), 1 + i) == lh[i]
    ensures GetWord(b, 0) == |lh| && (forall i | 0 <= i < |lh| :: GetWord(b, 1 + i) == lh[i]) ==> Head(b) == lh
  {
    hide GetWord, SetWord, PutList;
    WordRoundTrip(b, 0, |lh|);
  }

  /** The loop of write_head over the buffer of the header block. */
  method FillHeader(b: Block, n: nat, block: seq<nat>) returns (hb: Block)
    requires n <= |block| && Fits(block[..n])
    ensures hb == XvCodec.put(b, block[..n])
  {
    hide SetWord, GetWord, Head;
    ghost var lh := block[..n];
    hb := SetWord(b, 0, n);
    ghost var b0 := hb;
    var i := 0;
    while i < n
      invariant 0 <= i <= n
      invariant hb == PutList(b0, lh[..i])
    {
      assert lh[..i + 1][..i] == lh[..i];
      hb := SetWord(hb, 1 + i, block[i]);
      i := i + 1;
    }
    assert lh[..n] == lh;
  }

  /** The loop of read_head. */
  method ReadHeader(b: Block, old_: seq<nat>) returns (n: nat, block: seq<nat>)
    requires GetWord(b, 0) <= LOGSIZE == |old_|
    ensures n <= |block| == LOGSIZE && block[..n] == XvCodec.head(b)
  {
    n, block := GetWord(b, 0), old_;
    var i := 0;
    while i < n
      invariant 0 <= i <= n && |block| == LOGSIZE
      invariant forall j | 0 <= j < i :: block[j] == GetWord(b, 1 + j)
    {
      block := block[i := GetWord(b, 1 + i)];
      i := i + 1;
    }
  }
}
