/** kernel/log.c as it runs: the global `log` and the loops of write_log, install_trans and
    log_write, each proved to issue exactly the block writes that modules RedoLog and Crash
    reason about. The loops over the words of a header block are in module LogHeader. */
module LogCode {
  import opened RedoLog
  import opened Crash
  import opened GroupCommit

  class Log<T(!new)> {
    const C: Codec<T>      // the format of the header block
    const L: Layout        // log.start, log.size and the device size
    var disk: seq<T>
    var view: seq<T>         // what bread returns: the cached copy of each block
    var n: nat             // log.lh.n
    var block: seq<nat>    // log.lh.block, an array of LOGSIZE entries
    var outstanding: int
    var committing: bool
    ghost var trace: seq<Write<T>>  // the bwrites since disk and view were base and vbase
    ghost var base: seq<T>
    ghost var vbase: seq<T>

    ghost predicate Valid()
      reads this
    {
      && L.Ok() && |base| == |vbase| == L.nblocks
      && |block| == LOGSIZE && n <= LOGSIZE
      && disk == Apply(base, trace) && view == Apply(vbase, trace)
    }

    function Lh(): (lh: seq<nat>)
      requires n <= |block|
      reads this
    {
      block[..n]
    }

    /** The header lists home blocks, and only they differ between cache and disk. */
    ghost predicate Ready()
      reads this
      requires Valid()
    {
      L.HomeList(Lh()) && forall b: nat | b < L.nblocks && b !in Lh() :: view[b] == disk[b]
    }

    constructor (L: Layout, C: Codec<T>, disk: seq<T>)
      requires L.Ok() && |disk| == L.nblocks
      ensures Valid() && Ready() && this.L == L && this.C == C && this.disk == view == disk && n == 0
      ensures outstanding == 0 && !committing
    {
      this.L, this.C := L, C;
      this.disk, this.view, base, vbase := disk, disk, disk, disk;
      n, block, outstanding, committing, trace := 0, seq(LOGSIZE, _ => 0), 0, false, [];
    }

    /** One round of the loop of begin_op: false means that it sleeps and tries again. */
    method BeginOp() returns (ok: bool)
      requires Valid()
      modifies this`outstanding
      ensures ok <==> !committing && n + (old(outstanding) + 1) * MAXOPBLOCKS <= LOGSIZE
      ensures outstanding == old(outstanding) + if ok then 1 else 0
    {
      if committing { return false; }
      if n + (outstanding + 1) * MAXOPBLOCKS > LOGSIZE { return false; }
      outstanding := outstanding + 1;
      return true;
    }

    /** The last operation to end commits; after that cache and disk agree. `panic` is "log.committing". */
    method EndOp() returns (panic: bool)
      requires Valid() && Ready()
      modifies this`outstanding, this`committing, this`disk, this`view, this`n, this`trace, this`base, this`vbase
      ensures Valid() && Ready() && outstanding == old(outstanding) - 1 && committing == old(committing)
      ensures panic <==> old(committing)
      ensures panic || outstanding != 0 ==> disk == old(disk) && view == old(view) && n == old(n) && trace == old(trace)
      ensures !panic && outstanding == 0 ==>
        && n == 0 && base == old(disk) && trace == CommitSeq(L, C, old(disk), old(Lh()), old(view))
        && disk == view == Apply(old(disk), trace) && forall h: nat | L.Home(h) :: disk[h] == old(view)[h]
    {
      var commit := false;
      outstanding := outstanding - 1;
      if committing { return true; }
      if outstanding == 0 { commit, committing := true, true; }
      if commit {
        Commit();
        committing := false;
      }
      return false;
    }

    /** memmove into the buffer of block b, then bwrite: one atomic block write. */
    method BWrite(b: nat, data: T)
      requires Valid() && b < L.nblocks
      modifies this`disk, this`view, this`trace
      ensures Valid() && view == old(view)[b := data]
      ensures trace == old(trace) + [Write(b, data)]
    {
      assert (trace + [Write(b, data)])[..|trace|] == trace;
      disk, view, trace := disk[b := data], view[b := data], trace + [Write(b, data)];
    }

    method WriteHead()
      requires Valid()
      modifies this`disk, this`view, this`trace
      ensures Valid()
      ensures trace == old(trace) + [Write(L.start, C.put(old(view)[L.start], Lh()))]
    {
      BWrite(L.start, C.put(view[L.start], block[..n]));
    }

    /** Issues the n writes of the plan ws that copy logged blocks into the log. */
    method WriteLog(ghost ws: seq<Write<T>>)
      requires Valid() && L.HomeList(Lh()) && trace == []
      requires n <= |ws| && forall i | 0 <= i < n :: ws[i] == Write(L.start + 1 + i, view[Lh()[i]])
      modifies this`disk, this`view, this`trace
      ensures Valid() && trace == ws[..n]
    {
      ghost var lh := Lh();
      var tail := 0;
      while tail < n
        invariant 0 <= tail <= n && Valid() && trace == ws[..tail]
        invariant forall h: nat | L.Home(h) :: view[h] == old(view)[h]
      {
        assert L.Home(lh[tail]) && lh[tail] == block[tail];
        var from := view[block[tail]];
        BWrite(L.start + tail + 1, from);
        tail := tail + 1;
      }
    }

    /** Issues the n writes of the plan ws, from number k on, that copy log blocks home. */
    method InstallTrans(ghost ws: seq<Write<T>>, ghost k: nat)
      requires Valid() && L.HomeList(Lh()) && k + n <= |ws| && trace == ws[..k]
      requires forall i | 0 <= i < n :: ws[k + i] == Write(Lh()[i], view[L.start + 1 + i])
      modifies this`disk, this`view, this`trace
      ensures Valid() && trace == ws[..k + n]
    {
      ghost var lh := Lh();
      var tail := 0;
      while tail < n
        invariant 0 <= tail <= n && Valid() && trace == ws[..k + tail]
        invariant forall b: nat | L.start < b < L.start + L.size :: view[b] == old(view)[b]
      {
        assert L.Home(lh[tail]) && lh[tail] == block[tail];
        var lbuf := view[L.start + tail + 1];
        assert ws[k + tail] == Write(block[tail], lbuf);
        BWrite(block[tail], lbuf);
        tail := tail + 1;
      }
    }

    /** First half of commit(): write_log and the write_head that is the real commit. */
    method CommitRecord(ghost full: T)
      requires Valid() && L.HomeList(Lh()) && 0 < n && trace == [] && full == C.put(view[L.start], Lh())
      modifies this`disk, this`view, this`trace
      ensures Valid() && trace == CommitWrites(L, Lh(), old(view), full, C.put(full, []))[..n + 1]
    {
      ghost var lh := Lh();
      ghost var ws := CommitWrites(L, lh, view, full, C.put(full, []));
      CommitHead(L, lh, view, full, C.put(full, []), n);
      WriteLog(ws);
      WriteHead();
    }

    /** Second half of commit(): install_trans(0), lh.n = 0 and the write_head that clears the log. */
    method CommitInstall(ghost v: seq<T>, ghost full: T)
      requires Valid() && L.HomeList(Lh()) && 0 < n && vbase == v && full == C.put(v[L.start], Lh())
      requires trace == CommitWrites(L, Lh(), v, full, C.put(full, []))[..n + 1]
      modifies this`disk, this`view, this`trace, this`n
      ensures Valid() && n == 0 && trace == CommitWrites(L, old(Lh()), v, full, C.put(full, []))
    {
      hide CommitWrites, HeaderOk, Apply;
      ghost var lh, k := Lh(), n;
      ghost var ws := CommitWrites(L, lh, v, full, C.put(full, []));
      CommitInstalls(L, lh, v, full, C.put(full, []), view);
      CommitHead(L, lh, v, full, C.put(full, []), 2 * k + 1);
      CommitLast(L, lh, v, full, C.put(full, []));
      InstallTrans(ws, k + 1);
      assert view[L.start] == full && |trace| == 2 * k + 1;
      n := 0;
      WriteHead();
      assert trace == ws[..2 * k + 1] + [ws[2 * k + 1]];
    }

    /** commit() issues exactly the block writes CommitSeq, so that CrashAtomicity speaks about
        a crash at any point of this method. If only logged blocks differed between cache and
        disk before it, they agree afterwards. */
    method Commit()
      requires Valid() && Ready()
      modifies this`disk, this`view, this`n, this`trace, this`base, this`vbase
      ensures Valid() && Ready() && base == old(disk) && n == 0
      ensures trace == CommitSeq(L, C, old(disk), old(Lh()), old(view))
      ensures disk == Apply(old(disk), trace) && view == disk && forall h: nat | L.Home(h) :: disk[h] == old(view)[h]
    {
      ghost var lh := Lh();
      base, vbase, trace := disk, view, [];
      if n > 0 {
        assert !L.Home(L.start) && L.start !in lh;
        ghost var full := C.put(view[L.start], lh);
        CommitAgree(L, lh, view, disk, full, C.put(full, []));
        CommitHomes(L, lh, view, full, C.put(full, []));
        CommitRecord(full);
        CommitInstall(vbase, full);
      } else {
        assert view == disk;
      }
    }

    /** recover_from_log() issues exactly the block writes RecoverSeq. */
    method RecoverFromLog()
      requires Valid() && HeaderOk(L, C, disk) && view == disk
      modifies this`disk, this`view, this`n, this`block, this`trace, this`base, this`vbase
      ensures Valid() && Ready() && base == old(disk) && n == 0
      ensures trace == RecoverSeq(L, C, old(disk))
      ensures disk == Recovered(L, C, old(disk)) && view == disk
    {
      hide Apply;
      base, vbase, trace := disk, view, [];
      assert Apply(disk, []) == disk by { ApplyNone(disk); }
      ghost var ws := RecoverSeq(L, C, disk);
      var lh := C.head(view[L.start]);  // read_head
      n, block := |lh|, lh + block[|lh|..];
      assert Lh() == lh;
      InstallTrans(ws, 0);
      assert view[L.start] == base[L.start] by { RecoverHead(L, lh, base, C.put(base[L.start], []), |lh|); }
      n := 0;
      WriteHead();
      assert trace == ws;
    }

    /** Records the block in the header unless it is already there; the two panics. */
    method LogWrite(bno: nat, data: T) returns (fault: Fault)
      requires Valid() && bno < L.nblocks
      modifies this`n, this`block, this`view, this`base, this`vbase, this`trace
      ensures Valid()
      ensures fault == (if old(n) >= LOGSIZE || old(n) >= L.size - 1 then TooBig
                        else if outstanding < 1 then OutsideTrans else NoFault)
      ensures fault != NoFault ==> n == old(n) && block == old(block) && view == old(view)
      ensures fault == NoFault ==>
                && view == old(view)[bno := data]
                && Lh() == if bno in old(Lh()) then old(Lh()) else old(Lh()) + [bno]
      ensures old(Ready()) && L.Home(bno) ==> Ready()
    {
      if n >= LOGSIZE || n >= L.size - 1 { return TooBig; }
      if outstanding < 1 { return OutsideTrans; }
      view := view[bno := data];
      base, vbase, trace := disk, view, [];
      var i := 0;
      while i < n
        invariant 0 <= i <= n
        invariant forall j | 0 <= j < i :: block[j] != bno
      {
        if block[i] == bno { break; }
        i := i + 1;
      }
      block := block[i := bno];
      if i == n {
        n := n + 1;
      }
      fault := NoFault;
    }
  }

  /** The header block after k writes of a commit. */
  lemma {:induction false} CommitHead<T>(L: Layout, lh: seq<nat>, v: seq<T>, full: T, empty: T, k: nat)
    requires L.Ok() && L.HomeList(lh) && lh != [] && |v| == L.nblocks && k <= 2 * |lh| + 1
    ensures Apply(v, CommitWrites(L, lh, v, full, empty)[..k])[L.start] == if k <= |lh| then v[L.start] else full
  {
    CommitApply(L, v, lh, v, full, empty, k);
    var d := CommitStages(L, v, lh, v, full, empty, k);
  }

  lemma {:induction false} CommitLast<T>(L: Layout, lh: seq<nat>, v: seq<T>, full: T, empty: T)
    requires L.Ok() && L.HomeList(lh) && lh != [] && |v| == L.nblocks
    ensures CommitWrites(L, lh, v, full, empty)[2 * |lh| + 1] == Write(L.start, empty)
  {
  }

  lemma {:induction false} CopiedAt<T>(L: Layout, lh: seq<nat>, v: seq<T>, full: T, empty: T, i: nat)
    requires L.Ok() && L.HomeList(lh) && |v| == L.nblocks && i < |lh|
    ensures Apply(v, CommitWrites(L, lh, v, full, empty)[..|lh| + 1])[L.start + 1 + i] == v[lh[i]]
  {
    CommitApply(L, v, lh, v, full, empty, |lh| + 1);
    var d := CommitStages(L, v, lh, v, full, empty, |lh| + 1);
  }

  /** The install writes of a commit copy what write_log put into the log. */
  lemma {:induction false} CommitInstalls<T>(L: Layout, lh: seq<nat>, v: seq<T>, full: T, empty: T, v1: seq<T>)
    requires L.Ok() && L.HomeList(lh) && lh != [] && |v| == L.nblocks
    requires v1 == Apply(v, CommitWrites(L, lh, v, full, empty)[..|lh| + 1])
    ensures var n, ws := |lh|, CommitWrites(L, lh, v, full, empty);
            forall i | 0 <= i < n :: ws[n + 1 + i] == Write(lh[i], v1[L.start + 1 + i])
  {
    hide Apply, CommitWrites;
    var n, ws := |lh|, CommitWrites(L, lh, v, full, empty);
    forall i | 0 <= i < n ensures ws[n + 1 + i] == Write(lh[i], v1[L.start + 1 + i]) {
      CopiedAt(L, lh, v, full, empty, i);
      InstallAt(L, lh, v, full, empty, i);
    }
  }

  lemma {:induction false} InstallAt<T>(L: Layout, lh: seq<nat>, v: seq<T>, full: T, empty: T, i: nat)
    requires L.Ok() && L.HomeList(lh) && |v| == L.nblocks && i < |lh|
    ensures CommitWrites(L, lh, v, full, empty)[|lh| + 1 + i] == Write(lh[i], v[lh[i]])
  {
  }

  /** The header block after k writes of a recovery. */
  lemma {:induction false} RecoverHead<T>(L: Layout, lh: seq<nat>, d: seq<T>, empty: T, k: nat)
    requires L.Ok() && L.HomeList(lh) && |d| == L.nblocks && k <= |lh|
    ensures Apply(d, RecoverWrites(L, lh, d, empty)[..k])[L.start] == d[L.start]
  {
    if k > 0 {
      RecoverHead(L, lh, d, empty, k - 1);
      ApplyNext(d, RecoverWrites(L, lh, d, empty), k - 1);
      assert L.Home(lh[k - 1]);
    }
  }

  lemma {:induction false} AgreeOutside<T>(ws: seq<Write<T>>, v: seq<T>, d: seq<T>, b: nat)
    requires b < |v| == |d| && v[b] == d[b]
    ensures Apply(v, ws)[b] == Apply(d, ws)[b]
    decreases |ws|
  {
    if ws != [] { AgreeOutside(ws[..|ws| - 1], v, d, b); }
  }

  /** Cache and disk agree after a commit if only logged blocks differed before it. */
  lemma {:induction false} CommitAgree<T>(L: Layout, lh: seq<nat>, v: seq<T>, d: seq<T>, full: T, empty: T)
    requires L.Ok() && L.HomeList(lh) && lh != [] && |v| == |d| == L.nblocks
    requires forall b: nat | b < L.nblocks && b !in lh :: v[b] == d[b]
    ensures Apply(v, CommitWrites(L, lh, v, full, empty)) == Apply(d, CommitWrites(L, lh, v, full, empty))
  {
    var ws := CommitWrites(L, lh, v, full, empty);
    forall h: nat | h < L.nblocks ensures Apply(v, ws)[h] == Apply(d, ws)[h] {
      if h in lh {
        var i :| 0 <= i < |lh| && lh[i] == h;
        InstalledAt(L, lh, v, v, full, empty, i);
        InstalledAt(L, lh, v, d, full, empty, i);
      } else {
        AgreeOutside(ws, v, d, h);
      }
    }
  }

  /** After a commit the home blocks are what bread returned before it. */
  lemma {:induction false} CommitHomes<T>(L: Layout, lh: seq<nat>, v: seq<T>, full: T, empty: T)
    requires L.Ok() && L.HomeList(lh) && lh != [] && |v| == L.nblocks
    ensures forall h: nat | L.Home(h) :: Apply(v, CommitWrites(L, lh, v, full, empty))[h] == v[h]
  {
    var k, ws := 2 * |lh| + 2, CommitWrites(L, lh, v, full, empty);
    CommitApply(L, v, lh, v, full, empty, k);
    assert ws[..k] == ws;
    var dk := CommitStages(L, v, lh, v, full, empty, k);
    forall h: nat | L.Home(h) && h in lh ensures dk[h] == v[h] { var i :| 0 <= i < |lh| && lh[i] == h; }
  }

  lemma {:induction false} InstalledAt<T>(L: Layout, lh: seq<nat>, v: seq<T>, d: seq<T>, full: T, empty: T, i: nat)
    requires L.Ok() && L.HomeList(lh) && |v| == |d| == L.nblocks && i < |lh|
    ensures Apply(d, CommitWrites(L, lh, v, full, empty))[lh[i]] == v[lh[i]]
  {
    var k, ws := 2 * |lh| + 2, CommitWrites(L, lh, v, full, empty);
    CommitApply(L, d, lh, v, full, empty, k);
    assert ws[..k] == ws;
    var dk := CommitStages(L, d, lh, v, full, empty, k);
  }
}
