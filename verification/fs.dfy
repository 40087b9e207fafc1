/** kernel/fs.c and the write loop of kernel/file.c. Reading a block returns its latest logged
    contents (module CacheCoherence), so `disk` is what bread returns, and changing a block and
    calling log_write is one update of `disk` that puts the block into `logged`. The caller holds
    the inode's lock and is inside a transaction. */
module FsCode {
  import opened Blocks
  import opened FsFormat
  import opened FsSpec
  import opened FsLocal
  import opened RedoLog

  function Min(a: nat, b: nat): nat { if a < b then a else b }

  class FileSystem<T(!new), B(!new)> {
    const F: Format<T, B>
    const sb: Super
    var disk: seq<T>
    var inodes: seq<Inode>              // the in-memory inodes
    ghost var owner: map<nat, Slot>     // which slot points to each allocated data block
    ghost var files: seq<seq<B>>        // the contents of each file
    ghost var logged: set<nat>          // blocks passed to log_write in this transaction
    ghost var base: seq<T>              // the disk when it began
    ghost var trace: seq<Write<T>>      // its log_writes
    ghost var who: nat                  // the inode whose lock is held
    ghost var rest: set<nat>            // the blocks of the other inodes

    constructor (F: Format<T, B>, sb: Super, disk: seq<T>, inodes: seq<Inode>, ghost owner: map<nat, Slot>,
                 ghost files: seq<seq<B>>)
      ensures this.F == F && this.sb == sb && this.disk == disk && this.inodes == inodes && this.owner == owner
      ensures this.files == files && logged == {} && trace == [] && Tracing() && Local() && who == 0
          && rest == Theirs(owner, 0)
    {
      this.F, this.sb, this.disk, this.inodes, this.owner, this.files, this.logged :=
        F, sb, disk, inodes, owner, files, {};
      base, trace, who, rest := disk, [], 0, Theirs(owner, 0);
    }

    /** Block ownership. */
    ghost predicate Core()
      reads this
    {
      Law(F) && Owned(F, sb, disk, inodes, owner, 0, 0) && Tracing() && Local() && rest == Theirs(owner, who)
    }

    /** Every log_write so far was one that the holder of the inode's lock may make. */
    ghost predicate Local()
      reads this
    {
      LocalTrace(F, sb, who, rest, base, trace)
    }

    ghost predicate Tracing()
      reads this
    {
      Traced(sb, base, trace, disk, logged)
    }

    /** Nothing changed. */
    twostate predicate Same()
      reads this
    {
      disk == old(disk) && inodes == old(inodes) && owner == old(owner) && logged == old(logged) && trace == old(trace)
    }

    method LogWrite(b: nat, x: T)
      requires sb.inodestart <= b < sb.size == |disk| && Tracing()
      modifies this`disk, this`logged, this`trace
      ensures disk == old(disk)[b := x] && logged == old(logged) + {b} && trace == old(trace) + [Write(b, x)]
      ensures Tracing() && (old(Local()) && LocalWrite(F, sb, who, rest, old(disk), Write(b, x)) ==> Local())
    {
      hide Traced, LocalTrace, LocalWrite;
      TracedFacts(sb, base, trace, disk, logged);
      TracedStep(sb, base, trace, disk, logged, b, x);
      if Local() && LocalWrite(F, sb, who, rest, disk, Write(b, x)) {
        TraceMore(F, sb, who, rest, base, trace, disk, Write(b, x));
      }
      disk, logged, trace := disk[b := x], logged + {b}, trace + [Write(b, x)];
    }

    method BZero(b: nat)
      requires sb.inodestart <= b < sb.size == |disk| && Tracing()
      modifies this`disk, this`logged, this`trace
      ensures disk == old(disk)[b := F.zero] && logged == old(logged) + {b} && Tracing()
      ensures old(Local()) && LocalWrite(F, sb, who, rest, old(disk), Write(b, F.zero)) ==> Local()
    {
      LogWrite(b, F.zero);
    }

    /** balloc's inner loop: the first clear bit of the map block for blocks b and on. */
    method ScanMap(b: nat) returns (bi: nat)
      requires SuperOk(sb) && |disk| == sb.size && b < sb.size && b % BPB == 0
      ensures bi <= BPB && b + bi <= sb.size && (bi < BPB && b + bi < sb.size ==> !Used(F, sb, disk, b + bi))
      ensures forall x: nat | b <= x < b + bi :: Used(F, sb, disk, x)
    {
      var bp := disk[sb.bmapstart + b / BPB];
      bi := 0;
      while bi < BPB && b + bi < sb.size
        invariant 0 <= bi <= BPB && b + bi <= sb.size
        invariant forall x: nat | b <= x < b + bi :: Used(F, sb, disk, x)
      {
        assert (b + bi) / BPB == b / BPB && (b + bi) % BPB == bi;
        assert Used(F, sb, disk, b + bi) == F.bit(bp, bi);
        if !F.bit(bp, bi) { return; }
        bi := bi + 1;
      }
    }

    /** balloc takes block b + bi: its bit in the map, and its contents. */
    method Claim(b: nat, bi: nat)
      requires SuperOk(sb) && |disk| == sb.size && b % BPB == 0 && bi < BPB && sb.datastart <= b + bi < sb.size
      requires Tracing()
      modifies this`disk, this`logged, this`trace
      ensures Tracing() && disk == Allocated(F, sb, old(disk), b + bi)
      ensures logged == old(logged) + {MapBlock(sb, b + bi), b + bi}
      ensures Law(F) && old(Local()) && who < sb.ninodes && b + bi !in rest && !old(Used(F, sb, disk, b + bi)) ==>
          Local()
    {
      hide Traced, LocalTrace, LocalWrite, Law, Used;
      assert (b + bi) / BPB == b / BPB && (b + bi) % BPB == bi;
      if Law(F) && who < sb.ninodes && b + bi !in rest && !Used(F, sb, disk, b + bi) {
        ClaimLocal(F, sb, who, rest, disk, b + bi);
      }
      LogWrite(sb.bmapstart + b / BPB, F.setBit(disk[sb.bmapstart + b / BPB], bi, true));
      BZero(b + bi);
    }

    /** The first free block, marked and zeroed; 0 exactly when the map is full. */
    method BAlloc() returns (r: nat)
      requires Law(F) && SuperOk(sb) && |disk| == sb.size
      requires (forall x: nat | x < sb.datastart :: Used(F, sb, disk, x)) && Tracing()
      modifies this`disk, this`logged, this`trace
      ensures Tracing() && (r == 0 ==> trace == old(trace))
      ensures r == 0 ==>
                disk == old(disk) && logged == old(logged) && forall x: nat | x < sb.size :: Used(F, sb, disk, x)
      ensures r != 0 ==>
                sb.datastart <= r < sb.size && !old(Used(F, sb, disk, r))
                && (forall x: nat | x < r :: old(Used(F, sb, disk, x)))
      ensures r != 0 ==> disk == Allocated(F, sb, old(disk), r) && logged == old(logged) + {MapBlock(sb, r), r}
      ensures old(Local()) && who < sb.ninodes && (r == 0 || r !in rest) ==> Local()
    {
      hide Traced, Law, Used, LocalTrace;
      var b := 0;
      while b < sb.size
        invariant b % BPB == 0 && Same()
        invariant forall x: nat | x < b && x < sb.size :: Used(F, sb, disk, x)
        decreases sb.size + BPB - b
      {
        var bi := ScanMap(b);
        if bi < BPB && b + bi < sb.size {
          assert b + bi >= sb.datastart;
          Claim(b, bi);
          return b + bi;
        }
        b := b + BPB;
      }
      return 0;
    }

    /** `panic` is "freeing free block". */
    method BFree(b: nat) returns (panic: bool)
      requires SuperOk(sb) && |disk| == sb.size && b < sb.size && Tracing()
      modifies this`disk, this`logged, this`trace
      ensures Tracing()
      ensures panic <==> !old(Used(F, sb, disk, b))
      ensures disk == if panic then old(disk) else Marked(F, sb, old(disk), b, false)
      ensures logged == if panic then old(logged) else old(logged) + {MapBlock(sb, b)}
      ensures old(Local()) && who < sb.ninodes && sb.datastart <= b && b !in rest ==> Local()
    {
      hide Traced, LocalTrace, LocalWrite;
      if who < sb.ninodes && sb.datastart <= b && b !in rest { MapLocal(F, sb, who, rest, disk, b, false); }
      var bno := sb.bmapstart + b / BPB;
      var bi := b % BPB;
      if !F.bit(disk[bno], bi) { return true; }
      LogWrite(bno, F.setBit(disk[bno], bi, false));
      return false;
    }

    /** addrs[k] of inode i, allocating a block for it if it has none. */
    method TopBlock(i: nat, k: nat) returns (addr: nat, ghost maps: set<nat>)
      requires Core() && who == i && IsSlot(sb, Top(i, k))
      modifies this`disk, this`inodes, this`owner, this`logged, this`trace
      ensures Core() && Extended(F, sb, old(disk), old(inodes), old(owner), disk, inodes, owner, i)
      ensures old(inodes[i].addrs[k]) != 0 ==> Same()
      ensures addr == inodes[i].addrs[k] && inodes[i].addrs == old(inodes[i].addrs)[k := addr]
      ensures addr == 0 ==> Same() && forall x: nat | x < sb.size :: Used(F, sb, disk, x)
      ensures logged <= old(logged) + maps + {addr} && |maps| <= if Same() then 0 else 1
      ensures Accounted(sb, old(owner), old(logged), owner, logged)
      ensures old(inodes[i].addrs[k]) == 0 && addr != 0 ==> disk[addr] == F.zero && addr !in old(owner)
    {
      hide Traced, Extended, Owned, Law, Used, LocalTrace, Theirs;
      OwnedFacts(F, sb, disk, inodes, owner, i);
      ExtendedRefl(F, sb, disk, inodes, owner, i);
      addr, maps := inodes[i].addrs[k], {};
      if addr == 0 {
        TheirsUsed(F, sb, disk, inodes, owner, i);
        addr := BAlloc();
        if addr == 0 { return; }
        maps := {MapBlock(sb, addr)};
        ghost var d0, n0, o0 := old(disk), inodes, owner;
        inodes := inodes[i := inodes[i].(addrs := inodes[i].addrs[k := addr])];
        owner := owner[addr := Top(i, k)];
        ExtendedTop(F, sb, d0, n0, o0, i, k, addr, inodes);
        TheirsGrow(o0, i, addr, Top(i, k));
      }
    }

    /** Word j of inode i's indirect block, allocating a block for it if it has none. */
    method LeafBlock(i: nat, j: nat) returns (addr: nat, ghost maps: set<nat>)
      requires Core() && who == i && IsSlot(sb, Leaf(i, j)) && inodes[i].addrs[NDIRECT] != 0
      modifies this`disk, this`owner, this`logged, this`trace
      ensures Core() && Extended(F, sb, old(disk), old(inodes), old(owner), disk, inodes, owner, i)
      ensures old(Ptr(F, disk, inodes, Leaf(i, j))) != 0 ==> Same()
      ensures addr == Ptr(F, disk, inodes, Leaf(i, j))
      ensures addr == 0 ==> Same() && forall x: nat | x < sb.size :: Used(F, sb, disk, x)
      ensures logged <= old(logged) + maps + {addr, inodes[i].addrs[NDIRECT]} && |maps| <= if Same() then 0 else 1
      ensures Accounted(sb, old(owner), old(logged), owner, logged)
    {
      hide Traced, Extended, Owned, Law, Used, LocalTrace, LocalWrite, Theirs;
      OwnedFacts(F, sb, disk, inodes, owner, i);
      var a := inodes[i].addrs[NDIRECT];
      ExtendedRefl(F, sb, disk, inodes, owner, i);
      addr, maps := F.word(disk[a], j), {};
      if addr == 0 {
        TheirsUsed(F, sb, disk, inodes, owner, i);
        addr := BAlloc();
        if addr == 0 { return; }
        maps := {MapBlock(sb, addr)};
        LeafLocal(F, sb, old(disk), inodes, owner, i, addr, disk, Write(a, F.setWord(disk[a], j, addr)));
        LogWrite(a, F.setWord(disk[a], j, addr));
        ExtendedLeaf(F, sb, old(disk), inodes, owner, i, j, addr, disk);
        TheirsGrow(owner, i, addr, Leaf(i, j));
        owner := owner[addr := Leaf(i, j)];
      }
    }

    /** The same, allocating the indirect block first if there is none. */
    method IndirectBlock(i: nat, j: nat) returns (addr: nat, ghost maps: set<nat>)
      requires Core() && who == i && IsSlot(sb, Leaf(i, j))
      modifies this`disk, this`inodes, this`owner, this`logged, this`trace
      ensures Core() && Extended(F, sb, old(disk), old(inodes), old(owner), disk, inodes, owner, i)
      ensures old(Ptr(F, disk, inodes, Leaf(i, j))) != 0 ==> Same()
      ensures addr == Ptr(F, disk, inodes, Leaf(i, j))
      ensures addr == 0 ==> forall x: nat | x < sb.size :: Used(F, sb, disk, x)
      ensures logged <= old(logged) + maps + {addr} + Indirect(inodes[i])
      ensures Accounted(sb, old(owner), old(logged), owner, logged)
      ensures |maps| <= (if old(Ptr(F, disk, inodes, Leaf(i, j))) == 0 then 1 else 0)
                        + (if old(inodes[i].addrs[NDIRECT]) == inodes[i].addrs[NDIRECT] then 0 else 1)
    {
      hide Traced, Extended, Used, Law, Accounted, Owned;
      OwnedFacts(F, sb, disk, inodes, owner, i);
      ExtendedRefl(F, sb, disk, inodes, owner, i);
      addr, maps := TopBlock(i, NDIRECT);
      OwnedFacts(F, sb, disk, inodes, owner, i);
      if addr == 0 { return; }
      ghost var m1;
      ghost var d1, n1, o1, l1 := disk, inodes, owner, logged;
      assert old(Ptr(F, disk, inodes, Leaf(i, j))) != 0 ==> Same();
      addr, m1 := LeafBlock(i, j);
      maps := maps + m1;
      ExtendedTrans(F, sb, old(disk), old(inodes), old(owner), d1, n1, o1, disk, inodes, owner, i);
      AccountedTrans(sb, old(owner), old(logged), o1, l1, owner, logged);
    }

    /** The block that holds block bn of file i, allocating it if there is none; 0 when the disk is
        full. `panic` is "bmap: out of range". `maps` are the free-map blocks it logged. */
    method BMap(i: nat, bn: nat) returns (addr: nat, panic: bool, ghost maps: set<nat>)
      requires Core() && who == i < sb.ninodes
      modifies this`disk, this`inodes, this`owner, this`logged, this`trace
      ensures Core() && Extended(F, sb, old(disk), old(inodes), old(owner), disk, inodes, owner, i)
      ensures panic <==> bn >= MAXFILE
      ensures panic || old(FilePtr(F, disk, inodes[i], bn)) != 0 ==> Same()
      ensures !panic ==> addr == FilePtr(F, disk, inodes[i], bn)
      ensures !panic && addr == 0 ==> forall x: nat | x < sb.size :: Used(F, sb, disk, x)
      ensures logged <= old(logged) + maps + {addr} + Indirect(inodes[i])
      ensures Accounted(sb, old(owner), old(logged), owner, logged)
      ensures |maps| <= (if old(FilePtr(F, disk, inodes[i], bn)) == 0 then 1 else 0)
                        + (if old(inodes[i].addrs[NDIRECT]) == inodes[i].addrs[NDIRECT] then 0 else 1)
    {
      hide Traced, Extended, Used, Law;
      ExtendedRefl(F, sb, disk, inodes, owner, i);
      SlotPtr(F, disk, inodes, i, bn);
      addr, panic, maps := 0, false, {};
      if bn < NDIRECT {
        addr, maps := TopBlock(i, bn);
      } else if bn - NDIRECT < NINDIRECT {
        addr, maps := IndirectBlock(i, bn - NDIRECT);
      } else {
        panic := true;
      }
      SlotPtr(F, disk, inodes, i, bn);
    }

    /** Every file is in order. */
    ghost predicate Valid()
      reads this
    {
      Law(F) && Tracing() && Local() && rest == Theirs(owner, who) && ValidAt(F, sb, disk, inodes, owner, files)
    }

    method IUpdate(i: nat)
      requires SuperOk(sb) && |disk| == sb.size && |inodes| == sb.ninodes && i < sb.ninodes && Tracing()
      modifies this`disk, this`logged, this`trace
      ensures Tracing() && exists w :: trace == old(trace) + [w]
      ensures InodeBlock(sb, i) < sb.bmapstart
      ensures disk == old(disk)[InodeBlock(sb, i) := F.setInode(old(disk)[InodeBlock(sb, i)], i % IPB, inodes[i])]
      ensures logged == old(logged) + {InodeBlock(sb, i)}
      ensures old(Local()) && who == i && Storable(inodes[i]) ==> Local()
    {
      hide Traced, LocalTrace;
      var b := sb.inodestart + i / IPB;
      assert Storable(inodes[i]) ==>
        DinodeWrite(F, sb, i, disk, Write(b, F.setInode(disk[b], i % IPB, inodes[i])), inodes[i]);
      LogWrite(b, F.setInode(disk[b], i % IPB, inodes[i]));
    }

    /** ilock of an inode that is not in memory loads what the last iupdate stored. */
    method ILock(i: nat) returns (ino: Inode, panic: bool)
      requires Valid() && i < sb.ninodes
      ensures ino == inodes[i] && (panic <==> inodes[i].kind == 0)
    {
      assert Synced(F, sb, disk, inodes, i);
      ino := F.inode(disk[sb.inodestart + i / IPB], i % IPB);
      panic := ino.kind == 0;
    }

    /** bmap in writei: the files stay as they are, whether or not it allocates. */
    method BlockFor(i: nat, bn: nat, ghost data: seq<B>) returns (addr: nat, ghost maps: set<nat>)
      requires Core() && who == i < sb.ninodes && Others(F, sb, disk, inodes, files, i)
      requires FileOk(F, disk, inodes[i].(size := |data|), data) && bn < MAXFILE
      modifies this`disk, this`inodes, this`owner, this`logged, this`trace
      ensures Core() && Others(F, sb, disk, inodes, files, i) && Kin(old(inodes), inodes, i)
      ensures FileOk(F, disk, inodes[i].(size := |data|), data)
      ensures |inodes[i].addrs| == |old(inodes)[i].addrs| == NDIRECT + 1 && addr == FilePtr(F, disk, inodes[i], bn)
      ensures addr == 0 ==> forall x: nat | x < sb.size :: Used(F, sb, disk, x)
      ensures logged <= old(logged) + maps + {addr} + Indirect(inodes[i])
      ensures Accounted(sb, old(owner), old(logged), owner, logged)
      ensures |maps| <= (if bn * BSIZE < |data| then 0 else 1)
                        + (if old(inodes[i].addrs[NDIRECT]) == inodes[i].addrs[NDIRECT] then 0 else 1)
      ensures old(inodes[i].addrs[NDIRECT]) != 0 ==> inodes[i].addrs[NDIRECT] == old(inodes[i].addrs[NDIRECT])
      ensures old(FilePtr(F, disk, inodes[i], bn)) != 0 ==> addr == old(FilePtr(F, disk, inodes[i], bn))
    {
      hide Traced, Used, Law, Extended, Owned, FileOk, Others, Kin, Accounted, FilePtr, LocalTrace, Theirs;
      OwnedFacts(F, sb, disk, inodes, owner, i);
      OthersShape(F, sb, disk, inodes, files, i);
      if bn * BSIZE < |data| { NoHole(F, disk, inodes[i], data, bn); }
      var panic;
      addr, panic, maps := BMap(i, bn);
      OthersExtended(F, sb, old(disk), old(inodes), old(owner), disk, inodes, owner, files, i);
      FileExtended(F, sb, old(disk), old(inodes), old(owner), disk, inodes, owner, i, i, data);
      ExtendedFacts(F, sb, old(disk), old(inodes), old(owner), disk, inodes, owner, i);
    }

    /** One round of writei: d goes into the block that holds offset off. `copied` is either_copyin's
        success; `data` is the file so far, whose size is not yet in the inode. */
    method WriteBlock(i: nat, off: nat, d: seq<B>, copied: bool, ghost data: seq<B>)
      returns (done: bool, ghost maps: set<nat>, ghost addr: nat)
      requires Core() && who == i < sb.ninodes && Others(F, sb, disk, inodes, files, i)
      requires FileOk(F, disk, inodes[i].(size := |data|), data)
      requires off % BSIZE + |d| <= BSIZE && off <= |data| && off < MAXFILE * BSIZE
      modifies this`disk, this`inodes, this`owner, this`logged, this`trace
      ensures Core() && Others(F, sb, disk, inodes, files, i)
      ensures Kin(old(inodes), inodes, i)
      ensures var grown := if done then Overwrite(data, off, d) else data;
          FileOk(F, disk, inodes[i].(size := |grown|), grown)
      ensures !done ==> !copied || forall x: nat | x < sb.size :: Used(F, sb, disk, x)
      ensures logged <= old(logged) + maps + {addr} + Indirect(inodes[i])
      ensures Accounted(sb, old(owner), old(logged), owner, logged)
      ensures |maps| <= (if off / BSIZE * BSIZE < |data| then 0 else 1)
                        + (if old(inodes[i].addrs[NDIRECT]) == inodes[i].addrs[NDIRECT] then 0 else 1)
      ensures old(inodes[i].addrs[NDIRECT]) != 0 ==> inodes[i].addrs[NDIRECT] == old(inodes[i].addrs[NDIRECT])
      ensures done && old(FilePtr(F, disk, inodes[i], off / BSIZE)) != 0 ==>
                old(FilePtr(F, disk, inodes[i], off / BSIZE)) in logged
    {
      hide Traced, Used, Law, Owned, FileOk, Others, Overwrite, Kin, Accounted, FilePtr, LocalTrace, LocalWrite, Theirs;
      var bn := off / BSIZE;
      var a;
      a, maps := BlockFor(i, bn, data);
      addr := a;
      if a == 0 || !copied { return false, maps, a; }
      FilePtrOwned(F, sb, disk, inodes, owner, i, bn);
      OwnedFacts(F, sb, disk, inodes, owner, i);
      ghost var d1, l1 := disk, logged;
      PtrMine(F, sb, disk, inodes, owner, SlotOf(i, bn));
      DataLocal(F, sb, i, rest, disk, Write(a, F.splice(disk[a], off % BSIZE, d)));
      LogWrite(a, F.splice(disk[a], off % BSIZE, d));
      AccountedMore(sb, old(owner), old(logged), owner, l1, logged);
      BlockWritten(F, sb, d1, inodes, owner, files, disk, i, off, d, data);
      done := true;
    }

    /** The loop of writei. `copyin(k, m)` is the result of either_copyin for m bytes from src + k. */
    method WriteLoop(i: nat, off: nat, src: seq<B>, copyin: (nat, nat) -> bool)
      returns (tot: nat, ghost grown: seq<B>, ghost touched: set<nat>)
      requires Core() && who == i < sb.ninodes && Others(F, sb, disk, inodes, files, i)
          && FileOk(F, disk, inodes[i], files[i])
      requires off <= |files[i]| && off + |src| <= MAXFILE * BSIZE
      modifies this`disk, this`inodes, this`owner, this`logged, this`trace
      ensures Core() && Others(F, sb, disk, inodes, files, i) && Kin(old(inodes), inodes, i)
      ensures tot <= |src| && grown == Overwrite(files[i], off, src[..tot])
      ensures FileOk(F, disk, inodes[i].(size := |grown|), grown)
      ensures tot < |src| ==>
                !copyin(tot, Round(off, |src|, tot)) || forall x: nat | x < sb.size :: Used(F, sb, disk, x)
      ensures logged <= old(logged) + touched && (|src| <= 3 * BSIZE ==> |touched| <= MAXOPBLOCKS - 1)
      ensures Accounted(sb, old(owner), old(logged), owner, logged)
      ensures tot > 0 && old(FilePtr(F, disk, inodes[i], off / BSIZE)) != 0 ==>
                old(FilePtr(F, disk, inodes[i], off / BSIZE)) in logged
    {
      hide Traced, Used, Law, Owned, FileOk, Others, Overwrite, Round, Kin, FilePtr, Accounted, Tallied, AtRound,
        LocalTrace, Theirs;
      OthersShape(F, sb, disk, inodes, files, i);
      KinRefl(inodes, i);
      FileSize(F, disk, inodes[i], files[i]);
      tot := 0;
      ghost var log := Tally(owner, logged, inodes[i].addrs[NDIRECT], FilePtr(F, disk, inodes[i], off / BSIZE), 0, 0,
        {});
      TallyStart(sb, log, inodes[i], off, |src|);
      grown := files[i];
      assert inodes[i].(size := |grown|) == inodes[i];
      assert src[..0] == [] && Overwrite(files[i], off, []) == files[i] by { OverwriteNone(files[i], off); }
      while tot < |src|
        invariant |inodes| == |files| == sb.ninodes && log.owner == old(owner) && log.base == old(logged)
        invariant Core() && Others(F, sb, disk, inodes, files, i) && Kin(old(inodes), inodes, i)
        invariant tot <= |src| && grown == Overwrite(files[i], off, src[..tot])
        invariant FileOk(F, disk, inodes[i].(size := |grown|), grown)
        invariant Tallied(sb, log, owner, logged, inodes[i], off, |src|, tot)
        invariant (tot < |src| ==> AtRound(off, tot, log.rounds))
        invariant log.p == old(FilePtr(F, disk, inodes[i], off / BSIZE))
        invariant tot == 0 ==> disk == old(disk) && inodes == old(inodes)
      {
        var m := Round(off, |src|, tot);
        OthersShape(F, sb, disk, inodes, files, i);
        ghost var l0, n0, o0 := logged, inodes, owner;
        var done, maps, addr := WriteBlock(i, off + tot, src[tot..tot + m], copyin(tot, m), grown);
        OthersShape(F, sb, disk, inodes, files, i);
        KinTrans(old(inodes), n0, inodes, i);
        log := TallyStep(sb, log, o0, l0, n0[i], owner, logged, inodes[i], off, |src|, tot, |grown|, maps, addr, done);
        if !done { break; }
        OverwriteMore(files[i], off, src, tot, m);
        grown := Overwrite(grown, off + tot, src[tot..tot + m]);
        tot := tot + m;
      }
      OthersShape(F, sb, disk, inodes, files, i);
      touched := log.spent + Indirect(inodes[i]);
      TallyEnd(sb, log, owner, logged, inodes[i], off, |src|, tot);
    }

    /** The end of writei and itrunc: the new size goes into the inode and the inode to disk. */
    method StoreInode(i: nat, size: nat, ghost data: seq<B>)
      requires Core() && who == i < sb.ninodes && Others(F, sb, disk, inodes, files, i) && MetaOk(inodes[i])
      requires FileOk(F, disk, inodes[i].(size := |data|), data) && size == |data|
      modifies this`disk, this`inodes, this`files, this`logged, this`trace
      ensures Core() && Others(F, sb, disk, inodes, files, sb.ninodes)
      ensures inodes == old(inodes)[i := old(inodes)[i].(size := size)] && files == old(files)[i := data]
      ensures exists w :: trace == old(trace) + [w]
      ensures logged == old(logged) + {InodeBlock(sb, i)}
      ensures forall x: nat | x < sb.size :: Used(F, sb, disk, x) == old(Used(F, sb, disk, x))
    {
      hide Traced, Used, Law, FileOk, LocalTrace, Theirs;
      inodes := inodes[i := inodes[i].(size := size)];
      SizeSet(F, sb, disk, old(inodes), owner, files, i, inodes);
      FileSize(F, disk, inodes[i], data);
      CanStore(F, sb, disk, inodes, owner, i);
      ghost var d1 := disk;
      IUpdate(i);
      InodeWritten(F, sb, d1, inodes, owner, files, i, disk, data);
      OthersJoin(F, sb, disk, inodes, files, i, data);
      files := files[i := data];
    }

    /** writei past its range checks: the loop, and the inode stored. */
    method WriteBytes(i: nat, off: nat, src: seq<B>, copyin: (nat, nat) -> bool)
      returns (tot: nat, ghost touched: set<nat>)
      requires Valid() && who == i < sb.ninodes && |files| == sb.ninodes && off <= |files[i]|
          && off + |src| <= MAXFILE * BSIZE
      modifies this`disk, this`inodes, this`owner, this`files, this`logged, this`trace
      ensures Valid() && tot <= |src| && files == old(files)[i := Overwrite(old(files)[i], off, src[..tot])]
      ensures tot < |src| ==>
                !copyin(tot, Round(off, |src|, tot)) || forall x: nat | x < sb.size :: Used(F, sb, disk, x)
      ensures |inodes| == |old(inodes)| == sb.ninodes
      ensures forall m | 0 <= m < sb.ninodes && m != i :: inodes[m] == old(inodes)[m]
      ensures logged <= old(logged) + touched && (|src| <= 3 * BSIZE ==> |touched| <= MAXOPBLOCKS)
      ensures Accounted(sb, old(owner), old(logged), owner, logged) && InodeBlock(sb, i) in logged
      ensures |old(inodes)[i].addrs| == NDIRECT + 1
      ensures var p := old(FilePtr(F, disk, inodes[i], off / BSIZE)); tot > 0 && p != 0 ==> p in logged
      ensures old(logged) == {} && |src| <= 3 * BSIZE ==> Thrifty(trace)
    {
      hide Traced, Used, Law, Owned, FileOk, Overwrite, Round, Accounted, Thrifty, FilePtr, LocalTrace, Theirs;
      OthersSplit(F, sb, disk, inodes, files, i);
      FileSize(F, disk, inodes[i], files[i]);
      ghost var grown;
      tot, grown, touched := WriteLoop(i, off, src, copyin);
      var size := if off + tot > inodes[i].size then off + tot else inodes[i].size;
      ghost var few, l1, t1 := touched, logged, trace;
      TracedFacts(sb, base, trace, disk, logged);
      UnionCard(touched, {InodeBlock(sb, i)});
      touched := touched + {InodeBlock(sb, i)};
      StoreInode(i, size, grown);
      AccountedMore(sb, old(owner), old(logged), owner, l1, logged);
      if old(logged) == {} && |src| <= 3 * BSIZE {
        ghost var w :| trace == t1 + [w];
        ThriftyLast(t1, few, w);
      }
    }

    /** Returns -1, or the number of bytes written; fewer than |src| only when a copy failed or the disk filled up. */
    method WriteI(i: nat, off: nat, src: seq<B>, copyin: (nat, nat) -> bool) returns (r: int, ghost touched: set<nat>)
      requires Valid() && who == i < sb.ninodes && off < UINT_MAX && |src| < UINT_MAX
      modifies this`disk, this`inodes, this`owner, this`files, this`logged, this`trace
      ensures Valid()
      ensures -1 <= r <= |src|
      ensures r == -1 <==> off > |old(files)[i]| || off + |src| >= UINT_MAX || off + |src| > MAXFILE * BSIZE
      ensures r == -1 ==> Same() && files == old(files)
      ensures 0 <= r ==> files == old(files)[i := Overwrite(old(files)[i], off, src[..r])]
      ensures 0 <= r < |src| ==> !copyin(r, Round(off, |src|, r)) || forall x: nat | x < sb.size :: Used(F, sb, disk, x)
      ensures forall m | 0 <= m < sb.ninodes && m != i :: inodes[m] == old(inodes)[m]
      ensures logged <= old(logged) + touched && (|src| <= 3 * BSIZE ==> |touched| <= MAXOPBLOCKS)
      ensures r == |src| && old(Worst(F, sb, disk, inodes, i, off, |src|)) ==> |logged| >= MAXOPBLOCKS
      ensures old(trace) == [] ==>
                Solo(F, sb, old(disk), old(files), i, trace, files) && (|src| <= 3 * BSIZE ==> Thrifty(trace))
      ensures Accounted(sb, old(owner), old(logged), owner, logged) && (0 <= r ==> InodeBlock(sb, i) in logged)
    {
      hide Traced, Used, Law, Owned, FileOk, Overwrite, Round, Accounted, Worst, Transaction, Thrifty, FilePtr;
      hide LocalTrace, Theirs, Solo;
      OthersSplit(F, sb, disk, inodes, files, i);
      FileSize(F, disk, inodes[i], files[i]);
      AccountedRefl(sb, owner, logged);
      touched := {};
      if off > inodes[i].size || (off + |src|) % UINT_MAX < off || off + |src| > MAXFILE * BSIZE {
        if trace == [] {
          NoneTraced(sb, base, disk, logged);
          NoWrites(F, sb, base, disk, inodes, owner, files, logged);
          SoloDone(F, sb, disk, inodes, owner, files, i, trace, files);
        }
        return -1, touched;
      }
      var tot;
      tot, touched := WriteBytes(i, off, src, copyin);
      if old(trace) == [] {
        NoneTraced(sb, base, old(disk), old(logged));
        TransactionDone(F, sb, old(disk), old(inodes), old(owner), old(files), trace, disk, inodes, owner, files,
          logged);
        SoloDone(F, sb, old(disk), old(inodes), old(owner), old(files), i, trace, files);
      }
      if tot == |src| && old(Worst(F, sb, disk, inodes, i, off, |src|)) {
        WorstFirst(F, sb, old(disk), old(inodes), old(owner), i, off, |src|, old(files)[i]);
        OthersSplit(F, sb, disk, inodes, files, i);
        BudgetReached(F, sb, old(disk), old(inodes), old(owner), old(logged), disk, inodes, owner, logged, i, off,
          |src|, files[i]);
      }
      r := tot;
    }

    /** One round of readi below the file's size: the block is there and bmap allocates nothing. */
    method ReadBlock(i: nat, off: nat, m: nat) returns (addr: nat, d: seq<B>)
      requires Core() && who == i < sb.ninodes && i < |files| && FileOk(F, disk, inodes[i], files[i])
      requires 0 < m && off + m <= |files[i]| && off % BSIZE + m <= BSIZE
      modifies this`disk, this`inodes, this`owner, this`logged, this`trace
      ensures Same() && addr != 0 && d == files[i][off..off + m]
    {
      hide Traced, Used, Law, FileOk, Extended, LocalTrace, Theirs;
      FileSlice(F, disk, inodes[i], files[i], off, m);
      FileSize(F, disk, inodes[i], files[i]);
      var a, panic, _ := BMap(i, off / BSIZE);
      addr := a;
      d := F.bytes(disk[addr])[off % BSIZE..off % BSIZE + m];
    }

    /** The loop of readi for k bytes that the file has. */
    method ReadLoop(i: nat, off: nat, k: nat, copyout: (nat, nat) -> bool) returns (ok: bool, out: seq<B>)
      requires Core() && who == i < sb.ninodes && i < |files| && FileOk(F, disk, inodes[i], files[i])
          && off + k <= |files[i]|
      modifies this`disk, this`inodes, this`owner, this`logged, this`trace
      ensures Same() && |out| <= k && out == files[i][off..off + |out|]
      ensures if ok then |out| == k else |out| < k && !copyout(|out|, Round(off, k, |out|))
    {
      hide Traced, Used, Law, Owned, FileOk, Round, LocalTrace, Theirs;
      var tot := 0;
      out := [];
      while tot < k
        invariant tot <= k && Same() && |out| == tot && out == files[i][off..off + tot]
      {
        var m := Round(off, k, tot);
        var addr, d := ReadBlock(i, off + tot, m);
        if addr == 0 { break; }
        if !copyout(tot, m) { return false, out; }
        SliceJoin(files[i], off, off + tot, off + tot + m);
        out := out + d;
        tot := tot + m;
      }
      ok := true;
    }

    /** `copyout(k, m)` is the result of either_copyout for m bytes to dst + k; `out` is what was copied. */
    method ReadI(i: nat, off: nat, n: nat, copyout: (nat, nat) -> bool) returns (r: int, out: seq<B>)
      requires Valid() && who == i < sb.ninodes && off < UINT_MAX && n < UINT_MAX
      modifies this`disk, this`inodes, this`owner, this`logged, this`trace
      ensures Same()
      ensures off > |files[i]| || off + n >= UINT_MAX ==> r == 0 && out == []
      ensures off <= |files[i]| && off + n < UINT_MAX ==>
        var k := Min(n, |files[i]| - off);
        && |out| <= k && out == files[i][off..off + |out|]
        && (r == |out| == k || (r == -1 && |out| < k && !copyout(|out|, Round(off, k, |out|))))
    {
      hide Traced, Used, Law, Owned, FileOk, Others, Round, LocalTrace, Theirs;
      OthersShape(F, sb, disk, inodes, files, sb.ninodes);
      OthersSplit(F, sb, disk, inodes, files, i);
      FileSize(F, disk, inodes[i], files[i]);
      if off > inodes[i].size || (off + n) % UINT_MAX < off { return 0, []; }
      var k := if off + n > inodes[i].size then inodes[i].size - off else n;
      var ok;
      ok, out := ReadLoop(i, off, k, copyout);
      r := if ok then k else -1;
    }

    /** itrunc's loop over the direct blocks. */
    method TruncDirect(i: nat) returns (panic: bool)
      requires Core() && who == i < sb.ninodes && Others(F, sb, disk, inodes, files, i)
      modifies this`disk, this`inodes, this`owner, this`logged, this`trace
      ensures !panic && Core() && Others(F, sb, disk, inodes, files, i) && Kin(old(inodes), inodes, i)
      ensures Shrunk(old(owner), owner, i)
      ensures |inodes[i].addrs| == NDIRECT + 1 && forall k | 0 <= k < NDIRECT :: inodes[i].addrs[k] == 0
    {
      hide Traced, Used, Law, Owned, Others, Marked, Shrunk, LocalTrace, Theirs;
      OwnedFacts(F, sb, disk, inodes, owner, i);
      KinRefl(inodes, i);
      ShrunkRefl(owner, i);
      var k := 0;
      while k < NDIRECT
        invariant |inodes| == sb.ninodes && |inodes[i].addrs| == NDIRECT + 1 && SuperOk(sb) && |disk| == sb.size
        invariant 0 <= k <= NDIRECT && Core() && Others(F, sb, disk, inodes, files, i) && Kin(old(inodes), inodes, i)
        invariant Shrunk(old(owner), owner, i)
        invariant forall m | 0 <= m < k :: inodes[i].addrs[m] == 0
      {
        if inodes[i].addrs[k] != 0 {
          ghost var b := inodes[i].addrs[k];
          TruncTop(F, sb, disk, inodes, owner, i, k, files, inodes[i := inodes[i].(addrs := inodes[i].addrs[k := 0])],
            b);
          OwnedFacts(F, sb, disk, inodes, owner, i);
          TheirsLess(owner, i, b);
          PtrMine(F, sb, disk, inodes, owner, Top(i, k));
          panic := BFree(inodes[i].addrs[k]);
          if panic { return true; }
          inodes := inodes[i := inodes[i].(addrs := inodes[i].addrs[k := 0])];
          ShrunkStep(old(owner), owner, i, b);
          owner := owner - {b};
          OwnedFacts(F, sb, disk, inodes, owner, i);
        }
        k := k + 1;
      }
      panic := false;
    }

    /** itrunc's work on the indirect block. */
    method TruncIndirect(i: nat) returns (panic: bool)
      requires Core() && who == i < sb.ninodes && Others(F, sb, disk, inodes, files, i)
      modifies this`disk, this`inodes, this`owner, this`logged, this`trace
      ensures !panic && Core() && Others(F, sb, disk, inodes, files, i) && Shrunk(old(owner), owner, i)
      ensures |old(inodes)| == sb.ninodes && |old(inodes)[i].addrs| == NDIRECT + 1
      ensures inodes == old(inodes)[i := old(inodes)[i].(addrs := old(inodes)[i].addrs[NDIRECT := 0])]
    {
      hide Traced, Used, Law, Owned, Others, Marked, Shrunk, Freeing, LocalTrace, Theirs;
      OwnedFacts(F, sb, disk, inodes, owner, i);
      ShrunkRefl(owner, i);
      panic := false;
      if inodes[i].addrs[NDIRECT] != 0 {
        FreeingStart(F, sb, disk, inodes, owner, files, i);
        var bp := disk[inodes[i].addrs[NDIRECT]];
        var j := 0;
        while j < NINDIRECT
          invariant Tracing() && Local() && rest == Theirs(owner, who)
          invariant 0 <= j <= NINDIRECT && inodes == old(inodes) && Freeing(F, sb, disk, inodes, owner, files, i, j, bp)
          invariant Shrunk(old(owner), owner, i)
        {
          FreeingStep(F, sb, disk, inodes, owner, files, i, j, bp);
          if F.word(bp, j) != 0 {
            TheirsLess(owner, i, F.word(bp, j));
            FreeingIn(F, sb, disk, inodes, owner, files, i, j, bp, F.word(bp, j));
            panic := BFree(F.word(bp, j));
            if panic { return; }
            ShrunkStep(old(owner), owner, i, F.word(bp, j));
            owner := owner - {F.word(bp, j)};
          }
          j := j + 1;
        }
        ghost var n1 := inodes[i := inodes[i].(addrs := inodes[i].addrs[NDIRECT := 0])];
        ghost var b := inodes[i].addrs[NDIRECT];
        FreeingEnd(F, sb, disk, inodes, owner, files, i, n1, b, bp);
        TheirsLess(owner, i, b);
        FreeingIn(F, sb, disk, inodes, owner, files, i, NINDIRECT, bp, b);
        panic := BFree(inodes[i].addrs[NDIRECT]);
        if panic { return; }
        ShrunkStep(old(owner), owner, i, b);
        owner := owner - {b};
        inodes := inodes[i := inodes[i].(addrs := inodes[i].addrs[NDIRECT := 0])];
      } else {
        assert inodes[i].addrs == inodes[i].addrs[NDIRECT := 0];
      }
    }

    /** Frees exactly the blocks of inode i and leaves it empty; "freeing free block" cannot happen. */
    method ITrunc(i: nat) returns (panic: bool)
      requires Valid() && who == i < sb.ninodes
      modifies this`disk, this`inodes, this`owner, this`files, this`logged, this`trace
      ensures !panic && Valid()
      ensures files == old(files)[i := []] && forall m | 0 <= m < sb.ninodes && m != i :: inodes[m] == old(inodes)[m]
      ensures forall b :: b in owner <==> b in old(owner) && old(owner)[b].i != i
      ensures forall b | b in owner :: owner[b] == old(owner)[b]
      ensures forall x: nat | x < sb.size ::
                Used(F, sb, disk, x) <==> old(Used(F, sb, disk, x)) && !(x in old(owner) && old(owner)[x].i == i)
      ensures old(trace) == [] ==> Solo(F, sb, old(disk), old(files), i, trace, files)
    {
      hide Traced, Used, Law, Others, Transaction, LocalTrace, Theirs, Solo;
      OthersSplit(F, sb, disk, inodes, files, i);
      panic := TruncDirect(i);
      ghost var o1 := owner;
      if panic { return; }
      panic := TruncIndirect(i);
      if panic { return; }
      NothingOwned(F, sb, disk, inodes, owner, i);
      StoreInode(i, 0, []);
      if old(trace) == [] {
        NoneTraced(sb, base, old(disk), old(logged));
        TransactionDone(F, sb, old(disk), old(inodes), old(owner), old(files), trace, disk, inodes, owner, files,
          logged);
        SoloDone(F, sb, old(disk), old(inodes), old(owner), old(files), i, trace, files);
      }
    }

    /** begin_op and ilock, for the record of the transaction. */
    ghost method BeginOp(i: nat)
      requires Valid()
      modifies this`base, this`logged, this`trace, this`who, this`rest
      ensures Valid() && trace == [] && logged == {} && base == disk && who == i
    {
      TracedNone(sb, disk);
      base, logged, trace, who, rest := disk, {}, [], i, Theirs(owner, i);
    }

    /** A copy failed, or no block is free. */
    ghost predicate Failed(copyin: (nat, nat) -> bool, k: nat, m: nat)
      reads this
    {
      !copyin(k, m) || (SuperOk(sb) && |disk| == sb.size && forall x: nat | x < sb.size :: Used(F, sb, disk, x))
    }

    /** Why filewrite stops after w bytes: the chunk it has come to would make the file too large, or it failed
        there. */
    ghost predicate Stopped(copyin: (nat, nat) -> bool, off: nat, n: nat, w: nat)
      requires w < n
      reads this
    {
      var k := w - w % CHUNK;
      var m := Min(CHUNK, n - k);
      off + k + m > MAXFILE * BSIZE || Failed(copyin, w, Round(off + k, m, w - k))
    }

    lemma {:induction false} StopsAt(copyin: (nat, nat) -> bool, part: (nat, nat) -> bool, off: nat, n: nat, k: nat,
                                     m: nat, r: int, w: nat)
      requires k % CHUNK == 0 && k < n && m == Min(CHUNK, n - k) && r < m && w == (if r > 0 then k + r else k)
      requires forall a: nat, b: nat :: part(a, b) == copyin(k + a, b)
      requires if r < 0 then off + k + m > MAXFILE * BSIZE else Failed(part, r, Round(off + k, m, r))
      ensures w < n && Stopped(copyin, off, n, w)
    {
      hide Round, Used;
      assert w - w % CHUNK == k;
    }

    /** begin_op, writei and end_op for one chunk. */
    method WriteChunk(i: nat, off: nat, src: seq<B>, copyin: (nat, nat) -> bool) returns (r: int, ghost op: Txn<T, B>)
      requires Valid() && i < sb.ninodes && off < UINT_MAX && |src| <= CHUNK
      modifies this`disk, this`inodes, this`owner, this`files, this`logged, this`trace, this`base, this`who, this`rest
      ensures Valid() && |files| == |old(files)| == sb.ninodes && -1 <= r <= |src|
      ensures Solo(F, sb, old(disk), old(files), i, op.ws, op.files) && Thrifty(op.ws)
      ensures |Bnos(op.ws)| <= MAXOPBLOCKS
      ensures disk == Apply(old(disk), op.ws) && files == op.files
      ensures r < 0 <==> off > |old(files)[i]| || off + |src| > MAXFILE * BSIZE
      ensures 0 <= r < |src| ==> Failed(copyin, r, Round(off, |src|, r))
      ensures files == if r < 0 then old(files) else old(files)[i := Overwrite(old(files)[i], off, src[..r])]
    {
      hide Traced, Used, Law, Owned, Others, FileOk, Overwrite, Round, Solo, Thrifty, ValidAt, LocalTrace, Theirs;
      WholeFiles(F, sb, disk, inodes, owner, files);
      BeginOp(i);
      ghost var touched;
      r, touched := WriteI(i, off, src, copyin);
      WholeFiles(F, sb, disk, inodes, owner, files);
      TracedFacts(sb, base, trace, disk, logged);
      SubsetCard(logged, touched);
      op := Txn(trace, files);
    }

    /** The write loop of filewrite: one transaction for each chunk. `ops` are the transactions; `w`
        bytes were written in all. */
    method FileWrite(i: nat, off: nat, n: int, src: seq<B>, copyin: (nat, nat) -> bool)
      returns (ret: int, w: nat, ghost ops: seq<Txn<T, B>>)
      requires Valid() && i < sb.ninodes && off < UINT_MAX && |src| == (if n < 0 then 0 else n) && n < 0x8000_0000
      modifies this`disk, this`inodes, this`owner, this`files, this`logged, this`trace, this`base, this`who, this`rest
      ensures Valid() && w <= |src| && ret == if w == n then n else -1
      ensures Ran(F, sb, old(disk), old(files), i, ops) && disk == DiskAfter(old(disk), ops)
      ensures files == FilesAfter(old(files), ops)
      ensures w == |src| ==> |ops| == Chunks(|src|)
      ensures off > |old(files)[i]| ==> w == 0 && files == old(files)
      ensures off <= |old(files)[i]| && w < |src| ==> Stopped(copyin, off, |src|, w)
      ensures off <= |old(files)[i]| ==>
                files == old(files)[i := Overwrite(old(files)[i], off, src[..w])]
                && Chunked(old(files), i, off, src, ops)
    {
      hide Traced, Used, Law, Owned, Others, FileOk, Overwrite, Round, Solo, Thrifty, ValidAt, LocalTrace, Theirs;
      hide SoFar, Ran, DiskAfter, FilesAfter, Chunked, Chunks, Stopped, Failed, Apply;
      WholeFiles(F, sb, disk, inodes, owner, files);
      SoFarNone(F, sb, disk, files, i, off, src);
      ChunksMore(0, 0);
      var max := ((MAXOPBLOCKS - 1 - 1 - 2) / 2) * BSIZE;
      var k := 0;
      w, ops := 0, [];
      while k < n
        invariant 0 <= k <= |src| && w == k && off + k < UINT_MAX && Valid() && |files| == |old(files)| == sb.ninodes
        invariant |ops| == Chunks(k) && (k % CHUNK == 0 || k == n)
        invariant SoFar(F, sb, old(disk), old(files), i, off, src, k, ops, disk, files)
      {
        var n1 := n - k;
        if n1 > max { n1 := max; }
        ghost var d0, f0 := disk, files;
        ChunksMore(k, n1);
        var part := (a: nat, b: nat) => copyin(k + a, b);
        var r, op := WriteChunk(i, off + k, src[k..k + n1], part);
        SoFarMore(F, sb, old(disk), old(files), i, off, src, k, ops, d0, f0, n1, r, op);
        ops := ops + [op];
        if r > 0 { w := k + r; }
        if r != n1 {
          if off <= |old(files)[i]| { StopsAt(copyin, part, off, |src|, k, n1, r, w); }
          break;
        }
        k := k + r;
      }
      SoFarIs(F, sb, old(disk), old(files), i, off, src, w, ops, disk, files);
      ret := if k == n then n else -1;
    }
  }
}
