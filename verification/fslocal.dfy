/** The file system one inode at a time: what belongs to an inode, what a transaction that holds its lock
    may write, and why that leaves every other inode alone. */
module FsLocal {
  import opened Blocks
  import opened FsFormat
  import opened FsSpec
  import opened RedoLog

  // ---- one inode ----

  function Dinode<T, B>(F: Format<T, B>, sb: Super, disk: seq<T>, i: nat): Inode
    requires SuperOk(sb) && |disk| == sb.size && i < sb.ninodes
  {
    F.inode(disk[sb.inodestart + i / IPB], i % IPB)
  }

  /** The block number in slot s of an inode. */
  function InPtr<T, B>(F: Format<T, B>, disk: seq<T>, ino: Inode, s: Slot): nat
    requires |ino.addrs| == NDIRECT + 1 && (s.Top? ==> s.k <= NDIRECT)
  {
    if s.Top? then ino.addrs[s.k] else LeafPtr(F, disk, ino.addrs[NDIRECT], s.j)
  }

  /** The pointers of inode i are exactly the blocks of o, each in the slot that o says. */
  ghost predicate Points<T, B>(F: Format<T, B>, sb: Super, disk: seq<T>, i: nat, ino: Inode, o: map<nat, Slot>) {
    && |ino.addrs| == NDIRECT + 1
    && (forall s | IsSlot(sb, s) && s.i == i && InPtr(F, disk, ino, s) != 0 ::
          InPtr(F, disk, ino, s) in o && o[InPtr(F, disk, ino, s)] == s)
    && (forall b | b in o :: sb.datastart <= b < sb.size && IsSlot(sb, o[b]) && o[b].i == i
         && InPtr(F, disk, ino, o[b]) == b)
  }

  /** Dinode i holds the file `data`, in the blocks `own`. */
  ghost predicate LocalOk<T, B>(F: Format<T, B>, sb: Super, disk: seq<T>, i: nat, own: set<nat>, data: seq<B>) {
    && SuperOk(sb) && |disk| == sb.size && i < sb.ninodes
    && MetaOk(Dinode(F, sb, disk, i)) && FileOk(F, disk, Dinode(F, sb, disk, i), data)
    && exists o: map<nat, Slot> :: o.Keys == own && Points(F, sb, disk, i, Dinode(F, sb, disk, i), o)
  }

  lemma {:induction false} InPtrFrame<T(!new), B(!new)>(F: Format<T, B>, sb: Super, disk: seq<T>, disk': seq<T>, i: nat,
                                                        ino: Inode, o: map<nat, Slot>, s: Slot)
    requires SuperOk(sb) && |disk| == |disk'| == sb.size && i < sb.ninodes && Points(F, sb, disk, i, ino, o)
    requires (forall b | b in o :: disk'[b] == disk[b]) && IsSlot(sb, s) && s.i == i
    ensures InPtr(F, disk', ino, s) == InPtr(F, disk, ino, s)
  {
    if s.Leaf? && ino.addrs[NDIRECT] != 0 {
      assert IsSlot(sb, Top(i, NDIRECT)) && InPtr(F, disk, ino, Top(i, NDIRECT)) in o;
    }
  }

  lemma {:induction false} PointsFrame<T(!new), B(!new)>(F: Format<T, B>, sb: Super, disk: seq<T>, disk': seq<T>,
                                                         i: nat, ino: Inode, o: map<nat, Slot>)
    requires SuperOk(sb) && |disk| == |disk'| == sb.size && i < sb.ninodes && Points(F, sb, disk, i, ino, o)
    requires forall b | b in o :: disk'[b] == disk[b]
    ensures Points(F, sb, disk', i, ino, o)
  {
    forall s | IsSlot(sb, s) && s.i == i ensures InPtr(F, disk', ino, s) == InPtr(F, disk, ino, s) {
      InPtrFrame(F, sb, disk, disk', i, ino, o, s);
    }
  }

  lemma {:induction false} ContentFrame<T(!new), B(!new)>(F: Format<T, B>, sb: Super, disk: seq<T>, disk': seq<T>,
                                                          i: nat, ino: Inode, o: map<nat, Slot>, data: seq<B>)
    requires SuperOk(sb) && |disk| == |disk'| == sb.size && i < sb.ninodes && Points(F, sb, disk, i, ino, o)
    requires (forall b | b in o :: disk'[b] == disk[b]) && FileOk(F, disk, ino, data)
    ensures FileOk(F, disk', ino, data)
  {
    hide Points;
    assert |ino.addrs| == NDIRECT + 1;
    forall bn: nat | bn * BSIZE < |data|
      ensures FilePtr(F, disk', ino, bn) == FilePtr(F, disk, ino, bn)
      ensures disk'[FilePtr(F, disk, ino, bn)] == disk[FilePtr(F, disk, ino, bn)]
    {
      InPtrFrame(F, sb, disk, disk', i, ino, o, SlotOf(i, bn));
      PointsAt(F, sb, disk, i, ino, o, SlotOf(i, bn));
    }
    FileKept(F, disk, ino, disk', ino, data);
  }

  lemma {:induction false} PointsAt<T(!new), B(!new)>(F: Format<T, B>, sb: Super, disk: seq<T>, i: nat, ino: Inode,
                                                      o: map<nat, Slot>, s: Slot)
    requires Points(F, sb, disk, i, ino, o) && IsSlot(sb, s) && s.i == i
    ensures |ino.addrs| == NDIRECT + 1
    ensures InPtr(F, disk, ino, s) != 0 ==> InPtr(F, disk, ino, s) in o && o[InPtr(F, disk, ino, s)] == s
  {
  }

  /** An inode is a matter of its dinode and its blocks alone. */
  lemma {:induction false} LocalFrame<T(!new), B(!new)>(F: Format<T, B>, sb: Super, disk: seq<T>, disk': seq<T>, i: nat,
                                                        own: set<nat>, data: seq<B>)
    requires LocalOk(F, sb, disk, i, own, data) && |disk'| == |disk|
    requires Dinode(F, sb, disk', i) == Dinode(F, sb, disk, i)
    requires forall b | b in own && b < sb.size :: disk'[b] == disk[b]
    ensures LocalOk(F, sb, disk', i, own, data)
  {
    hide Points, FileOk;
    var ino := Dinode(F, sb, disk, i);
    var o: map<nat, Slot> :| o.Keys == own && Points(F, sb, disk, i, ino, o);
    forall b | b in o ensures b < sb.size && disk'[b] == disk[b] {
      PointsIn(F, sb, disk, i, ino, o, b);
      assert b in own;
    }
    PointsFrame(F, sb, disk, disk', i, ino, o);
    ContentFrame(F, sb, disk, disk', i, ino, o, data);
  }

  lemma {:induction false} PointsIn<T(!new), B(!new)>(F: Format<T, B>, sb: Super, disk: seq<T>, i: nat, ino: Inode,
                                                      o: map<nat, Slot>, b: nat)
    requires Points(F, sb, disk, i, ino, o) && b in o
    ensures |ino.addrs| == NDIRECT + 1 && sb.datastart <= b < sb.size && IsSlot(sb, o[b]) && o[b].i == i
    ensures InPtr(F, disk, ino, o[b]) == b
  {
  }

  /** The dinode determines which blocks are its own. */
  lemma {:induction false} OwnUnique<T(!new), B(!new)>(F: Format<T, B>, sb: Super, disk: seq<T>, i: nat, a: set<nat>,
                                                       b: set<nat>, x: seq<B>, y: seq<B>)
    requires SuperOk(sb) && LocalOk(F, sb, disk, i, a, x) && LocalOk(F, sb, disk, i, b, y) && 0 < sb.datastart
    ensures a == b
  {
    hide Points, FileOk;
    var ino := Dinode(F, sb, disk, i);
    var o: map<nat, Slot> :| o.Keys == a && Points(F, sb, disk, i, ino, o);
    var q: map<nat, Slot> :| q.Keys == b && Points(F, sb, disk, i, ino, q);
    forall p | p in o ensures p in q { PointsIn(F, sb, disk, i, ino, o, p); PointsAt(F, sb, disk, i, ino, q, o[p]); }
    forall p | p in q ensures p in o { PointsIn(F, sb, disk, i, ino, q, p); PointsAt(F, sb, disk, i, ino, o, q[p]); }
    assert forall p :: p in a <==> p in b;
  }

  /** A file's inode and blocks determine its contents. */
  lemma {:induction false} ContentUnique<T(!new), B(!new)>(F: Format<T, B>, disk: seq<T>, ino: Inode, x: seq<B>,
                                                           y: seq<B>)
    requires FileOk(F, disk, ino, x) && FileOk(F, disk, ino, y)
    ensures x == y
  {
    assert |x| == |y|;
    forall k | 0 <= k < |x| ensures x[k] == y[k] {
      var bn, o := k / BSIZE, k % BSIZE;
      assert bn * BSIZE + o == k;
      assert Chunk(F, disk, ino, bn)[o] == x[bn * BSIZE + o] && Chunk(F, disk, ino, bn)[o] == y[bn * BSIZE + o];
    }
  }

  // ---- all inodes ----

  predicate Holds(own: seq<set<nat>>, i: nat, b: nat) { i < |own| && b in own[i] }

  /** No block belongs to two inodes, and the free map marks exactly the metadata and the blocks that belong to one. */
  ghost predicate Bits<T, B>(F: Format<T, B>, sb: Super, disk: seq<T>, own: seq<set<nat>>) {
    && SuperOk(sb) && |disk| == sb.size && |own| == sb.ninodes
    && (forall i: nat, b: nat | Holds(own, i, b) :: sb.datastart <= b < sb.size)
    && (forall i: nat, j: nat, b: nat | Holds(own, i, b) && Holds(own, j, b) :: i == j)
    && (forall b: nat | b < sb.size :: Used(F, sb, disk, b) <==> b < sb.datastart || exists i: nat :: Holds(own, i, b))
  }

  ghost predicate Parts<T, B>(F: Format<T, B>, sb: Super, disk: seq<T>, own: seq<set<nat>>, files: seq<seq<B>>) {
    && Bits(F, sb, disk, own) && |files| == sb.ninodes
    && forall i: nat | i < sb.ninodes :: LocalOk(F, sb, disk, i, own[i], files[i])
  }

  /** The blocks of inode i. */
  ghost function Mine(owner: map<nat, Slot>, i: nat): set<nat> { set b | b in owner && owner[b].i == i }

  /** The blocks of the other inodes. */
  ghost function Theirs(owner: map<nat, Slot>, i: nat): set<nat> { set b | b in owner && owner[b].i != i }

  ghost function Split(sb: Super, owner: map<nat, Slot>): (own: seq<set<nat>>)
    ensures |own| == sb.ninodes && forall i: nat | i < sb.ninodes :: own[i] == Mine(owner, i)
  {
    seq(sb.ninodes, i requires 0 <= i < sb.ninodes => Mine(owner, i))
  }

  lemma {:induction false} SplitBits<T(!new), B(!new)>(F: Format<T, B>, sb: Super, disk: seq<T>, inodes: seq<Inode>,
                                                       owner: map<nat, Slot>)
    requires Owned(F, sb, disk, inodes, owner, 0, 0)
    ensures Bits(F, sb, disk, Split(sb, owner))
  {
    hide Used;
    var own := Split(sb, owner);
    forall b: nat | b < sb.size
      ensures Used(F, sb, disk, b) <==> b < sb.datastart || exists i: nat :: Holds(own, i, b)
    {
      if b in owner { assert Holds(own, owner[b].i, b); }
    }
  }

  lemma {:induction false} SplitPoints<T(!new), B(!new)>(F: Format<T, B>, sb: Super, disk: seq<T>, inodes: seq<Inode>,
                                                         owner: map<nat, Slot>, i: nat, o: map<nat, Slot>)
    requires Owned(F, sb, disk, inodes, owner, 0, 0) && i < sb.ninodes
    requires o.Keys == Mine(owner, i) && forall b | b in o :: o[b] == owner[b]
    ensures Points(F, sb, disk, i, inodes[i], o)
  {
    hide Used;
    forall s | IsSlot(sb, s) && s.i == i ensures InPtr(F, disk, inodes[i], s) == Ptr(F, disk, inodes, s) { }
    assert forall b :: b in o <==> b in owner && owner[b].i == i;
  }

  /** A consistent file system is such a partition, */
  lemma {:induction false} ImageSplit<T(!new), B(!new)>(F: Format<T, B>, sb: Super, disk: seq<T>, inodes: seq<Inode>,
                                                        owner: map<nat, Slot>, files: seq<seq<B>>)
    requires ValidAt(F, sb, disk, inodes, owner, files)
    ensures Parts(F, sb, disk, Split(sb, owner), files)
  {
    hide Points, FileOk, Owned, Used, Bits;
    SplitBits(F, sb, disk, inodes, owner);
    forall i: nat | i < sb.ninodes ensures LocalOk(F, sb, disk, i, Split(sb, owner)[i], files[i]) {
      OthersSplit(F, sb, disk, inodes, files, i);
      assert Dinode(F, sb, disk, i) == inodes[i] && MetaOk(inodes[i]);
      var o := map b | b in owner && owner[b].i == i :: owner[b];
      assert o.Keys == Mine(owner, i);
      SplitPoints(F, sb, disk, inodes, owner, i, o);
    }
  }

  ghost predicate Choice<T, B>(F: Format<T, B>, sb: Super, disk: seq<T>, own: seq<set<nat>>, os: seq<map<nat, Slot>>,
                               i: nat)
    requires SuperOk(sb) && |disk| == sb.size && i < |os| && i < |own| && i < sb.ninodes
  {
    os[i].Keys == own[i] && Points(F, sb, disk, i, Dinode(F, sb, disk, i), os[i])
  }

  lemma {:induction false} Choose<T(!new), B(!new)>(F: Format<T, B>, sb: Super, disk: seq<T>, own: seq<set<nat>>,
                                                    files: seq<seq<B>>, n: nat) returns (os: seq<map<nat, Slot>>)
    requires Parts(F, sb, disk, own, files) && n <= sb.ninodes
    ensures |os| == n && SuperOk(sb) && |disk| == sb.size && |own| == sb.ninodes
    ensures forall i: nat | i < n :: Choice(F, sb, disk, own, os, i)
  {
    hide Points, FileOk;
    if n == 0 {
      os := [];
    } else {
      os := Choose(F, sb, disk, own, files, n - 1);
      assert LocalOk(F, sb, disk, n - 1, own[n - 1], files[n - 1]);
      var o: map<nat, Slot> :| o.Keys == own[n - 1] && Points(F, sb, disk, n - 1, Dinode(F, sb, disk, n - 1), o);
      var os' := os + [o];
      forall i: nat | i < n ensures Choice(F, sb, disk, own, os', i) {
        if i < n - 1 { assert Choice(F, sb, disk, own, os, i); }
      }
      os := os';
    }
  }

  /** The slot of block b, in the one map that has it. */
  ghost function Pick(os: seq<map<nat, Slot>>, b: nat): Slot {
    if exists i: nat :: i < |os| && b in os[i] then var i: nat :| i < |os| && b in os[i]; os[i][b] else Top(0, 0)
  }

  lemma {:induction false} PickIs(own: seq<set<nat>>, os: seq<map<nat, Slot>>, i: nat, b: nat)
    requires |os| == |own| && (forall i: nat | i < |os| :: os[i].Keys == own[i])
    requires forall i: nat, j: nat, b: nat | Holds(own, i, b) && Holds(own, j, b) :: i == j
    requires i < |os| && b in os[i]
    ensures Pick(os, b) == os[i][b]
  {
    var j: nat :| j < |os| && b in os[j] && Pick(os, b) == os[j][b];
    assert Holds(own, i, b) && Holds(own, j, b);
  }

  /** All maps in one. */
  ghost predicate Joined(os: seq<map<nat, Slot>>, owner: map<nat, Slot>) {
    && (forall i: nat, b: nat | i < |os| && b in os[i] :: b in owner && owner[b] == os[i][b])
    && (forall b | b in owner :: exists i: nat :: i < |os| && b in os[i] && owner[b] == os[i][b])
  }

  lemma {:induction false} Join(sb: Super, own: seq<set<nat>>, os: seq<map<nat, Slot>>) returns (owner: map<nat, Slot>)
    requires |os| == |own| && (forall i: nat | i < |os| :: os[i].Keys == own[i])
    requires forall i: nat, b: nat | Holds(own, i, b) :: b < sb.size
    requires forall i: nat, j: nat, b: nat | Holds(own, i, b) && Holds(own, j, b) :: i == j
    ensures Joined(os, owner)
  {
    hide Pick;
    owner := map b: nat | b < sb.size && exists i: nat :: i < |os| && b in os[i] :: Pick(os, b);
    forall i: nat, b: nat | i < |os| && b in os[i] ensures b in owner && owner[b] == os[i][b] {
      assert Holds(own, i, b);
      PickIs(own, os, i, b);
    }
    forall b | b in owner ensures exists i: nat :: i < |os| && b in os[i] && owner[b] == os[i][b] {
      var i: nat :| i < |os| && b in os[i];
      PickIs(own, os, i, b);
    }
  }

  lemma {:induction false} JoinedOwned<T(!new), B(!new)>(F: Format<T, B>, sb: Super, disk: seq<T>, own: seq<set<nat>>,
                                                         inodes: seq<Inode>, os: seq<map<nat, Slot>>,
                                                         owner: map<nat, Slot>)
    requires Bits(F, sb, disk, own) && |os| == |inodes| == sb.ninodes && Joined(os, owner)
    requires forall i: nat | i < sb.ninodes :: os[i].Keys == own[i] && Points(F, sb, disk, i, inodes[i], os[i])
    ensures Owned(F, sb, disk, inodes, owner, 0, 0)
  {
    hide Used, Points;
    forall i | 0 <= i < |inodes| ensures |inodes[i].addrs| == NDIRECT + 1 {
      PointsAt(F, sb, disk, i, inodes[i], os[i], Top(i, 0));
    }
    forall s | IsSlot(sb, s) && Ptr(F, disk, inodes, s) != 0
      ensures Ptr(F, disk, inodes, s) in owner && owner[Ptr(F, disk, inodes, s)] == s
    {
      PointsAt(F, sb, disk, s.i, inodes[s.i], os[s.i], s);
      assert Ptr(F, disk, inodes, s) == InPtr(F, disk, inodes[s.i], s);
    }
    forall b | b in owner
      ensures sb.datastart <= b < sb.size && IsSlot(sb, owner[b]) && Ptr(F, disk, inodes, owner[b]) == b
    {
      var i: nat :| i < |os| && b in os[i] && owner[b] == os[i][b];
      PointsIn(F, sb, disk, i, inodes[i], os[i], b);
    }
    forall b: nat | b < sb.size ensures Used(F, sb, disk, b) <==> b < sb.datastart || b in owner {
      if i: nat :| Holds(own, i, b) { assert b in os[i]; }
      if b in owner {
        var i: nat :| i < |os| && b in os[i] && owner[b] == os[i][b];
        assert Holds(own, i, b);
      }
    }
  }

  /** and such a partition is a consistent file system. */
  lemma {:induction false} ImageJoin<T(!new), B(!new)>(F: Format<T, B>, sb: Super, disk: seq<T>, own: seq<set<nat>>,
                                                       files: seq<seq<B>>)
    requires Parts(F, sb, disk, own, files)
    ensures Image(F, sb, disk, files)
  {
    hide Points, FileOk, Owned, Used;
    var os := Choose(F, sb, disk, own, files, sb.ninodes);
    var inodes := seq(sb.ninodes, i requires 0 <= i < sb.ninodes => Dinode(F, sb, disk, i));
    forall i: nat | i < sb.ninodes
      ensures os[i].Keys == own[i] && Points(F, sb, disk, i, inodes[i], os[i])
    {
      assert Choice(F, sb, disk, own, os, i);
    }
    var owner := Join(sb, own, os);
    JoinedOwned(F, sb, disk, own, inodes, os, owner);
    forall i: nat | i < sb.ninodes
      ensures FileOk(F, disk, inodes[i], files[i]) && Synced(F, sb, disk, inodes, i) && MetaOk(inodes[i])
    {
      assert LocalOk(F, sb, disk, i, own[i], files[i]);
    }
    OwnedShape(F, sb, disk, inodes, owner);
    assert ValidAt(F, sb, disk, inodes, owner, files);
  }

  lemma {:induction false} OwnedShape<T(!new), B(!new)>(F: Format<T, B>, sb: Super, disk: seq<T>, inodes: seq<Inode>,
                                                        owner: map<nat, Slot>)
    requires Owned(F, sb, disk, inodes, owner, 0, 0)
    ensures Shape(sb, disk, inodes)
  {
  }

  // ---- one log_write under the lock of inode i ----

  /** The bit of block b, which is not another inode's, changes in the free map. */
  ghost predicate MapWrite<T, B>(F: Format<T, B>, sb: Super, rest: set<nat>, disk: seq<T>, w: Write<T>, b: nat,
                                 on: bool)
    requires SuperOk(sb) && |disk| == sb.size
  {
    && sb.datastart <= b < sb.size && b !in rest && Used(F, sb, disk, b) != on
    && w == Write(MapBlock(sb, b), F.setBit(disk[MapBlock(sb, b)], b % BPB, on))
  }

  /** Dinode i changes in its block. */
  ghost predicate DinodeWrite<T, B>(F: Format<T, B>, sb: Super, i: nat, disk: seq<T>, w: Write<T>, ino: Inode)
    requires SuperOk(sb) && |disk| == sb.size && i < sb.ninodes
  {
    Storable(ino) && w == Write(InodeBlock(sb, i), F.setInode(disk[sb.inodestart + i / IPB], i % IPB, ino))
  }

  /** What a transaction on inode i may pass to log_write while `rest` are the other inodes' blocks: a block's
      bit taken or given back, a block that is taken but not by another inode, or its dinode. */
  ghost predicate LocalWrite<T(!new), B(!new)>(F: Format<T, B>, sb: Super, i: nat, rest: set<nat>, disk: seq<T>,
                                               w: Write<T>) {
    && SuperOk(sb) && |disk| == sb.size && i < sb.ninodes
    && (|| (exists b: nat, on: bool :: MapWrite(F, sb, rest, disk, w, b, on))
        || (sb.datastart <= w.bno < sb.size && w.bno !in rest && Used(F, sb, disk, w.bno))
        || (exists ino: Inode :: DinodeWrite(F, sb, i, disk, w, ino)))
  }

  /** The other inodes' blocks. */
  ghost function Rest(own: seq<set<nat>>, i: nat): (r: set<nat>)
    ensures forall b :: b in r <==> exists j: nat :: j != i && Holds(own, j, b)
  {
    var r := set j: nat, b: nat | j < |own| && j != i && b in own[j] :: b;
    assert forall b, j: nat | j < |own| && b in own[j] :: Holds(own, j, b);
    r
  }

  /** What inode i then has. */
  ghost function OwnAfter<T, B>(F: Format<T, B>, sb: Super, rest: set<nat>, disk: seq<T>): set<nat>
    requires SuperOk(sb) && |disk| == sb.size
  {
    set b: nat | sb.datastart <= b < sb.size && Used(F, sb, disk, b) && b !in rest
  }

  /** Such a write leaves the dinodes and blocks of the others alone, and their bits. */
  ghost predicate Aside<T, B>(F: Format<T, B>, sb: Super, i: nat, rest: set<nat>, disk: seq<T>, disk': seq<T>)
    requires SuperOk(sb) && |disk| == |disk'| == sb.size
  {
    && (forall j: nat | j < sb.ninodes && j != i :: Dinode(F, sb, disk', j) == Dinode(F, sb, disk, j))
    && (forall b | b in rest && sb.datastart <= b < sb.size :: disk'[b] == disk[b])
    && (forall b: nat | b < sb.size && (b < sb.datastart || b in rest) :: Used(F, sb, disk', b) == Used(F, sb, disk, b))
  }

  lemma {:induction false} MapAside<T(!new), B(!new)>(F: Format<T, B>, sb: Super, i: nat, rest: set<nat>, disk: seq<T>,
                                                      w: Write<T>, b: nat, on: bool)
    requires Law(F) && SuperOk(sb) && |disk| == sb.size && i < sb.ninodes && MapWrite(F, sb, rest, disk, w, b, on)
    ensures sb.inodestart <= w.bno < sb.size && Aside(F, sb, i, rest, disk, disk[w.bno := w.data])
  {
    hide Law, Used;
    MarkedBits(F, sb, disk, b, on);
    assert disk[w.bno := w.data] == Marked(F, sb, disk, b, on);
    forall j: nat | j < sb.ninodes ensures sb.inodestart + j / IPB < sb.bmapstart { InodeBelow(sb, j); }
  }

  lemma {:induction false} DataAside<T(!new), B(!new)>(F: Format<T, B>, sb: Super, i: nat, rest: set<nat>, disk: seq<T>,
                                                       w: Write<T>)
    requires SuperOk(sb) && |disk| == sb.size && i < sb.ninodes && sb.datastart <= w.bno < sb.size && w.bno !in rest
    ensures Aside(F, sb, i, rest, disk, disk[w.bno := w.data])
  {
    forall j: nat | j < sb.ninodes ensures sb.inodestart + j / IPB < sb.bmapstart { InodeBelow(sb, j); }
  }

  lemma {:induction false} DinodeAside<T(!new), B(!new)>(F: Format<T, B>, sb: Super, i: nat, rest: set<nat>,
                                                         disk: seq<T>, w: Write<T>, ino: Inode)
    requires Law(F) && SuperOk(sb) && |disk| == sb.size && i < sb.ninodes && DinodeWrite(F, sb, i, disk, w, ino)
    ensures sb.inodestart <= w.bno < sb.size && Aside(F, sb, i, rest, disk, disk[w.bno := w.data])
  {
    InodeBelow(sb, i);
    forall j: nat | j < sb.ninodes && j != i
      ensures Dinode(F, sb, disk[w.bno := w.data], j) == Dinode(F, sb, disk, j)
    {
      if j / IPB == i / IPB { assert j % IPB != i % IPB; }
    }
  }

  lemma {:induction false} LocalAside<T(!new), B(!new)>(F: Format<T, B>, sb: Super, i: nat, rest: set<nat>,
                                                        disk: seq<T>, w: Write<T>)
    requires Law(F) && LocalWrite(F, sb, i, rest, disk, w)
    ensures SuperOk(sb) && |disk| == sb.size && sb.inodestart <= w.bno < sb.size
    ensures Aside(F, sb, i, rest, disk, disk[w.bno := w.data])
  {
    hide Law, Used, MapWrite, DinodeWrite, Aside;
    if b: nat, on: bool :| MapWrite(F, sb, rest, disk, w, b, on) {
      MapAside(F, sb, i, rest, disk, w, b, on);
    } else if ino: Inode :| DinodeWrite(F, sb, i, disk, w, ino) {
      DinodeAside(F, sb, i, rest, disk, w, ino);
    } else {
      DataAside(F, sb, i, rest, disk, w);
    }
  }

  /** The partition of the blocks after such a write. */
  lemma {:induction false} BitsAside<T(!new), B(!new)>(F: Format<T, B>, sb: Super, i: nat, own: seq<set<nat>>,
                                                       disk: seq<T>, disk': seq<T>)
    requires Bits(F, sb, disk, own) && i < sb.ninodes && |disk'| == |disk|
    requires Aside(F, sb, i, Rest(own, i), disk, disk')
    ensures Bits(F, sb, disk', own[i := OwnAfter(F, sb, Rest(own, i), disk')])
  {
    hide Used, Dinode;
    var rest := Rest(own, i);
    var own' := own[i := OwnAfter(F, sb, rest, disk')];
    forall j: nat, b: nat | j != i ensures Holds(own', j, b) <==> Holds(own, j, b) { }
    forall b: nat ensures Holds(own', i, b) <==> sb.datastart <= b < sb.size && Used(F, sb, disk', b) && b !in rest { }
    forall b: nat | b < sb.size
      ensures Used(F, sb, disk', b) <==> b < sb.datastart || exists j: nat :: Holds(own', j, b)
    {
      if b in rest {
        var j: nat :| j != i && Holds(own, j, b);
        assert Holds(own', j, b);
      } else if sb.datastart <= b && Used(F, sb, disk', b) {
        assert Holds(own', i, b);
      }
    }
  }

  /** The other inodes do not notice. */
  lemma {:induction false} OtherAside<T(!new), B(!new)>(F: Format<T, B>, sb: Super, i: nat, own: seq<set<nat>>,
                                                        disk: seq<T>, disk': seq<T>, j: nat, data: seq<B>)
    requires Bits(F, sb, disk, own) && i < sb.ninodes && j < sb.ninodes && j != i && |disk'| == |disk|
    requires Aside(F, sb, i, Rest(own, i), disk, disk') && LocalOk(F, sb, disk, j, own[j], data)
    ensures LocalOk(F, sb, disk', j, own[j], data)
  {
    hide Used, LocalOk, Dinode;
    forall b | b in own[j] && b < sb.size ensures disk'[b] == disk[b] { assert Holds(own, j, b) && b in Rest(own, i); }
    LocalFrame(F, sb, disk, disk', j, own[j], data);
  }

  // ---- transactions by one inode's lock holder alone ----

  /** All log_writes of a transaction are such writes. */
  ghost predicate LocalTrace<T(!new), B(!new)>(F: Format<T, B>, sb: Super, i: nat, rest: set<nat>, base: seq<T>,
                                               ws: seq<Write<T>>) {
    forall k: nat | k < |ws| :: LocalWrite(F, sb, i, rest, Apply(base, ws[..k]), ws[k])
  }

  lemma {:induction false} TraceMore<T(!new), B(!new)>(F: Format<T, B>, sb: Super, i: nat, rest: set<nat>, base: seq<T>,
                                                       ws: seq<Write<T>>, disk: seq<T>, w: Write<T>)
    requires LocalTrace(F, sb, i, rest, base, ws) && disk == Apply(base, ws) && LocalWrite(F, sb, i, rest, disk, w)
    ensures LocalTrace(F, sb, i, rest, base, ws + [w])
  {
    hide LocalWrite;
    var all := ws + [w];
    forall k: nat | k < |all| ensures LocalWrite(F, sb, i, rest, Apply(base, all[..k]), all[k]) {
      assert all[..k] == ws[..k] && (k == |ws| ==> ws[..k] == ws);
    }
  }

  lemma {:induction false} MapLocal<T(!new), B(!new)>(F: Format<T, B>, sb: Super, i: nat, rest: set<nat>, disk: seq<T>,
                                                      b: nat, on: bool)
    requires SuperOk(sb) && |disk| == sb.size && i < sb.ninodes && sb.datastart <= b < sb.size && b !in rest
    ensures Used(F, sb, disk, b) != on ==>
              LocalWrite(F, sb, i, rest, disk, Write(MapBlock(sb, b), F.setBit(disk[MapBlock(sb, b)], b % BPB, on)))
  {
    hide Used;
    var w := Write(MapBlock(sb, b), F.setBit(disk[MapBlock(sb, b)], b % BPB, on));
    assert Used(F, sb, disk, b) != on ==> MapWrite(F, sb, rest, disk, w, b, on);
  }

  lemma {:induction false} DataLocal<T(!new), B(!new)>(F: Format<T, B>, sb: Super, i: nat, rest: set<nat>, disk: seq<T>,
                                                       w: Write<T>)
    requires SuperOk(sb) && |disk| == sb.size && i < sb.ninodes && sb.datastart <= w.bno < sb.size && w.bno !in rest
    requires Used(F, sb, disk, w.bno)
    ensures LocalWrite(F, sb, i, rest, disk, w)
  {
  }

  /** balloc's two log_writes. */
  lemma {:induction false} ClaimLocal<T(!new), B(!new)>(F: Format<T, B>, sb: Super, i: nat, rest: set<nat>,
                                                        disk: seq<T>, b: nat)
    requires Law(F) && SuperOk(sb) && |disk| == sb.size && i < sb.ninodes && sb.datastart <= b < sb.size && b !in rest
    requires !Used(F, sb, disk, b)
    ensures LocalWrite(F, sb, i, rest, disk, Write(MapBlock(sb, b), F.setBit(disk[MapBlock(sb, b)], b % BPB, true)))
    ensures LocalWrite(F, sb, i, rest, Marked(F, sb, disk, b, true), Write(b, F.zero))
  {
    hide Law, Used, LocalWrite;
    MapLocal(F, sb, i, rest, disk, b, true);
    MarkedBits(F, sb, disk, b, true);
    DataLocal(F, sb, i, rest, Marked(F, sb, disk, b, true), Write(b, F.zero));
  }

  /** The other inodes' blocks are taken, so that balloc does not return one. */
  lemma {:induction false} TheirsUsed<T(!new), B(!new)>(F: Format<T, B>, sb: Super, disk: seq<T>, inodes: seq<Inode>,
                                                        owner: map<nat, Slot>, i: nat)
    requires Owned(F, sb, disk, inodes, owner, 0, 0)
    ensures forall x | x in Theirs(owner, i) :: x < sb.size && Used(F, sb, disk, x)
  {
    hide Used;
  }

  lemma {:induction false} TheirsGrow(owner: map<nat, Slot>, i: nat, b: nat, s: Slot)
    requires b !in owner && s.i == i
    ensures Theirs(owner[b := s], i) == Theirs(owner, i)
  {
  }

  lemma {:induction false} TheirsLess(owner: map<nat, Slot>, i: nat, b: nat)
    requires b in owner && owner[b].i == i
    ensures Theirs(owner - {b}, i) == Theirs(owner, i) && b !in Theirs(owner, i)
  {
  }

  /** A block that inode i points to is not another's. */
  lemma {:induction false} PtrMine<T(!new), B(!new)>(F: Format<T, B>, sb: Super, disk: seq<T>, inodes: seq<Inode>,
                                                     owner: map<nat, Slot>, s: Slot)
    requires Owned(F, sb, disk, inodes, owner, 0, 0) && IsSlot(sb, s) && Ptr(F, disk, inodes, s) != 0
    ensures var p := Ptr(F, disk, inodes, s);
      sb.datastart <= p < sb.size && p !in Theirs(owner, s.i) && Used(F, sb, disk, p)
  {
    hide Used;
  }

  /** bmap's write of the indirect block, after balloc. */
  lemma {:induction false} LeafLocal<T(!new), B(!new)>(F: Format<T, B>, sb: Super, disk: seq<T>, inodes: seq<Inode>,
                                                       owner: map<nat, Slot>, i: nat, b: nat, disk': seq<T>,
                                                       w: Write<T>)
    requires Law(F) && Owned(F, sb, disk, inodes, owner, 0, 0) && i < sb.ninodes
        && inodes[i].addrs[NDIRECT] == w.bno != 0
    requires sb.datastart <= b < sb.size && disk' == Allocated(F, sb, disk, b)
    ensures LocalWrite(F, sb, i, Theirs(owner, i), disk', w)
  {
    hide Law, Used, Theirs, LocalWrite, Owned;
    OwnedFacts(F, sb, disk, inodes, owner, i);
    AllocatedFrame(F, sb, disk, b);
    PtrMine(F, sb, disk, inodes, owner, Top(i, NDIRECT));
    DataLocal(F, sb, i, Theirs(owner, i), disk', w);
  }

  /** A block of inode i that itrunc is about to free. */
  lemma {:induction false} FreeingIn<T(!new), B(!new)>(F: Format<T, B>, sb: Super, disk: seq<T>, inodes: seq<Inode>,
                                                       owner: map<nat, Slot>, files: seq<seq<B>>, i: nat, n: nat, bp: T,
                                                       b: nat)
    requires Freeing(F, sb, disk, inodes, owner, files, i, n, bp) && b in owner
    ensures SuperOk(sb) && |disk| == sb.size && i < sb.ninodes && sb.datastart <= b < sb.size
  {
    hide Used, Law, Others;
  }

  /** A transaction between consistent file systems, all of whose log_writes the holder of inode i's lock may make. */
  ghost predicate Solo<T(!new), B(!new)>(F: Format<T, B>, sb: Super, disk: seq<T>, files: seq<seq<B>>, i: nat,
                                         ws: seq<Write<T>>, files': seq<seq<B>>) {
    && Transaction(F, sb, disk, files, ws, files')
    && exists own :: Parts(F, sb, disk, own, files) && LocalTrace(F, sb, i, Rest(own, i), disk, ws)
  }

  lemma {:induction false} RestSplit<T(!new), B(!new)>(F: Format<T, B>, sb: Super, disk: seq<T>, inodes: seq<Inode>,
                                                       owner: map<nat, Slot>, i: nat)
    requires Owned(F, sb, disk, inodes, owner, 0, 0)
    ensures Rest(Split(sb, owner), i) == Theirs(owner, i)
  {
    hide Used;
    var own := Split(sb, owner);
    forall b: nat ensures b in Rest(own, i) <==> b in Theirs(owner, i) {
      if b in owner { assert owner[b].i != i ==> Holds(own, owner[b].i, b); }
    }
  }

  lemma {:induction false} SoloDone<T(!new), B(!new)>(F: Format<T, B>, sb: Super, disk: seq<T>, inodes: seq<Inode>,
                                                      owner: map<nat, Slot>, files: seq<seq<B>>, i: nat,
                                                      ws: seq<Write<T>>, files': seq<seq<B>>)
    requires ValidAt(F, sb, disk, inodes, owner, files) && Transaction(F, sb, disk, files, ws, files')
    requires LocalTrace(F, sb, i, Theirs(owner, i), disk, ws)
    ensures Solo(F, sb, disk, files, i, ws, files')
  {
    hide Owned, Others, Transaction, LocalTrace, Theirs, Rest, Parts;
    ImageSplit(F, sb, disk, inodes, owner, files);
    RestSplit(F, sb, disk, inodes, owner, i);
  }

  /** The transactions ops on inode i, one after another; none needs more of the log than it may have. */
  ghost predicate Ran<T(!new), B(!new)>(F: Format<T, B>, sb: Super, disk: seq<T>, files: seq<seq<B>>, i: nat,
                                        ops: seq<Txn<T, B>>) {
    forall k: nat | k < |ops| ::
      && Solo(F, sb, DiskAfter(disk, ops[..k]), FilesAfter(files, ops[..k]), i, ops[k].ws, ops[k].files)
      && Thrifty(ops[k].ws) && |Bnos(ops[k].ws)| <= MAXOPBLOCKS
  }

  lemma {:induction false} RanMore<T(!new), B(!new)>(F: Format<T, B>, sb: Super, disk: seq<T>, files: seq<seq<B>>,
                                                     i: nat, ops: seq<Txn<T, B>>, op: Txn<T, B>)
    requires Ran(F, sb, disk, files, i, ops)
    requires Solo(F, sb, DiskAfter(disk, ops), FilesAfter(files, ops), i, op.ws, op.files)
    requires Thrifty(op.ws) && |Bnos(op.ws)| <= MAXOPBLOCKS
    ensures Ran(F, sb, disk, files, i, ops + [op]) && FilesAfter(files, ops + [op]) == op.files
    ensures DiskAfter(disk, ops + [op]) == Apply(DiskAfter(disk, ops), op.ws)
  {
    hide Solo, Thrifty;
    var all := ops + [op];
    assert all[..|ops|] == ops;
    forall k: nat | k < |all|
      ensures Solo(F, sb, DiskAfter(disk, all[..k]), FilesAfter(files, all[..k]), i, all[k].ws, all[k].files)
      ensures Thrifty(all[k].ws) && |Bnos(all[k].ws)| <= MAXOPBLOCKS
    {
      assert all[..k] == ops[..k];
    }
  }

  lemma {:induction false} RanNone<T(!new), B(!new)>(F: Format<T, B>, sb: Super, disk: seq<T>, files: seq<seq<B>>,
                                                     i: nat, off: nat, src: seq<B>)
    requires i < |files|
    ensures Ran(F, sb, disk, files, i, []) && DiskAfter<T, B>(disk, []) == disk && FilesAfter<T, B>(files, []) == files
    ensures off <= |files[i]| ==>
              src[..0] == [] && files[i := Overwrite(files[i], off, src[..0])] == files
              && Chunked<T, B>(files, i, off, src, [])
  {
    if off <= |files[i]| { OverwriteNone(files[i], off); }
  }

  /** filewrite after k bytes of src: the transactions so far, and what they have made of disk and files. */
  ghost predicate SoFar<T(!new), B(!new)>(F: Format<T, B>, sb: Super, disk: seq<T>, files: seq<seq<B>>, i: nat,
                                          off: nat, src: seq<B>, k: nat, ops: seq<Txn<T, B>>, disk': seq<T>,
                                          files': seq<seq<B>>)
  {
    && i < |files| == |files'| && k <= |src| && Ran(F, sb, disk, files, i, ops)
    && disk' == DiskAfter(disk, ops) && files' == FilesAfter(files, ops)
    && if off > |files[i]| then k == 0 && files' == files
       else files' == files[i := Overwrite(files[i], off, src[..k])] && Chunked(files, i, off, src, ops)
  }

  lemma {:induction false} SoFarNone<T(!new), B(!new)>(F: Format<T, B>, sb: Super, disk: seq<T>, files: seq<seq<B>>,
                                                       i: nat, off: nat, src: seq<B>)
    requires i < |files|
    ensures SoFar(F, sb, disk, files, i, off, src, 0, [], disk, files)
  {
    RanNone(F, sb, disk, files, i, off, src);
  }

  /** One chunk more. */
  lemma {:induction false} SoFarMore<T(!new), B(!new)>(F: Format<T, B>, sb: Super, disk: seq<T>, files: seq<seq<B>>,
                                                       i: nat, off: nat, src: seq<B>, k: nat, ops: seq<Txn<T, B>>,
                                                       d0: seq<T>, f0: seq<seq<B>>, n1: nat, r: int, op: Txn<T, B>)
    requires SoFar(F, sb, disk, files, i, off, src, k, ops, d0, f0) && |ops| * CHUNK == k && k + n1 <= |src|
    requires Solo(F, sb, d0, f0, i, op.ws, op.files) && Thrifty(op.ws) && |Bnos(op.ws)| <= MAXOPBLOCKS && r <= n1
    requires |op.files| == |f0| && (r < 0 ==> op.files == f0) && (off + k > |f0[i]| ==> r < 0)
    requires 0 <= r ==> op.files == f0[i := Overwrite(f0[i], off + k, src[k..k + n1][..r])]
    ensures SoFar(F, sb, disk, files, i, off, src, if r > 0 then k + r else k, ops + [op], Apply(d0, op.ws), op.files)
    ensures off <= |files[i]| ==> off + k <= |f0[i]|
  {
    hide Ran, DiskAfter, FilesAfter, Chunked, Solo, Thrifty, Overwrite;
    RanMore(F, sb, disk, files, i, ops, op);
    if off <= |files[i]| {
      GrownPast(files[i], off, src, k);
      ChunkDone(files, f0, i, off, src, k, n1, r, ops, op);
    }
  }

  lemma {:induction false} SoFarIs<T(!new), B(!new)>(F: Format<T, B>, sb: Super, disk: seq<T>, files: seq<seq<B>>,
                                                     i: nat, off: nat, src: seq<B>, k: nat, ops: seq<Txn<T, B>>,
                                                     disk': seq<T>, files': seq<seq<B>>)
    requires SoFar(F, sb, disk, files, i, off, src, k, ops, disk', files')
    ensures i < |files| && k <= |src| && Ran(F, sb, disk, files, i, ops)
    ensures disk' == DiskAfter(disk, ops) && files' == FilesAfter(files, ops)
    ensures off > |files[i]| ==> k == 0 && files' == files
    ensures off <= |files[i]| ==>
              files' == files[i := Overwrite(files[i], off, src[..k])] && Chunked(files, i, off, src, ops)
  {
    hide Ran, DiskAfter, FilesAfter, Chunked, Overwrite;
  }

  lemma {:induction false} GrownPast<B>(data: seq<B>, off: nat, src: seq<B>, k: nat)
    requires off <= |data| && k <= |src|
    ensures off + k <= |Overwrite(data, off, src[..k])|
  {
  }

  /** Two partitions of the same blocks that agree for the other inodes agree for inode i. */
  lemma {:induction false} LastUnique<T(!new), B(!new)>(F: Format<T, B>, sb: Super, disk: seq<T>, own: seq<set<nat>>,
                                                        own': seq<set<nat>>, i: nat)
    requires Bits(F, sb, disk, own) && Bits(F, sb, disk, own') && i < sb.ninodes
    requires forall j: nat | j < sb.ninodes && j != i :: own'[j] == own[j]
    ensures own'[i] <= own[i]
  {
    hide Used;
    forall b | b in own'[i] ensures b in own[i] {
      assert Holds(own', i, b) && Used(F, sb, disk, b);
      var j: nat :| Holds(own, j, b);
      assert j != i ==> Holds(own', j, b);
    }
  }

  /** The state in which a transaction on inode i leaves a consistent file system: file i has its new
      contents, and the others are as they were. */
  lemma {:induction false} SoloEnd<T(!new), B(!new)>(F: Format<T, B>, sb: Super, disk: seq<T>, own: seq<set<nat>>,
                                                     files: seq<seq<B>>, i: nat, files': seq<seq<B>>)
    requires Bits(F, sb, disk, own) && i < sb.ninodes == |files| && Image(F, sb, disk, files')
    requires forall j: nat | j < sb.ninodes && j != i :: LocalOk(F, sb, disk, j, own[j], files[j])
    ensures |files'| == |files| && files' == files[i := files'[i]] && LocalOk(F, sb, disk, i, own[i], files'[i])
  {
    hide ValidAt, Bits, FileOk, Points;
    assert |own| == sb.ninodes && 0 < sb.datastart by { BitsShape(F, sb, disk, own); }
    var inodes, owner :| ValidAt(F, sb, disk, inodes, owner, files');
    ImageSplit(F, sb, disk, inodes, owner, files');
    var own' := Split(sb, owner);
    forall j: nat | j < sb.ninodes && j != i ensures own'[j] == own[j] && files'[j] == files[j] {
      OwnUnique(F, sb, disk, j, own[j], own'[j], files[j], files'[j]);
      ContentUnique(F, disk, Dinode(F, sb, disk, j), files[j], files'[j]);
    }
    LastUnique(F, sb, disk, own, own', i);
    LastUnique(F, sb, disk, own', own, i);
    assert own'[i] == own[i];
  }

  lemma {:induction false} BitsShape<T(!new), B(!new)>(F: Format<T, B>, sb: Super, disk: seq<T>, own: seq<set<nat>>)
    requires Bits(F, sb, disk, own)
    ensures SuperOk(sb) && |disk| == sb.size && |own| == sb.ninodes && 0 < sb.datastart
  {
  }

  /** There is only one such partition. */
  lemma {:induction false} PartsUnique<T(!new), B(!new)>(F: Format<T, B>, sb: Super, disk: seq<T>, a: seq<set<nat>>,
                                                         b: seq<set<nat>>, files: seq<seq<B>>)
    requires Parts(F, sb, disk, a, files) && Parts(F, sb, disk, b, files)
    ensures a == b
  {
    hide LocalOk, Used;
    forall i: nat | i < sb.ninodes ensures a[i] == b[i] { OwnUnique(F, sb, disk, i, a[i], b[i], files[i], files[i]); }
  }

  /** A disk holds the files of one file system only. */
  lemma {:induction false} FilesUnique<T(!new), B(!new)>(F: Format<T, B>, sb: Super, disk: seq<T>, a: seq<set<nat>>,
                                                         b: seq<set<nat>>, files: seq<seq<B>>, files': seq<seq<B>>)
    requires Parts(F, sb, disk, a, files) && Parts(F, sb, disk, b, files')
    ensures files == files'
  {
    hide FileOk, Points, Used;
    forall i: nat | i < sb.ninodes ensures files[i] == files'[i] {
      assert LocalOk(F, sb, disk, i, a[i], files[i]) && LocalOk(F, sb, disk, i, b[i], files'[i]);
      ContentUnique(F, disk, Dinode(F, sb, disk, i), files[i], files'[i]);
    }
  }
}
