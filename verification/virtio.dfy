/** kernel/virtio_disk.c: the descriptor allocator, and the protocol between the driver, the device and
    the interrupt handler over the split virtqueue (section 2.6 of VIRTIO 1.1). */
module VirtioDesc {
  const NUM := 8

  /** What a descriptor's address points to: a request header, a buffer's data or a status byte. */
  datatype Addr = Null | Op(i: nat) | Data(b: nat) | Status(i: nat)

  /** flags: NEXT and WRITE */
  datatype Desc = Desc(addr: Addr, len: nat, more: bool, write: bool, next: nat)

  const Cleared := Desc(Null, 0, false, false, 0)

  /** How many descriptors are free. */
  function Count(free: seq<bool>): nat {
    if free == [] then 0 else Count(free[..|free| - 1]) + if free[|free| - 1] then 1 else 0
  }

  lemma {:induction false} CountSet(free: seq<bool>, i: nat, on: bool)
    requires i < |free|
    ensures Count(free[i := on]) == Count(free) - (if free[i] then 1 else 0) + (if on then 1 else 0)
  {
    var n := |free| - 1;
    if i < n {
      CountSet(free[..n], i, on);
      assert free[i := on][..n] == free[..n][i := on];
    } else {
      assert free[i := on][..n] == free[..n];
    }
  }

  lemma {:induction false} CountNone(free: seq<bool>)
    requires forall i | 0 <= i < |free| :: !free[i]
    ensures Count(free) == 0
  {
    if free != [] { CountNone(free[..|free| - 1]); }
  }

  lemma {:induction false} CountAll(free: seq<bool>)
    requires forall i | 0 <= i < |free| :: free[i]
    ensures Count(free) == |free|
  {
    if free != [] { CountAll(free[..|free| - 1]); }
  }

  /** The lowest free descriptor at or above i; |free| if there is none. */
  function First(free: seq<bool>, i: nat): (k: nat)
    requires i <= |free|
    ensures i <= k <= |free| && (k < |free| ==> free[k]) && forall j | i <= j < k :: !free[j]
    decreases |free| - i
  {
    if i == |free| || free[i] then i else First(free, i + 1)
  }

  /** A chain of descriptors linked by `next`. */
  ghost predicate Chain(desc: seq<Desc>, c: seq<nat>) {
    && |c| > 0 && (forall k | 0 <= k < |c| :: c[k] < |desc|) && (forall j, k | 0 <= j < k < |c| :: c[j] != c[k])
    && (forall k | 0 <= k < |c| :: desc[c[k]].more <==> k + 1 < |c|)
    && forall k | 0 <= k < |c| - 1 :: desc[c[k]].next == c[k + 1]
  }

  /** The driver's book-keeping: disk.free and disk.desc. */
  class Descriptors {
    var free: array<bool>
    var desc: array<Desc>

    ghost predicate Valid()
      reads this
    {
      free.Length == NUM && desc.Length == NUM
    }

    /** virtio_disk_init: the table is zeroed and every descriptor is free. */
    constructor ()
      ensures Valid() && fresh(free) && fresh(desc)
      ensures (forall i | 0 <= i < NUM :: free[i] && desc[i] == Cleared) && Count(free[..]) == NUM
    {
      free, desc := new bool[NUM](_ => false), new Desc[NUM](_ => Cleared);
      new;
      var i := 0;
      while i < NUM
        invariant 0 <= i <= NUM && Valid() && fresh(free) && fresh(desc)
        invariant forall k | 0 <= k < NUM :: desc[k] == Cleared && (k < i ==> free[k])
      {
        free[i] := true;
        i := i + 1;
      }
      CountAll(free[..]);
    }

    /** The lowest free descriptor, now taken; -1 if none is free. */
    method AllocDesc() returns (r: int)
      requires Valid()
      modifies free
      ensures r == (if First(old(free[..]), 0) < NUM then First(old(free[..]), 0) else -1)
      ensures free[..] == if r < 0 then old(free[..]) else old(free[..])[r := false]
    {
      var i := 0;
      while i < NUM
        invariant 0 <= i <= NUM && free[..] == old(free[..]) && First(free[..], 0) == First(free[..], i)
      {
        if free[i] {
          free[i] := false;
          return i;
        }
        i := i + 1;
      }
      return -1;
    }

    /** `panic` is "free_desc 1" or "free_desc 2". */
    method FreeDesc(i: nat) returns (panic: bool)
      requires Valid()
      modifies free, desc
      ensures panic <==> i >= NUM || old(free[i])
      ensures panic ==> free[..] == old(free[..]) && desc[..] == old(desc[..])
      ensures !panic ==> free[..] == old(free[..])[i := true] && desc[..] == old(desc[..])[i := Cleared]
    {
      if i >= NUM { return true; }
      if free[i] { return true; }
      desc[i] := Cleared;
      free[i] := true;
      return false;
    }

    /** Frees every descriptor of the chain c that starts at h, and nothing else; it neither panics nor runs on. */
    method FreeChain(h: nat, ghost c: seq<nat>) returns (panic: bool)
      requires Valid() && Chain(desc[..], c) && c[0] == h && forall k | 0 <= k < |c| :: !free[c[k]]
      modifies free, desc
      ensures !panic
      ensures forall i | 0 <= i < NUM ::
                if i in c then free[i] && desc[i] == Cleared else free[i] == old(free[i]) && desc[i] == old(desc[i])
    {
      var i := h;
      ghost var k := 0;
      while true
        invariant 0 <= k < |c| && i == c[k]
        invariant forall m | 0 <= m < k :: free[c[m]] && desc[c[m]] == Cleared
        invariant forall m | k <= m < |c| :: !free[c[m]] && desc[c[m]] == old(desc[c[m]])
        invariant forall j | 0 <= j < NUM && j !in c :: free[j] == old(free[j]) && desc[j] == old(desc[j])
        decreases |c| - k
      {
        var more, next := desc[i].more, desc[i].next;
        panic := FreeDesc(i);
        if panic { return; }
        if !more { break; }
        i := next;
        k := k + 1;
      }
    }

    /** alloc3_desc gives back what it took. */
    method Undo(idx: seq<nat>)
      requires Valid() && (forall k | 0 <= k < |idx| :: idx[k] < NUM && !free[idx[k]])
      requires forall j, k | 0 <= j < k < |idx| :: idx[j] != idx[k]
      modifies free, desc
      ensures forall i | 0 <= i < NUM :: free[i] == (old(free[i]) || i in idx)
      ensures forall i | 0 <= i < NUM :: desc[i] == if i in idx then Cleared else old(desc[i])
    {
      var j := 0;
      while j < |idx|
        invariant 0 <= j <= |idx|
        invariant forall k | j <= k < |idx| :: !free[idx[k]]
        invariant forall i | 0 <= i < NUM :: free[i] == (old(free[i]) || i in idx[..j])
        invariant forall i | 0 <= i < NUM :: desc[i] == if i in idx[..j] then Cleared else old(desc[i])
      {
        var panic := FreeDesc(idx[j]);
        assert idx[..j + 1] == idx[..j] + [idx[j]];
        j := j + 1;
      }
      assert idx[..j] == idx;
    }

    /** Three different descriptors, all taken, when three are free; otherwise none is taken. */
    method Alloc3Desc() returns (ok: bool, idx: seq<nat>)
      requires Valid()
      modifies free, desc
      ensures ok <==> Count(old(free[..])) >= 3
      ensures ok ==>
                |idx| == 3 && idx[0] < NUM && idx[1] < NUM && idx[2] < NUM && idx[0] != idx[1] && idx[0] != idx[2]
                && idx[1] != idx[2]
      ensures ok ==> old(free[idx[0]]) && old(free[idx[1]]) && old(free[idx[2]])
      ensures ok ==>
                free[..] == old(free[..])[idx[0] := false][idx[1] := false][idx[2] := false]
                && desc[..] == old(desc[..])
      ensures !ok ==> free[..] == old(free[..])
      ensures forall i | 0 <= i < NUM :: desc[i] == old(desc[i]) || (!ok && old(free[i]) && desc[i] == Cleared)
    {
      idx := [];
      while |idx| < 3
        invariant |idx| <= 3 && Valid() && desc[..] == old(desc[..])
        invariant forall k | 0 <= k < |idx| :: idx[k] < NUM && old(free[idx[k]]) && !free[idx[k]]
        invariant forall j, k | 0 <= j < k < |idx| :: idx[j] != idx[k]
        invariant forall i | 0 <= i < NUM && i !in idx :: free[i] == old(free[i])
        invariant Count(free[..]) == Count(old(free[..])) - |idx|
      {
        ghost var f0 := free[..];
        var r := AllocDesc();
        if r < 0 {
          CountNone(free[..]);
          Undo(idx);
          assert free[..] == old(free[..]);
          return false, idx;
        }
        CountSet(f0, r, false);
        idx := idx + [r];
      }
      ok := true;
      assert free[..] == old(free[..])[idx[0] := false][idx[1] := false][idx[2] := false];
    }
  }
}
