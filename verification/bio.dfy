/** kernel/bio.c: the buffer cache as a doubly linked ring in least-recently-used order. */
module BufferRing {
  import opened Options

  const NBUF := 30  // MAXOPBLOCKS*3
  const HEAD := NBUF  // &bcache.head, after the NBUF buffers

  datatype Buf = Buf(valid: bool, dev: nat, blockno: nat, refcnt: nat)

  /** The cache seen as a sequence: `ring` lists the buffers, most recently used first. */
  datatype Cache = Cache(buf: seq<Buf>, ring: seq<nat>)

  ghost predicate Distinct(ring: seq<nat>) {
    forall i, j | 0 <= i < j < |ring| :: ring[i] != ring[j]
  }

  /** Every buffer is on the ring exactly once. */
  ghost predicate Wf(c: Cache) {
    && |c.buf| == |c.ring| == NBUF && Distinct(c.ring)
    && (forall i | 0 <= i < NBUF :: c.ring[i] < NBUF)
    && (forall b: nat | b < NBUF :: b in c.ring)
  }

  /** bget under bcache.lock: a buffer that already holds the block, else the least recently
      used one that nobody refers to, else none (panic). */
  ghost predicate IsGet(c: Cache, dev: nat, bno: nat, r: Option<nat>, c': Cache)
    requires |c.buf| == |c.ring| == NBUF && forall i | 0 <= i < NBUF :: c.ring[i] < NBUF
  {
    if exists i :: 0 <= i < NBUF && Holds(c.buf[c.ring[i]], dev, bno) then
      && r.Some? && r.value < NBUF && Holds(c.buf[r.value], dev, bno)
      && c' == c.(buf := c.buf[r.value := c.buf[r.value].(refcnt := c.buf[r.value].refcnt + 1)])
    else if exists i :: 0 <= i < NBUF && c.buf[c.ring[i]].refcnt == 0 then
      && r.Some? && r.value < NBUF && c.buf[r.value].refcnt == 0
      && (exists k :: 0 <= k < NBUF && c.ring[k] == r.value && forall i | k < i < NBUF :: c.buf[c.ring[i]].refcnt != 0)
      && c' == c.(buf := c.buf[r.value := Buf(false, dev, bno, 1)])
    else r == None && c' == c
  }

  predicate Holds(b: Buf, dev: nat, bno: nat) { b.dev == dev && b.blockno == bno }

  /** The end of brelse under bcache.lock: drop a reference, and move the buffer to the front if
      it was the last one. */
  function Released(c: Cache, b: nat): Cache
    requires b < |c.buf| && c.buf[b].refcnt > 0
  {
    var n := c.buf[b].refcnt - 1;
    Cache(c.buf[b := c.buf[b].(refcnt := n)], if n == 0 then [b] + Without(c.ring, b) else c.ring)
  }

  function Without(s: seq<nat>, b: nat): (r: seq<nat>)
    ensures b !in s ==> r == s
    decreases |s|
  {
    if s == [] then [] else if s[0] == b then s[1..] else [s[0]] + Without(s[1..], b)
  }

  lemma {:induction false} WithoutAt(s: seq<nat>, k: nat)
    requires k < |s| && Distinct(s)
    ensures Without(s, s[k]) == s[..k] + s[k + 1..]
    decreases |s|
  {
    if k == 0 {
    } else {
      assert s[0] != s[k];
      var t := s[1..];
      assert t[k - 1] == s[k];
      WithoutAt(t, k - 1);
      assert [s[0]] + (t[..k - 1] + t[k..]) == s[..k] + s[k + 1..];
    }
  }

  /** `next` and `prev` chain the head, the buffers of `ring` in order, and the head again. */
  ghost predicate Linked(next: seq<nat>, prev: seq<nat>, ring: seq<nat>) {
    && |next| == |prev| == NBUF + 1
    && (forall i | 0 <= i < |ring| :: ring[i] < NBUF)
    && Distinct(ring)
    && var e := [HEAD] + ring + [HEAD];
    && forall i | 0 <= i <= |ring| :: next[e[i]] == e[i + 1] && prev[e[i + 1]] == e[i]
  }

  /** b->next->prev = b->prev; b->prev->next = b->next */
  lemma {:induction false} Unlink(next: seq<nat>, prev: seq<nat>, ring: seq<nat>, k: nat)
    requires Linked(next, prev, ring) && k < |ring|
    ensures var b := ring[k];
            && b <= NBUF && next[b] <= NBUF && prev[b] <= NBUF
            && Linked(next[prev[b] := next[b]], prev[next[b] := prev[b]], ring[..k] + ring[k + 1..])
  {
    var b, e := ring[k], [HEAD] + ring + [HEAD];
    assert |e| == |ring| + 2 && e[k + 1] == b;
    assert next[e[k]] == e[k + 1] && next[e[k + 1]] == e[k + 1 + 1];
    var next', prev', ring' := next[prev[b] := next[b]], prev[next[b] := prev[b]], ring[..k] + ring[k + 1..];
    var e' := [HEAD] + ring' + [HEAD];
    assert forall i | 0 <= i < |e'| :: e'[i] <= NBUF;
    forall i | 0 <= i <= |ring'| ensures next'[e'[i]] == e'[i + 1] && prev'[e'[i + 1]] == e'[i] {
      var j := if i <= k then i else i + 1;
      assert e'[i] == e[j] && e'[i + 1] == e[if i < k then i + 1 else i + 2];
      assert next[e[j]] == e[j + 1];
      if i != k { assert e[j] != e[k] && e[j + 1] != e[k + 2]; }
    }
  }

  /** b->next = head.next; b->prev = &head; head.next->prev = b; head.next = b */
  lemma {:induction false} PushFront(next: seq<nat>, prev: seq<nat>, ring: seq<nat>, b: nat)
    requires Linked(next, prev, ring) && b < NBUF && b !in ring
    ensures var first := next[HEAD];
            && first <= NBUF
            && Linked(next[b := first][HEAD := b], prev[b := HEAD][first := b], [b] + ring)
  {
    var e, first := [HEAD] + ring + [HEAD], next[HEAD];
    assert e[0] == HEAD && next[e[0]] == e[1];
    var next', prev', e' := next[b := first][HEAD := b], prev[b := HEAD][first := b], [HEAD] + ([b] + ring) + [HEAD];
    forall i | 0 <= i <= |ring| + 1 ensures next'[e'[i]] == e'[i + 1] && prev'[e'[i + 1]] == e'[i] {
      if i >= 2 {
        assert e'[i] == e[i - 1] && e'[i + 1] == e[i];
        assert next[e[i - 1]] == e[i - 1 + 1];
        assert e[i] != e[1];
      }
    }
  }

  /** Moving a buffer to the front keeps every buffer on the ring exactly once. */
  lemma {:induction false} RingFront(ring: seq<nat>, b: nat)
    requires Distinct(ring) && b in ring
    requires forall i | 0 <= i < |ring| :: ring[i] < NBUF
    ensures var r := [b] + Without(ring, b);
            && |r| == |ring| && Distinct(r) && (forall i | 0 <= i < |r| :: r[i] < NBUF)
            && forall x | x in ring :: x in r
  {
    var k :| 0 <= k < |ring| && ring[k] == b;
    WithoutAt(ring, k);
    var r := [b] + Without(ring, b);
    forall i, j | 0 <= i < j < |r| ensures r[i] != r[j] && r[i] < NBUF && r[j] < NBUF {
      FrontAt(ring, k, i);
      FrontAt(ring, k, j);
    }
    FrontAt(ring, k, 0);
    forall x | x in ring ensures x in r {
      var j :| 0 <= j < |ring| && ring[j] == x;
      FrontAt(ring, k, if j == k then 0 else if j < k then j + 1 else j);
    }
  }

  /** The i-th buffer, after buffer k moved to the front, and where it was before. */
  lemma {:induction false} FrontAt(ring: seq<nat>, k: nat, i: nat)
    requires k < |ring| && i < |ring|
    ensures ([ring[k]] + (ring[..k] + ring[k + 1..]))[i] == ring[if i == 0 then k else if i <= k then i - 1 else i]
  {
  }

  lemma {:induction false} MoveToFront(next: seq<nat>, prev: seq<nat>, ring: seq<nat>, b: nat)
    requires Linked(next, prev, ring) && b in ring
    ensures next[b] <= NBUF && prev[b] <= NBUF
    ensures var next1, prev1 := next[prev[b] := next[b]], prev[next[b] := prev[b]];
            var first := next1[HEAD];
            first <= NBUF && Linked(next1[b := first][HEAD := b], prev1[b := HEAD][first := b], [b] + Without(ring, b))
  {
    var k :| 0 <= k < |ring| && ring[k] == b;
    WithoutAt(ring, k);
    Unlink(next, prev, ring, k);
    PushFront(next[prev[b] := next[b]], prev[next[b] := prev[b]], ring[..k] + ring[k + 1..], b);
  }

  /** Buffer x comes before y on the ring. */
  ghost predicate Before(ring: seq<nat>, x: nat, y: nat) {
    exists i, j | 0 <= i < j < |ring| :: ring[i] == x && ring[j] == y
  }

  /** b is first now, and any two others are in the order they were in. */
  ghost predicate UsedLast(ring: seq<nat>, ring': seq<nat>, b: nat) {
    && |ring'| == |ring| > 0 && ring'[0] == b
    && forall x: nat, y: nat | x != b && y != b :: Before(ring', x, y) <==> Before(ring, x, y)
  }

  /** What brelse does to the order of use: a buffer nobody refers to any more comes first, the others keep their order;
      while there are other references the ring stays as it is. */
  lemma {:induction false} ReleasedOrder(c: Cache, b: nat)
    requires Wf(c) && b < NBUF && c.buf[b].refcnt > 0
    ensures Wf(Released(c, b)) && Released(c, b).buf == c.buf[b := c.buf[b].(refcnt := c.buf[b].refcnt - 1)]
    ensures if c.buf[b].refcnt > 1 then Released(c, b).ring == c.ring else UsedLast(c.ring, Released(c, b).ring, b)
  {
    hide Without, Before;
    assert b in c.ring;
    RingFront(c.ring, b);
    var k :| 0 <= k < |c.ring| && c.ring[k] == b;
    WithoutAt(c.ring, k);
    forall x: nat, y: nat | x != b && y != b && c.buf[b].refcnt == 1
      ensures Before(Released(c, b).ring, x, y) <==> Before(c.ring, x, y)
    {
      FrontOrder(c.ring, k, x, y);
    }
  }

  /** Moving buffer k to the front keeps the order of the others. */
  lemma {:induction false} FrontOrder(ring: seq<nat>, k: nat, x: nat, y: nat)
    requires k < |ring| && x != ring[k] && y != ring[k]
    ensures Before([ring[k]] + (ring[..k] + ring[k + 1..]), x, y) <==> Before(ring, x, y)
  {
    var r := [ring[k]] + (ring[..k] + ring[k + 1..]);
    forall i | 0 <= i < |ring| ensures r[i] == ring[if i == 0 then k else if i <= k then i - 1 else i] {
      FrontAt(ring, k, i);
    }
    if Before(ring, x, y) {
      var i, j :| 0 <= i < j < |ring| && ring[i] == x && ring[j] == y;
      assert r[if i < k then i + 1 else i] == x && r[if j < k then j + 1 else j] == y;
    }
    if Before(r, x, y) {
      var i, j :| 0 <= i < j < |r| && r[i] == x && r[j] == y;
      assert ring[if i <= k then i - 1 else i] == x && ring[if j <= k then j - 1 else j] == y;
    }
  }

  /** bget fails exactly if the block is not cached and every buffer is referred to. */
  lemma {:induction false} GetFails(c: Cache, dev: nat, bno: nat, r: Option<nat>, c': Cache)
    requires Wf(c) && IsGet(c, dev, bno, r, c')
    ensures r == None <==> forall b: nat | b < NBUF :: !Holds(c.buf[b], dev, bno) && c.buf[b].refcnt != 0
    ensures r.Some? ==> r.value < NBUF && |c'.buf| == NBUF && Holds(c'.buf[r.value], dev, bno)
    ensures r.Some? ==> c'.ring == c.ring && forall b: nat | b < NBUF && b != r.value :: c'.buf[b] == c.buf[b]
  {
    forall b: nat | b < NBUF && (Holds(c.buf[b], dev, bno) || c.buf[b].refcnt == 0) ensures r != None {
      assert b in c.ring;
      var i :| 0 <= i < NBUF && c.ring[i] == b;
    }
  }

  class BCache {
    var buf: seq<Buf>
    var next: seq<nat>
    var prev: seq<nat>
    ghost var ring: seq<nat>

    ghost predicate Valid()
      reads this
    {
      Linked(next, prev, ring) && Wf(Cache(buf, ring))
    }

    ghost function Abs(): Cache
      reads this
    {
      Cache(buf, ring)
    }

    /** binit: the buffers, all zero, pushed onto the ring one by one. */
    constructor ()
      ensures Valid()
      ensures forall i | 0 <= i < NBUF :: buf[i] == Buf(false, 0, 0, 0) && ring[i] == NBUF - 1 - i
    {
      buf := seq(NBUF, _ => Buf(false, 0, 0, 0));
      next, prev, ring := seq(NBUF + 1, _ => HEAD), seq(NBUF + 1, _ => HEAD), [];
      new;
      var b := 0;
      while b < NBUF
        invariant 0 <= b <= NBUF && |ring| == b && |buf| == NBUF
        invariant Linked(next, prev, ring)
        invariant forall i | 0 <= i < b :: ring[i] == b - 1 - i
        invariant forall i | 0 <= i < NBUF :: buf[i] == Buf(false, 0, 0, 0)
      {
        PushFront(next, prev, ring, b);
        var first := next[HEAD];
        next, prev := next[b := first][HEAD := b], prev[b := HEAD][first := b];
        ring := [b] + ring;
        b := b + 1;
      }
      forall x: nat | x < NBUF ensures x in ring { assert ring[NBUF - 1 - x] == x; }
    }

    method BGet(dev: nat, bno: nat) returns (r: Option<nat>)
      requires Valid()
      modifies this`buf
      ensures Valid() && IsGet(old(Abs()), dev, bno, r, Abs())
    {
      ghost var e, i := [HEAD] + ring + [HEAD], 0;
      var b := next[HEAD];
      assert e[0] == HEAD;
      while b != HEAD
        invariant 0 <= i <= NBUF && b == e[i + 1] && Valid() && buf == old(buf)
        invariant forall j | 0 <= j < i :: !Holds(buf[ring[j]], dev, bno)
        decreases NBUF - i
      {
        assert b == ring[i];
        if buf[b].dev == dev && buf[b].blockno == bno {
          buf := buf[b := buf[b].(refcnt := buf[b].refcnt + 1)];
          return Some(b);
        }
        assert next[e[i + 1]] == e[i + 1 + 1];
        b := next[b];
        i := i + 1;
      }
      assert i == NBUF;
      b := prev[HEAD];
      assert prev[e[NBUF + 1]] == e[NBUF];
      while b != HEAD
        invariant 0 <= i <= NBUF && b == e[i] && Valid() && buf == old(buf)
        invariant forall j | i <= j < NBUF :: buf[ring[j]].refcnt != 0
        decreases i
      {
        assert b == ring[i - 1];
        if buf[b].refcnt == 0 {
          buf := buf[b := Buf(false, dev, bno, 1)];
          return Some(b);
        }
        assert prev[e[i - 1 + 1]] == e[i - 1];
        b := prev[b];
        i := i - 1;
      }
      r := None;
    }

    method BRelse(b: nat)
      requires Valid() && b < NBUF && buf[b].refcnt > 0
      modifies this
      ensures Valid() && Abs() == Released(old(Abs()), b)
      ensures buf == old(buf)[b := old(buf)[b].(refcnt := old(buf)[b].refcnt - 1)]
      ensures if old(buf)[b].refcnt > 1 then ring == old(ring) else UsedLast(old(ring), ring, b)
    {
      hide UsedLast, Without, Distinct;
      assert b in ring;
      MoveToFront(next, prev, ring, b);
      RingFront(ring, b);
      ReleasedOrder(Abs(), b);
      buf := buf[b := buf[b].(refcnt := buf[b].refcnt - 1)];
      if buf[b].refcnt == 0 {
        var n, p := next[b], prev[b];
        prev, next := prev[n := p], next[p := n];
        var first := next[HEAD];
        next, prev := next[b := first][HEAD := b], prev[b := HEAD][first := b];
        ring := [b] + Without(ring, b);
      }
    }
  }
}
