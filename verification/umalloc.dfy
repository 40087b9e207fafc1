/** user/umalloc.c. Addresses count in units of sizeof(Header); the header `base` lies below the heap. */
module FreeBlocks {
  /** A block of n units whose header is at a. */
  datatype Blk = Blk(a: nat, n: nat)

  /** In address order above base, nonempty, and no two touching. */
  ghost predicate Sorted(f: seq<Blk>, base: nat) {
    && (forall k | 0 <= k < |f| :: f[k].n > 0 && base < f[k].a)
    && (forall j, k | 0 <= j < k < |f| :: f[j].a + f[j].n < f[k].a)
  }

  predicate In(b: Blk, u: nat) { b.a <= u < b.a + b.n }

  /** Unit u belongs to a free block. */
  ghost predicate Covers(f: seq<Blk>, u: nat) { exists k | 0 <= k < |f| :: In(f[k], u) }

  predicate Apart(b: Blk, c: Blk) { b.a + b.n <= c.a || c.a + c.n <= b.a }

  // The free list is circular: node 0 is base, node k + 1 is block k.
  function NodeAt(f: seq<Blk>, base: nat, i: nat): nat
    requires i <= |f|
  {
    if i == 0 then base else f[i - 1].a
  }

  function Next(f: seq<Blk>, i: nat): nat { if i >= |f| then 0 else i + 1 }

  function SizeAt(f: seq<Blk>, i: nat): nat
    requires i <= |f|
  {
    if i == 0 then 0 else f[i - 1].n
  }

  /** The header of node i leads to the next node and has its size. */
  predicate LinkAt(f: seq<Blk>, base: nat, ptr: nat -> nat, size: nat -> nat, i: nat)
    requires i <= |f|
  {
    ptr(NodeAt(f, base, i)) == NodeAt(f, base, Next(f, i)) && size(NodeAt(f, base, i)) == SizeAt(f, i)
  }

  /** The headers in memory form the circular list of base and the blocks. */
  ghost predicate Linked(f: seq<Blk>, base: nat, ptr: nat -> nat, size: nat -> nat) {
    forall i: nat | i <= |f| :: LinkAt(f, base, ptr, size, i)
  }

  /** How many blocks lie below address b. */
  function Below(f: seq<Blk>, b: nat): (j: nat)
    ensures j <= |f| && (forall k | 0 <= k < j :: f[k].a < b) && (j < |f| ==> f[j].a >= b)
  {
    if f == [] || f[0].a >= b then 0 else 1 + Below(f[1..], b)
  }

  /** The list with block b put in place j, joined with its neighbours where they touch. */
  function Insert(f: seq<Blk>, j: nat, b: Blk): seq<Blk>
    requires j <= |f|
  {
    var up := j < |f| && b.a + b.n == f[j].a;
    var down := j > 0 && f[j - 1].a + f[j - 1].n == b.a;
    var n := b.n + if up then f[j].n else 0;
    var rest := if up then f[j + 1..] else f[j..];
    if down then f[..j - 1] + [Blk(f[j - 1].a, f[j - 1].n + n)] + rest else f[..j] + [Blk(b.a, n)] + rest
  }

  /** A block that lies apart from every free block has its place between two of them. */
  lemma {:induction false} Between(f: seq<Blk>, base: nat, j: nat, b: Blk)
    requires Sorted(f, base) && j == Below(f, b.a) && b.n > 0 && forall k | 0 <= k < |f| :: Apart(f[k], b)
    ensures j > 0 ==> f[j - 1].a + f[j - 1].n <= b.a
    ensures j < |f| ==> b.a + b.n <= f[j].a
    ensures forall k | j <= k < |f| :: b.a < f[k].a
  {
    if j > 0 { assert Apart(f[j - 1], b); }
    if j < |f| { assert Apart(f[j], b); }
    forall k | j <= k < |f| ensures b.a < f[k].a { if k > j { assert f[j].a + f[j].n < f[k].a; } }
  }

  /** Part of a sorted list. */
  lemma {:induction false} SliceSorted(f: seq<Blk>, base: nat, i: nat, j: nat)
    requires Sorted(f, base) && i <= j <= |f|
    ensures Sorted(f[i..j], base)
  {
  }

  lemma {:induction false} SortedAt(f: seq<Blk>, base: nat, j: nat, k: nat)
    requires Sorted(f, base) && j < |f| && k < |f|
    ensures f[j].n > 0 && base < f[j].a && (j < k ==> f[j].a + f[j].n < f[k].a)
  {
  }

  lemma {:induction false} MakeSorted(f: seq<Blk>, base: nat)
    requires forall j: nat, k: nat | j <= k < |f| :: f[j].n > 0 && base < f[j].a && (j < k ==> f[j].a + f[j].n < f[k].a)
    ensures Sorted(f, base)
  {
    forall k | 0 <= k < |f| ensures f[k].n > 0 && base < f[k].a { assert k <= k < |f|; }
  }

  lemma {:induction false} PairSorted(l: seq<Blk>, r: seq<Blk>, base: nat)
    requires Sorted(l, base) && Sorted(r, base) && (l != [] && r != [] ==> l[|l| - 1].a + l[|l| - 1].n < r[0].a)
    ensures Sorted(l + r, base)
  {
    hide Sorted;
    var f := l + r;
    forall j: nat, k: nat | j <= k < |f| ensures f[j].n > 0 && base < f[j].a && (j < k ==> f[j].a + f[j].n < f[k].a) {
      if k < |l| { SortedAt(l, base, j, k); }
      else if j >= |l| { SortedAt(r, base, j - |l|, k - |l|); }
      else {
        SortedAt(l, base, j, |l| - 1);
        SortedAt(r, base, 0, k - |l|);
      }
    }
    MakeSorted(f, base);
  }

  lemma {:induction false} JoinSorted(l: seq<Blk>, m: Blk, r: seq<Blk>, base: nat)
    requires Sorted(l, base) && Sorted(r, base) && m.n > 0 && base < m.a
    requires (l != [] ==> l[|l| - 1].a + l[|l| - 1].n < m.a) && (r != [] ==> m.a + m.n < r[0].a)
    ensures Sorted(l + [m] + r, base)
  {
    hide Sorted;
    MakeSorted([m], base);
    PairSorted(l, [m], base);
    PairSorted(l + [m], r, base);
  }

  lemma {:induction false} CoversCat(x: seq<Blk>, y: seq<Blk>, u: nat)
    ensures Covers(x + y, u) <==> Covers(x, u) || Covers(y, u)
  {
    if Covers(x, u) {
      var k :| 0 <= k < |x| && In(x[k], u);
      assert In((x + y)[k], u);
    }
    if Covers(y, u) {
      var k :| 0 <= k < |y| && In(y[k], u);
      assert In((x + y)[|x| + k], u);
    }
  }

  lemma {:induction false} CoversOne(b: Blk, u: nat)
    ensures Covers([b], u) <==> In(b, u)
  {
    if In(b, u) { assert In([b][0], u); }
  }

  /** The parts of the list before and after the place of b, and the blocks b is joined with. */
  function Lower(f: seq<Blk>, j: nat, b: Blk): nat
    requires j <= |f|
  {
    if j > 0 && f[j - 1].a + f[j - 1].n == b.a then j - 1 else j
  }

  function Upper(f: seq<Blk>, j: nat, b: Blk): nat
    requires j <= |f|
  {
    if j < |f| && b.a + b.n == f[j].a then j + 1 else j
  }

  function Merged(f: seq<Blk>, j: nat, b: Blk): Blk
    requires j <= |f|
  {
    var n := b.n + if j < |f| && b.a + b.n == f[j].a then f[j].n else 0;
    if j > 0 && f[j - 1].a + f[j - 1].n == b.a then Blk(f[j - 1].a, f[j - 1].n + n) else Blk(b.a, n)
  }

  lemma {:induction false} InsertParts(f: seq<Blk>, j: nat, b: Blk)
    requires j <= |f|
    ensures var i, k := Lower(f, j, b), Upper(f, j, b);
      i <= k <= |f| && f == f[..i] + f[i..k] + f[k..] && Insert(f, j, b) == f[..i] + [Merged(f, j, b)] + f[k..]
  {
  }

  /** The joined block touches neither of its neighbours. */
  lemma {:induction false} MergedBetween(f: seq<Blk>, base: nat, j: nat, b: Blk)
    requires Sorted(f, base) && j == Below(f, b.a) && b.n > 0 && base < b.a && forall k | 0 <= k < |f| :: Apart(f[k], b)
    ensures var i, k, m := Lower(f, j, b), Upper(f, j, b), Merged(f, j, b);
      i <= k <= |f| && m.n > 0 && base < m.a && (i > 0 ==> f[i - 1].a + f[i - 1].n < m.a)
      && (k < |f| ==> m.a + m.n < f[k].a)
  {
    hide Below;
    Between(f, base, j, b);
  }

  lemma {:induction false} InsertSorted(f: seq<Blk>, base: nat, j: nat, b: Blk)
    requires Sorted(f, base) && j == Below(f, b.a) && b.n > 0 && base < b.a && forall k | 0 <= k < |f| :: Apart(f[k], b)
    ensures Sorted(Insert(f, j, b), base)
  {
    hide Below, Sorted, Insert, Lower, Upper, Merged, Apart;
    MergedBetween(f, base, j, b);
    InsertParts(f, j, b);
    var i, k := Lower(f, j, b), Upper(f, j, b);
    SliceSorted(f, base, 0, i);
    SliceSorted(f, base, k, |f|);
    assert f[0..i] == f[..i] && f[k..|f|] == f[k..];
    JoinSorted(f[..i], Merged(f, j, b), f[k..], base);
  }

  lemma {:induction false} InsertCovers(f: seq<Blk>, base: nat, j: nat, b: Blk, u: nat)
    requires Sorted(f, base) && j == Below(f, b.a) && b.n > 0 && forall k | 0 <= k < |f| :: Apart(f[k], b)
    ensures Covers(Insert(f, j, b), u) <==> Covers(f, u) || In(b, u)
  {
    hide Below, Sorted, Covers, Apart, Insert, Lower, Upper, Merged, In;
    Between(f, base, j, b);
    var i, k, m := Lower(f, j, b), Upper(f, j, b), Merged(f, j, b);
    InsertParts(f, j, b);
    var l, mid, r := f[..i], f[i..k], f[k..];
    CoversCat(l + mid, r, u);
    CoversCat(l, mid, u);
    CoversCat(l + [m], r, u);
    CoversCat(l, [m], u);
    CoversOne(m, u);
    MidCovers(f, j, b, u);
  }

  /** The joined block is b and the blocks it was joined with. */
  lemma {:induction false} MidCovers(f: seq<Blk>, j: nat, b: Blk, u: nat)
    requires j <= |f| && (j > 0 ==> f[j - 1].a + f[j - 1].n <= b.a) && (j < |f| ==> b.a + b.n <= f[j].a) && b.n > 0
    ensures In(Merged(f, j, b), u) <==> In(b, u) || Covers(f[Lower(f, j, b)..Upper(f, j, b)], u)
  {
    var i, k := Lower(f, j, b), Upper(f, j, b);
    var down, up := if i < j then [f[j - 1]] else [], if k > j then [f[j]] else [];
    assert f[i..k] == down + up;
    CoversCat(down, up, u);
    if i < j { CoversOne(f[j - 1], u); }
    if k > j { CoversOne(f[j], u); }
  }

  // ---- the links ----

  /** Different nodes have different addresses. */
  lemma {:induction false} NodesApart(f: seq<Blk>, base: nat, i: nat, j: nat)
    requires Sorted(f, base) && i < j <= |f|
    ensures NodeAt(f, base, i) < NodeAt(f, base, j)
  {
    if i > 0 { assert f[i - 1].a + f[i - 1].n < f[j - 1].a; }
  }

  /** Blocks i .. k - 1 of the list give way to the one block m. */
  lemma {:induction false} LinkedSplice(f: seq<Blk>, base: nat, ptr: nat -> nat, size: nat -> nat, i: nat, k: nat,
                                        m: Blk, ptr': nat -> nat, size': nat -> nat)
    requires Linked(f, base, ptr, size) && i <= k <= |f|
    requires forall x: nat | x <= |f| && (x < i || x > k) :: ptr'(NodeAt(f, base, x)) == ptr(NodeAt(f, base, x))
    requires forall x: nat | x <= |f| && (x <= i || x > k) :: size'(NodeAt(f, base, x)) == size(NodeAt(f, base, x))
    requires ptr'(NodeAt(f, base, i)) == m.a && ptr'(m.a) == NodeAt(f, base, Next(f, k)) && size'(m.a) == m.n
    ensures Linked(f[..i] + [m] + f[k..], base, ptr', size')
  {
    var g := f[..i] + [m] + f[k..];
    forall x: nat | x <= |g| ensures LinkAt(g, base, ptr', size', x) {
      if x <= i {
        assert LinkAt(f, base, ptr, size, x);
        assert NodeAt(g, base, x) == NodeAt(f, base, x) && SizeAt(g, x) == SizeAt(f, x);
      } else if x > i + 1 {
        var y := x + |f| - |g|;
        assert LinkAt(f, base, ptr, size, y);
        assert NodeAt(g, base, x) == NodeAt(f, base, y) && SizeAt(g, x) == SizeAt(f, y);
      }
    }
  }

  /** Block i leaves the list. */
  lemma {:induction false} LinkedDrop(f: seq<Blk>, base: nat, ptr: nat -> nat, size: nat -> nat, i: nat,
                                      ptr': nat -> nat, size': nat -> nat)
    requires Linked(f, base, ptr, size) && i < |f|
    requires forall x: nat | x <= |f| && x != i && x != i + 1 :: ptr'(NodeAt(f, base, x)) == ptr(NodeAt(f, base, x))
    requires forall x: nat | x <= |f| && x != i + 1 :: size'(NodeAt(f, base, x)) == size(NodeAt(f, base, x))
    requires ptr'(NodeAt(f, base, i)) == NodeAt(f, base, Next(f, i + 1))
    ensures Linked(f[..i] + f[i + 1..], base, ptr', size')
  {
    var g := f[..i] + f[i + 1..];
    forall x: nat | x <= |g| ensures LinkAt(g, base, ptr', size', x) {
      var y := if x <= i then x else x + 1;
      assert LinkAt(f, base, ptr, size, y);
      assert NodeAt(g, base, x) == NodeAt(f, base, y) && SizeAt(g, x) == SizeAt(f, y);
    }
  }
}

module Umalloc {
  import opened Options
  import opened FreeBlocks

  const HEADER := 16          // sizeof(Header)
  const INT_MAX := 0x7fff_ffff

  function Set(h: nat -> nat, a: nat, x: nat): (g: nat -> nat)
    ensures forall y: nat :: g(y) == if y == a then x else h(y)
  {
    y => if y == a then x else h(y)
  }

  /** Units for a request: its bytes rounded up, and one for the header. */
  function Units(nbytes: nat): (n: nat)
    ensures n >= 1 && (n - 1) * HEADER >= nbytes && (n - 1) * HEADER < nbytes + HEADER
  {
    (nbytes + HEADER - 1) / HEADER + 1
  }

  /** How many links lead from node i to node k of a circular list of n nodes. */
  function Dist(n: nat, i: nat, k: nat): nat
    requires i < n && k < n
  {
    if i <= k then k - i else k + n - i
  }

  /** Live blocks lie in the heap, apart from each other and from the free ones. */
  ghost predicate LiveOk(f: seq<Blk>, live: map<nat, nat>, base: nat, brk: nat) {
    && (forall b | b in live :: live[b] > 0 && base < b && b + live[b] <= brk)
    && (forall b, c | b in live && c in live && b != c :: Apart(Blk(b, live[b]), Blk(c, live[c])))
    && (forall k, b | 0 <= k < |f| && b in live :: Apart(f[k], Blk(b, live[b])))
    && (forall k | 0 <= k < |f| :: f[k].a + f[k].n <= brk)
  }

  /** Where the search in free for the place of bp stops: exactly at node j. */
  lemma {:induction false} SearchStep(f: seq<Blk>, base: nat, ptr: nat -> nat, size: nat -> nat, bp: nat, n: nat,
                                      i: nat)
    requires Sorted(f, base) && Linked(f, base, ptr, size) && i <= |f| && base < bp && n > 0
    requires forall k | 0 <= k < |f| :: Apart(f[k], Blk(bp, n))
    ensures var p := NodeAt(f, base, i);
      ((bp > p && bp < ptr(p)) || (p >= ptr(p) && (bp > p || bp < ptr(p)))) <==> i == Below(f, bp)
    ensures ptr(NodeAt(f, base, i)) == NodeAt(f, base, Next(f, i))
  {
    var j := Below(f, bp);
    hide Below;
    Between(f, base, j, Blk(bp, n));
    assert LinkAt(f, base, ptr, size, i);
    if i < |f| { NodesApart(f, base, i, i + 1); }
    if i > 0 { NodesApart(f, base, 0, i); }
    assert i < j ==> f[i].a < bp;
    assert 0 < i <= j ==> f[i - 1].a < bp;
    assert i > j ==> bp < f[i - 1].a;
    assert i == j < |f| ==> bp < f[i].a;
  }

  /** What free writes into the headers to put block b in place j. */
  ghost predicate FreeWrote(f: seq<Blk>, base: nat, ptr: nat -> nat, size: nat -> nat, b: Blk, j: nat, ptr': nat -> nat,
                            size': nat -> nat)
    requires j <= |f|
  {
    var p, next := NodeAt(f, base, j), NodeAt(f, base, Next(f, j));
    var up, down := b.a + b.n == next, p + SizeAt(f, j) == b.a;
    var bs, bq := (if up then b.n + size(next) else b.n), (if up then ptr(next) else next);
    && (forall y: nat | y != b.a && y != p :: ptr'(y) == ptr(y) && size'(y) == size(y))
    && if down then size'(p) == SizeAt(f, j) + bs && ptr'(p) == bq
       else size'(p) == SizeAt(f, j) && ptr'(p) == b.a && size'(b.a) == bs && ptr'(b.a) == bq
  }

  /** Away from the place, the headers stay. */
  lemma {:induction false} FreeFrame(f: seq<Blk>, base: nat, ptr: nat -> nat, size: nat -> nat, b: Blk, j: nat,
                                     ptr': nat -> nat, size': nat -> nat)
    requires j <= |f| && FreeWrote(f, base, ptr, size, b, j, ptr', size')
    requires forall x: nat | x <= |f| && x != j :: NodeAt(f, base, x) != NodeAt(f, base, j)
    requires forall x: nat | x <= |f| :: NodeAt(f, base, x) != b.a
    ensures forall x: nat | x <= |f| && x != j ::
              ptr'(NodeAt(f, base, x)) == ptr(NodeAt(f, base, x))
              && size'(NodeAt(f, base, x)) == size(NodeAt(f, base, x))
  {
  }

  /** The headers after free has put block b in place j form the list with b in it. */
  lemma {:induction false} FreeLinks(f: seq<Blk>, base: nat, ptr: nat -> nat, size: nat -> nat, b: Blk, j: nat,
                                     ptr': nat -> nat, size': nat -> nat)
    requires Sorted(f, base) && Linked(f, base, ptr, size) && base < b.a && b.n > 0
    requires (forall k | 0 <= k < |f| :: Apart(f[k], b)) && j == Below(f, b.a)
    requires FreeWrote(f, base, ptr, size, b, j, ptr', size')
    ensures Linked(Insert(f, j, b), base, ptr', size') && NodeAt(Insert(f, j, b), base, j) == NodeAt(f, base, j)
    ensures j <= |Insert(f, j, b)|
  {
    hide Below, Sorted, Insert, Linked, Lower, Upper, Merged, Apart, FreeWrote, NodeAt, SizeAt;
    Between(f, base, j, b);
    LowerUpper(f, j, b);
    PlaceNotBlock(f, base, j, b);
    NodesDistinct(f, base, j);
    NodeLinks(f, base, ptr, size, j);
    if j < |f| { NodeLinks(f, base, ptr, size, j + 1); }
    if j > 0 { NodeLinks(f, base, ptr, size, j - 1); }
    FreeFrame(f, base, ptr, size, b, j, ptr', size');
    FreeEnds(f, base, ptr, size, b, j, ptr', size');
    LinkedSplice(f, base, ptr, size, Lower(f, j, b), Upper(f, j, b), Merged(f, j, b), ptr', size');
    InsertParts(f, j, b);
    InsertNode(f, base, j, b);
  }

  lemma {:induction false} LowerUpper(f: seq<Blk>, j: nat, b: Blk)
    requires j <= |f|
    ensures var i, k := Lower(f, j, b), Upper(f, j, b);
        (i == j || i == j - 1) && j <= k <= |f| && (k == j || k == j + 1)
  {
  }

  /** The place stays where it is. */
  lemma {:induction false} InsertNode(f: seq<Blk>, base: nat, j: nat, b: Blk)
    requires j <= |f|
    ensures j <= |Insert(f, j, b)| && NodeAt(Insert(f, j, b), base, j) == NodeAt(f, base, j)
  {
  }

  /** The new ends of the links around the joined block. */
  lemma {:induction false} FreeEnds(f: seq<Blk>, base: nat, ptr: nat -> nat, size: nat -> nat, b: Blk, j: nat,
                                    ptr': nat -> nat, size': nat -> nat)
    requires j <= |f| && base < b.a && (j > 0 ==> f[j - 1].a + f[j - 1].n <= b.a) && (j < |f| ==> b.a + b.n <= f[j].a)
    requires b.n > 0
    requires forall x: nat | x <= |f| && x != j :: NodeAt(f, base, x) != NodeAt(f, base, j)
    requires forall x: nat | x <= |f| :: NodeAt(f, base, x) != b.a
    requires j < |f| ==>
               ptr(NodeAt(f, base, j + 1)) == NodeAt(f, base, Next(f, j + 1))
               && size(NodeAt(f, base, j + 1)) == SizeAt(f, j + 1)
    requires j > 0 ==> ptr(NodeAt(f, base, j - 1)) == NodeAt(f, base, j)
    requires FreeWrote(f, base, ptr, size, b, j, ptr', size')
    ensures var i, k, m := Lower(f, j, b), Upper(f, j, b), Merged(f, j, b);
      ptr'(NodeAt(f, base, i)) == m.a && ptr'(m.a) == NodeAt(f, base, Next(f, k)) && size'(m.a) == m.n
    ensures Lower(f, j, b) == j ==> size'(NodeAt(f, base, j)) == SizeAt(f, j)
  {
  }

  lemma {:induction false} NodesDistinct(f: seq<Blk>, base: nat, j: nat)
    requires Sorted(f, base) && j <= |f|
    ensures forall x: nat | x <= |f| && x != j :: NodeAt(f, base, x) != NodeAt(f, base, j)
  {
    forall x: nat | x <= |f| && x != j ensures NodeAt(f, base, x) != NodeAt(f, base, j) {
      if x < j { NodesApart(f, base, x, j); } else { NodesApart(f, base, j, x); }
    }
  }

  /** Freed units join the free ones; the rest stays apart. */
  lemma {:induction false} LiveFreed(f: seq<Blk>, live: map<nat, nat>, base: nat, brk: nat, bp: nat, j: nat)
    requires Sorted(f, base) && LiveOk(f, live, base, brk) && bp in live && j == Below(f, bp)
    ensures LiveOk(Insert(f, j, Blk(bp, live[bp])), live - {bp}, base, brk)
  {
    hide Below, Sorted, Insert, Merged, Apart;
    var b := Blk(bp, live[bp]);
    MergedEnd(f, j, b, brk);
    var g := Insert(f, j, b);
    forall x | 0 <= x < |g| ensures g[x] == Merged(f, j, b) || g[x] in f { InsertAt(f, j, b, x); }
    forall x, c | 0 <= x < |g| && c in live - {bp} ensures Apart(g[x], Blk(c, live[c])) {
      if g[x] == Merged(f, j, b) {
        forall k | 0 <= k < |f| ensures f[k].n > 0 { SortedAt(f, base, k, k); }
        MergedApart(f, j, b, Blk(c, live[c]));
      }
    }
  }

  lemma {:induction false} InsertAt(f: seq<Blk>, j: nat, b: Blk, x: nat)
    requires j <= |f| && x < |Insert(f, j, b)|
    ensures Insert(f, j, b)[x] == Merged(f, j, b) || Insert(f, j, b)[x] in f
  {
  }

  lemma {:induction false} MergedEnd(f: seq<Blk>, j: nat, b: Blk, brk: nat)
    requires j <= |f| && b.a + b.n <= brk && forall k | 0 <= k < |f| :: f[k].a + f[k].n <= brk
    ensures Merged(f, j, b).a + Merged(f, j, b).n <= brk
  {
  }

  lemma {:induction false} MergedApart(f: seq<Blk>, j: nat, b: Blk, c: Blk)
    requires j <= |f| && Apart(b, c) && (forall k | 0 <= k < |f| :: Apart(f[k], c)) && b.n > 0 && c.n > 0
    requires forall k | 0 <= k < |f| :: f[k].n > 0
    ensures Apart(Merged(f, j, b), c)
  {
    if j > 0 { assert Apart(f[j - 1], c); }
    if j < |f| { assert Apart(f[j], c); }
  }

  /** Some free block has n units or more. */
  ghost predicate HasFit(f: seq<Blk>, n: nat) { exists k | 0 <= k < |f| :: f[k].n >= n }

  lemma {:induction false} InsertFits(f: seq<Blk>, j: nat, b: Blk)
    requires j <= |f|
    ensures HasFit(Insert(f, j, b), b.n)
  {
    assert Insert(f, j, b)[Lower(f, j, b)] == Merged(f, j, b);
  }

  /** Everything free promises, from the headers it wrote. */
  lemma {:induction false} FreeDone(f: seq<Blk>, base: nat, ptr: nat -> nat, size: nat -> nat, live: map<nat, nat>,
                                    brk: nat, bp: nat, ptr': nat -> nat, size': nat -> nat)
    requires Sorted(f, base) && Linked(f, base, ptr, size) && LiveOk(f, live, base, brk) && bp in live
    requires forall b | b in live :: size(b) == live[b]
    requires var j := Below(f, bp); var p := NodeAt(f, base, j);
      && (forall y: nat | y != bp && y != p :: ptr'(y) == ptr(y) && size'(y) == size(y))
      && var next := ptr(p);
         var up, down := bp + size(bp) == next, p + size(p) == bp;
         var bs, bq := (if up then size(bp) + size(next) else size(bp)), (if up then ptr(next) else next);
         if down then size'(p) == size(p) + bs && ptr'(p) == bq
           else size'(p) == size(p) && ptr'(p) == bp && size'(bp) == bs && ptr'(bp) == bq
    ensures var j := Below(f, bp); var g := Insert(f, j, Blk(bp, live[bp]));
      && Sorted(g, base) && Linked(g, base, ptr', size') && LiveOk(g, live - {bp}, base, brk)
      && (forall b | b in live - {bp} :: size'(b) == live[b])
      && j <= |g| && NodeAt(g, base, j) == NodeAt(f, base, j)
      && (forall u: nat :: Covers(g, u) <==> Covers(f, u) || In(Blk(bp, live[bp]), u)) && HasFit(g, live[bp])
  {
    hide LiveOk, Below, Linked, Sorted, Covers, Insert, HasFit;
    var j: nat, b := Below(f, bp), Blk(bp, live[bp]);
    LiveApart(f, live, base, brk, bp);
    InsertFits(f, j, b);
    NodeLinks(f, base, ptr, size, j);
    FreeLinks(f, base, ptr, size, b, j, ptr', size');
    InsertSorted(f, base, j, b);
    LiveFreed(f, live, base, brk, bp, j);
    forall u: nat ensures Covers(Insert(f, j, b), u) <==> Covers(f, u) || In(b, u) { InsertCovers(f, base, j, b, u); }
    LiveSizes(f, base, live, brk, j, bp);
  }

  // ---- no unit is lost ----

  ghost function UnitsOf(b: Blk): iset<nat> { iset u: nat | In(b, u) }

  ghost predicate Held(live: map<nat, nat>, u: nat) { exists b | b in live :: In(Blk(b, live[b]), u) }

  /** The memory obtained is what is free and what is handed out. */
  ghost predicate Conserved(f: seq<Blk>, live: map<nat, nat>, mem: iset<nat>) {
    forall u: nat :: u in mem <==> Covers(f, u) || Held(live, u)
  }

  lemma {:induction false} HeldLess(live: map<nat, nat>, bp: nat, u: nat)
    requires bp in live
    ensures Held(live, u) <==> Held(live - {bp}, u) || In(Blk(bp, live[bp]), u)
  {
    var rest := live - {bp};
    if Held(live, u) {
      var b :| b in live && In(Blk(b, live[b]), u);
      assert b != bp ==> b in rest && In(Blk(b, rest[b]), u);
    }
    if Held(rest, u) {
      var b :| b in rest && In(Blk(b, rest[b]), u);
      assert b in live && In(Blk(b, live[b]), u);
    }
  }

  lemma {:induction false} HeldMore(live: map<nat, nat>, a: nat, n: nat, u: nat)
    requires a !in live
    ensures Held(live[a := n], u) <==> Held(live, u) || In(Blk(a, n), u)
  {
    HeldLess(live[a := n], a, u);
    assert live[a := n] - {a} == live;
  }

  lemma {:induction false} FreedConserved(f: seq<Blk>, live: map<nat, nat>, mem: iset<nat>, bp: nat, g: seq<Blk>)
    requires Conserved(f, live, mem) && bp in live
    requires forall u: nat :: Covers(g, u) <==> Covers(f, u) || In(Blk(bp, live[bp]), u)
    ensures Conserved(g, live - {bp}, mem)
  {
    hide Covers, Held, In;
    forall u: nat ensures u in mem <==> Covers(g, u) || Held(live - {bp}, u) { HeldLess(live, bp, u); }
  }

  lemma {:induction false} CarvedConserved(f: seq<Blk>, live: map<nat, nat>, mem: iset<nat>, a: nat, n: nat,
                                           g: seq<Blk>)
    requires Conserved(f, live, mem) && a !in live
    requires forall u: nat :: Covers(f, u) <==> Covers(g, u) || In(Blk(a, n), u)
    ensures Conserved(g, live[a := n], mem)
  {
    hide Covers, Held, In;
    forall u: nat ensures u in mem <==> Covers(g, u) || Held(live[a := n], u) { HeldMore(live, a, n, u); }
  }

  lemma {:induction false} MoreConserved(f: seq<Blk>, live: map<nat, nat>, mem: iset<nat>, hp: nat, n: nat)
    requires Conserved(f, live, mem) && hp !in live
    ensures Conserved(f, live[hp := n], mem + UnitsOf(Blk(hp, n)))
  {
    hide Covers, Held, In;
    forall u: nat ensures u in mem + UnitsOf(Blk(hp, n)) <==> Covers(f, u) || Held(live[hp := n], u) {
      HeldMore(live, hp, n, u);
    }
  }

  /** Nothing was written into a live block. */
  ghost predicate Untouched(live: map<nat, nat>, ptr: nat -> nat, size: nat -> nat, ptr': nat -> nat,
                            size': nat -> nat)
  {
    forall u: nat | Held(live, u) :: ptr'(u) == ptr(u) && size'(u) == size(u)
  }

  lemma {:induction false} UntouchedTrans(live: map<nat, nat>, p0: nat -> nat, s0: nat -> nat, p1: nat -> nat,
                                          s1: nat -> nat, p2: nat -> nat, s2: nat -> nat)
    requires Untouched(live, p0, s0, p1, s1) && Untouched(live, p1, s1, p2, s2)
    ensures Untouched(live, p0, s0, p2, s2)
  {
  }

  lemma {:induction false} UntouchedRefl(live: map<nat, nat>, ptr: nat -> nat, size: nat -> nat)
    ensures Untouched(live, ptr, size, ptr, size)
  {
  }

  /** A unit of a live block is not a node of the list, nor in a free block, nor past the break. */
  lemma {:induction false} HeldApart(f: seq<Blk>, live: map<nat, nat>, base: nat, brk: nat, u: nat, i: nat)
    requires LiveOk(f, live, base, brk) && Sorted(f, base) && Held(live, u) && i <= |f|
    ensures u != NodeAt(f, base, i) && base < u < brk && (i < |f| ==> !In(f[i], u))
  {
    var b :| b in live && In(Blk(b, live[b]), u);
    assert i > 0 ==> Apart(f[i - 1], Blk(b, live[b]));
    assert i < |f| ==> Apart(f[i], Blk(b, live[b]));
  }

  /** free writes into the header of its block and of the node before it. */
  lemma {:induction false} FreeUntouched(f: seq<Blk>, live: map<nat, nat>, base: nat, brk: nat, bp: nat, i: nat,
                                         ptr: nat -> nat, size: nat -> nat, ptr': nat -> nat, size': nat -> nat)
    requires LiveOk(f, live, base, brk) && Sorted(f, base) && bp in live && i <= |f|
    requires forall y: nat | y != bp && y != NodeAt(f, base, i) :: ptr'(y) == ptr(y) && size'(y) == size(y)
    ensures Untouched(live - {bp}, ptr, size, ptr', size')
  {
    forall u: nat | Held(live - {bp}, u) ensures ptr'(u) == ptr(u) && size'(u) == size(u) {
      var b :| b in live - {bp} && In(Blk(b, live[b]), u);
      assert Held(live, u) && Apart(Blk(b, live[b]), Blk(bp, live[bp]));
      HeldApart(f, live, base, brk, u, i);
    }
  }

  /** malloc writes into the header of the block it takes from, of the node before it, and of the part it takes. */
  lemma {:induction false} CarveUntouched(f: seq<Blk>, live: map<nat, nat>, base: nat, brk: nat, k: nat, a: nat,
                                          ptr: nat -> nat, size: nat -> nat, ptr': nat -> nat, size': nat -> nat)
    requires LiveOk(f, live, base, brk) && Sorted(f, base) && k < |f| && f[k].a <= a < f[k].a + f[k].n
    requires forall y: nat | y != NodeAt(f, base, k) && y != f[k].a && y != a ::
               ptr'(y) == ptr(y) && size'(y) == size(y)
    ensures Untouched(live, ptr, size, ptr', size')
  {
    forall u: nat | Held(live, u) ensures ptr'(u) == ptr(u) && size'(u) == size(u) {
      HeldApart(f, live, base, brk, u, k);
    }
  }

  /** morecore writes at the break or past it; the first malloc at base. */
  lemma {:induction false} OutsideUntouched(f: seq<Blk>, live: map<nat, nat>, base: nat, brk: nat, a: nat,
                                            ptr: nat -> nat, size: nat -> nat, ptr': nat -> nat, size': nat -> nat)
    requires LiveOk(f, live, base, brk) && Sorted(f, base) && (a >= brk || a == base)
    requires forall y: nat | y != a :: ptr'(y) == ptr(y) && size'(y) == size(y)
    ensures Untouched(live, ptr, size, ptr', size')
  {
    forall u: nat | Held(live, u) ensures ptr'(u) == ptr(u) && size'(u) == size(u) {
      HeldApart(f, live, base, brk, u, 0);
    }
  }

  /** The free units are those of f0 and what sbrk gave. */
  ghost predicate Grown(f0: seq<Blk>, got: Option<Blk>, f: seq<Blk>) {
    forall u: nat :: Covers(f, u) <==> Covers(f0, u) || (got.Some? && In(got.value, u))
  }

  lemma {:induction false} GrownNone(f: seq<Blk>)
    ensures Grown(f, None, f)
  {
  }

  lemma {:induction false} GrownMore(f0: seq<Blk>, add: Blk, f: seq<Blk>)
    requires forall u: nat :: Covers(f, u) <==> Covers(f0, u) || In(add, u)
    ensures Grown(f0, Some(add), f)
  {
  }

  /** What malloc of n units gives: 0 exactly if no free block has room and sbrk fails; else a new block of n units, out
      of the free ones and what sbrk gave. */
  ghost predicate Gave(f0: seq<Blk>, live0: map<nat, nat>, n: nat, more: Option<nat>, ap: nat, got: Option<Blk>,
                       f: seq<Blk>, live: map<nat, nat>) {
    && (ap == 0 <==> more == None && !HasFit(f0, n)) && (got.Some? <==> more.Some? && !HasFit(f0, n))
    && if ap == 0 then live == live0 && Grown(f0, None, f)
       else
         && ap - 1 !in live0 && live == live0[ap - 1 := n]
         && (forall u: nat ::
               Covers(f, u) || In(Blk(ap - 1, n), u) <==> Covers(f0, u) || (got.Some? && In(got.value, u)))
         && forall u: nat :: !(Covers(f, u) && In(Blk(ap - 1, n), u))
  }

  lemma {:induction false} GaveBlock(f0: seq<Blk>, live0: map<nat, nat>, n: nat, more: Option<nat>, a: nat,
                                     got: Option<Blk>, f1: seq<Blk>, f: seq<Blk>, live: map<nat, nat>)
    requires Grown(f0, got, f1) && HasFit(f1, n) && (got == None ==> f1 == f0)
    requires got.Some? ==> more.Some? && !HasFit(f0, n)
    requires a !in live0 && live == live0[a := n]
    requires forall u: nat :: Covers(f1, u) <==> Covers(f, u) || In(Blk(a, n), u)
    requires forall u: nat :: !(Covers(f, u) && In(Blk(a, n), u))
    ensures Gave(f0, live0, n, more, a + 1, got, f, live)
  {
    hide HasFit, Covers, In;
  }

  lemma {:induction false} GaveNone(f: seq<Blk>, live: map<nat, nat>, n: nat, more: Option<nat>, got: Option<Blk>)
    requires more == None && got == None && !HasFit(f, n)
    ensures Gave(f, live, n, more, 0, got, f, live)
  {
  }

  /** What malloc has obtained from sbrk by now, and where that leaves the break. */
  ghost predicate Obtained(got: Option<Blk>, more: Option<nat>, nunits: nat, brk0: nat, mem0: iset<nat>, brk: nat,
                           mem: iset<nat>) {
    if got.None? then brk == brk0 && mem == mem0
    else
      && more.Some? && got.value == Blk(more.value, if nunits < 4096 then 4096 else nunits)
      && brk == got.value.a + got.value.n && mem == mem0 + UnitsOf(got.value)
  }

  class Heap {
    const base: nat                      // &base
    var ptr: nat -> nat                  // the s.ptr of the header at each address
    var size: nat -> nat                 // its s.size
    var freep: nat
    ghost var f: seq<Blk>                // the free blocks in address order
    ghost var at: nat                    // the node freep points to
    ghost var live: map<nat, nat>        // the blocks handed out, with their sizes
    ghost var brk: nat                   // the end of the memory obtained from sbrk
    ghost var mem: iset<nat>             // the units obtained from sbrk

    /** The list is circular, in address order and fully coalesced; live and free blocks are disjoint,
        and together they are the memory obtained. */
    ghost predicate Valid()
      reads this
    {
      && base > 0 && base < brk && Sorted(f, base) && LiveOk(f, live, base, brk)
      && (forall b | b in live :: size(b) == live[b])
      && Conserved(f, live, mem) && (freep == 0 ==> f == [])
      && (freep != 0 ==> Linked(f, base, ptr, size) && at <= |f| && freep == NodeAt(f, base, at))
    }

    constructor (base: nat, ptr: nat -> nat, size: nat -> nat)
      requires base > 0
      ensures Valid() && f == [] && live == map[] && this.base == base && brk == base + 1 && mem == iset{}
    {
      this.base, this.ptr, this.size, freep, f, at, live, brk, mem :=
        base, ptr, size, 0, [], 0, map[], base + 1, iset{};
    }

    /** The loop of free: the node after which the block at bp belongs. */
    method FindPlace(bp: nat) returns (p: nat)
      requires Valid() && freep != 0 && bp in live
      ensures p == NodeAt(f, base, Below(f, bp))
    {
      hide LiveOk, Below, Linked, Conserved;
      ghost var i: nat, j: nat := at, Below(f, bp);
      LiveApart(f, live, base, brk, bp);
      p := freep;
      SearchStep(f, base, ptr, size, bp, live[bp], i);
      while !(bp > p && bp < ptr(p))
        invariant i <= |f| && p == NodeAt(f, base, i)
        invariant ((bp > p && bp < ptr(p)) || (p >= ptr(p) && (bp > p || bp < ptr(p)))) <==> i == j
        invariant ptr(p) == NodeAt(f, base, Next(f, i))
        decreases Dist(|f| + 1, i, j)
      {
        if p >= ptr(p) && (bp > p || bp < ptr(p)) { break; }
        p := ptr(p);
        i := Next(f, i);
        SearchStep(f, base, ptr, size, bp, live[bp], i);
      }
    }

    /** Returns the live block at bp to the free list. */
    method Free(bp: nat)
      requires Valid() && freep != 0 && bp in live
      modifies this`ptr, this`size, this`freep, this`f, this`at, this`live
      ensures Valid() && freep != 0 && live == old(live) - {bp}
      ensures (forall u: nat :: Covers(f, u) <==> old(Covers(f, u)) || In(Blk(bp, old(live)[bp]), u))
      ensures HasFit(f, old(live)[bp]) && Untouched(live, old(ptr), old(size), ptr, size)
    {
      hide LiveOk, Below, Linked, Sorted, Covers, Insert, HasFit, Conserved, Untouched;
      ghost var j: nat, b := Below(f, bp), Blk(bp, live[bp]);
      LiveApart(f, live, base, brk, bp);
      var p := FindPlace(bp);
      NodeLinks(f, base, ptr, size, j);
      PlaceNotBlock(f, base, j, b);
      Join(bp, p);
      freep := p;
      FreeUntouched(f, live, base, brk, bp, j, old(ptr), old(size), ptr, size);
      FreeDone(f, base, old(ptr), old(size), live, brk, bp, ptr, size);
      FreedConserved(f, live, mem, bp, Insert(f, j, b));
      f, at, live := Insert(f, j, b), j, live - {bp};
    }

    /** The end of free: the block at bp goes in after p, joined with p and the next node where they touch. */
    method Join(bp: nat, p: nat)
      requires p != bp && ptr(p) != bp
      modifies this`ptr, this`size
      ensures forall y: nat | y != bp && y != p :: ptr(y) == old(ptr(y)) && size(y) == old(size(y))
      ensures var next := old(ptr(p));
        var up, down := bp + old(size(bp)) == next, p + old(size(p)) == bp;
        var bs, bq := (if up then old(size(bp)) + old(size)(next) else old(size(bp))),
          (if up then old(ptr)(next) else next);
        if down then size(p) == old(size(p)) + bs && ptr(p) == bq
          else size(p) == old(size(p)) && ptr(p) == bp && size(bp) == bs && ptr(bp) == bq
    {
      if bp + size(bp) == ptr(p) {
        size := Set(size, bp, size(bp) + size(ptr(p)));
        ptr := Set(ptr, bp, ptr(ptr(p)));
      } else {
        ptr := Set(ptr, bp, ptr(p));
      }
      if p + size(p) == bp {
        size := Set(size, p, size(p) + size(bp));
        ptr := Set(ptr, p, ptr(bp));
      } else {
        ptr := Set(ptr, p, bp);
      }
    }

    /** More memory from sbrk, which returns `more`, goes into the free list. Returns 0 if there is none. */
    method MoreCore(nu: nat, more: Option<nat>) returns (r: nat, ghost got: Blk)
      requires Valid() && freep != 0 && nu * HEADER <= INT_MAX && (more.Some? ==> more.value >= brk)
      modifies this`ptr, this`size, this`freep, this`f, this`at, this`live, this`brk, this`mem
      ensures Valid() && freep != 0 && live == old(live) && (r == 0 <==> more == None) && (r != 0 ==> r == freep)
      ensures more == None ==>
                && f == old(f) && at == old(at) && brk == old(brk) && freep == old(freep) && ptr == old(ptr)
                && size == old(size)
                && mem == old(mem)
      ensures more.Some? ==>
                got == Blk(more.value, if nu < 4096 then 4096 else nu) && brk == got.a + got.n
                && mem == old(mem) + UnitsOf(got) && HasFit(f, nu)
      ensures more.Some? ==> forall u: nat :: Covers(f, u) <==> old(Covers(f, u)) || In(got, u)
      ensures Untouched(live, old(ptr), old(size), ptr, size)
    {
      hide LiveOk, Linked, Sorted, Covers, HasFit, Conserved, UnitsOf, Untouched;
      var n := if nu < 4096 then 4096 else nu;
      got := Blk(0, 0);
      if more == None {
        UntouchedRefl(live, ptr, size);
        return 0, got;
      }
      var hp := more.value;
      got := Blk(hp, n);
      size := Set(size, hp, n);
      OutsideUntouched(f, live, base, brk, hp, ptr, old(size), ptr, size);
      ghost var p1, s1 := ptr, size;
      SbrkAdds(f, live, base, brk, hp, n, ptr, old(size), size);
      MoreConserved(f, live, mem, hp, n);
      live, brk, mem := live[hp := n], hp + n, mem + UnitsOf(got);
      Free(hp);
      assert live == old(live);
      UntouchedTrans(live, old(ptr), old(size), p1, s1, ptr, size);
      FitLess(f, n, nu);
      r := freep;
    }

    /** The headers that malloc writes to take nunits units from the end of the block at p. */
    method Cut(prevp: nat, p: nat, nunits: nat) returns (a: nat)
      requires 0 < nunits <= size(p)
      modifies this`ptr, this`size
      ensures a == p + (old(size(p)) - nunits)
      ensures old(size(p)) == nunits ==>
                (forall y: nat :: ptr(y) == if y == prevp then old(ptr(p)) else old(ptr(y))) && size == old(size)
      ensures old(size(p)) != nunits ==>
                ptr == old(ptr)
                && forall y: nat :: size(y) == if y == a then nunits else if y == p then a - p else old(size(y))
    {
      a := p;
      if size(p) == nunits {
        ptr := Set(ptr, prevp, ptr(p));
      } else {
        size := Set(size, p, size(p) - nunits);
        a := p + size(p);
        size := Set(size, a, nunits);
      }
    }

    /** malloc takes nunits units from the end of block k, whose node is p and whose predecessor is prevp. */
    method Carve(prevp: nat, p: nat, nunits: nat, ghost k: nat) returns (a: nat)
      requires Valid() && freep != 0 && k < |f| && p == f[k].a && prevp == NodeAt(f, base, k) && f[k].n >= nunits > 0
      modifies this`ptr, this`size, this`freep, this`f, this`at, this`live
      ensures Valid() && freep != 0 && a !in old(live) && live == old(live)[a := nunits]
      ensures forall u: nat :: old(Covers(f, u)) <==> Covers(f, u) || In(Blk(a, nunits), u)
      ensures forall u: nat :: !(Covers(f, u) && In(Blk(a, nunits), u))
      ensures Untouched(old(live), old(ptr), old(size), ptr, size)
    {
      hide LiveOk, Linked, Sorted, Covers, Shrunk, In, Conserved, Untouched;
      NodeLinks(f, base, ptr, size, k + 1);
      a := Cut(prevp, p, nunits);
      freep := prevp;
      CarveUntouched(f, live, base, brk, k, a, old(ptr), old(size), ptr, size);
      Carved(f, live, base, brk, k, nunits, old(ptr), old(size), ptr, size);
      assert a !in live;
      CarvedConserved(f, live, mem, a, nunits, Shrunk(f, k, nunits));
      f, at, live := Shrunk(f, k, nunits), k, live[a := nunits];
    }

    /** The loop of malloc, from the node after freep on. */
    method Search(nunits: nat, more: Option<nat>) returns (ap: nat, ghost got: Option<Blk>)
      requires Valid() && freep != 0 && 0 < nunits && nunits * HEADER <= INT_MAX && (more.Some? ==> more.value >= brk)
      modifies this`ptr, this`size, this`freep, this`f, this`at, this`live, this`brk, this`mem
      ensures Valid() && freep != 0 && Obtained(got, more, nunits, old(brk), old(mem), brk, mem)
      ensures Gave(old(f), old(live), nunits, more, ap, got, f, live)
      ensures Untouched(old(live), old(ptr), old(size), ptr, size)
    {
      hide LiveOk, Linked, Sorted, Covers, HasFit, Passed, In, SizeAt, Conserved, UnitsOf, Untouched, Gave, Grown;
      var prevp := freep;
      UntouchedRefl(live, ptr, size);
      GrownNone(f);
      got := None;
      NodeLinks(f, base, ptr, size, at);
      var p := ptr(prevp);
      ghost var pi: nat, i: nat := at, Next(f, at);
      PassedStart(f, at, nunits);
      while true
        invariant Valid() && freep != 0 && pi <= |f| && i == Next(f, pi) && prevp == NodeAt(f, base, pi)
        invariant p == NodeAt(f, base, i)
        invariant Passed(f, at, i, nunits) && live == old(live)
        invariant Obtained(got, more, nunits, old(brk), old(mem), brk, mem) && (got == None ==> f == old(f))
        invariant got.Some? ==> !HasFit(old(f), nunits) && HasFit(f, nunits)
        invariant Grown(old(f), got, f) && Untouched(live, old(ptr), old(size), ptr, size)
        decreases got == None, Dist(|f| + 1, i, at)
      {
        NodeLinks(f, base, ptr, size, i);
        ghost var f1, p1, s1 := f, ptr, size;
        if size(p) >= nunits {
          FitAt(f, i, nunits);
          var a := Carve(prevp, p, nunits, i - 1);
          UntouchedTrans(old(live), old(ptr), old(size), p1, s1, ptr, size);
          GaveBlock(old(f), old(live), nunits, more, a, got, f1, f, live);
          return a + 1, got;
        }
        PassedStep(f, at, i, nunits);
        if p == freep {
          SameNode(f, base, i, at);
          ghost var add;
          p, add := MoreCore(nunits, more);
          UntouchedTrans(live, old(ptr), old(size), p1, s1, ptr, size);
          if p == 0 {
            GaveNone(old(f), live, nunits, more, got);
            return 0, got;
          }
          GrownMore(old(f), add, f);
          got := Some(add);
          pi := at;
        } else {
          pi := i;
        }
        prevp := p;
        NodeLinks(f, base, ptr, size, pi);
        p := ptr(p);
        i := Next(f, pi);
        if got.Some? && pi == at { PassedStart(f, at, nunits); }
      }
    }

    /** Returns the address after the header of a new block, or 0. `more` is what sbrk returns if it is called,
        and `got` the memory it gave. */
    method Malloc(nbytes: nat, more: Option<nat>) returns (ap: nat, ghost got: Option<Blk>)
      requires Valid() && Units(nbytes) * HEADER <= INT_MAX && (more.Some? ==> more.value >= brk)
      modifies this`ptr, this`size, this`freep, this`f, this`at, this`live, this`brk, this`mem
      ensures Valid() && freep != 0
      ensures ap == 0 <==> more == None && !old(HasFit(f, Units(nbytes)))
      ensures got.Some? <==> more.Some? && !old(HasFit(f, Units(nbytes)))
      ensures got.Some? ==> got.value == Blk(more.value, if Units(nbytes) < 4096 then 4096 else Units(nbytes))
      ensures brk == if got.Some? then got.value.a + got.value.n else old(brk)
      ensures mem == if got.Some? then old(mem) + UnitsOf(got.value) else old(mem)
      ensures ap == 0 ==> live == old(live) && forall u: nat :: Covers(f, u) <==> old(Covers(f, u))
      ensures ap != 0 ==> ap - 1 !in old(live) && live == old(live)[ap - 1 := Units(nbytes)]
      ensures ap != 0 ==> forall u: nat :: Covers(f, u) || In(Blk(ap - 1, Units(nbytes)), u) <==>
          old(Covers(f, u)) || (got.Some? && In(got.value, u))
      ensures ap != 0 ==> forall u: nat :: !(Covers(f, u) && In(Blk(ap - 1, Units(nbytes)), u))
      ensures Untouched(old(live), old(ptr), old(size), ptr, size)
    {
      hide LiveOk, Linked, Sorted, Covers, HasFit, Units, In, Conserved, UnitsOf, Untouched;
      var nunits := Units(nbytes);
      UntouchedRefl(live, ptr, size);
      if freep == 0 { Init(); }
      ghost var p1, s1 := ptr, size;
      ap, got := Search(nunits, more);
      UntouchedTrans(old(live), old(ptr), old(size), p1, s1, ptr, size);
    }

    /** The first call of malloc: a list of just base. */
    method Init()
      requires Valid() && freep == 0
      modifies this`ptr, this`size, this`freep, this`at
      ensures Valid() && freep == base && at == 0 && Untouched(live, old(ptr), old(size), ptr, size)
    {
      ptr := Set(ptr, base, base);
      freep := base;
      size := Set(size, base, 0);
      OutsideUntouched(f, live, base, brk, base, old(ptr), old(size), ptr, size);
      at := 0;
      assert LinkAt(f, base, ptr, size, 0);
    }
  }

  /** A block that was freed is had again without more memory from sbrk. */
  method Reuse(h: Heap, nbytes: nat, more: Option<nat>) returns (p: nat, q: nat)
    requires h.Valid() && Units(nbytes) * HEADER <= INT_MAX && (more.Some? ==> more.value >= h.brk)
    modifies h
    ensures h.Valid() && (p == 0 <==> more == None && !old(HasFit(h.f, Units(nbytes))))
    ensures p == 0 ==> q == 0 && h.live == old(h.live)
    ensures h.brk == if more.None? || old(HasFit(h.f, Units(nbytes))) then old(h.brk)
                     else more.value + (if Units(nbytes) < 4096 then 4096 else Units(nbytes))
    ensures p != 0 ==> q != 0 && q - 1 !in old(h.live) && h.live == old(h.live)[q - 1 := Units(nbytes)]
  {
    hide LiveOk, Linked, Sorted, Covers, HasFit, Units, In, UnitsOf, Conserved, Untouched;
    ghost var got;
    p, got := h.Malloc(nbytes, more);
    if p == 0 { return p, 0; }
    h.Free(p - 1);
    assert h.live == old(h.live);
    q, got := h.Malloc(nbytes, None);
  }

  /** A node with room is a block, and its predecessor is the node before it. */
  lemma {:induction false} FitAt(f: seq<Blk>, i: nat, nunits: nat)
    requires i <= |f| && SizeAt(f, i) >= nunits > 0
    ensures 0 < i && f[i - 1].n >= nunits && HasFit(f, nunits)
  {
    assert f[i - 1].n >= nunits;
  }

  lemma {:induction false} SameNode(f: seq<Blk>, base: nat, i: nat, j: nat)
    requires Sorted(f, base) && i <= |f| && j <= |f| && NodeAt(f, base, i) == NodeAt(f, base, j)
    ensures i == j
  {
    if i < j { NodesApart(f, base, i, j); } else if j < i { NodesApart(f, base, j, i); }
  }

  /** The nodes that the search starting after node `at` has passed when it is at node i have no room. */
  ghost predicate Passed(f: seq<Blk>, at: nat, i: nat, nunits: nat)
    requires at <= |f| && i <= |f|
  {
    forall x: nat | x <= |f| && Dist(|f| + 1, i, x) > Dist(|f| + 1, i, at) :: SizeAt(f, x) < nunits
  }

  lemma {:induction false} PassedStart(f: seq<Blk>, at: nat, nunits: nat)
    requires at <= |f|
    ensures Passed(f, at, Next(f, at), nunits)
  {
  }

  lemma {:induction false} PassedStep(f: seq<Blk>, at: nat, i: nat, nunits: nat)
    requires at <= |f| && i <= |f| && Passed(f, at, i, nunits) && SizeAt(f, i) < nunits
    ensures i != at ==> Passed(f, at, Next(f, i), nunits) && Dist(|f| + 1, Next(f, i), at) == Dist(|f| + 1, i, at) - 1
    ensures i == at ==> !HasFit(f, nunits)
  {
    if i != at {
      forall x: nat | x <= |f| && Dist(|f| + 1, Next(f, i), x) > Dist(|f| + 1, Next(f, i), at)
        ensures SizeAt(f, x) < nunits
      {
        if x != i { assert Dist(|f| + 1, i, x) > Dist(|f| + 1, i, at); }
      }
    } else {
      forall k | 0 <= k < |f| ensures f[k].n < nunits {
        if k + 1 != i { assert SizeAt(f, k + 1) < nunits; }
      }
    }
  }

  /** The list after nunits units were taken from the end of block k. */
  function Shrunk(f: seq<Blk>, k: nat, nunits: nat): seq<Blk>
    requires k < |f| && f[k].n >= nunits
  {
    if f[k].n == nunits then f[..k] + f[k + 1..] else f[..k] + [Blk(f[k].a, f[k].n - nunits)] + f[k + 1..]
  }

  /** Taking from the end of a block leaves the list sorted, and splits its units. */
  lemma {:induction false} ShrunkSorted(f: seq<Blk>, base: nat, k: nat, nunits: nat)
    requires Sorted(f, base) && k < |f| && f[k].n >= nunits > 0
    ensures Sorted(Shrunk(f, k, nunits), base) && k <= |Shrunk(f, k, nunits)|
    ensures NodeAt(Shrunk(f, k, nunits), base, k) == NodeAt(f, base, k) >= base
  {
    hide Sorted;
    SliceSorted(f, base, 0, k);
    SliceSorted(f, base, k + 1, |f|);
    assert f[0..k] == f[..k] && f[k + 1..|f|] == f[k + 1..];
    Neighbours(f, base, k);
    if f[k].n == nunits { PairSorted(f[..k], f[k + 1..], base); }
    else { JoinSorted(f[..k], Blk(f[k].a, f[k].n - nunits), f[k + 1..], base); }
  }

  lemma {:induction false} Neighbours(f: seq<Blk>, base: nat, k: nat)
    requires Sorted(f, base) && k < |f|
    ensures base < f[k].a && (k > 0 ==> base < f[k - 1].a && f[k - 1].a + f[k - 1].n < f[k].a)
    ensures (k + 1 < |f| ==> f[k].a + f[k].n < f[k + 1].a)
  {
  }

  lemma {:induction false} ShrunkCovers(f: seq<Blk>, base: nat, k: nat, nunits: nat, u: nat)
    requires Sorted(f, base) && k < |f| && f[k].n >= nunits > 0
    ensures var t := Blk(f[k].a + (f[k].n - nunits), nunits);
      (Covers(f, u) <==> Covers(Shrunk(f, k, nunits), u) || In(t, u)) && !(Covers(Shrunk(f, k, nunits), u) && In(t, u))
  {
    hide Sorted, Covers;
    var t, l, r := Blk(f[k].a + (f[k].n - nunits), nunits), f[..k], f[k + 1..];
    NotElsewhere(f, base, k, u);
    assert f == l + [f[k]] + r;
    CoversCat(l + [f[k]], r, u);
    CoversCat(l, [f[k]], u);
    CoversOne(f[k], u);
    if f[k].n == nunits {
      CoversCat(l, r, u);
    } else {
      var m := Blk(f[k].a, f[k].n - nunits);
      CoversCat(l + [m], r, u);
      CoversCat(l, [m], u);
      CoversOne(m, u);
    }
  }

  lemma {:induction false} NotElsewhere(f: seq<Blk>, base: nat, k: nat, u: nat)
    requires Sorted(f, base) && k < |f|
    ensures In(f[k], u) ==> !Covers(f[..k], u) && !Covers(f[k + 1..], u)
  {
    var l, r := f[..k], f[k + 1..];
    forall x | 0 <= x < |l| ensures !(In(f[k], u) && In(l[x], u)) { assert f[x].a + f[x].n < f[k].a; }
    forall x | 0 <= x < |r| ensures !(In(f[k], u) && In(r[x], u)) { assert f[k].a + f[k].n < f[k + 1 + x].a; }
  }

  lemma {:induction false} ShrunkLive(f: seq<Blk>, live: map<nat, nat>, base: nat, brk: nat, k: nat, nunits: nat)
    requires Sorted(f, base) && LiveOk(f, live, base, brk) && k < |f| && f[k].n >= nunits > 0
    ensures var a := f[k].a + (f[k].n - nunits);
        a !in live && LiveOk(Shrunk(f, k, nunits), live[a := nunits], base, brk)
  {
    var g, a := Shrunk(f, k, nunits), f[k].a + (f[k].n - nunits);
    var t := Blk(a, nunits);
    forall b | b in live ensures Apart(t, Blk(b, live[b])) && b != a { assert Apart(f[k], Blk(b, live[b])); }
    forall x | 0 <= x < |g|
      ensures Apart(g[x], t) && g[x].a + g[x].n <= brk && forall b | b in live :: Apart(g[x], Blk(b, live[b]))
    {
      if x < k {
        assert g[x] == f[x] && f[x].a + f[x].n < f[k].a;
      } else if f[k].n == nunits {
        assert g[x] == f[x + 1] && f[k].a + f[k].n < f[x + 1].a;
      } else if x > k {
        assert g[x] == f[x] && f[k].a + f[k].n < f[x].a;
      } else {
        forall b | b in live ensures Apart(g[x], Blk(b, live[b])) { assert Apart(f[k], Blk(b, live[b])); }
      }
    }
  }

  /** The tail of block k is no node of the list, nor are two nodes the same. */
  lemma {:induction false} TailApart(f: seq<Blk>, base: nat, k: nat, nunits: nat, x: nat)
    requires Sorted(f, base) && k < |f| && f[k].n >= nunits > 0 && x <= |f|
    ensures (x != k ==> NodeAt(f, base, x) != NodeAt(f, base, k)) && (x != k + 1 ==> NodeAt(f, base, x) != f[k].a)
    ensures f[k].n != nunits ==> NodeAt(f, base, x) != f[k].a + (f[k].n - nunits)
  {
    if x < k { NodesApart(f, base, x, k); } else if x > k { NodesApart(f, base, k, x); }
    if x < k + 1 { NodesApart(f, base, x, k + 1); } else if x > k + 1 { assert f[k].a + f[k].n < f[x - 1].a; }
  }

  lemma {:induction false} ShrunkLinks(f: seq<Blk>, base: nat, k: nat, nunits: nat, ptr: nat -> nat, size: nat -> nat,
                                       ptr': nat -> nat, size': nat -> nat)
    requires Sorted(f, base) && Linked(f, base, ptr, size) && k < |f| && f[k].n >= nunits > 0
    requires f[k].n == nunits ==>
               (forall y: nat :: ptr'(y) == if y == NodeAt(f, base, k) then ptr(f[k].a) else ptr(y))
               && forall y: nat :: size'(y) == size(y)
    requires f[k].n != nunits ==> forall y: nat :: ptr'(y) == ptr(y)
    requires f[k].n != nunits ==>
               forall y: nat :: size'(y) == if y == f[k].a + (f[k].n - nunits) then nunits
                                           else if y == f[k].a then f[k].n - nunits else size(y)
    ensures Linked(Shrunk(f, k, nunits), base, ptr', size')
  {
    hide Sorted;
    assert LinkAt(f, base, ptr, size, k) && LinkAt(f, base, ptr, size, k + 1);
    forall x: nat | x <= |f| ensures (x != k ==> NodeAt(f, base, x) != NodeAt(f, base, k))
      && (x != k + 1 ==> NodeAt(f, base, x) != f[k].a)
      && (f[k].n != nunits ==> NodeAt(f, base, x) != f[k].a + (f[k].n - nunits))
    {
      TailApart(f, base, k, nunits, x);
    }
    if f[k].n == nunits {
      LinkedDrop(f, base, ptr, size, k, ptr', size');
    } else {
      LinkedSplice(f, base, ptr, size, k, k + 1, Blk(f[k].a, f[k].n - nunits), ptr', size');
    }
  }

  /** Everything malloc promises when it takes from block k, from the headers it wrote. */
  lemma {:induction false} Carved(f: seq<Blk>, live: map<nat, nat>, base: nat, brk: nat, k: nat, nunits: nat,
                                  ptr: nat -> nat, size: nat -> nat, ptr': nat -> nat, size': nat -> nat)
    requires Sorted(f, base) && Linked(f, base, ptr, size) && LiveOk(f, live, base, brk) && k < |f|
    requires f[k].n >= nunits > 0
    requires forall b | b in live :: size(b) == live[b]
    requires f[k].n == nunits ==>
               (forall y: nat :: ptr'(y) == if y == NodeAt(f, base, k) then ptr(f[k].a) else ptr(y))
               && forall y: nat :: size'(y) == size(y)
    requires f[k].n != nunits ==> forall y: nat :: ptr'(y) == ptr(y)
    requires f[k].n != nunits ==>
               forall y: nat :: size'(y) == if y == f[k].a + (f[k].n - nunits) then nunits
                                           else if y == f[k].a then f[k].n - nunits else size(y)
    ensures var a, g := f[k].a + (f[k].n - nunits), Shrunk(f, k, nunits);
      && Sorted(g, base) && Linked(g, base, ptr', size') && LiveOk(g, live[a := nunits], base, brk) && a !in live
      && (forall b | b in live[a := nunits] :: size'(b) == live[a := nunits][b])
      && k <= |g| && NodeAt(g, base, k) == NodeAt(f, base, k) >= base
      && forall u: nat :: (Covers(f, u) <==> Covers(g, u) || In(Blk(a, nunits), u))
           && !(Covers(g, u) && In(Blk(a, nunits), u))
  {
    hide LiveOk, Linked, Sorted, Covers, Shrunk;
    ShrunkSorted(f, base, k, nunits);
    ShrunkLinks(f, base, k, nunits, ptr, size, ptr', size');
    ShrunkLive(f, live, base, brk, k, nunits);
    NodeLinks(f, base, ptr, size, k + 1);
    LiveSizes(f, base, live, brk, k + 1, 0);
    forall u: nat
      ensures (Covers(f, u) <==> Covers(Shrunk(f, k, nunits), u) || In(Blk(f[k].a + (f[k].n - nunits), nunits), u))
                          && !(Covers(Shrunk(f, k, nunits), u) && In(Blk(f[k].a + (f[k].n - nunits), nunits), u)) {
      ShrunkCovers(f, base, k, nunits, u);
    }
  }

  lemma {:induction false} FitLess(f: seq<Blk>, n: nat, m: nat)
    requires HasFit(f, n) && m <= n
    ensures HasFit(f, m)
  {
  }

  lemma {:induction false} SbrkAdds(f: seq<Blk>, live: map<nat, nat>, base: nat, brk: nat, hp: nat, n: nat,
                                    ptr: nat -> nat, size: nat -> nat, size': nat -> nat)
    requires Sorted(f, base) && Linked(f, base, ptr, size) && LiveOk(f, live, base, brk) && base < brk <= hp && n > 0
    requires (forall b | b in live :: size(b) == live[b]) && forall y: nat :: size'(y) == if y == hp then n else size(y)
    ensures hp !in live && LiveOk(f, live[hp := n], base, hp + n) && Linked(f, base, ptr, size')
    ensures forall b | b in live[hp := n] :: size'(b) == live[hp := n][b]
  {
    forall i: nat | i <= |f| ensures LinkAt(f, base, ptr, size', i) {
      assert LinkAt(f, base, ptr, size, i);
      assert NodeAt(f, base, i) < hp;
    }
  }

  lemma {:induction false} LiveApart(f: seq<Blk>, live: map<nat, nat>, base: nat, brk: nat, bp: nat)
    requires LiveOk(f, live, base, brk) && bp in live
    ensures live[bp] > 0 && base < bp && forall k | 0 <= k < |f| :: Apart(f[k], Blk(bp, live[bp]))
  {
  }

  lemma {:induction false} NodeLinks(f: seq<Blk>, base: nat, ptr: nat -> nat, size: nat -> nat, j: nat)
    requires Linked(f, base, ptr, size) && j <= |f|
    ensures ptr(NodeAt(f, base, j)) == NodeAt(f, base, Next(f, j)) && size(NodeAt(f, base, j)) == SizeAt(f, j)
  {
    assert LinkAt(f, base, ptr, size, j);
  }

  /** The header being freed is no node of the list. */
  lemma {:induction false} PlaceNotBlock(f: seq<Blk>, base: nat, j: nat, b: Blk)
    requires Sorted(f, base) && j <= |f| && base < b.a && b.n > 0 && forall k | 0 <= k < |f| :: Apart(f[k], b)
    ensures forall x: nat | x <= |f| :: NodeAt(f, base, x) != b.a && NodeAt(f, base, x) >= base
  {
    forall x: nat | x <= |f| ensures NodeAt(f, base, x) != b.a && NodeAt(f, base, x) >= base {
      if x > 0 { assert Apart(f[x - 1], b) && f[x - 1].n > 0; }
    }
  }

  /** No other live header is a node of the list. */
  lemma {:induction false} LiveSizes(f: seq<Blk>, base: nat, live: map<nat, nat>, brk: nat, j: nat, bp: nat)
    requires Sorted(f, base) && LiveOk(f, live, base, brk) && j <= |f|
    ensures forall c | c in live :: c != NodeAt(f, base, j)
  {
    forall c | c in live ensures c != NodeAt(f, base, j) {
      if j > 0 { assert Apart(f[j - 1], Blk(c, live[c])) && f[j - 1].n > 0; }
    }
  }
}
