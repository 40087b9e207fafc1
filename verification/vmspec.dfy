/** Sv39 page tables and the page allocator of kernel/vm.c and kernel/kalloc.c: what each physical page
    is used for, and the flat map from virtual page to page-table entry that a tree stands for. */
module VmSpec {
  import opened Options

  const PGSIZE := 4096
  const MAXVA := 0x40_0000_0000        // 1L << (9 + 9 + 9 + 12 - 1)
  const MAXPAGE := 0x400_0000          // MAXVA / PGSIZE
  const TRAMPOLINE := MAXVA - PGSIZE
  const TRAPFRAME := TRAMPOLINE - PGSIZE
  const PTE_V := 1
  const PTE_R := 2
  const PTE_W := 4
  const PTE_X := 8
  const PTE_U := 16

  /** Physical memory: word j of page p. */
  type Mem = (nat, nat) -> nat

  function Put(mem: Mem, p: nat, i: nat, x: nat): (m: Mem)
    ensures forall q: nat, j: nat :: m(q, j) == if q == p && j == i then x else mem(q, j)
  {
    (q, j) => if q == p && j == i then x else mem(q, j)
  }

  /** memset of a whole page, a word at a time */
  function Fill(mem: Mem, p: nat, x: nat): (m: Mem)
    ensures forall q: nat, j: nat :: m(q, j) == if q == p then x else mem(q, j)
  {
    (q, j) => if q == p then x else mem(q, j)
  }

  /** memmove of a whole page */
  function CopyPage(mem: Mem, p: nat, from: nat): (m: Mem)
    ensures forall q: nat, j: nat :: m(q, j) == if q == p then mem(from, j) else mem(q, j)
  {
    (q, j) => if q == p then mem(from, j) else mem(q, j)
  }

  // Page-table entries: the page number times 1024, plus ten flag bits.
  predicate IsValid(e: nat) { e % 2 == 1 }
  function PageOf(e: nat): nat { e / 1024 }
  function Flags(e: nat): nat { e % 1024 }
  /** PTE_R, PTE_W or PTE_X is set. */
  predicate IsLeaf(e: nat) { e / 2 % 8 != 0 }
  lemma {:induction false} ZeroInvalid()
    ensures !IsValid(0)
  {
  }

  lemma {:induction false} PteFields(p: nat, q: nat)
    requires q < 512
    ensures (p * 1024 + q * 2 + 1) % 2 == 1 && (p * 1024 + q * 2 + 1) / 1024 == p
    ensures (p * 1024 + q * 2 + 1) % 1024 == q * 2 + 1
    ensures (p * 1024 + q * 2 + 1) / 2 % 8 == q % 8
  {
    Fields(p, q * 2 + 1);
    Half(p * 512 + q, 1);
    LowBits(p * 64, q);
  }

  lemma {:induction false} Fields(p: nat, r: nat)
    requires r < 1024
    ensures (p * 1024 + r) / 1024 == p && (p * 1024 + r) % 1024 == r
  {
  }

  lemma {:induction false} Half(h: nat, b: nat)
    requires b < 2
    ensures (h * 2 + b) / 2 == h && (h * 2 + b) % 2 == b
  {
  }

  lemma {:induction false} LowBits(k: nat, q: nat)
    ensures (k * 8 + q) % 8 == q % 8
  {
  }

  /** PA2PTE(pa) | perm | PTE_V for page p */
  function MkPte(p: nat, perm: nat): (e: nat)
    requires perm < 1024
    ensures IsValid(e) && PageOf(e) == p && Flags(e) == perm / 2 * 2 + 1
    ensures IsLeaf(e) <==> perm / 2 % 8 != 0
  {
    PteFields(p, perm / 2);
    p * 1024 + perm / 2 * 2 + 1
  }

  /** An entry that points to the table page p. */
  function TablePte(p: nat): (e: nat)
    ensures IsValid(e) && PageOf(e) == p && Flags(e) == PTE_V && !IsLeaf(e)
  {
    PteFields(p, 0);
    p * 1024 + 1
  }

  /** A table page of the tree rooted at page r: the root has level 2; `pre` is the part of the virtual
      page number above the level. */
  datatype Node = Node(r: nat, l: nat, pre: nat)

  function Parent(u: Node): Node { Node(u.r, u.l + 1, u.pre / 512) }
  function Child(u: Node, i: nat): Node
    requires u.l > 0
  {
    Node(u.r, u.l - 1, u.pre * 512 + i)
  }
  /** The leaf-level table for virtual page v. */
  function Low(r: nat, v: nat): Node { Node(r, 0, v / 512) }

  /** What a page is used for: the k-th page of the free list (from the end), a table page, user
      memory at virtual page v of the tree r, or held by the kernel. */
  datatype Use = Free(k: nat) | Tab(u: Node) | Leaf(r: nat, v: nat) | Kernel

  /** The free list, last page first; each page links to the one freed before it. */
  ghost predicate FreeOk(mem: Mem, freelist: nat, free: seq<nat>, owner: map<nat, Use>) {
    && (forall k: nat | k < |free| :: free[k] in owner && owner[free[k]] == Free(k) && free[k] > 0)
    && (forall p | p in owner && owner[p].Free? :: owner[p].k < |free| && free[owner[p].k] == p)
    && (forall k: nat | 0 < k < |free| :: mem(free[k], 0) == free[k - 1] * PGSIZE)
    && (|free| > 0 ==> mem(free[0], 0) == 0)
    && freelist == if |free| == 0 then 0 else free[|free| - 1] * PGSIZE
  }

  /** `page` gives the page of each table. */
  ghost predicate TabsOk(owner: map<nat, Use>, page: map<Node, nat>) {
    && (forall u | u in page :: page[u] in owner && owner[page[u]] == Tab(u) && u.l <= 2)
    && (forall u | u in page && u.l == 2 :: u.pre == 0 && page[u] == u.r)
    && (forall p | p in owner && owner[p].Tab? :: owner[p].u in page && page[owner[p].u] == p)
  }

  /** Each table but a root is where its parent's entry says. */
  ghost predicate LinksOk(mem: Mem, page: map<Node, nat>) {
    forall u {:trigger Parent(u)} | u in page && u.l < 2 ::
      Parent(u) in page && mem(page[Parent(u)], u.pre % 512) == TablePte(page[u])
  }

  /** Valid entries above the leaf level lead to tables, except to `hole`. */
  ghost predicate EntriesOk(mem: Mem, page: map<Node, nat>, hole: Option<Node>) {
    forall u, i: nat {:trigger Child(u, i)} | u in page && 0 < u.l && i < 512 && IsValid(mem(page[u], i))
      && Some(Child(u, i)) != hole ::
      Child(u, i) in page && mem(page[u], i) == TablePte(page[Child(u, i)])
  }

  /** Valid entries at the leaf level are leaves. */
  ghost predicate LowsOk(mem: Mem, page: map<Node, nat>) {
    forall u, i: nat | u in page && u.l == 0 && i < 512 && IsValid(mem(page[u], i)) :: IsLeaf(mem(page[u], i))
  }

  /** User pages are where the flat map says. */
  ghost predicate LeavesOk(mem: Mem, owner: map<nat, Use>, page: map<Node, nat>) {
    forall p, r: nat, v: nat {:trigger owner[p], Leaf(r, v)} | p in owner && owner[p] == Leaf(r, v) ::
      IsValid(Pte(mem, page, r, v)) && PageOf(Pte(mem, page, r, v)) == p
  }

  /** The trees. freewalk frees the table `hole` before it clears the entry that leads to it. */
  ghost predicate TreeOk(mem: Mem, owner: map<nat, Use>, page: map<Node, nat>, hole: Option<Node>) {
    TabsOk(owner, page) && LinksOk(mem, page) && EntriesOk(mem, page, hole) && LowsOk(mem, page)
    && LeavesOk(mem, owner, page)
  }

  /** The flat map: the entry for virtual page v in the tree r, 0 if there is no table for it. */
  function Pte(mem: Mem, page: map<Node, nat>, r: nat, v: nat): nat {
    if Low(r, v) in page then mem(page[Low(r, v)], v % 512) else 0
  }

  function Lookup(mem: Mem, page: map<Node, nat>, r: nat, v: nat): Option<nat> {
    if IsValid(Pte(mem, page, r, v)) then Some(Pte(mem, page, r, v)) else None
  }

  /** What the hardware does with virtual page v: three levels of entries read from memory. */
  function HwWalk(mem: Mem, r: nat, v: nat): Option<nat> {
    var e2 := mem(r, v / 512 / 512 % 512);
    if !IsValid(e2) then None else
    var e1 := mem(PageOf(e2), v / 512 % 512);
    if !IsValid(e1) then None else
    var e0 := mem(PageOf(e1), v % 512);
    if !IsValid(e0) then None else Some(e0)
  }

  /** The hardware's walk of a tree reads the flat map. */
  lemma {:induction false} HwWalkIsPte(mem: Mem, owner: map<nat, Use>, page: map<Node, nat>, r: nat, v: nat)
    requires TreeOk(mem, owner, page, None) && Node(r, 2, 0) in page && v < MAXPAGE
    ensures HwWalk(mem, r, v) == Lookup(mem, page, r, v)
  {
    var root, mid, low := Node(r, 2, 0), Node(r, 1, v / 512 / 512), Low(r, v);
    assert Child(root, v / 512 / 512) == mid && Parent(mid) == root;
    assert Child(mid, v / 512 % 512) == low && Parent(low) == mid;
  }

  lemma {:induction false} ChildParent(u: Node, i: nat)
    requires u.l > 0 && i < 512
    ensures Parent(Child(u, i)) == u && Child(u, i).pre % 512 == i
  {
  }

  /** Memory after walk put the zeroed page p into entry i of page t. */
  ghost predicate Attached(mem: Mem, t: nat, i: nat, p: nat, mem': Mem) {
    forall q: nat, j: nat :: mem'(q, j) == if q == t && j == i then TablePte(p) else if q == p then 0 else mem(q, j)
  }

  lemma {:induction false} AddLinks(mem: Mem, owner: map<nat, Use>, page: map<Node, nat>, u: Node, i: nat, p: nat,
                                    mem': Mem)
    requires TabsOk(owner, page) && LinksOk(mem, page) && u in page && u.l > 0 && i < 512 && p in owner
    requires owner[p] == Kernel
    requires Attached(mem, page[u], i, p, mem') && !IsValid(mem(page[u], i))
    ensures Child(u, i) !in page && LinksOk(mem', page[Child(u, i) := p])
  {
    assert IsValid(TablePte(p));
    hide IsValid, TablePte;
    var c := Child(u, i);
    ChildParent(u, i);
    assert c in page ==> mem(page[u], i) == TablePte(page[c]);
    var page' := page[c := p];
    forall w {:trigger Parent(w)} | w in page' && w.l < 2
      ensures Parent(w) in page' && mem'(page'[Parent(w)], w.pre % 512) == TablePte(page'[w])
    {
      if w != c {
        assert Parent(w) in page && mem(page[Parent(w)], w.pre % 512) == TablePte(page[w])
          && IsValid(TablePte(page[w]));
      }
    }
  }

  lemma {:induction false} AddEntries(mem: Mem, owner: map<nat, Use>, page: map<Node, nat>, u: Node, i: nat, p: nat,
                                      mem': Mem)
    requires TabsOk(owner, page) && EntriesOk(mem, page, None) && u in page && u.l > 0 && i < 512 && p in owner
    requires owner[p] == Kernel && Child(u, i) !in page
    requires Attached(mem, page[u], i, p, mem')
    ensures EntriesOk(mem', page[Child(u, i) := p], None)
  {
    hide IsValid, TablePte;
    ZeroInvalid();
    var c := Child(u, i);
    var page' := page[c := p];
    forall w, j: nat {:trigger Child(w, j)} | w in page' && 0 < w.l && j < 512 && IsValid(mem'(page'[w], j))
      ensures Child(w, j) in page' && mem'(page'[w], j) == TablePte(page'[Child(w, j)])
    {
      if w != c && !(w == u && j == i) { assert mem'(page'[w], j) == mem(page[w], j); assert Child(w, j) in page; }
    }
  }

  lemma {:induction false} AddMap(mem: Mem, owner: map<nat, Use>, page: map<Node, nat>, u: Node, i: nat, p: nat,
                                  mem': Mem)
    requires TabsOk(owner, page) && LowsOk(mem, page) && u in page && u.l > 0 && i < 512 && p in owner
    requires owner[p] == Kernel && Child(u, i) !in page
    requires Attached(mem, page[u], i, p, mem')
    ensures LowsOk(mem', page[Child(u, i) := p])
    ensures forall r: nat, v: nat :: Pte(mem', page[Child(u, i) := p], r, v) == Pte(mem, page, r, v)
  {
    hide IsValid, IsLeaf, TablePte;
    ZeroInvalid();
    var c := Child(u, i);
    var page' := page[c := p];
    forall w, j: nat | w in page' && w.l == 0 && j < 512 && IsValid(mem'(page'[w], j))
      ensures IsLeaf(mem'(page'[w], j))
    {
      if w != c { assert page[w] != page[u]; assert mem'(page'[w], j) == mem(page[w], j); }
    }
    forall r: nat, v: nat ensures Pte(mem', page', r, v) == Pte(mem, page, r, v) {
      if Low(r, v) in page { assert page[Low(r, v)] != page[u]; }
    }
  }

  /** walk adds a zeroed table page for entry i of table u. */
  lemma {:induction false} AddTable(mem: Mem, owner: map<nat, Use>, page: map<Node, nat>, u: Node, i: nat, p: nat,
                                    mem': Mem)
    requires TreeOk(mem, owner, page, None) && u in page && u.l > 0 && i < 512 && !IsValid(mem(page[u], i))
    requires p in owner && owner[p] == Kernel
    requires Attached(mem, page[u], i, p, mem')
    ensures Child(u, i) !in page
    ensures TreeOk(mem', owner[p := Tab(Child(u, i))], page[Child(u, i) := p], None)
    ensures forall r: nat, v: nat :: Pte(mem', page[Child(u, i) := p], r, v) == Pte(mem, page, r, v)
  {
    hide IsValid, Attached, Pte, LowsOk, EntriesOk, LinksOk;
    AddLinks(mem, owner, page, u, i, p, mem');
    AddEntries(mem, owner, page, u, i, p, mem');
    AddMap(mem, owner, page, u, i, p, mem');
  }

  lemma {:induction false} SetLow(mem: Mem, owner: map<nat, Use>, page: map<Node, nat>, r: nat, v: nat, e: nat,
                                  mem': Mem)
    requires TabsOk(owner, page) && LowsOk(mem, page) && Low(r, v) in page && (IsValid(e) ==> IsLeaf(e))
    requires forall q: nat, j: nat :: mem'(q, j) == if q == page[Low(r, v)] && j == v % 512 then e else mem(q, j)
    ensures LowsOk(mem', page)
    ensures forall r': nat, v': nat ::
              Pte(mem', page, r', v') == if r' == r && v' == v then e else Pte(mem, page, r', v')
  {
    hide IsLeaf, IsValid;
    forall r': nat, v': nat
      ensures Pte(mem', page, r', v') == if r' == r && v' == v then e else Pte(mem, page, r', v')
    {
      if Low(r', v') in page && page[Low(r', v')] == page[Low(r, v)] { assert Low(r', v') == Low(r, v); }
    }
  }

  lemma {:induction false} SetUpper(mem: Mem, owner: map<nat, Use>, page: map<Node, nat>, r: nat, v: nat, e: nat,
                                    mem': Mem)
    requires TabsOk(owner, page) && LinksOk(mem, page) && EntriesOk(mem, page, None) && Low(r, v) in page
    requires forall q: nat, j: nat :: mem'(q, j) == if q == page[Low(r, v)] && j == v % 512 then e else mem(q, j)
    ensures LinksOk(mem', page) && EntriesOk(mem', page, None)
  {
    hide IsLeaf, IsValid, TablePte;
    forall w, j: nat | w in page && 0 < w.l
      ensures mem'(page[w], j) == mem(page[w], j)
    {
      assert page[w] != page[Low(r, v)];
    }
    forall w {:trigger Parent(w)} | w in page && w.l < 2
      ensures Parent(w) in page && mem'(page[Parent(w)], w.pre % 512) == TablePte(page[w])
    {
      assert Parent(w) in page;
    }
  }

  /** An entry of the leaf-level table is written. */
  lemma {:induction false} SetPte(mem: Mem, owner: map<nat, Use>, page: map<Node, nat>, r: nat, v: nat, e: nat,
                                  mem': Mem)
    requires TreeOk(mem, owner, page, None) && Low(r, v) in page && (IsValid(e) ==> IsLeaf(e))
    requires forall p | p in owner :: owner[p] != Leaf(r, v)
    requires forall q: nat, j: nat :: mem'(q, j) == if q == page[Low(r, v)] && j == v % 512 then e else mem(q, j)
    ensures TreeOk(mem', owner, page, None)
    ensures forall r': nat, v': nat ::
              Pte(mem', page, r', v') == if r' == r && v' == v then e else Pte(mem, page, r', v')
  {
    hide IsLeaf, IsValid, TablePte, PageOf, LinksOk, EntriesOk, LowsOk, TabsOk, Pte;
    SetLow(mem, owner, page, r, v, e, mem');
    SetUpper(mem, owner, page, r, v, e, mem');
  }

  /** A page that is not a table changes hands, and its contents may change. */
  lemma {:induction false} Reuse(mem: Mem, owner: map<nat, Use>, page: map<Node, nat>, hole: Option<Node>, p: nat,
                                 use: Use, mem': Mem)
    requires TreeOk(mem, owner, page, hole) && p in owner && !owner[p].Tab? && (use.Free? || use == Kernel)
    requires forall q: nat, j: nat | q != p :: mem'(q, j) == mem(q, j)
    ensures TreeOk(mem', owner[p := use], page, hole)
    ensures forall r: nat, v: nat :: Pte(mem', page, r, v) == Pte(mem, page, r, v)
  {
    hide IsLeaf, IsValid, TablePte, PageOf;
    assert forall u | u in page :: page[u] != p;
    forall r: nat, v: nat ensures Pte(mem', page, r, v) == Pte(mem, page, r, v) { }
    assert LinksOk(mem', page) by {
      forall w {:trigger Parent(w)} | w in page && w.l < 2
        ensures Parent(w) in page && mem'(page[Parent(w)], w.pre % 512) == TablePte(page[w])
      {
        assert Parent(w) in page;
      }
    }
  }

  /** A page in the kernel's hand becomes the user page at v of tree r, which already maps it. */
  lemma {:induction false} OwnLeaf(mem: Mem, owner: map<nat, Use>, page: map<Node, nat>, p: nat, r: nat, v: nat)
    requires TreeOk(mem, owner, page, None) && p in owner && owner[p] == Kernel && IsValid(Pte(mem, page, r, v))
    requires PageOf(Pte(mem, page, r, v)) == p
    ensures TreeOk(mem, owner[p := Leaf(r, v)], page, None)
  {
    hide IsLeaf, IsValid, TablePte, PageOf;
  }

  // ---- freewalk ----

  /** A table with no valid entry is freed; the entry that leads to it is still there. */
  lemma {:induction false} DropTable(mem: Mem, owner: map<nat, Use>, page: map<Node, nat>, u: Node, k: nat, mem': Mem)
    requires TreeOk(mem, owner, page, None) && u in page && forall i: nat | i < 512 :: !IsValid(mem(page[u], i))
    requires forall q: nat, j: nat | q != page[u] :: mem'(q, j) == mem(q, j)
    ensures TreeOk(mem', owner[page[u] := Free(k)], page - {u}, Some(u))
    ensures forall r: nat, v: nat :: Lookup(mem', page - {u}, r, v) == Lookup(mem, page, r, v)
  {
    hide IsValid, IsLeaf, TablePte, PageOf;
    ZeroInvalid();
    var page' := page - {u};
    forall w {:trigger Parent(w)} | w in page' && w.l < 2
      ensures Parent(w) in page' && mem'(page'[Parent(w)], w.pre % 512) == TablePte(page'[w])
    {
      assert Parent(w) in page && mem(page[Parent(w)], w.pre % 512) == TablePte(page[w]) && IsValid(TablePte(page[w]));
    }
    forall r: nat, v: nat ensures Lookup(mem', page', r, v) == Lookup(mem, page, r, v) {
      if Low(r, v) in page' { assert page[Low(r, v)] != page[u]; }
    }
    forall w, j: nat {:trigger Child(w, j)} | w in page' && 0 < w.l && j < 512 && IsValid(mem'(page'[w], j))
      && Some(Child(w, j)) != Some(u)
      ensures Child(w, j) in page' && mem'(page'[w], j) == TablePte(page'[Child(w, j)])
    {
      assert page[w] != page[u];
      assert Child(w, j) in page;
    }
    forall p, r: nat, v: nat {:trigger owner[p], Leaf(r, v)} | p in owner && p != page[u] && owner[p] == Leaf(r, v)
      ensures IsValid(Pte(mem', page', r, v)) && PageOf(Pte(mem', page', r, v)) == p
    {
      assert Lookup(mem', page', r, v) == Lookup(mem, page, r, v);
    }
  }

  /** freewalk clears the entry that led to the table it has just freed. */
  lemma {:induction false} ClearEntry(mem: Mem, owner: map<nat, Use>, page: map<Node, nat>, u: Node, i: nat, mem': Mem)
    requires u.l > 0 && i < 512 && TreeOk(mem, owner, page, Some(Child(u, i))) && u in page && Child(u, i) !in page
    requires forall q: nat, j: nat :: mem'(q, j) == if q == page[u] && j == i then 0 else mem(q, j)
    ensures TreeOk(mem', owner, page, None)
    ensures forall r: nat, v: nat :: Pte(mem', page, r, v) == Pte(mem, page, r, v)
  {
    hide IsValid, IsLeaf, TablePte, PageOf;
    ZeroInvalid();
    ChildParent(u, i);
    var c := Child(u, i);
    forall w {:trigger Parent(w)} | w in page && w.l < 2
      ensures Parent(w) in page && mem'(page[Parent(w)], w.pre % 512) == TablePte(page[w])
    {
      assert Parent(w) in page;
      assert Parent(w) == u && w.pre % 512 == i ==> w == c;
    }
    forall r: nat, v: nat ensures Pte(mem', page, r, v) == Pte(mem, page, r, v) {
      if Low(r, v) in page { assert page[Low(r, v)] != page[u]; }
    }
  }

  // ---- the free list ----

  lemma {:induction false} Popped(mem: Mem, freelist: nat, free: seq<nat>, owner: map<nat, Use>, mem': Mem)
    requires FreeOk(mem, freelist, free, owner) && |free| > 0
    requires forall q: nat, j: nat | q != free[|free| - 1] :: mem'(q, j) == mem(q, j)
    ensures FreeOk(mem', mem(free[|free| - 1], 0), free[..|free| - 1], owner[free[|free| - 1] := Kernel])
  {
    var p := free[|free| - 1];
    assert forall k: nat | k < |free| - 1 :: free[k] != p by {
      forall k: nat | k < |free| - 1
        ensures free[k] != p
      {
        assert owner[free[k]] == Free(k) && owner[p] == Free(|free| - 1);
      }
    }
  }

  lemma {:induction false} FreeHead(mem: Mem, freelist: nat, free: seq<nat>, owner: map<nat, Use>)
    requires FreeOk(mem, freelist, free, owner)
    ensures freelist == 0 <==> free == []
    ensures free != [] ==> var p := free[|free| - 1]; p in owner && owner[p].Free? && freelist == p * PGSIZE
  {
  }

  lemma {:induction false} Pushed(mem: Mem, freelist: nat, free: seq<nat>, owner: map<nat, Use>, p: nat, mem': Mem)
    requires FreeOk(mem, freelist, free, owner) && p in owner && !owner[p].Free? && p > 0
    requires mem'(p, 0) == freelist && forall q: nat, j: nat | q != p :: mem'(q, j) == mem(q, j)
    ensures FreeOk(mem', p * PGSIZE, free + [p], owner[p := Free(|free|)])
  {
    assert forall k: nat | k < |free| :: free[k] != p;
  }

  /** The links from page p on, after kfree pushed p a second time, lead back to p: pages c that follow
      them, last page first, are always among those above p in the list before. */
  lemma {:induction false} Cycle(mem: Mem, freelist: nat, free: seq<nat>, owner: map<nat, Use>, p: nat, mem': Mem,
                                 c: seq<nat>, k: nat) returns (i: nat)
    requires FreeOk(mem, freelist, free, owner) && p in owner && owner[p].Free?
    requires mem'(p, 0) == freelist && forall q: nat, j: nat | q != p :: mem'(q, j) == mem(q, j)
    requires k < |c| && c[|c| - 1] == p && forall j: nat | 0 < j < |c| :: mem'(c[j], 0) == c[j - 1] * PGSIZE
    ensures owner[p].k <= i < |free| && c[k] == free[i] && mem'(c[k], 0) > 0
    decreases |c| - k
  {
    if k == |c| - 1 {
      i := owner[p].k;
    } else {
      var j := Cycle(mem, freelist, free, owner, p, mem', c, k + 1);
      i := if free[j] == p then |free| - 1 else j - 1;
      assert free[j] != p ==> j > owner[p].k && mem(free[j], 0) == free[j - 1] * PGSIZE;
    }
    assert free[i] != p ==> i > 0 && mem(free[i], 0) == free[i - 1] * PGSIZE && free[i - 1] > 0;
  }

  /** A page that is freed while it is free makes a list that never ends. */
  lemma {:induction false} FreedTwice(mem: Mem, freelist: nat, free: seq<nat>, owner: map<nat, Use>, p: nat, mem': Mem)
    requires FreeOk(mem, freelist, free, owner) && p in owner && owner[p].Free?
    requires mem'(p, 0) == freelist && forall q: nat, j: nat | q != p :: mem'(q, j) == mem(q, j)
    ensures forall free': seq<nat>, owner': map<nat, Use> :: !FreeOk(mem', p * PGSIZE, free', owner')
  {
    forall free': seq<nat>, owner': map<nat, Use>
      ensures !FreeOk(mem', p * PGSIZE, free', owner')
    {
      if FreeOk(mem', p * PGSIZE, free', owner') {
        assert p > 0 && |free'| > 0;
        var i := Cycle(mem, freelist, free, owner, p, mem', free', 0);
      }
    }
  }

  /** Pages other than the free ones may change hands and contents. */
  lemma {:induction false} FreeKept(mem: Mem, freelist: nat, free: seq<nat>, owner: map<nat, Use>, p: nat, use: Use,
                                    mem': Mem)
    requires FreeOk(mem, freelist, free, owner) && p in owner && !owner[p].Free? && !use.Free?
    requires forall q: nat, j: nat | q in owner && owner[q].Free? :: mem'(q, j) == mem(q, j)
    ensures FreeOk(mem', freelist, free, owner[p := use])
  {
    assert forall k: nat | k < |free| :: free[k] != p;
  }

  // ---- what an operation leaves alone ----

  /** Table pages may have been added to tree r; pages in use keep their use and their contents. */
  ghost predicate Grow(mem: Mem, owner: map<nat, Use>, page: map<Node, nat>, mem': Mem, owner': map<nat, Use>,
                       page': map<Node, nat>, r: nat) {
    && (forall u | u in page :: u in page' && page'[u] == page[u])
    && (forall p :: p in owner' <==> p in owner)
    && (forall p | p in owner :: owner'[p] == owner[p] || (owner[p].Free? && owner'[p].Tab? && owner'[p].u.r == r))
    && (forall p, j: nat | p in owner && (owner[p].Leaf? || owner[p] == Kernel) :: mem'(p, j) == mem(p, j))
  }

  lemma {:induction false} GrowRefl(mem: Mem, owner: map<nat, Use>, page: map<Node, nat>, r: nat)
    ensures Grow(mem, owner, page, mem, owner, page, r)
  {
  }

  lemma {:induction false} GrowTrans(m0: Mem, o0: map<nat, Use>, p0: map<Node, nat>, m1: Mem, o1: map<nat, Use>,
                                     p1: map<Node, nat>, m2: Mem, o2: map<nat, Use>, p2: map<Node, nat>, r: nat)
    requires Grow(m0, o0, p0, m1, o1, p1, r) && Grow(m1, o1, p1, m2, o2, p2, r)
    ensures Grow(m0, o0, p0, m2, o2, p2, r)
  {
  }

  lemma {:induction false} GrowRoot(mem: Mem, owner: map<nat, Use>, page: map<Node, nat>, mem': Mem,
                                    owner': map<nat, Use>, page': map<Node, nat>, r: nat)
    requires Grow(mem, owner, page, mem', owner', page', r) && Node(r, 2, 0) in page
    ensures Node(r, 2, 0) in page'
  {
  }

  /** PX(level, va): nine bits of the virtual address */
  function PX(level: nat, va: nat): (i: nat)
    ensures i < 512
  {
    (if level == 2 then va / 0x4000_0000 else if level == 1 then va / 0x20_0000 else va / 0x1000) % 512
  }

  /** The table walk has reached at the given level on its way to virtual page v. */
  function OnPath(r: nat, v: nat, level: nat): Node {
    if level == 2 then Node(r, 2, 0) else if level == 1 then Node(r, 1, v / 512 / 512) else Low(r, v)
  }

  lemma {:induction false} PathStep(r: nat, va: nat, level: nat)
    requires va < MAXVA && 0 < level <= 2
    ensures OnPath(r, va / PGSIZE, level).l == level && OnPath(r, va / PGSIZE, level).r == r
    ensures Child(OnPath(r, va / PGSIZE, level), PX(level, va)) == OnPath(r, va / PGSIZE, level - 1)
    ensures PX(0, va) == va / PGSIZE % 512
  {
    var v := va / PGSIZE;
    assert va / 0x20_0000 == v / 512;
    assert va / 0x4000_0000 == v / 512 / 512;
  }

  // ---- how many pages it takes ----

  /** The tables that walk needs below the root, down to the given level. */
  ghost function PathTo(r: nat, v: nat, level: nat): set<Node> {
    if level >= 2 then {} else if level == 1 then {OnPath(r, v, 1)} else {OnPath(r, v, 1), OnPath(r, v, 0)}
  }

  /** The tables needed for n pages from `first` on. */
  ghost function Tables(r: nat, first: nat, n: nat): set<Node> {
    if n == 0 then {} else Tables(r, first, n - 1) + PathTo(r, first + n - 1, 0)
  }

  /** From tables g0 and f0 free pages to tables g and f free pages: the tables in `need` that were missing
      took one page each, and k pages more were taken. */
  ghost predicate Took(g0: set<Node>, f0: nat, g: set<Node>, f: nat, need: set<Node>, k: nat) {
    g == g0 + need && f0 + |g0| == f + |g| + k
  }

  /** There are not enough free pages for that. */
  ghost predicate Short(g0: set<Node>, f0: nat, need: set<Node>, k: nat) { f0 + |g0| < |g0 + need| + k }

  lemma {:induction false} SubsetSize<X>(a: set<X>, b: set<X>)
    requires a <= b
    ensures |a| <= |b|
  {
    assert b == a + (b - a);
  }

  lemma {:induction false} TookNone(g: set<Node>, f: nat)
    ensures Took(g, f, g, f, {}, 0)
  {
    assert g + {} == g;
  }

  lemma {:induction false} PathNone(r: nat, v: nat)
    ensures PathTo(r, v, 2) == {}
  {
  }

  lemma {:induction false} TookEnough(g0: set<Node>, f0: nat, g: set<Node>, f: nat, need: set<Node>, k: nat)
    requires Took(g0, f0, g, f, need, k)
    ensures !Short(g0, f0, need, k) && (f > 0 ==> !Short(g0, f0, need, k + 1))
  {
  }

  lemma {:induction false} TookOut(g0: set<Node>, f0: nat, g: set<Node>, f: nat, need: set<Node>, k: nat)
    requires Took(g0, f0, g, f, need, k)
    ensures f == 0 ==> Short(g0, f0, need, k + 1)
  {
  }

  lemma {:induction false} TookTrans(g0: set<Node>, f0: nat, g1: set<Node>, f1: nat, g2: set<Node>, f2: nat,
                                     a: set<Node>, b: set<Node>, j: nat, k: nat)
    requires Took(g0, f0, g1, f1, a, j) && Took(g1, f1, g2, f2, b, k)
    ensures Took(g0, f0, g2, f2, a + b, j + k)
  {
    assert g0 + (a + b) == g0 + a + b;
  }

  lemma {:induction false} TookShort(g0: set<Node>, f0: nat, g1: set<Node>, f1: nat, a: set<Node>, b: set<Node>,
                                     j: nat, k: nat)
    requires Took(g0, f0, g1, f1, a, j) && Short(g1, f1, b, k)
    ensures Short(g0, f0, a + b, j + k)
  {
    assert g0 + (a + b) == g0 + a + b;
  }

  lemma {:induction false} ShortMore(g: set<Node>, f: nat, a: set<Node>, b: set<Node>, j: nat, k: nat)
    requires Short(g, f, a, j) && a <= b && j <= k
    ensures Short(g, f, b, k)
  {
    SubsetSize(g + a, g + b);
  }

  lemma {:induction false} TablesMore(r: nat, first: nat, m: nat, n: nat)
    requires m <= n
    ensures Tables(r, first, m) <= Tables(r, first, n)
  {
    if m < n { TablesMore(r, first, m, n - 1); }
  }

  lemma {:induction false} TablesNone(g: set<Node>, f: nat, r: nat, first: nat)
    ensures Took(g, f, g, f, Tables(r, first, 0), 0) && !Short(g, f, Tables(r, first, 0), 0)
  {
    TookNone(g, f);
    TookEnough(g, f, g, f, {}, 0);
  }

  /** One more page after n. */
  lemma {:induction false} PageTook(g0: set<Node>, f0: nat, g1: set<Node>, f1: nat, g2: set<Node>, f2: nat,
                                    r: nat, first: nat, n: nat, j: nat, k: nat)
    requires Took(g0, f0, g1, f1, Tables(r, first, n), j)
    ensures Took(g1, f1, g2, f2, PathTo(r, first + n, 0), k) ==> Took(g0, f0, g2, f2, Tables(r, first, n + 1), j + k)
    ensures Short(g1, f1, PathTo(r, first + n, 0), k) ==> Short(g0, f0, Tables(r, first, n + 1), j + k)
  {
    hide Took, Short, PathTo;
    var a, b := Tables(r, first, n), PathTo(r, first + n, 0);
    if Took(g1, f1, g2, f2, b, k) { TookTrans(g0, f0, g1, f1, g2, f2, a, b, j, k); }
    if Short(g1, f1, b, k) { TookShort(g0, f0, g1, f1, a, b, j, k); }
  }

  /** walk found the table one level down. */
  lemma {:induction false} TookFound(g0: set<Node>, f0: nat, g: set<Node>, f: nat, r: nat, v: nat, level: nat)
    requires 0 < level <= 2 && Took(g0, f0, g, f, PathTo(r, v, level), 0) && OnPath(r, v, level - 1) in g
    ensures Took(g0, f0, g, f, PathTo(r, v, level - 1), 0)
  {
    hide OnPath;
    assert PathTo(r, v, level - 1) == PathTo(r, v, level) + {OnPath(r, v, level - 1)};
    assert g0 + PathTo(r, v, level - 1) == g;
  }

  /** walk made it from a free page. */
  lemma {:induction false} TookMade(g0: set<Node>, f0: nat, g: set<Node>, f: nat, r: nat, v: nat, level: nat)
    requires 0 < level <= 2 && Took(g0, f0, g, f, PathTo(r, v, level), 0) && OnPath(r, v, level - 1) !in g && f > 0
    ensures Took(g0, f0, g + {OnPath(r, v, level - 1)}, f - 1, PathTo(r, v, level - 1), 0)
  {
    hide OnPath;
    assert PathTo(r, v, level - 1) == PathTo(r, v, level) + {OnPath(r, v, level - 1)};
    assert g0 + PathTo(r, v, level - 1) == g + {OnPath(r, v, level - 1)};
  }

  /** There was no page for it. */
  lemma {:induction false} TookFailed(g0: set<Node>, f0: nat, g: set<Node>, r: nat, v: nat, level: nat)
    requires 0 < level <= 2 && Took(g0, f0, g, 0, PathTo(r, v, level), 0) && OnPath(r, v, level - 1) !in g
    ensures Short(g0, f0, PathTo(r, v, 0), 0)
  {
    hide OnPath;
    var g' := g + {OnPath(r, v, level - 1)};
    assert g' <= g0 + PathTo(r, v, 0);
    SubsetSize(g', g0 + PathTo(r, v, 0));
  }

  // ---- the steps of walk ----

  lemma {:induction false} PathRoot(mem: Mem, owner: map<nat, Use>, page: map<Node, nat>, r: nat, v: nat)
    requires TreeOk(mem, owner, page, None) && Node(r, 2, 0) in page
    ensures OnPath(r, v, 2) in page && page[OnPath(r, v, 2)] == r
  {
  }

  lemma {:induction false} PathEntry(mem: Mem, owner: map<nat, Use>, page: map<Node, nat>, u: Node, i: nat)
    requires TreeOk(mem, owner, page, None) && u in page && u.l > 0 && i < 512
    ensures IsValid(mem(page[u], i)) ==> Child(u, i) in page && PageOf(mem(page[u], i)) == page[Child(u, i)]
    ensures !IsValid(mem(page[u], i)) ==> Child(u, i) !in page
  {
    hide IsValid, PageOf;
    ChildParent(u, i);
    if Child(u, i) in page { assert Parent(Child(u, i)) in page; }
  }

  /** A missing table on the path means there is no leaf-level table. */
  lemma {:induction false} PathMissing(mem: Mem, owner: map<nat, Use>, page: map<Node, nat>, r: nat, v: nat, level: nat)
    requires TreeOk(mem, owner, page, None) && 0 < level <= 2 && OnPath(r, v, level - 1) !in page
    ensures Low(r, v) !in page
  {
    assert Low(r, v) in page ==> Parent(Low(r, v)) in page;
  }

  lemma {:induction false} PathLow(r: nat, v: nat, va: nat)
    requires v == va / PGSIZE
    ensures OnPath(r, v, 0) == Low(r, v) && PX(0, va) == v % 512
  {
  }

  /** walk took the page p from the allocator, zeroed it and put it into entry i of table u. */
  lemma {:induction false} TableAdded(m0: Mem, o0: map<nat, Use>, page: map<Node, nat>, m1: Mem, freelist: nat,
                                      free: seq<nat>, o1: map<nat, Use>, u: Node, i: nat, p: nat, mem': Mem)
    requires TreeOk(m0, o0, page, None) && u in page && u.l > 0 && i < 512 && !IsValid(m0(page[u], i))
    requires p in o0 && o0[p].Free? && o1 == o0[p := Kernel] && FreeOk(m1, freelist, free, o1)
    requires forall q: nat, j: nat | q != p :: m1(q, j) == m0(q, j)
    requires forall q: nat, j: nat ::
               mem'(q, j) == if q == page[u] && j == i then TablePte(p) else if q == p then 0 else m1(q, j)
    ensures TreeOk(mem', o1[p := Tab(Child(u, i))], page[Child(u, i) := p], None)
    ensures FreeOk(mem', freelist, free, o1[p := Tab(Child(u, i))])
    ensures Grow(m0, o0, page, mem', o1[p := Tab(Child(u, i))], page[Child(u, i) := p], u.r)
    ensures forall r: nat, v: nat :: Pte(mem', page[Child(u, i) := p], r, v) == Pte(m0, page, r, v)
  {
    hide TreeOk, FreeOk, IsValid, TablePte, Pte;
    TableOwner(m0, o0, page, u);
    Reuse(m0, o0, page, None, p, Kernel, m1);
    AddTable(m1, o1, page, u, i, p, mem');
    AddedKept(m1, freelist, free, o1, page[u], i, TablePte(p), p, Tab(Child(u, i)), mem');
  }

  lemma {:induction false} AddedKept(m1: Mem, freelist: nat, free: seq<nat>, o1: map<nat, Use>, t: nat, i: nat, e: nat,
                                     p: nat, use: Use, mem': Mem)
    requires FreeOk(m1, freelist, free, o1) && p in o1 && o1[p] == Kernel && !use.Free? && t in o1 && !o1[t].Free?
    requires forall q: nat, j: nat :: mem'(q, j) == if q == t && j == i then e else if q == p then 0 else m1(q, j)
    ensures FreeOk(mem', freelist, free, o1[p := use])
  {
    hide FreeOk;
    FreeKept(m1, freelist, free, o1, p, use, mem');
  }

  // ---- mappages and uvmunmap ----

  const U64 := 0x1_0000_0000_0000_0000

  /** The flat map after n pages from `first` on were mapped to pages from pg on. */
  ghost predicate MapsTo(mem: Mem, page: map<Node, nat>, mem': Mem, page': map<Node, nat>, r: nat, first: nat, n: nat,
                         pg: nat, perm: nat)
    requires perm < 1024
  {
    forall r': nat, v: nat :: Lookup(mem', page', r', v) ==
      if r' == r && first <= v < first + n then Some(MkPte(pg + (v - first), perm)) else Lookup(mem, page, r', v)
  }

  /** mappages writes the entry of virtual page v. */
  lemma {:induction false} LeafSet(mem: Mem, owner: map<nat, Use>, page: map<Node, nat>, freelist: nat, free: seq<nat>,
                                   r: nat, v: nat, e: nat, mem': Mem)
    requires TreeOk(mem, owner, page, None) && FreeOk(mem, freelist, free, owner) && Low(r, v) in page
    requires IsValid(e) && IsLeaf(e) && !IsValid(mem(page[Low(r, v)], v % 512))
    requires forall q: nat, j: nat :: mem'(q, j) == if q == page[Low(r, v)] && j == v % 512 then e else mem(q, j)
    ensures TreeOk(mem', owner, page, None) && FreeOk(mem', freelist, free, owner)
    ensures Grow(mem, owner, page, mem', owner, page, r)
    ensures forall r': nat, v': nat ::
              Lookup(mem', page, r', v') == if r' == r && v' == v then Some(e) else Lookup(mem, page, r', v')
  {
    assert page[Low(r, v)] in owner && owner[page[Low(r, v)]] == Tab(Low(r, v));
    assert Pte(mem, page, r, v) == mem(page[Low(r, v)], v % 512);
    forall p | p in owner ensures owner[p] != Leaf(r, v) { }
    hide IsLeaf, IsValid, LowsOk, EntriesOk, LinksOk, LeavesOk, TabsOk;
    SetPte(mem, owner, page, r, v, e, mem');
    FreeKept(mem, freelist, free, owner, page[Low(r, v)], Tab(Low(r, v)), mem');
    assert owner[page[Low(r, v)] := Tab(Low(r, v))] == owner;
  }

  /** uvmunmap clears the entry of virtual page v, whose page was freed if it was the tree's own. */
  lemma {:induction false} LeafCleared(mem: Mem, owner: map<nat, Use>, page: map<Node, nat>, freelist: nat,
                                       free: seq<nat>, r: nat, v: nat, mem': Mem)
    requires TreeOk(mem, owner, page, None) && FreeOk(mem, freelist, free, owner) && Low(r, v) in page
    requires forall p | p in owner :: owner[p] != Leaf(r, v)
    requires forall q: nat, j: nat :: mem'(q, j) == if q == page[Low(r, v)] && j == v % 512 then 0 else mem(q, j)
    ensures TreeOk(mem', owner, page, None) && FreeOk(mem', freelist, free, owner)
    ensures forall r': nat, v': nat ::
              Lookup(mem', page, r', v') == if r' == r && v' == v then None else Lookup(mem, page, r', v')
    ensures forall p, j: nat | p in owner && !owner[p].Tab? :: mem'(p, j) == mem(p, j)
  {
    assert page[Low(r, v)] in owner && owner[page[Low(r, v)]] == Tab(Low(r, v));
    hide IsLeaf, IsValid, LowsOk, EntriesOk, LinksOk, LeavesOk, TabsOk;
    ZeroInvalid();
    SetPte(mem, owner, page, r, v, 0, mem');
    FreeKept(mem, freelist, free, owner, page[Low(r, v)], Tab(Low(r, v)), mem');
    assert owner[page[Low(r, v)] := Tab(Low(r, v))] == owner;
  }

  lemma {:induction false} PteAt(mem: Mem, page: map<Node, nat>, r: nat, v: nat)
    requires Low(r, v) in page
    ensures Pte(mem, page, r, v) == mem(page[Low(r, v)], v % 512)
  {
  }

  lemma {:induction false} MapsToNone(mem: Mem, page: map<Node, nat>, r: nat, first: nat, pg: nat, perm: nat)
    requires perm < 1024
    ensures MapsTo(mem, page, mem, page, r, first, 0, pg, perm)
  {
  }

  lemma {:induction false} MapsToSame(mem: Mem, page: map<Node, nat>, m1: Mem, p1: map<Node, nat>, m2: Mem,
                                      p2: map<Node, nat>, r: nat, first: nat, n: nat, pg: nat, perm: nat)
    requires perm < 1024 && MapsTo(mem, page, m1, p1, r, first, n, pg, perm)
    requires forall r': nat, v: nat :: Pte(m2, p2, r', v) == Pte(m1, p1, r', v)
    ensures MapsTo(mem, page, m2, p2, r, first, n, pg, perm)
  {
    hide MkPte, IsValid, Pte;
    forall r': nat, v: nat ensures Lookup(m2, p2, r', v) ==
      if r' == r && first <= v < first + n then Some(MkPte(pg + (v - first), perm)) else Lookup(mem, page, r', v)
    {
      assert Pte(m2, p2, r', v) == Pte(m1, p1, r', v);
      assert Lookup(m2, p2, r', v) == Lookup(m1, p1, r', v);
    }
  }

  lemma {:induction false} MapsToStep(mem: Mem, page: map<Node, nat>, m1: Mem, m2: Mem, p1: map<Node, nat>, r: nat,
                                      first: nat, n: nat, pg: nat, perm: nat)
    requires perm < 1024 && MapsTo(mem, page, m1, p1, r, first, n, pg, perm)
    requires forall r': nat, v: nat ::
               Lookup(m2, p1, r', v) == if r' == r && v == first + n then Some(MkPte(pg + n, perm))
                 else Lookup(m1, p1, r', v)
    ensures MapsTo(mem, page, m2, p1, r, first, n + 1, pg, perm)
  {
    hide MkPte, Lookup;
  }

  lemma {:induction false} MapsToMore(mem: Mem, page: map<Node, nat>, m1: Mem, p1: map<Node, nat>, m2: Mem,
                                      p2: map<Node, nat>, r: nat, first: nat, n: nat, k: nat, pg: nat, perm: nat)
    requires perm < 1024 && MapsTo(mem, page, m1, p1, r, first, n, pg, perm)
    requires MapsTo(m1, p1, m2, p2, r, first + n, k, pg + n, perm)
    ensures MapsTo(mem, page, m2, p2, r, first, n + k, pg, perm)
  {
    hide MkPte, Lookup;
  }

  /** The next page is as it was. */
  lemma {:induction false} MapsToAt(mem: Mem, page: map<Node, nat>, mem': Mem, page': map<Node, nat>, r: nat,
                                    first: nat, n: nat, pg: nat, perm: nat)
    requires perm < 1024 && MapsTo(mem, page, mem', page', r, first, n, pg, perm)
    ensures Lookup(mem', page', r, first + n) == Lookup(mem, page, r, first + n)
  {
  }

  /** With f free pages there are not enough for the tables of n pages from `first` on and m pages besides. */
  ghost predicate Lacks(page: map<Node, nat>, f: nat, r: nat, first: nat, n: nat, m: nat) {
    Short(page.Keys, f, Tables(r, first, n), m)
  }

  /** mappages cannot map virtual page v of tree r: it panics. */
  ghost predicate Bad(mem: Mem, page: map<Node, nat>, r: nat, v: nat) { v >= MAXPAGE || Lookup(mem, page, r, v).Some? }

  ghost predicate Open(mem: Mem, page: map<Node, nat>, r: nat, first: nat, n: nat) {
    forall v: nat | first <= v < first + n :: !Bad(mem, page, r, v)
  }

  /** With f free pages the k-th page from `first` on is the first that cannot be mapped, and is reached:
      the pages before it have their tables, and there are m pages besides. */
  ghost predicate Hits(mem: Mem, page: map<Node, nat>, f: nat, r: nat, first: nat, k: nat, m: nat) {
    Open(mem, page, r, first, k) && Bad(mem, page, r, first + k) && !Lacks(page, f, r, first, k, m)
  }

  lemma {:induction false} OpenNext(mem: Mem, page: map<Node, nat>, r: nat, first: nat, n: nat)
    requires Open(mem, page, r, first, n) && !Bad(mem, page, r, first + n)
    ensures Open(mem, page, r, first, n + 1)
  {
  }

  lemma {:induction false} NotOpen(mem: Mem, page: map<Node, nat>, r: nat, first: nat, n: nat, k: nat)
    requires k < n && Bad(mem, page, r, first + k)
    ensures !Open(mem, page, r, first, n)
  {
  }

  lemma {:induction false} HitsOne(mem: Mem, page: map<Node, nat>, f: nat, r: nat, first: nat, k: nat, m: nat, n: nat)
    requires Hits(mem, page, f, r, first, k, m) && k < n
    ensures !Open(mem, page, r, first, n)
  {
    hide Bad, Lacks, Short, Tables;
    NotOpen(mem, page, r, first, n, k);
  }

  /** Memory for page d and its tables ran out before any page that cannot be mapped was reached. */
  lemma {:induction false} OutFirst(mem: Mem, page: map<Node, nat>, f: nat, r: nat, first: nat, d: nat, j: nat,
                                    k: nat, m: nat)
    requires Open(mem, page, r, first, d) && Lacks(page, f, r, first, d + 1, j)
    requires (k > d ==> j <= m) && (k == d && Bad(mem, page, r, first + d) ==> Lacks(page, f, r, first, d, m))
    ensures !Hits(mem, page, f, r, first, k, m)
  {
    hide Bad, Open, Lacks, Short, Tables;
    if k < d && Hits(mem, page, f, r, first, k, m) {
      HitsOne(mem, page, f, r, first, k, m, d);
    } else if k > d {
      OutLater(page, f, r, first, d + 1, k, j, m);
    }
  }

  lemma {:induction false} LacksOut(page: map<Node, nat>, f: nat, g1: set<Node>, f1: nat, r: nat, first: nat, d: nat)
    requires Took(page.Keys, f, g1, f1, Tables(r, first, d), d)
    ensures f1 == 0 ==> Lacks(page, f, r, first, d, d + 1)
  {
    TookOut(page.Keys, f, g1, f1, Tables(r, first, d), d);
  }

  lemma {:induction false} OutLater(page: map<Node, nat>, f: nat, r: nat, first: nat, d: nat, n: nat, j: nat, m: nat)
    requires Lacks(page, f, r, first, d, j) && d <= n && j <= m
    ensures Lacks(page, f, r, first, n, m)
  {
    TablesMore(r, first, d, n);
    ShortMore(page.Keys, f, Tables(r, first, d), Tables(r, first, n), j, m);
  }

  lemma {:induction false} OpenNone(mem: Mem, page: map<Node, nat>, r: nat, first: nat)
    ensures Open(mem, page, r, first, 0)
  {
  }

  lemma {:induction false} BadIs(mem: Mem, page: map<Node, nat>, r: nat, v: nat)
    ensures Bad(mem, page, r, v) <==> v >= MAXPAGE || Lookup(mem, page, r, v).Some?
  {
  }

  lemma {:induction false} OpenNoHit(mem: Mem, page: map<Node, nat>, f: nat, r: nat, first: nat, n: nat)
    requires Open(mem, page, r, first, n)
    ensures forall k: nat, m: nat | k < n :: !Hits(mem, page, f, r, first, k, m)
  {
    hide Open, Hits;
    forall k: nat, m: nat | k < n ensures !Hits(mem, page, f, r, first, k, m) {
      if Hits(mem, page, f, r, first, k, m) { HitsOne(mem, page, f, r, first, k, m, n); }
    }
  }

  lemma {:induction false} HitsAt(mem: Mem, page: map<Node, nat>, f: nat, r: nat, first: nat, k: nat, m: nat)
    requires Open(mem, page, r, first, k) && Bad(mem, page, r, first + k) && !Lacks(page, f, r, first, k, m)
    ensures Hits(mem, page, f, r, first, k, m)
  {
  }

  /** The pages up to `last` can be mapped, and there is memory for the tables. */
  ghost predicate CanMap(mem: Mem, page: map<Node, nat>, f: nat, r: nat, first: nat, last: nat) {
    && first <= last && Open(mem, page, r, first, last - first + 1)
    && !Lacks(page, f, r, first, last - first + 1, 0)
  }

  /** mappages reaches a page that cannot be mapped, at the latest the one beyond MAXVA if it does not meet `last`. */
  ghost predicate CannotMap(mem: Mem, page: map<Node, nat>, f: nat, r: nat, first: nat, last: nat) {
    exists k: nat :: (first <= last ==> first + k <= last) && Hits(mem, page, f, r, first, k, 0)
  }

  /** mappages panics at page d. */
  lemma {:induction false} MapPanics(mem: Mem, page: map<Node, nat>, f: nat, r: nat, first: nat, d: nat, last: nat)
    requires Open(mem, page, r, first, d) && !Lacks(page, f, r, first, d, 0)
    requires Bad(mem, page, r, first + d) && (first <= last ==> first + d <= last)
    ensures !CanMap(mem, page, f, r, first, last) && CannotMap(mem, page, f, r, first, last)
  {
    hide Open, Bad, Hits, Lacks, Short, Tables;
    HitsAt(mem, page, f, r, first, d, 0);
    if first <= last { NotOpen(mem, page, r, first, last - first + 1, d); }
  }

  /** mappages has no memory for the tables of page d. */
  lemma {:induction false} MapFails(mem: Mem, page: map<Node, nat>, f: nat, r: nat, first: nat, d: nat, last: nat)
    requires Open(mem, page, r, first, d) && !Bad(mem, page, r, first + d) && (first <= last ==> first + d <= last)
    requires Lacks(page, f, r, first, d + 1, 0)
    ensures !CanMap(mem, page, f, r, first, last) && !CannotMap(mem, page, f, r, first, last)
  {
    hide Open, Bad, Hits, Lacks, Short, Tables;
    if first <= last { OutLater(page, f, r, first, d + 1, last - first + 1, 0, 0); }
    forall k: nat ensures !Hits(mem, page, f, r, first, k, 0) { OutFirst(mem, page, f, r, first, d, 0, k, 0); }
  }

  lemma {:induction false} MapDone(mem: Mem, page: map<Node, nat>, f: nat, r: nat, first: nat, n: nat, last: nat)
    requires n > 0 && first + n - 1 == last && Open(mem, page, r, first, n) && !Lacks(page, f, r, first, n, 0)
    ensures CanMap(mem, page, f, r, first, last) && !CannotMap(mem, page, f, r, first, last)
  {
    hide Open, Hits, Lacks, Short, Tables;
    OpenNoHit(mem, page, f, r, first, n);
  }

  /** n pages from `first` on can be had and mapped. */
  ghost predicate CanGrow(mem: Mem, page: map<Node, nat>, f: nat, r: nat, first: nat, n: nat) {
    Open(mem, page, r, first, n) && !Lacks(page, f, r, first, n, n)
  }

  /** uvmalloc panics at the k-th page: there is memory up to there, and a page to be mapped. */
  ghost predicate GrowHits(mem: Mem, page: map<Node, nat>, f: nat, r: nat, first: nat, k: nat) {
    Hits(mem, page, f, r, first, k, k + 1)
  }

  ghost predicate CannotGrow(mem: Mem, page: map<Node, nat>, f: nat, r: nat, first: nat, n: nat) {
    exists k: nat :: k < n && GrowHits(mem, page, f, r, first, k)
  }

  lemma {:induction false} GrowPanics(mem: Mem, page: map<Node, nat>, f: nat, r: nat, first: nat, d: nat, n: nat)
    requires Open(mem, page, r, first, d) && Bad(mem, page, r, first + d) && d < n
    requires !Lacks(page, f, r, first, d, d + 1)
    ensures CannotGrow(mem, page, f, r, first, n) && !CanGrow(mem, page, f, r, first, n)
  {
    hide Open, Bad, Hits, Lacks, Short, Tables;
    HitsAt(mem, page, f, r, first, d, d + 1);
    assert GrowHits(mem, page, f, r, first, d);
    NotOpen(mem, page, r, first, n, d);
  }

  lemma {:induction false} GrowFails(mem: Mem, page: map<Node, nat>, f: nat, g1: set<Node>, f1: nat, r: nat,
                                     first: nat, d: nat, n: nat)
    requires Open(mem, page, r, first, d) && d < n && Took(page.Keys, f, g1, f1, Tables(r, first, d), d)
    requires (Bad(mem, page, r, first + d) ==> f1 == 0) && Lacks(page, f, r, first, d + 1, d + 1)
    ensures !CannotGrow(mem, page, f, r, first, n) && !CanGrow(mem, page, f, r, first, n)
  {
    hide Open, Bad, Hits, Took, Lacks, Short, Tables;
    assert f1 == 0 ==> Lacks(page, f, r, first, d, d + 1) by { LacksOut(page, f, g1, f1, r, first, d); }
    OutLater(page, f, r, first, d + 1, n, d + 1, n);
    forall k: nat ensures !GrowHits(mem, page, f, r, first, k) { OutFirst(mem, page, f, r, first, d, d + 1, k, k + 1); }
  }

  lemma {:induction false} GrowDone(mem: Mem, page: map<Node, nat>, f: nat, r: nat, first: nat, n: nat)
    requires Open(mem, page, r, first, n) && !Lacks(page, f, r, first, n, n)
    ensures CanGrow(mem, page, f, r, first, n) && !CannotGrow(mem, page, f, r, first, n)
  {
    hide Open, Hits, Lacks, Short, Tables;
    OpenNoHit(mem, page, f, r, first, n);
  }

  lemma {:induction false} OpenLookup(mem: Mem, page: map<Node, nat>, r: nat, first: nat, n: nat)
    requires Open(mem, page, r, first, n)
    ensures forall v: nat | first <= v < first + n :: Lookup(mem, page, r, v) == None
    ensures n > 0 ==> first + n <= MAXPAGE
  {
    hide Lookup;
    assert n > 0 ==> !Bad(mem, page, r, first + (n - 1));
    forall v: nat | first <= v < first + n ensures Lookup(mem, page, r, v) == None { assert !Bad(mem, page, r, v); }
  }

  lemma {:induction false} OpenOne(mem: Mem, page: map<Node, nat>, r: nat, v: nat, n: nat)
    requires Open(mem, page, r, v, n)
    ensures n > 0 ==> !Bad(mem, page, r, v)
  {
  }

  lemma {:induction false} BadSame(m0: Mem, g0: map<Node, nat>, mem: Mem, page: map<Node, nat>, r: nat, v: nat)
    ensures Lookup(mem, page, r, v) == Lookup(m0, g0, r, v) ==> (Bad(mem, page, r, v) <==> Bad(m0, g0, r, v))
  {
  }

  lemma {:induction false} NoPage(g: set<Node>, need: set<Node>)
    ensures Short(g, 0, need, 1)
  {
    SubsetSize(g, g + need);
  }

  /** One page taken, and then the tables for one virtual page. */
  lemma {:induction false} OneTook(g1: set<Node>, f1: nat, g2: set<Node>, f2: nat, r: nat, v: nat)
    ensures Took(g1, f1, g2, f2, Tables(r, v, 1), 0) ==> Took(g1, f1 + 1, g2, f2, PathTo(r, v, 0), 1)
    ensures Short(g1, f1, Tables(r, v, 1), 0) ==> Short(g1, f1 + 1, PathTo(r, v, 0), 1)
  {
    hide PathTo;
    assert Tables(r, v, 0) == {};
    assert Tables(r, v, 1) == PathTo(r, v, 0);
  }

  /** The tables for one virtual page. */
  lemma {:induction false} FrameTook(g1: set<Node>, f1: nat, g2: set<Node>, f2: nat, r: nat, v: nat)
    ensures Took(g1, f1, g2, f2, Tables(r, v, 1), 0) ==>
              Took(g1, f1, g2, f2, PathTo(r, v, 0), 0) && !Short(g1, f1, PathTo(r, v, 0), 0)
    ensures Short(g1, f1, Tables(r, v, 1), 0) ==> Short(g1, f1, PathTo(r, v, 0), 0)
  {
    hide PathTo;
    assert Tables(r, v, 0) == {};
    assert Tables(r, v, 1) == PathTo(r, v, 0);
  }

  lemma {:induction false} NotBad(g1: set<Node>, f1: nat, g2: set<Node>, f2: nat, r: nat, v: nat)
    requires Took(g1, f1, g2, f2, PathTo(r, v, 0), 1)
    ensures f1 > 0
  {
    SubsetSize(g1, g2);
  }

  /** Virtual page v of tree r is not there to be copied. */
  ghost predicate NoSource(mem: Mem, page: map<Node, nat>, r: nat, v: nat) {
    v >= MAXPAGE || Lookup(mem, page, r, v) == None
  }

  /** The first n pages are mapped in tree `src` and not in tree `dst`. */
  ghost predicate Copyable(mem: Mem, page: map<Node, nat>, src: nat, dst: nat, n: nat) {
    Open(mem, page, dst, 0, n) && forall v: nat | v < n :: !NoSource(mem, page, src, v)
  }

  /** uvmcopy panics at the k-th page: it is not in `src`, or it is in `dst` and there is a page for the copy. */
  ghost predicate CopyHits(mem: Mem, page: map<Node, nat>, f: nat, src: nat, dst: nat, k: nat) {
    Copyable(mem, page, src, dst, k)
    && if NoSource(mem, page, src, k) then !Lacks(page, f, dst, 0, k, k)
       else Bad(mem, page, dst, k) && !Lacks(page, f, dst, 0, k, k + 1)
  }

  ghost predicate CanCopy(mem: Mem, page: map<Node, nat>, f: nat, src: nat, dst: nat, n: nat) {
    Copyable(mem, page, src, dst, n) && !Lacks(page, f, dst, 0, n, n)
  }

  ghost predicate CannotCopy(mem: Mem, page: map<Node, nat>, f: nat, src: nat, dst: nat, n: nat) {
    exists k: nat :: k < n && CopyHits(mem, page, f, src, dst, k)
  }

  lemma {:induction false} NotCopyable(mem: Mem, page: map<Node, nat>, src: nat, dst: nat, n: nat, k: nat)
    requires k < n && (NoSource(mem, page, src, k) || Bad(mem, page, dst, k))
    ensures !Copyable(mem, page, src, dst, n)
  {
    hide Bad, NoSource;
    if Bad(mem, page, dst, k) { NotOpen(mem, page, dst, 0, n, k); }
  }

  lemma {:induction false} CopyableNone(mem: Mem, page: map<Node, nat>, src: nat, dst: nat)
    ensures Copyable(mem, page, src, dst, 0)
  {
  }

  lemma {:induction false} CopyableNext(mem: Mem, page: map<Node, nat>, src: nat, dst: nat, n: nat)
    requires Copyable(mem, page, src, dst, n) && !NoSource(mem, page, src, n) && !Bad(mem, page, dst, n)
    ensures Copyable(mem, page, src, dst, n + 1)
  {
    hide Bad, NoSource;
  }

  lemma {:induction false} CopyableAt(mem: Mem, page: map<Node, nat>, src: nat, dst: nat, n: nat, v: nat)
    requires Copyable(mem, page, src, dst, n) && v < n
    ensures v < MAXPAGE && Lookup(mem, page, src, v).Some? && Lookup(mem, page, dst, v) == None
  {
    hide Lookup;
    assert !NoSource(mem, page, src, v) && !Bad(mem, page, dst, v);
  }

  lemma {:induction false} SourceIs(mem: Mem, page: map<Node, nat>, r: nat, v: nat)
    ensures NoSource(mem, page, r, v) <==> v >= MAXPAGE || Lookup(mem, page, r, v) == None
  {
  }

  lemma {:induction false} CopyableDst(mem: Mem, page: map<Node, nat>, src: nat, dst: nat, n: nat)
    requires Copyable(mem, page, src, dst, n)
    ensures forall v: nat | v < n :: Lookup(mem, page, dst, v) == None
  {
    hide Copyable;
    forall v: nat | v < n ensures Lookup(mem, page, dst, v) == None { CopyableAt(mem, page, src, dst, n, v); }
  }

  lemma {:induction false} CopyStops(mem: Mem, page: map<Node, nat>, f: nat, src: nat, dst: nat, d: nat, n: nat)
    requires Copyable(mem, page, src, dst, d) && d < n && !Lacks(page, f, dst, 0, d, d)
    requires NoSource(mem, page, src, d) || (Bad(mem, page, dst, d) && !Lacks(page, f, dst, 0, d, d + 1))
    ensures CannotCopy(mem, page, f, src, dst, n) && !CanCopy(mem, page, f, src, dst, n)
  {
    hide Bad, NoSource, Copyable, Lacks, Short, Tables;
    assert CopyHits(mem, page, f, src, dst, d);
    NotCopyable(mem, page, src, dst, n, d);
  }

  lemma {:induction false} CopyFails(mem: Mem, page: map<Node, nat>, f: nat, g1: set<Node>, f1: nat, src: nat, dst: nat,
                                     d: nat, n: nat)
    requires Copyable(mem, page, src, dst, d) && !NoSource(mem, page, src, d) && d < n
    requires Took(page.Keys, f, g1, f1, Tables(dst, 0, d), d)
    requires (Bad(mem, page, dst, d) ==> f1 == 0) && Lacks(page, f, dst, 0, d + 1, d + 1)
    ensures !CannotCopy(mem, page, f, src, dst, n) && !CanCopy(mem, page, f, src, dst, n)
  {
    hide Bad, NoSource, Copyable, Took, CopyHits, Lacks, Short, Tables;
    assert f1 == 0 ==> Lacks(page, f, dst, 0, d, d + 1) by { LacksOut(page, f, g1, f1, dst, 0, d); }
    OutLater(page, f, dst, 0, d + 1, n, d + 1, n);
    forall k: nat ensures !CopyHits(mem, page, f, src, dst, k) { CopyOut(mem, page, f, src, dst, d, k); }
  }

  lemma {:induction false} CopyOut(mem: Mem, page: map<Node, nat>, f: nat, src: nat, dst: nat, d: nat, k: nat)
    requires Copyable(mem, page, src, dst, d) && !NoSource(mem, page, src, d)
    requires Lacks(page, f, dst, 0, d + 1, d + 1)
    requires Bad(mem, page, dst, d) ==> Lacks(page, f, dst, 0, d, d + 1)
    ensures !CopyHits(mem, page, f, src, dst, k)
  {
    hide Bad, NoSource, Copyable, Lacks, CopyHits;
    if CopyHits(mem, page, f, src, dst, k) {
      CopyHitsIs(mem, page, f, src, dst, k);
      if k < d { CopyableParts(mem, page, src, dst, d, k); }
      if k > d { OutLater(page, f, dst, 0, d + 1, k, d + 1, if NoSource(mem, page, src, k) then k else k + 1); }
    }
  }

  lemma {:induction false} CopyHitsIs(mem: Mem, page: map<Node, nat>, f: nat, src: nat, dst: nat, k: nat)
    requires CopyHits(mem, page, f, src, dst, k)
    ensures if NoSource(mem, page, src, k) then !Lacks(page, f, dst, 0, k, k)
            else Bad(mem, page, dst, k) && !Lacks(page, f, dst, 0, k, k + 1)
  {
    hide Bad, NoSource, Lacks;
  }

  lemma {:induction false} CopyableParts(mem: Mem, page: map<Node, nat>, src: nat, dst: nat, n: nat, k: nat)
    requires Copyable(mem, page, src, dst, n) && k < n
    ensures !NoSource(mem, page, src, k) && !Bad(mem, page, dst, k)
  {
    hide Bad, NoSource;
    assert !Bad(mem, page, dst, 0 + k);
  }

  lemma {:induction false} CopyDone(mem: Mem, page: map<Node, nat>, f: nat, src: nat, dst: nat, n: nat)
    requires Copyable(mem, page, src, dst, n) && !Lacks(page, f, dst, 0, n, n)
    ensures CanCopy(mem, page, f, src, dst, n) && !CannotCopy(mem, page, f, src, dst, n)
  {
    hide Bad, NoSource, Copyable, Lacks, Short, Tables;
    forall k: nat | k < n ensures !CopyHits(mem, page, f, src, dst, k) {
      if NoSource(mem, page, src, k) || Bad(mem, page, dst, k) { NotCopyable(mem, page, src, dst, n, k); }
    }
  }

  /** The mapped pages among [first, first + n) of tree r are its own user memory. */
  ghost predicate Owns(mem: Mem, owner: map<nat, Use>, page: map<Node, nat>, r: nat, first: nat, n: nat) {
    forall v: nat | first <= v < first + n && Lookup(mem, page, r, v).Some? ::
      var p := PageOf(Lookup(mem, page, r, v).value); p in owner && owner[p] == Leaf(r, v)
  }

  /** Every page of [first, first + n) is below MAXVA and mapped in tree r. */
  ghost predicate AllMapped(mem: Mem, page: map<Node, nat>, r: nat, first: nat, n: nat) {
    forall v: nat | first <= v < first + n :: v < MAXPAGE && Lookup(mem, page, r, v).Some?
  }

  lemma {:induction false} NotMapped(mem: Mem, page: map<Node, nat>, r: nat, first: nat, n: nat, v: nat)
    requires first <= v < first + n && (v >= MAXPAGE || Lookup(mem, page, r, v) == None)
    ensures !AllMapped(mem, page, r, first, n)
  {
    assert AllMapped(mem, page, r, first, n) ==> Lookup(mem, page, r, v).Some? && v < MAXPAGE;
  }

  lemma {:induction false} MappedNext(mem: Mem, page: map<Node, nat>, r: nat, first: nat, n: nat)
    requires AllMapped(mem, page, r, first, n) && first + n < MAXPAGE && Lookup(mem, page, r, first + n).Some?
    ensures AllMapped(mem, page, r, first, n + 1)
  {
  }

  lemma {:induction false} MappedNone(mem: Mem, page: map<Node, nat>, r: nat, first: nat)
    ensures AllMapped(mem, page, r, first, 0)
  {
  }

  /** Tree r owns none of the pages it maps at [first, first + n). */
  ghost predicate OwnsNone(owner: map<nat, Use>, r: nat, first: nat, n: nat) {
    forall p | p in owner && owner[p].Leaf? && owner[p].r == r :: !(first <= owner[p].v < first + n)
  }

  /** The user page p lies in [first, first + n) of tree r. */
  predicate Within(u: Use, r: nat, first: nat, n: nat) { u.Leaf? && u.r == r && first <= u.v < first + n }

  /** n pages from `first` on were unmapped, and those that were user memory freed; nothing else changed. */
  ghost predicate Unmapped(mem: Mem, owner: map<nat, Use>, page: map<Node, nat>, mem': Mem, owner': map<nat, Use>,
                           r: nat, first: nat, n: nat) {
    && (forall r': nat, v: nat ::
          Lookup(mem', page, r', v) == if r' == r && first <= v < first + n then None else Lookup(mem, page, r', v))
    && (forall p :: p in owner' <==> p in owner)
    && (forall p | p in owner :: if Within(owner[p], r, first, n) then owner'[p].Free? else owner'[p] == owner[p])
    && (forall p, j: nat | p in owner && (owner[p].Leaf? || owner[p] == Kernel) && !Within(owner[p], r, first, n) ::
          mem'(p, j) == mem(p, j))
  }

  lemma {:induction false} UnmappedNone(mem: Mem, owner: map<nat, Use>, page: map<Node, nat>, r: nat, first: nat)
    ensures Unmapped(mem, owner, page, mem, owner, r, first, 0)
  {
  }

  /** uvmunmap at virtual page v = first + n: what the entry is, and who owns its page. */
  lemma {:induction false} UnmapEntry(m0: Mem, o0: map<nat, Use>, page: map<Node, nat>, mem: Mem, owner: map<nat, Use>,
                                      r: nat, first: nat, n: nat, all: nat)
    requires Unmapped(m0, o0, page, mem, owner, r, first, n) && TreeOk(mem, owner, page, None) && n < all
    ensures var v := first + n;
      && Lookup(mem, page, r, v) == Lookup(m0, page, r, v)
      && (Owns(m0, o0, page, r, first, all) && Lookup(mem, page, r, v).Some? ==>
            var p := PageOf(Lookup(mem, page, r, v).value); p in owner && owner[p] == Leaf(r, v))
      && (OwnsNone(o0, r, first, all) ==> forall p | p in owner :: owner[p] != Leaf(r, v))
      && (Low(r, v) in page && IsValid(mem(page[Low(r, v)], v % 512)) ==> IsLeaf(mem(page[Low(r, v)], v % 512)))
      && (Low(r, v) in page ==> mem(page[Low(r, v)], v % 512) == Pte(mem, page, r, v))
  {
    hide IsValid, IsLeaf, PageOf, LinksOk, EntriesOk, TabsOk;
  }

  lemma {:induction false} UnmappedStep(m0: Mem, o0: map<nat, Use>, page: map<Node, nat>, mem: Mem,
                                        owner: map<nat, Use>, r: nat, first: nat, n: nat, p: nat, k: nat, mem': Mem)
    requires Unmapped(m0, o0, page, mem, owner, r, first, n) && p in owner && owner[p] == Leaf(r, first + n)
    requires forall q | q in owner && q != p :: owner[q] != Leaf(r, first + n)
    requires forall r': nat, v': nat ::
               Lookup(mem', page, r', v') == if r' == r && v' == first + n then None else Lookup(mem, page, r', v')
    requires forall q, j: nat | q in owner && q != p && !owner[q].Tab? :: mem'(q, j) == mem(q, j)
    ensures Unmapped(m0, o0, page, mem', owner[p := Free(k)], r, first, n + 1)
  {
    hide Lookup;
    assert o0[p] == Leaf(r, first + n);
  }

  /** Only one page is the user page at v of tree r. */
  lemma {:induction false} LeafUnique(mem: Mem, owner: map<nat, Use>, page: map<Node, nat>, p: nat, r: nat, v: nat)
    requires TreeOk(mem, owner, page, None) && p in owner && owner[p] == Leaf(r, v)
    ensures forall q | q in owner && q != p :: owner[q] != Leaf(r, v)
  {
    hide IsValid, PageOf, LinksOk, EntriesOk, TabsOk, LowsOk, Pte;
  }

  /** One round of uvmunmap that frees the page p. */
  lemma {:induction false} UnmapFreed(m0: Mem, o0: map<nat, Use>, page: map<Node, nat>, mem: Mem, owner: map<nat, Use>,
                                      r: nat, first: nat, n: nat, p: nat, k: nat, m1: Mem, freelist: nat,
                                      free: seq<nat>, mem': Mem)
    requires Unmapped(m0, o0, page, mem, owner, r, first, n) && TreeOk(mem, owner, page, None) && p in owner
    requires owner[p] == Leaf(r, first + n)
    requires forall q: nat, j: nat | q != p :: m1(q, j) == mem(q, j)
    requires FreeOk(m1, freelist, free, owner[p := Free(k)]) && Low(r, first + n) in page
    requires forall q: nat, j: nat ::
               mem'(q, j) == if q == page[Low(r, first + n)] && j == (first + n) % 512 then 0 else m1(q, j)
    ensures TreeOk(mem', owner[p := Free(k)], page, None) && FreeOk(mem', freelist, free, owner[p := Free(k)])
    ensures Unmapped(m0, o0, page, mem', owner[p := Free(k)], r, first, n + 1)
  {
    hide IsValid, IsLeaf, PageOf, LinksOk, EntriesOk, TabsOk, LowsOk, LeavesOk, Pte, Unmapped, FreeOk, TreeOk;
    var v, o1 := first + n, owner[p := Free(k)];
    LeafUnique(mem, owner, page, p, r, v);
    Reuse(mem, owner, page, None, p, Free(k), m1);
    LeafCleared(m1, o1, page, freelist, free, r, v, mem');
    UnmappedStep(m0, o0, page, mem, owner, r, first, n, p, k, mem');
  }

  /** One round of uvmunmap that frees nothing. */
  lemma {:induction false} UnmapKept(m0: Mem, o0: map<nat, Use>, page: map<Node, nat>, mem: Mem, owner: map<nat, Use>,
                                     r: nat, first: nat, n: nat, freelist: nat, free: seq<nat>, mem': Mem)
    requires Unmapped(m0, o0, page, mem, owner, r, first, n) && TreeOk(mem, owner, page, None)
    requires forall p | p in owner :: owner[p] != Leaf(r, first + n)
    requires FreeOk(mem, freelist, free, owner) && Low(r, first + n) in page
    requires forall q: nat, j: nat ::
               mem'(q, j) == if q == page[Low(r, first + n)] && j == (first + n) % 512 then 0 else mem(q, j)
    ensures TreeOk(mem', owner, page, None) && FreeOk(mem', freelist, free, owner)
    ensures Unmapped(m0, o0, page, mem', owner, r, first, n + 1)
  {
    hide IsValid, IsLeaf, PageOf, LinksOk, EntriesOk, TabsOk, LowsOk, LeavesOk, Pte;
    LeafCleared(mem, owner, page, freelist, free, r, first + n, mem');
  }

  lemma {:induction false} PteNone(mem: Mem, page: map<Node, nat>, r: nat, v: nat)
    ensures Low(r, v) !in page ==> Lookup(mem, page, r, v) == None
    ensures Low(r, v) in page && !IsValid(mem(page[Low(r, v)], v % 512)) ==> Lookup(mem, page, r, v) == None
    ensures forall e: nat :: IsValid(e) && IsLeaf(e) ==> Flags(e) != PTE_V
  {
  }

  lemma {:induction false} PteSome(mem: Mem, page: map<Node, nat>, r: nat, v: nat)
    requires Low(r, v) in page && IsValid(mem(page[Low(r, v)], v % 512))
    ensures Lookup(mem, page, r, v) == Some(mem(page[Low(r, v)], v % 512))
  {
  }

  lemma {:induction false} EntryOwned(m0: Mem, o0: map<nat, Use>, page: map<Node, nat>, mem: Mem, owner: map<nat, Use>,
                                      r: nat, first: nat, n: nat, all: nat, e: nat)
    requires Unmapped(m0, o0, page, mem, owner, r, first, n) && TreeOk(mem, owner, page, None) && n < all
    requires Owns(m0, o0, page, r, first, all)
    requires Low(r, first + n) in page && e == mem(page[Low(r, first + n)], (first + n) % 512) && IsValid(e)
    ensures PageOf(e) in owner && owner[PageOf(e)] == Leaf(r, first + n) && Lookup(mem, page, r, first + n) == Some(e)
  {
    UnmapEntry(m0, o0, page, mem, owner, r, first, n, all);
  }

  // ---- uvmalloc and uvmcopy ----

  /** The flat map after pages got[0], got[1], .. were mapped from `first` on with the given permissions. */
  ghost predicate MapGrew(m0: Mem, g0: map<Node, nat>, mem: Mem, page: map<Node, nat>, r: nat, first: nat,
                          got: seq<nat>, perms: seq<nat>) {
    && |perms| == |got| && (forall k | 0 <= k < |perms| :: perms[k] < 1024)
    && forall r': nat, v: nat :: Lookup(mem, page, r', v) ==
         if r' == r && first <= v < first + |got| then Some(MkPte(got[v - first], perms[v - first]))
           else Lookup(m0, g0, r', v)
  }

  /** The pages got[..] came from the free list and are now user memory of tree r; other pages keep
      their use, except that free ones may have become tables. */
  ghost predicate UseGrew(o0: map<nat, Use>, owner: map<nat, Use>, r: nat, first: nat, got: seq<nat>) {
    && (forall p :: p in owner <==> p in o0)
    && (forall k: nat | k < |got| :: got[k] in o0 && o0[got[k]].Free? && owner[got[k]] == Leaf(r, first + k))
    && (forall p | p in o0 ::
          owner[p] == o0[p] || (o0[p].Free?
          && ((owner[p].Tab? && owner[p].u.r == r) || owner[p].Free? || Within(owner[p], r, first, |got|))))
  }

  /** Word j of the k-th new page is c(k, j); pages in use before keep their contents. */
  ghost predicate DataGrew(m0: Mem, o0: map<nat, Use>, mem: Mem, got: seq<nat>, c: (nat, nat) -> nat) {
    && (forall p, j: nat | p in o0 && (o0[p].Leaf? || o0[p] == Kernel) :: mem(p, j) == m0(p, j))
    && (forall k: nat, j: nat | k < |got| :: mem(got[k], j) == c(k, j))
  }

  ghost predicate Grew(m0: Mem, o0: map<nat, Use>, g0: map<Node, nat>, mem: Mem, owner: map<nat, Use>,
                       page: map<Node, nat>, r: nat, first: nat, got: seq<nat>, perms: seq<nat>, c: (nat, nat) -> nat) {
    && MapGrew(m0, g0, mem, page, r, first, got, perms) && UseGrew(o0, owner, r, first, got)
    && DataGrew(m0, o0, mem, got, c)
    && forall u | u in g0 :: u in page && page[u] == g0[u]
  }

  lemma {:induction false} GrewNone(mem: Mem, owner: map<nat, Use>, page: map<Node, nat>, r: nat, first: nat,
                                    c: (nat, nat) -> nat)
    ensures Grew(mem, owner, page, mem, owner, page, r, first, [], [], c)
  {
  }

  /** kalloc gave the page p, it was filled, and mappages put it at the next virtual page. */
  ghost predicate Mounted(mem: Mem, owner: map<nat, Use>, page: map<Node, nat>, p: nat, m2: Mem, o1: map<nat, Use>,
                          m3: Mem, o3: map<nat, Use>, g3: map<Node, nat>, r: nat) {
    && p in owner && owner[p].Free? && o1 == owner[p := Kernel]
    && (forall q: nat, j: nat | q != p :: m2(q, j) == mem(q, j))
    && Grow(m2, o1, page, m3, o3, g3, r)
  }

  lemma {:induction false} UseStep(o0: map<nat, Use>, owner: map<nat, Use>, r: nat, first: nat, got: seq<nat>, p: nat,
                                   o3: map<nat, Use>)
    requires UseGrew(o0, owner, r, first, got) && p in owner && owner[p].Free? && p in o3 && o3[p] == Kernel
    requires forall q :: q in o3 <==> q in owner
    requires forall q | q in owner && q != p :: o3[q] == owner[q] || (owner[q].Free? && o3[q].Tab? && o3[q].u.r == r)
    ensures UseGrew(o0, o3[p := Leaf(r, first + |got|)], r, first, got + [p])
  {
  }

  lemma {:induction false} DataStep(m0: Mem, o0: map<nat, Use>, mem: Mem, owner: map<nat, Use>, page: map<Node, nat>,
                                    r: nat, first: nat, got: seq<nat>, c: (nat, nat) -> nat, p: nat, m2: Mem,
                                    o1: map<nat, Use>, m3: Mem, o3: map<nat, Use>, g3: map<Node, nat>)
    requires DataGrew(m0, o0, mem, got, c) && UseGrew(o0, owner, r, first, got)
    requires Mounted(mem, owner, page, p, m2, o1, m3, o3, g3, r)
    requires forall j: nat :: m2(p, j) == c(|got|, j)
    ensures DataGrew(m0, o0, m3, got + [p], c)
  {
  }

  lemma {:induction false} MapStep(m0: Mem, g0: map<Node, nat>, mem: Mem, page: map<Node, nat>, r: nat, first: nat,
                                   got: seq<nat>, perms: seq<nat>, p: nat, perm: nat, m2: Mem, m3: Mem,
                                   g3: map<Node, nat>)
    requires MapGrew(m0, g0, mem, page, r, first, got, perms) && perm < 1024
    requires forall r': nat, v: nat :: Lookup(m2, page, r', v) == Lookup(mem, page, r', v)
    requires MapsTo(m2, page, m3, g3, r, first + |got|, 1, p, perm)
    ensures MapGrew(m0, g0, m3, g3, r, first, got + [p], perms + [perm])
  {
    hide Lookup, MkPte;
  }

  lemma {:induction false} GrewStep(m0: Mem, o0: map<nat, Use>, g0: map<Node, nat>, mem: Mem, owner: map<nat, Use>,
                                    page: map<Node, nat>, r: nat, first: nat, got: seq<nat>, perms: seq<nat>,
                                    c: (nat, nat) -> nat, p: nat, perm: nat, m2: Mem, o1: map<nat, Use>, m3: Mem,
                                    o3: map<nat, Use>, g3: map<Node, nat>)
    requires Grew(m0, o0, g0, mem, owner, page, r, first, got, perms, c) && TreeOk(mem, owner, page, None)
    requires TreeOk(m3, o3, g3, None)
    requires Mounted(mem, owner, page, p, m2, o1, m3, o3, g3, r) && perm < 1024
    requires MapsTo(m2, page, m3, g3, r, first + |got|, 1, p, perm)
    requires forall j: nat :: m2(p, j) == c(|got|, j)
    ensures p in o3 && o3[p] == Kernel
    ensures TreeOk(m3, o3[p := Leaf(r, first + |got|)], g3, None)
    ensures Grew(m0, o0, g0, m3, o3[p := Leaf(r, first + |got|)], g3, r, first, got + [p], perms + [perm], c)
  {
    hide TreeOk, MapGrew, DataGrew, UseGrew, IsValid, MkPte, PageOf, Pte;
    Reuse(mem, owner, page, None, p, Kernel, m2);
    MapStep(m0, g0, mem, page, r, first, got, perms, p, perm, m2, m3, g3);
    UseStep(o0, owner, r, first, got, p, o3);
    DataStep(m0, o0, mem, owner, page, r, first, got, c, p, m2, o1, m3, o3, g3);
    assert Lookup(m3, g3, r, first + |got|) == Some(MkPte(p, perm));
    OwnLeaf(m3, o3, g3, p, r, first + |got|);
  }

  /** mappages failed at the next virtual page, and the page p went back to the allocator. */
  lemma {:induction false} GrewUndo(m0: Mem, o0: map<nat, Use>, g0: map<Node, nat>, mem: Mem, owner: map<nat, Use>,
                                    page: map<Node, nat>, r: nat, first: nat, got: seq<nat>, perms: seq<nat>,
                                    c: (nat, nat) -> nat, p: nat, perm: nat, m2: Mem, o1: map<nat, Use>, m3: Mem,
                                    o3: map<nat, Use>, g3: map<Node, nat>, k: nat, m4: Mem)
    requires Grew(m0, o0, g0, mem, owner, page, r, first, got, perms, c) && TreeOk(mem, owner, page, None)
    requires TreeOk(m3, o3, g3, None)
    requires Mounted(mem, owner, page, p, m2, o1, m3, o3, g3, r) && perm < 1024
    requires MapsTo(m2, page, m3, g3, r, first + |got|, 0, p, perm)
    requires forall q: nat, j: nat | q != p :: m4(q, j) == m3(q, j)
    ensures p in o3 && o3[p] == Kernel
    ensures TreeOk(m4, o3[p := Free(k)], g3, None)
    ensures Grew(m0, o0, g0, m4, o3[p := Free(k)], g3, r, first, got, perms, c)
  {
    hide TreeOk, IsValid, MkPte, PageOf, Pte, Lookup, MapsTo, UseGrew, DataGrew;
    Reuse(mem, owner, page, None, p, Kernel, m2);
    Reuse(m3, o3, g3, None, p, Free(k), m4);
    UndoLookup(mem, page, m2, m3, g3, r, first + |got|, p, perm, m4);
    UndoUse(o0, owner, r, first, got, p, o3, k);
    UndoData(m0, o0, mem, owner, r, first, got, c, p, m2, o3, m3, m4);
  }

  lemma {:induction false} UndoUse(o0: map<nat, Use>, owner: map<nat, Use>, r: nat, first: nat, got: seq<nat>, p: nat,
                                   o3: map<nat, Use>, k: nat)
    requires UseGrew(o0, owner, r, first, got) && p in owner && owner[p].Free?
    requires forall q :: q in o3 <==> q in owner
    requires forall q | q in owner && q != p :: o3[q] == owner[q] || (owner[q].Free? && o3[q].Tab? && o3[q].u.r == r)
    ensures UseGrew(o0, o3[p := Free(k)], r, first, got)
  {
  }

  lemma {:induction false} UndoData(m0: Mem, o0: map<nat, Use>, mem: Mem, owner: map<nat, Use>, r: nat, first: nat,
                                    got: seq<nat>, c: (nat, nat) -> nat, p: nat, m2: Mem, o3: map<nat, Use>, m3: Mem,
                                    m4: Mem)
    requires DataGrew(m0, o0, mem, got, c) && UseGrew(o0, owner, r, first, got) && p in owner && owner[p].Free?
    requires forall q: nat, j: nat | q != p :: m2(q, j) == mem(q, j)
    requires forall q, j: nat | q in owner && q != p && (owner[q].Leaf? || owner[q] == Kernel) :: m3(q, j) == m2(q, j)
    requires forall q: nat, j: nat | q != p :: m4(q, j) == m3(q, j)
    ensures DataGrew(m0, o0, m4, got, c)
  {
  }

  lemma {:induction false} UndoLookup(mem: Mem, page: map<Node, nat>, m2: Mem, m3: Mem, g3: map<Node, nat>, r: nat,
                                      v0: nat, p: nat, perm: nat, m4: Mem)
    requires perm < 1024 && MapsTo(m2, page, m3, g3, r, v0, 0, p, perm)
    requires forall r': nat, v: nat :: Pte(m2, page, r', v) == Pte(mem, page, r', v)
    requires forall r': nat, v: nat :: Pte(m4, g3, r', v) == Pte(m3, g3, r', v)
    ensures forall r': nat, v: nat :: Lookup(m4, g3, r', v) == Lookup(mem, page, r', v)
  {
    hide Pte, IsValid, MkPte;
    forall r': nat, v: nat ensures Lookup(m4, g3, r', v) == Lookup(mem, page, r', v) {
      assert Lookup(m4, g3, r', v) == Lookup(m3, g3, r', v);
      assert Lookup(m2, page, r', v) == Lookup(mem, page, r', v);
    }
  }

  lemma {:induction false} GrewOwns(m0: Mem, o0: map<nat, Use>, g0: map<Node, nat>, mem: Mem, owner: map<nat, Use>,
                                    page: map<Node, nat>, r: nat, first: nat, got: seq<nat>, perms: seq<nat>,
                                    c: (nat, nat) -> nat)
    requires Grew(m0, o0, g0, mem, owner, page, r, first, got, perms, c)
    ensures Owns(mem, owner, page, r, first, |got|)
    ensures forall v: nat | first <= v < first + |got| :: Lookup(mem, page, r, v).Some?
  {
    hide IsValid, MkPte, PageOf, Pte;
    forall v: nat | first <= v < first + |got| ensures
      Lookup(mem, page, r, v).Some? && PageOf(Lookup(mem, page, r, v).value) in owner
      && owner[PageOf(Lookup(mem, page, r, v).value)] == Leaf(r, v)
    {
      assert owner[got[v - first]] == Leaf(r, first + (v - first));
    }
  }

  /** Unmapping the new pages restores the flat map and returns the pages. */
  lemma {:induction false} GrewRestored(m0: Mem, o0: map<nat, Use>, g0: map<Node, nat>, mem: Mem, owner: map<nat, Use>,
                                        page: map<Node, nat>, r: nat, first: nat, got: seq<nat>, perms: seq<nat>,
                                        c: (nat, nat) -> nat, mem': Mem, owner': map<nat, Use>)
    requires Grew(m0, o0, g0, mem, owner, page, r, first, got, perms, c)
    requires Unmapped(mem, owner, page, mem', owner', r, first, |got|)
    requires forall v: nat | first <= v < first + |got| :: Lookup(m0, g0, r, v) == None
    requires forall p | p in o0 :: !Within(o0[p], r, first, |got|)
    ensures Grew(m0, o0, g0, mem', owner', page, r, first, [], [], c)
  {
    hide Lookup, MkPte;
    forall p, j: nat | p in o0 && (o0[p].Leaf? || o0[p] == Kernel)
      ensures mem'(p, j) == m0(p, j)
    {
      assert owner[p] == o0[p];
    }
  }

  lemma {:induction false} NotWithin(mem: Mem, owner: map<nat, Use>, page: map<Node, nat>, r: nat, first: nat, n: nat)
    requires TreeOk(mem, owner, page, None) && forall v: nat | first <= v < first + n :: Lookup(mem, page, r, v) == None
    ensures forall p | p in owner :: !Within(owner[p], r, first, n)
  {
    hide IsValid, PageOf, Pte, LinksOk, EntriesOk, TabsOk, LowsOk;
    forall p | p in owner ensures !Within(owner[p], r, first, n) {
      assert Within(owner[p], r, first, n) ==>
        owner[p] == Leaf(r, owner[p].v) && Lookup(mem, page, r, owner[p].v) == None;
    }
  }

  /** The page past the new ones is as it was. */
  lemma {:induction false} GrewAt(m0: Mem, o0: map<nat, Use>, g0: map<Node, nat>, mem: Mem, owner: map<nat, Use>,
                                  page: map<Node, nat>, r: nat, first: nat, got: seq<nat>, perms: seq<nat>,
                                  c: (nat, nat) -> nat, r': nat, v: nat)
    requires Grew(m0, o0, g0, mem, owner, page, r, first, got, perms, c) && (r' != r || v >= first + |got|)
    ensures Lookup(mem, page, r', v) == Lookup(m0, g0, r', v)
  {
  }

  lemma {:induction false} GrewData(m0: Mem, o0: map<nat, Use>, g0: map<Node, nat>, mem: Mem, owner: map<nat, Use>,
                                    page: map<Node, nat>, r: nat, first: nat, got: seq<nat>, perms: seq<nat>,
                                    c: (nat, nat) -> nat)
    requires Grew(m0, o0, g0, mem, owner, page, r, first, got, perms, c)
    ensures forall k: nat, j: nat | k < |got| :: mem(got[k], j) == c(k, j)
  {
  }

  lemma {:induction false} GrewRoot(m0: Mem, o0: map<nat, Use>, g0: map<Node, nat>, mem: Mem, owner: map<nat, Use>,
                                    page: map<Node, nat>, r: nat, first: nat, got: seq<nat>, perms: seq<nat>,
                                    c: (nat, nat) -> nat)
    requires Grew(m0, o0, g0, mem, owner, page, r, first, got, perms, c)
    ensures |perms| == |got| && forall u | u in g0 :: u in page
  {
  }

  function PgRoundUp(x: nat): nat { (x + PGSIZE - 1) / PGSIZE * PGSIZE }

  lemma {:induction false} RoundUp(x: nat)
    ensures x <= PgRoundUp(x) < x + PGSIZE && PgRoundUp(x) % PGSIZE == 0 && (x <= MAXVA ==> PgRoundUp(x) <= MAXVA)
  {
  }

  /** perm, n times */
  function Rep(perm: nat, n: nat): (s: seq<nat>)
    ensures |s| == n && forall k | 0 <= k < n :: s[k] == perm
  {
    if n == 0 then [] else Rep(perm, n - 1) + [perm]
  }

  /** A page from the allocator, filled by the kernel. */
  lemma {:induction false} KernelPage(m0: Mem, o0: map<nat, Use>, page: map<Node, nat>, m1: Mem, freelist: nat,
                                      free: seq<nat>, p: nat, m2: Mem)
    requires TreeOk(m0, o0, page, None) && p in o0 && o0[p].Free? && FreeOk(m1, freelist, free, o0[p := Kernel])
    requires forall q: nat, j: nat | q != p :: m1(q, j) == m0(q, j) && m2(q, j) == m0(q, j)
    ensures TreeOk(m2, o0[p := Kernel], page, None) && FreeOk(m2, freelist, free, o0[p := Kernel])
    ensures forall r: nat, v: nat :: Lookup(m2, page, r, v) == Lookup(m0, page, r, v)
  {
    hide TreeOk, FreeOk, Pte;
    Reuse(m0, o0, page, None, p, Kernel, m2);
    FreeKept(m1, freelist, free, o0[p := Kernel], p, Kernel, m2);
    assert o0[p := Kernel][p := Kernel] == o0[p := Kernel];
  }

  lemma {:induction false} MountedUse(m0: Mem, o0: map<nat, Use>, g0: map<Node, nat>, p: nat, m2: Mem, m3: Mem,
                                      o3: map<nat, Use>, g3: map<Node, nat>, r: nat)
    requires p in o0 && o0[p].Free? && Grow(m2, o0[p := Kernel], g0, m3, o3, g3, r)
    requires forall q: nat, j: nat | q != p :: m2(q, j) == m0(q, j)
    ensures Mounted(m0, o0, g0, p, m2, o0[p := Kernel], m3, o3, g3, r) && p in o3 && o3[p] == Kernel
    ensures forall u | u in g0 :: u in g3
  {
  }

  /** uvmdealloc or uvmunmap took the new pages away again. */
  lemma {:induction false} Undone(m0: Mem, o0: map<nat, Use>, g0: map<Node, nat>, mem: Mem, owner: map<nat, Use>,
                                  page: map<Node, nat>, r: nat, first: nat, got: seq<nat>, perms: seq<nat>,
                                  c: (nat, nat) -> nat, mem': Mem, owner': map<nat, Use>)
    requires Grew(m0, o0, g0, mem, owner, page, r, first, got, perms, c) && TreeOk(m0, o0, g0, None)
    requires (got == [] && mem' == mem && owner' == owner) || Unmapped(mem, owner, page, mem', owner', r, first, |got|)
    requires forall v: nat | first <= v < first + |got| :: Lookup(m0, g0, r, v) == None
    ensures Grew(m0, o0, g0, mem', owner', page, r, first, [], [], c)
  {
    if got == [] && mem' == mem && owner' == owner {
      GrewRoot(m0, o0, g0, mem, owner, page, r, first, got, perms, c);
      assert perms == [];
    } else {
      hide Grew, TreeOk, Unmapped;
      NotWithin(m0, o0, g0, r, first, |got|);
      GrewRestored(m0, o0, g0, mem, owner, page, r, first, got, perms, c, mem', owner');
    }
  }

  lemma {:induction false} RepNext(perm: nat, n: nat)
    ensures Rep(perm, n + 1) == Rep(perm, n) + [perm]
  {
  }

  /** The contents of the pages of tree r. */
  function WordAt(mem: Mem, page: map<Node, nat>, r: nat, v: nat, j: nat): nat {
    if Lookup(mem, page, r, v).Some? then mem(PageOf(Lookup(mem, page, r, v).value), j) else 0
  }

  function CopyOf(mem: Mem, page: map<Node, nat>, r: nat): (nat, nat) -> nat {
    (v, j) => WordAt(mem, page, r, v, j)
  }

  /** uvmcopy's next source page: its entry and contents are what they were at the start. */
  lemma {:induction false} CopySource(m0: Mem, o0: map<nat, Use>, g0: map<Node, nat>, mem: Mem, owner: map<nat, Use>,
                                      page: map<Node, nat>, src: nat, dst: nat, got: seq<nat>, perms: seq<nat>, n: nat,
                                      e: nat)
    requires Grew(m0, o0, g0, mem, owner, page, dst, 0, got, perms, CopyOf(m0, g0, src))
    requires TreeOk(mem, owner, page, None) && src != dst && |got| < n
    requires Owns(m0, o0, g0, src, 0, n) && Low(src, |got|) in page && e == mem(page[Low(src, |got|)], |got| % 512)
    requires IsValid(e)
    ensures Lookup(m0, g0, src, |got|) == Some(e) && Flags(e) < 1024 && Flags(e) / 2 % 8 != 0
    ensures PageOf(e) in owner && !owner[PageOf(e)].Free?
    ensures forall j: nat :: CopyOf(m0, g0, src)(|got|, j) == mem(PageOf(e), j)
  {
    GrewAt(m0, o0, g0, mem, owner, page, dst, 0, got, perms, CopyOf(m0, g0, src), src, |got|);
    assert Lookup(mem, page, src, |got|) == Some(e);
    assert IsLeaf(e);
    FlagBits(e);
    assert o0[PageOf(e)] == Leaf(src, |got|);
  }

  lemma {:induction false} FlagBits(e: nat)
    ensures Flags(e) / 2 % 8 == e / 2 % 8
  {
    var k, r := e / 1024, e % 1024;
    assert e == (k * 512 + r / 2) * 2 + r % 2;
    Half(k * 512 + r / 2, r % 2);
    LowBits(k * 64, r / 2);
  }

  // ---- what a process sees ----

  /** Word j of virtual page v, as the hardware loads it with the table r. */
  function Load(mem: Mem, r: nat, v: nat, j: nat): Option<nat> {
    if HwWalk(mem, r, v).Some? then Some(mem(PageOf(HwWalk(mem, r, v).value), j)) else None
  }

  /** After uvmcopy, as its contract describes it, the child reads in its own pages what the parent reads in its, with
      the same permissions; and the parent reads what it read before. */
  lemma {:induction false} CopySeen(m0: Mem, o0: map<nat, Use>, g0: map<Node, nat>, mem: Mem, owner: map<nat, Use>,
                                    page: map<Node, nat>, src: nat, dst: nat, got: seq<nat>, perms: seq<nat>, v: nat,
                                    j: nat)
    requires TreeOk(m0, o0, g0, None) && TreeOk(mem, owner, page, None) && src != dst && v < |got| && v < MAXPAGE
    requires Node(src, 2, 0) in g0 && Node(dst, 2, 0) in g0 && Owns(m0, o0, g0, src, 0, |got|)
    requires Grew(m0, o0, g0, mem, owner, page, dst, 0, got, perms, CopyOf(m0, g0, src))
    requires Lookup(m0, g0, src, v).Some? && perms[v] == Flags(Lookup(m0, g0, src, v).value)
    ensures Load(m0, src, v, j).Some? && Load(mem, src, v, j) == Load(mem, dst, v, j) == Load(m0, src, v, j)
    ensures var e, d := HwWalk(mem, src, v).value, HwWalk(mem, dst, v).value;
            Flags(d) == Flags(e) == Flags(HwWalk(m0, src, v).value) && PageOf(d) != PageOf(e)
  {
    hide TreeOk, Lookup, IsLeaf, Flags, PageOf, HwWalk;
    HwWalkIsPte(m0, o0, g0, src, v);
    HwWalkIsPte(mem, owner, page, src, v);
    HwWalkIsPte(mem, owner, page, dst, v);
    var e := Lookup(m0, g0, src, v).value;
    assert Lookup(mem, page, src, v) == Some(e) && Lookup(mem, page, dst, v) == Some(MkPte(got[v], perms[v]));
    assert o0[PageOf(e)] == Leaf(src, v) && o0[got[v]].Free?;
    FlagsKept(m0, g0, src, v);
  }

  lemma {:induction false} FlagsKept(mem: Mem, page: map<Node, nat>, r: nat, v: nat)
    requires Lookup(mem, page, r, v).Some?
    ensures var f := Flags(Lookup(mem, page, r, v).value); f < 1024 && f / 2 * 2 + 1 == f
  {
  }

  /** After uvmalloc a process reads zeros in its new pages and what it read before in the others. */
  lemma {:induction false} GrowSeen(m0: Mem, o0: map<nat, Use>, g0: map<Node, nat>, mem: Mem, owner: map<nat, Use>,
                                    page: map<Node, nat>, r: nat, first: nat, got: seq<nat>, perms: seq<nat>,
                                    c: (nat, nat) -> nat, v: nat, j: nat)
    requires TreeOk(m0, o0, g0, None) && TreeOk(mem, owner, page, None) && Node(r, 2, 0) in g0 && v < MAXPAGE
    requires Grew(m0, o0, g0, mem, owner, page, r, first, got, perms, c)
    ensures first <= v < first + |got| ==> Load(mem, r, v, j) == Some(c(v - first, j))
    ensures first <= v < first + |got| ==> Flags(HwWalk(mem, r, v).value) == perms[v - first] / 2 * 2 + 1
    ensures !(first <= v < first + |got|) && Owns(m0, o0, g0, r, v, 1) ==> Load(mem, r, v, j) == Load(m0, r, v, j)
  {
    hide TreeOk, Lookup, IsLeaf, Flags, PageOf, HwWalk;
    HwWalkIsPte(m0, o0, g0, r, v);
    HwWalkIsPte(mem, owner, page, r, v);
    assert Lookup(mem, page, r, v) == if first <= v < first + |got| then Some(MkPte(got[v - first], perms[v - first]))
      else Lookup(m0, g0, r, v);
    if !(first <= v < first + |got|) && Owns(m0, o0, g0, r, v, 1) && Lookup(m0, g0, r, v).Some? {
      assert o0[PageOf(Lookup(m0, g0, r, v).value)] == Leaf(r, v);
    }
  }

  // ---- freewalk over a whole tree ----

  /** Table w is u or lies under it. */
  predicate Under(w: Node, u: Node) {
    && w.r == u.r && w.l <= u.l
    && (w.l == u.l ==> w.pre == u.pre) && (w.l + 1 == u.l ==> w.pre / 512 == u.pre)
    && (w.l + 2 == u.l ==> w.pre / 512 / 512 == u.pre)
  }

  /** Virtual page v is translated through table u. */
  predicate Above(u: Node, v: nat) { Under(Low(u.r, v), u) }

  /** Only tables under u went away; nothing else changed. */
  ghost predicate Pruned(m0: Mem, o0: map<nat, Use>, g0: map<Node, nat>, mem: Mem, owner: map<nat, Use>,
                         page: map<Node, nat>, u: Node) {
    && (forall r: nat, v: nat :: Lookup(mem, page, r, v) == Lookup(m0, g0, r, v))
    && (forall w | w in page :: w in g0 && page[w] == g0[w])
    && (forall w | w in g0 && !(Under(w, u) && w != u) :: w in page || w == u)
    && (forall w, j: nat | w in g0 && w in page && !Under(w, u) :: mem(g0[w], j) == m0(g0[w], j))
    && (forall p :: p in owner <==> p in o0)
    && (forall p | p in o0 :: owner[p] == o0[p] || (o0[p].Tab? && Under(o0[p].u, u) && owner[p].Free?))
    && (forall p, j: nat | p in o0 && (o0[p].Leaf? || o0[p] == Kernel) :: mem(p, j) == m0(p, j))
  }

  lemma {:induction false} PrunedNone(mem: Mem, owner: map<nat, Use>, page: map<Node, nat>, u: Node)
    ensures Pruned(mem, owner, page, mem, owner, page, u)
  {
  }

  lemma {:induction false} PrunedLookup(m0: Mem, o0: map<nat, Use>, g0: map<Node, nat>, mem: Mem, owner: map<nat, Use>,
                                        page: map<Node, nat>, u: Node, r: nat, v: nat)
    requires Pruned(m0, o0, g0, mem, owner, page, u)
    ensures Lookup(mem, page, r, v) == Lookup(m0, g0, r, v)
  {
  }

  /** What freewalk finds in entry i of table u. */
  lemma {:induction false} WalkEntry(mem: Mem, owner: map<nat, Use>, page: map<Node, nat>, u: Node, i: nat)
    requires TreeOk(mem, owner, page, None) && u in page && i < 512
    ensures u.l > 0 && IsValid(mem(page[u], i)) ==>
              !IsLeaf(mem(page[u], i)) && Child(u, i) in page && page[Child(u, i)] == PageOf(mem(page[u], i))
    ensures u.l == 0 && IsValid(mem(page[u], i)) ==>
              IsLeaf(mem(page[u], i)) && Above(u, u.pre * 512 + i) && Lookup(mem, page, u.r, u.pre * 512 + i).Some?
  {
    if u.l > 0 {
      hide IsValid, IsLeaf, PageOf;
      assert IsValid(mem(page[u], i)) ==> Child(u, i) in page;
    } else {
      var v := u.pre * 512 + i;
      assert v / 512 == u.pre && v % 512 == i;
      assert Low(u.r, v) == u;
      hide IsValid, IsLeaf;
    }
  }

  lemma {:induction false} AboveChild(u: Node, i: nat, v: nat)
    requires 0 < u.l <= 2 && i < 512 && Above(Child(u, i), v)
    ensures Above(u, v)
  {
  }

  lemma {:induction false} UnderChild(u: Node, i: nat, w: Node)
    requires 0 < u.l <= 2 && i < 512 && Under(w, Child(u, i))
    ensures Under(w, u) && w != u && !Under(u, Child(u, i))
  {
  }

  lemma {:induction false} TableOwner(mem: Mem, owner: map<nat, Use>, page: map<Node, nat>, u: Node)
    requires TreeOk(mem, owner, page, None) && u in page
    ensures page[u] in owner && owner[page[u]] == Tab(u) && u.l <= 2
  {
  }

  lemma {:induction false} PrunedTrans(m0: Mem, o0: map<nat, Use>, g0: map<Node, nat>, m1: Mem, o1: map<nat, Use>,
                                       g1: map<Node, nat>, m2: Mem, o2: map<nat, Use>, g2: map<Node, nat>, u: Node,
                                       i: nat)
    requires 0 < u.l <= 2 && i < 512 && Pruned(m0, o0, g0, m1, o1, g1, u) && Pruned(m1, o1, g1, m2, o2, g2, Child(u, i))
    requires Child(u, i) !in g2
    ensures Pruned(m0, o0, g0, m2, o2, g2, u)
  {
    hide Lookup, Child;
    forall w ensures Under(w, Child(u, i)) ==> Under(w, u) && w != u { if Under(w, Child(u, i)) {
      UnderChild(u, i, w);
      }
    }
    assert Under(Child(u, i), Child(u, i));
    hide Under;
    forall p | p in o0
      ensures o2[p] == o0[p] || (o0[p].Tab? && Under(o0[p].u, u) && o2[p].Free?)
    {
      assert o1[p] == o0[p] || o1[p].Free?;
    }
  }

  /** Freeing a child of u leaves u itself. */
  lemma {:induction false} ChildKept(m0: Mem, o0: map<nat, Use>, g0: map<Node, nat>, m1: Mem, o1: map<nat, Use>,
                                     g1: map<Node, nat>, u: Node, i: nat)
    requires 0 < u.l <= 2 && i < 512 && TreeOk(m0, o0, g0, None) && u in g0
    requires Pruned(m0, o0, g0, m1, o1, g1, Child(u, i)) && TreeOk(m1, o1, g1, Some(Child(u, i))) && Child(u, i) !in g1
    ensures u in g1 && g1[u] == g0[u] && g1[u] in o1 && o1[g1[u]] == Tab(u)
    ensures (forall j: nat :: m1(g0[u], j) == m0(g0[u], j)) && forall w | w in g1 && w != u :: g1[w] != g1[u]
  {
    hide Lookup;
    var c := Child(u, i);
    assert Under(c, c);
    UnderChild(u, i, c);
    assert u in g1 && g1[u] == g0[u];
    assert g1[u] in o1 && o1[g1[u]] == Tab(u);
  }

  /** A child of u was freed and its entry cleared. */
  lemma {:induction false} ChildPruned(mo: Mem, oo: map<nat, Use>, go: map<Node, nat>, m0: Mem, o0: map<nat, Use>,
                                       g0: map<Node, nat>, m1: Mem, o1: map<nat, Use>, g1: map<Node, nat>, u: Node,
                                       i: nat, freelist: nat, free: seq<nat>, mem': Mem)
    requires 0 < u.l <= 2 && i < 512 && Pruned(mo, oo, go, m0, o0, g0, u) && TreeOk(m0, o0, g0, None) && u in g0
    requires Pruned(m0, o0, g0, m1, o1, g1, Child(u, i)) && TreeOk(m1, o1, g1, Some(Child(u, i))) && Child(u, i) !in g1
    requires FreeOk(m1, freelist, free, o1)
    requires forall q: nat, j: nat :: mem'(q, j) == if q == g0[u] && j == i then 0 else m1(q, j)
    ensures u in g1 && g1[u] == g0[u] && TreeOk(mem', o1, g1, None) && FreeOk(mem', freelist, free, o1)
    ensures Pruned(mo, oo, go, mem', o1, g1, u)
    ensures forall j: nat :: mem'(g0[u], j) == if j == i then 0 else m0(g0[u], j)
  {
    hide Under, Lookup, TreeOk, Child, FreeOk, IsValid, Pruned;
    ChildKept(m0, o0, g0, m1, o1, g1, u, i);
    PrunedTrans(mo, oo, go, m0, o0, g0, m1, o1, g1, u, i);
    ClearEntry(m1, o1, g1, u, i, mem');
    FreeKept(m1, freelist, free, o1, g1[u], Tab(u), mem');
    assert o1[g1[u] := Tab(u)] == o1;
    ClearedPruned(mo, oo, go, m1, o1, g1, u, mem');
  }

  lemma {:induction false} ClearedPruned(m0: Mem, o0: map<nat, Use>, g0: map<Node, nat>, m1: Mem, o1: map<nat, Use>,
                                         g1: map<Node, nat>, u: Node, mem': Mem)
    requires Pruned(m0, o0, g0, m1, o1, g1, u) && u in g1 && g1[u] in o1 && o1[g1[u]] == Tab(u)
    requires (forall w | w in g1 && w != u :: g1[w] != g1[u])
    requires forall q: nat, j: nat | q != g1[u] :: mem'(q, j) == m1(q, j)
    requires forall r: nat, v: nat :: Pte(mem', g1, r, v) == Pte(m1, g1, r, v)
    ensures Pruned(m0, o0, g0, mem', o1, g1, u)
  {
    assert Under(u, u);
    hide Under, IsValid, Pte;
    forall r: nat, v: nat
      ensures Lookup(mem', g1, r, v) == Lookup(m0, g0, r, v)
    {
      assert Pte(mem', g1, r, v) == Pte(m1, g1, r, v);
      assert Lookup(m1, g1, r, v) == Lookup(m0, g0, r, v);
    }
  }

  /** Table u itself is freed once all its entries are clear. */
  lemma {:induction false} SelfPruned(mo: Mem, oo: map<nat, Use>, go: map<Node, nat>, m0: Mem, o0: map<nat, Use>,
                                      page: map<Node, nat>, u: Node, k: nat, mem': Mem)
    requires Pruned(mo, oo, go, m0, o0, page, u) && TreeOk(m0, o0, page, None) && u in page
    requires forall i: nat | i < 512 :: !IsValid(m0(page[u], i))
    requires forall q: nat, j: nat | q != page[u] :: mem'(q, j) == m0(q, j)
    ensures TreeOk(mem', o0[page[u] := Free(k)], page - {u}, Some(u))
    ensures Pruned(mo, oo, go, mem', o0[page[u] := Free(k)], page - {u}, u)
  {
    assert page[u] in o0 && o0[page[u]] == Tab(u);
    assert forall w | w in page && w != u :: page[w] != page[u];
    assert Under(u, u);
    hide Under, Lookup, TreeOk, IsValid;
    DropTable(m0, o0, page, u, k, mem');
  }

  /** With u gone nothing is translated through it. */
  lemma {:induction false} NoneAbove(m0: Mem, o0: map<nat, Use>, g0: map<Node, nat>, mem: Mem, owner: map<nat, Use>,
                                     page: map<Node, nat>, u: Node)
    requires Pruned(m0, o0, g0, mem, owner, page, u) && TreeOk(mem, owner, page, Some(u)) && u !in page && u.l <= 2
    ensures NoLeaf(m0, g0, u)
  {
    hide IsValid;
    ZeroInvalid();
    forall v: nat ensures Above(u, v) ==> Lookup(m0, g0, u.r, v) == None {
      var w := Low(u.r, v);
      assert w in page ==> Parent(w) in page && Parent(Parent(w)) in page;
      assert Lookup(mem, page, u.r, v) == Lookup(m0, g0, u.r, v);
    }
  }

  /** A zeroed page becomes the root of an empty tree. */
  lemma {:induction false} NewRoot(m0: Mem, o0: map<nat, Use>, page: map<Node, nat>, m1: Mem, freelist: nat,
                                   free: seq<nat>, r: nat, m2: Mem)
    requires TreeOk(m0, o0, page, None) && r in o0 && o0[r].Free? && FreeOk(m1, freelist, free, o0[r := Kernel])
    requires (forall q: nat, j: nat | q != r :: m1(q, j) == m0(q, j) && m2(q, j) == m0(q, j))
    requires forall j: nat :: m2(r, j) == 0
    ensures Node(r, 2, 0) !in page
    ensures TreeOk(m2, o0[r := Tab(Node(r, 2, 0))], page[Node(r, 2, 0) := r], None)
    ensures FreeOk(m2, freelist, free, o0[r := Tab(Node(r, 2, 0))])
    ensures forall r': nat, v: nat ::
              Lookup(m2, page[Node(r, 2, 0) := r], r', v) == Lookup(m0, page, r', v)
              && (r' == r ==> Lookup(m0, page, r', v) == None)
  {
    hide IsValid, IsLeaf, PageOf, TablePte;
    ZeroInvalid();
    KernelPage(m0, o0, page, m1, freelist, free, r, m2);
    FreeKept(m2, freelist, free, o0[r := Kernel], r, Tab(Node(r, 2, 0)), m2);
    assert o0[r := Kernel][r := Tab(Node(r, 2, 0))] == o0[r := Tab(Node(r, 2, 0))];
    var page' := page[Node(r, 2, 0) := r];
    forall w {:trigger Parent(w)} | w in page' && w.l < 2
      ensures Parent(w) in page' && m2(page'[Parent(w)], w.pre % 512) == TablePte(page'[w])
    {
      assert Parent(w) in page;
    }
    NoTables(m0, o0, page, r);
  }

  /** A page that is not a table is no root, so nothing is mapped in it. */
  lemma {:induction false} NoTables(mem: Mem, owner: map<nat, Use>, page: map<Node, nat>, r: nat)
    requires TreeOk(mem, owner, page, None) && Node(r, 2, 0) !in page
    ensures forall w | w in page :: w.r != r
    ensures forall v: nat :: Lookup(mem, page, r, v) == None
  {
    hide IsValid;
    ZeroInvalid();
    forall w | w in page ensures w.r != r {
      if w.l < 2 {
        assert Parent(w) in page;
        if w.l == 0 { assert Parent(Parent(w)) in page; }
      }
    }
  }

  // ---- freeing a tree ----

  /** The page is a table or user memory of tree r. */
  predicate Of(u: Use, r: nat) { (u.Tab? && u.u.r == r) || (u.Leaf? && u.r == r) }

  /** Tree r is gone and its pages are free; everything else is as it was. */
  ghost predicate Gone(m0: Mem, o0: map<nat, Use>, g0: map<Node, nat>, mem: Mem, owner: map<nat, Use>,
                       page: map<Node, nat>, r: nat) {
    && (forall p :: p in owner <==> p in o0)
    && (forall p | p in o0 :: if Of(o0[p], r) then owner[p].Free? else owner[p] == o0[p])
    && (forall w :: w in page <==> w in g0 && w.r != r) && (forall w | w in page :: page[w] == g0[w])
    && (forall r': nat, v: nat :: Lookup(mem, page, r', v) == if r' == r then None else Lookup(m0, g0, r', v))
    && (forall p, j: nat | p in o0 && !Of(o0[p], r) && (o0[p].Leaf? || o0[p] == Kernel) :: mem(p, j) == m0(p, j))
  }

  /** Every table of tree r lies under its root, and so does every mapped page. */
  lemma {:induction false} AllUnder(mem: Mem, owner: map<nat, Use>, page: map<Node, nat>, r: nat, hole: Option<Node>)
    requires TreeOk(mem, owner, page, hole)
    ensures forall w | w in page && w.r == r :: Under(w, Node(r, 2, 0))
    ensures forall v: nat | Lookup(mem, page, r, v).Some? :: Above(Node(r, 2, 0), v)
  {
    hide IsValid, IsLeaf, PageOf, LowsOk, EntriesOk, LeavesOk;
    ZeroInvalid();
    forall w | w in page && w.r == r ensures Under(w, Node(r, 2, 0)) {
      if w.l < 2 {
        assert Parent(w) in page;
        if w.l == 0 { assert Parent(Parent(w)) in page; }
      }
    }
  }

  /** With its root gone, tree r has no table left. */
  lemma {:induction false} RootGone(mem: Mem, owner: map<nat, Use>, page: map<Node, nat>, r: nat)
    requires TreeOk(mem, owner, page, Some(Node(r, 2, 0))) && Node(r, 2, 0) !in page
    ensures TreeOk(mem, owner, page, None)
    ensures forall w | w in page :: w.r != r
    ensures forall v: nat :: Lookup(mem, page, r, v) == None
    ensures forall p | p in owner :: !Of(owner[p], r)
  {
    hide IsLeaf, LowsOk;
    assert EntriesOk(mem, page, None) by {
      forall u, i: nat {:trigger Child(u, i)} | u in page && 0 < u.l && i < 512 && IsValid(mem(page[u], i))
        ensures Child(u, i) in page && mem(page[u], i) == TablePte(page[Child(u, i)])
      {
        assert Child(u, i) != Node(r, 2, 0);
      }
    }
    NoTables(mem, owner, page, r);
    forall p | p in owner ensures !Of(owner[p], r) {
      assert owner[p].Leaf? && owner[p].r == r ==>
        owner[p] == Leaf(r, owner[p].v) && Lookup(mem, page, r, owner[p].v) == None;
    }
  }

  /** uvmunmap and then freewalk from the root. */
  lemma {:induction false} TreeGone(m0: Mem, o0: map<nat, Use>, page: map<Node, nat>, m1: Mem, o1: map<nat, Use>,
                                    r: nat, n: nat, m2: Mem, o2: map<nat, Use>, g2: map<Node, nat>)
    requires TreeOk(m0, o0, page, None) && Unmapped(m0, o0, page, m1, o1, r, 0, n)
    requires Pruned(m1, o1, page, m2, o2, g2, Node(r, 2, 0))
    requires TreeOk(m2, o2, g2, Some(Node(r, 2, 0))) && Node(r, 2, 0) !in g2
    ensures TreeOk(m2, o2, g2, None) && Gone(m0, o0, page, m2, o2, g2, r)
  {
    RootGone(m2, o2, g2, r);
    AllUnder(m0, o0, page, r, None);
    hide Lookup, TreeOk, Above;
    forall w | w in page && w.r != r ensures w in g2 { assert !Under(w, Node(r, 2, 0)); }
    forall p | p in o0 ensures if Of(o0[p], r) then o2[p].Free? else o2[p] == o0[p] { assert !Of(o2[p], r); }
  }

  lemma {:induction false} RootPage(mem: Mem, owner: map<nat, Use>, page: map<Node, nat>, r: nat)
    requires TreeOk(mem, owner, page, None) && Node(r, 2, 0) in page
    ensures page[Node(r, 2, 0)] == r
  {
  }

  /** The pages mapped in tree r are exactly those below n. */
  ghost predicate MappedBelow(mem: Mem, page: map<Node, nat>, r: nat, n: nat) {
    forall v: nat :: Lookup(mem, page, r, v).Some? <==> v < n
  }

  /** The pages mapped in tree r are those below n, the trap frame and the trampoline. */
  ghost predicate ProcMapped(mem: Mem, page: map<Node, nat>, r: nat, n: nat) {
    forall v: nat :: Lookup(mem, page, r, v).Some? <==> v < n || v == TRAPFRAME / PGSIZE || v == TRAMPOLINE / PGSIZE
  }

  /** No page is mapped through table u. */
  ghost predicate NoLeaf(mem: Mem, page: map<Node, nat>, u: Node) {
    forall v: nat | Above(u, v) :: Lookup(mem, page, u.r, v) == None
  }

  lemma {:induction false} LeafFound(mem: Mem, page: map<Node, nat>, u: Node, v: nat)
    requires Above(u, v) && Lookup(mem, page, u.r, v).Some?
    ensures !NoLeaf(mem, page, u)
  {
  }

  /** A leaf under a child of u is one under u. */
  lemma {:induction false} LeafInChild(m0: Mem, o0: map<nat, Use>, g0: map<Node, nat>, mem: Mem, owner: map<nat, Use>,
                                       page: map<Node, nat>, u: Node, i: nat)
    requires 0 < u.l <= 2 && i < 512 && Pruned(m0, o0, g0, mem, owner, page, u) && !NoLeaf(mem, page, Child(u, i))
    ensures !NoLeaf(m0, g0, u)
  {
    hide Pruned, Lookup, Above;
    var v: nat :| Above(Child(u, i), v) && Lookup(mem, page, Child(u, i).r, v) != None;
    AboveChild(u, i, v);
    PrunedLookup(m0, o0, g0, mem, owner, page, u, u.r, v);
  }

  /** What is still mapped after uvmunmap of the pages below n. */
  lemma {:induction false} LeftMapped(m0: Mem, o0: map<nat, Use>, page: map<Node, nat>, mem: Mem, owner: map<nat, Use>,
                                      r: nat, n: nat)
    requires Unmapped(m0, o0, page, mem, owner, r, 0, n) && TreeOk(mem, owner, page, None)
    requires AllMapped(m0, page, r, 0, n)
    ensures NoLeaf(mem, page, Node(r, 2, 0)) <==> MappedBelow(m0, page, r, n)
  {
    hide TreeOk, Above, Lookup;
    AllUnder(mem, owner, page, r, None);
    assert forall v: nat :: Lookup(mem, page, r, v) == if v < n then None else Lookup(m0, page, r, v);
    assert forall v: nat :: Lookup(m0, page, r, v).Some? ==> v < n || Lookup(mem, page, r, v).Some?;
  }

  lemma {:induction false} BelowAllMapped(mem: Mem, page: map<Node, nat>, r: nat, n: nat)
    requires n <= MAXPAGE && MappedBelow(mem, page, r, n)
    ensures AllMapped(mem, page, r, 0, n)
  {
  }

  lemma {:induction false} OwnsNoneParts(owner: map<nat, Use>, r: nat, first: nat)
    requires OwnsNone(owner, r, first, 2)
    ensures OwnsNone(owner, r, first, 1) && OwnsNone(owner, r, first + 1, 1)
  {
  }

  /** Unmapping a page that was not the tree's own changes nothing but that entry. */
  lemma {:induction false} UnmappedRest(m0: Mem, o0: map<nat, Use>, page: map<Node, nat>, mem: Mem,
                                        owner: map<nat, Use>, r: nat, v: nat)
    requires Unmapped(m0, o0, page, mem, owner, r, v, 1) && OwnsNone(o0, r, v, 1)
    ensures owner == o0
    ensures forall r': nat, v': nat ::
              Lookup(mem, page, r', v') == if r' == r && v' == v then None else Lookup(m0, page, r', v')
    ensures forall p, j: nat | p in o0 && (o0[p].Leaf? || o0[p] == Kernel) :: mem(p, j) == m0(p, j)
  {
    hide Lookup;
  }

  /** The trampoline and trap frame are out of the way of the user memory. */
  lemma {:induction false} BelowFrames(m0: Mem, o0: map<nat, Use>, page: map<Node, nat>, m1: Mem, o1: map<nat, Use>,
                                       m2: Mem, o2: map<nat, Use>, r: nat, n: nat)
    requires Owns(m0, o0, page, r, 0, n) && n <= TRAPFRAME / PGSIZE && o2 == o1 == o0
    requires forall r': nat, v: nat ::
               Lookup(m1, page, r', v) == if r' == r && v == TRAMPOLINE / PGSIZE then None else Lookup(m0, page, r', v)
    requires forall r': nat, v: nat ::
               Lookup(m2, page, r', v) == if r' == r && v == TRAPFRAME / PGSIZE then None else Lookup(m1, page, r', v)
    ensures Owns(m2, o2, page, r, 0, n)
    ensures Lookup(m0, page, r, TRAMPOLINE / PGSIZE).Some? && Lookup(m1, page, r, TRAPFRAME / PGSIZE).Some? ==>
      (MappedBelow(m2, page, r, n) <==> ProcMapped(m0, page, r, n))
  {
    hide Lookup, PageOf;
    assert forall v: nat ::
             Lookup(m2, page, r, v) == if v == TRAMPOLINE / PGSIZE || v == TRAPFRAME / PGSIZE then None
               else Lookup(m0, page, r, v);
    assert forall v: nat ::
             Lookup(m0, page, r, v).Some? ==>
               v == TRAMPOLINE / PGSIZE || v == TRAPFRAME / PGSIZE || Lookup(m2, page, r, v).Some?;
  }

  lemma {:induction false} NotProcMapped(mem: Mem, page: map<Node, nat>, r: nat, n: nat, v: nat)
    requires (v == TRAPFRAME / PGSIZE || v == TRAMPOLINE / PGSIZE) && Lookup(mem, page, r, v) == None
    ensures !ProcMapped(mem, page, r, n)
  {
  }

  lemma {:induction false} GoneFrom(m0: Mem, o0: map<nat, Use>, g0: map<Node, nat>, m1: Mem, o1: map<nat, Use>, m2: Mem,
                                    o2: map<nat, Use>, mem: Mem, owner: map<nat, Use>, page: map<Node, nat>, r: nat)
    requires Gone(m2, o2, g0, mem, owner, page, r) && o2 == o1 == o0
    requires forall r': nat, v: nat | r' != r :: Lookup(m2, g0, r', v) == Lookup(m0, g0, r', v)
    requires forall p, j: nat | p in o0 && (o0[p].Leaf? || o0[p] == Kernel) :: m1(p, j) == m0(p, j)
    requires forall p, j: nat | p in o0 && (o0[p].Leaf? || o0[p] == Kernel) :: m2(p, j) == m1(p, j)
    ensures Gone(m0, o0, g0, mem, owner, page, r)
  {
    hide Lookup;
  }

  // ---- proc_pagetable ----

  /** Pages that were free may now be tables of tree r; no other use changed. */
  ghost predicate Lent(o0: map<nat, Use>, owner: map<nat, Use>, r: nat) {
    && (forall p :: p in owner <==> p in o0)
    && forall p | p in o0 :: owner[p] == o0[p]
         || (o0[p].Free? && (owner[p].Free? || (owner[p].Tab? && owner[p].u.r == r)))
  }

  /** The same pages are free as before, perhaps in another order. */
  ghost predicate Returned(o0: map<nat, Use>, owner: map<nat, Use>) {
    && (forall p :: p in owner <==> p in o0)
    && forall p | p in o0 :: owner[p] == o0[p] || (o0[p].Free? && owner[p].Free?)
  }

  lemma {:induction false} LentGrow(o0: map<nat, Use>, m1: Mem, o1: map<nat, Use>, g1: map<Node, nat>, mem: Mem,
                                    owner: map<nat, Use>, page: map<Node, nat>, r: nat)
    requires Lent(o0, o1, r) && Grow(m1, o1, g1, mem, owner, page, r)
    ensures Lent(o0, owner, r) && forall w | w in g1 :: w in page
  {
  }

  lemma {:induction false} LentGone(o0: map<nat, Use>, m1: Mem, o1: map<nat, Use>, g1: map<Node, nat>, mem: Mem,
                                    owner: map<nat, Use>, page: map<Node, nat>, r: nat)
    requires Lent(o0, o1, r) && Gone(m1, o1, g1, mem, owner, page, r) && forall p | p in o0 :: !Of(o0[p], r)
    ensures Returned(o0, owner)
  {
  }

  /** A tree with no table owns no page. */
  /** A new tree needs two tables for the trampoline, */
  lemma {:induction false} FirstFrame(mem: Mem, owner: map<nat, Use>, page: map<Node, nat>, page': map<Node, nat>,
                                      f: nat, r: nat)
    requires TreeOk(mem, owner, page, None) && Node(r, 2, 0) !in page && page' == page[Node(r, 2, 0) := r]
    ensures Short(page'.Keys, f, PathTo(r, TRAMPOLINE / PGSIZE, 0), 0) <==> f < 2
  {
    hide TreeOk;
    NoTables(mem, owner, page, r);
    var g, a, b := page'.Keys, OnPath(r, TRAMPOLINE / PGSIZE, 1), OnPath(r, TRAMPOLINE / PGSIZE, 0);
    assert a !in g && b !in g && a != b;
    assert g + {a, b} == g + {a} + {b};
  }

  /** and none for the trap frame next to it. */
  lemma {:induction false} SecondFrame(g0: set<Node>, f0: nat, g: set<Node>, f: nat, r: nat)
    requires Took(g0, f0, g, f, PathTo(r, TRAMPOLINE / PGSIZE, 0), 0)
    ensures Short(g, f, PathTo(r, TRAPFRAME / PGSIZE, 0), 0) ==> f0 < 2
  {
    assert PathTo(r, TRAPFRAME / PGSIZE, 0) == PathTo(r, TRAMPOLINE / PGSIZE, 0);
    assert g + PathTo(r, TRAPFRAME / PGSIZE, 0) == g;
  }

  lemma {:induction false} NotOf(mem: Mem, owner: map<nat, Use>, page: map<Node, nat>, r: nat)
    requires TreeOk(mem, owner, page, None) && Node(r, 2, 0) !in page
    ensures forall p | p in owner :: !Of(owner[p], r)
  {
    hide IsValid, PageOf, LinksOk, EntriesOk, LowsOk;
    NoTables(mem, owner, page, r);
    forall p | p in owner ensures !Of(owner[p], r) {
      assert owner[p].Leaf? && owner[p].r == r ==>
        owner[p] == Leaf(r, owner[p].v) && Lookup(mem, page, r, owner[p].v) == None;
    }
  }

  /** Lent pages are tables, so tree r still owns no user memory. */
  lemma {:induction false} LentOwnsNone(o0: map<nat, Use>, owner: map<nat, Use>, r: nat, first: nat, n: nat)
    requires Lent(o0, owner, r) && forall p | p in o0 :: !Of(o0[p], r)
    ensures OwnsNone(owner, r, first, n)
  {
  }

  lemma {:induction false} OneMapped(mem: Mem, page: map<Node, nat>, r: nat, v: nat)
    requires v < MAXPAGE && Lookup(mem, page, r, v).Some?
    ensures AllMapped(mem, page, r, v, 1)
  {
  }
}
