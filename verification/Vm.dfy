/** The page allocator (kernel/kalloc.c) and the page tables of user processes (kernel/vm.c). A physical page is named
    by its number, and 0 is the null pointer. The pool is the pages from lo up to hi. */
module Vm {
  import opened Blocks
  import opened PageTable
  import opened PageBudget

  /** Pages in use stay what they are, and hold what they held: only free pages were taken. */
  ghost predicate Kept(mem0: seq<Page>, g0: Pool, mem: seq<Page>, g: Pool) {
    && |mem| == |mem0| && g.role.Keys == g0.role.Keys
    && (forall f | f in g0.role && !g0.role[f].Free? :: f in g.role && g.role[f] == g0.role[f])
    && (forall f | f in g0.role && (g0.role[f].Held? || g0.role[f].Leaf?) && f < |mem| :: mem[f] == mem0[f])
    && (forall key | key in g0.nodes :: key in g.nodes && g.nodes[key] == g0.nodes[key])
  }

  /** Every page that was taken is now a table of tree r. */
  ghost predicate OnlyTables(g0: Pool, g: Pool, r: nat) {
    forall f | f in g0.role && g0.role[f].Free? && f in g.role ::
      g.role[f].Free? || (g.role[f].Node? && g.role[f].key.root == r)
  }

  /** What walk may do for tree r: take free pages as its tables. */
  ghost predicate TablesAdded(r: nat, mem0: seq<Page>, g0: Pool, mem: seq<Page>, g: Pool) {
    Kept(mem0, g0, mem, g) && OnlyTables(g0, g, r)
  }

  lemma AddedNothing(r: nat, mem: seq<Page>, g: Pool)
    ensures TablesAdded(r, mem, g, mem, g)
  {
  }

  lemma AddedMore(r: nat, mem0: seq<Page>, g0: Pool, mem1: seq<Page>, g1: Pool, mem: seq<Page>, g: Pool)
    requires TablesAdded(r, mem0, g0, mem1, g1) && TablesAdded(r, mem1, g1, mem, g)
    ensures TablesAdded(r, mem0, g0, mem, g)
  {
    assert forall f :: f in g0.role <==> f in g1.role;
  }

  lemma AddedOne(mem: seq<Page>, g: Pool, key: Key, t: nat, f: nat, free: seq<nat>, page: Page, parent: Page)
    requires f in g.role && f < |mem| && g.role[f].Free? && key !in g.nodes && t in g.role && t < |mem|
             && g.role[t].Node?
    ensures TablesAdded(key.root, mem, g, mem[f := page][t := parent],
                        g.(free := free, role := g.role[f := Node(key)], nodes := g.nodes[key := f]))
  {
    assert g.role[f := Node(key)].Keys == g.role.Keys;
  }

  lemma AddedRoot(mem0: seq<Page>, g: Pool, mem: seq<Page>, f: nat, free: seq<nat>, maps: map<nat, map<nat, nat>>)
    requires f in g.role && f < |mem0| == |mem| && g.role[f].Free? && Key(f, 2, 0) !in g.nodes
    requires forall x | 0 <= x < |mem0| && x != f :: mem[x] == mem0[x]
    ensures TablesAdded(f, mem0, g, mem, Pool(free, g.role[f := Node(Key(f, 2, 0))], g.nodes[Key(f, 2, 0) := f], maps))
  {
    assert g.role[f := Node(Key(f, 2, 0))].Keys == g.role.Keys;
  }

  lemma AddedEntry(r: nat, mem0: seq<Page>, g0: Pool, mem: seq<Page>, g: Pool, t: nat, page: Page,
                   maps: map<nat, map<nat, nat>>)
    requires TablesAdded(r, mem0, g0, mem, g) && t < |mem| && t in g.role && g.role[t].Node?
    ensures TablesAdded(r, mem0, g0, mem[t := page], g.(maps := maps))
  {
  }

  /** A leaf map with n pages from v on mapped to consecutive physical pages from f on. */
  function Inserted(m: map<nat, nat>, v: nat, n: nat, f: nat, perm: nat): (m': map<nat, nat>)
    requires perm < 1024
  {
    if n == 0 then m else Inserted(m, v, n - 1, f, perm)[v + n - 1 := Pte(f + n - 1, perm)]
  }

  lemma {:induction false} InsertedAt(m: map<nat, nat>, v: nat, n: nat, f: nat, perm: nat, u: nat)
    requires perm < 1024
    ensures var m' := Inserted(m, v, n, f, perm);
            && (u in m' <==> u in m || v <= u < v + n)
            && (u in m' ==> m'[u] == if v <= u < v + n then Pte(f + u - v, perm) else m[u])
  {
    if n > 0 {
      InsertedAt(m, v, n - 1, f, perm, u);
    }
  }

  lemma InsertedNothing(maps: map<nat, map<nat, nat>>, r: nat, v: nat, f: nat, perm: nat)
    requires perm < 1024 && r in maps
    ensures maps == maps[r := Inserted(maps[r], v, 0, f, perm)]
  {
  }

  lemma InsertedOneMore(m: map<nat, nat>, v: nat, n: nat, f: nat, perm: nat)
    requires perm < 1024
    ensures Inserted(Inserted(m, v, n, f, perm), v + n, 1, f + n, perm) == Inserted(m, v, n + 1, f, perm)
  {
    var m1 := Inserted(m, v, n, f, perm);
    assert Inserted(m1, v + n, 1, f + n, perm) == Inserted(m1, v + n, 0, f + n, perm)[v + n := Pte(f + n, perm)];
  }

  /** A leaf map without the n pages from v on. */
  function Removed(m: map<nat, nat>, v: nat, n: nat): (m': map<nat, nat>) {
    map u | u in m && !(v <= u < v + n) :: m[u]
  }

  predicate LeafIn(role: Role, r: nat, v: nat, n: nat) {
    role.Leaf? && role.root == r && v <= role.vpn < v + n
  }

  /** The mapped pages among n from v on belong to the tree itself. */
  ghost predicate Owned(g: Pool, r: nat, v: nat, n: nat) {
    r in g.maps && forall u | v <= u < v + n && u in g.maps[r] ::
      Frame(g.maps[r][u]) in g.role && g.role[Frame(g.maps[r][u])] == Leaf(r, u)
  }

  /** The tree has none of the n pages from v on. */
  ghost predicate Disowned(g: Pool, r: nat, v: nat, n: nat) {
    forall f | f in g.role :: !LeafIn(g.role[f], r, v, n)
  }

  /** What unmapping n pages from v on does: those entries go, and the pages become free if they are given back. */
  ghost predicate Unmapped(mem0: seq<Page>, g0: Pool, mem: seq<Page>, g: Pool, r: nat, v: nat, n: nat, free: bool) {
    && r in g0.maps && g.nodes == g0.nodes && g.maps == g0.maps[r := Removed(g0.maps[r], v, n)]
    && |mem| == |mem0| && g.role.Keys == g0.role.Keys
    && (forall f | f in g0.role && f in g.role ::
          g.role[f] == if free && LeafIn(g0.role[f], r, v, n) then Free else g0.role[f])
    && (forall f | f in g.role && f < |mem| && (g.role[f].Held? || g.role[f].Leaf?) :: mem[f] == mem0[f])
  }

  lemma UnmappedNothing(mem: seq<Page>, g: Pool, r: nat, v: nat, free: bool)
    requires r in g.maps
    ensures Unmapped(mem, g, mem, g, r, v, 0, free)
  {
    assert Removed(g.maps[r], v, 0) == g.maps[r];
    assert g.maps[r := Removed(g.maps[r], v, 0)] == g.maps;
  }

  lemma UnmappedMore(mem0: seq<Page>, g0: Pool, mem1: seq<Page>, g1: Pool, mem: seq<Page>, g: Pool, r: nat, v: nat,
                     n: nat, free: bool)
    requires Unmapped(mem0, g0, mem1, g1, r, v, n, free) && Unmapped(mem1, g1, mem, g, r, v + n, 1, free)
    ensures Unmapped(mem0, g0, mem, g, r, v, n + 1, free)
  {
    assert Removed(Removed(g0.maps[r], v, n), v + n, 1) == Removed(g0.maps[r], v, n + 1);
    assert forall f :: f in g0.role <==> f in g1.role;
  }

  lemma UnmappedKeeps(mem0: seq<Page>, g0: Pool, mem: seq<Page>, g: Pool, r: nat, v: nat, n: nat, free: bool)
    requires Unmapped(mem0, g0, mem, g, r, v, n, free)
    ensures r in g.maps && forall u | v + n <= u :: u in g.maps[r] <==> u in g0.maps[r]
  {
  }

  /** What is still to be unmapped stays owned, or not. */
  lemma UnmappedRest(mem0: seq<Page>, g0: Pool, mem1: seq<Page>, g1: Pool, r: nat, v: nat, n: nat, m: nat, free: bool)
    requires Unmapped(mem0, g0, mem1, g1, r, v, n, free) && n <= m
             && (if free then Owned(g0, r, v, m) else Disowned(g0, r, v, m))
    ensures if free then Owned(g1, r, v + n, m - n) else Disowned(g1, r, v + n, m - n)
  {
    assert forall f :: f in g0.role <==> f in g1.role;
    assert g1.maps[r] == Removed(g0.maps[r], v, n);
  }

  lemma PageUnmapped(mem0: seq<Page>, g0: Pool, mem: seq<Page>, g: Pool, r: nat, v: nat, f: nat, t: nat, free: bool)
    requires r in g0.maps && g.nodes == g0.nodes && g.maps == g0.maps[r := WithEntry(g0.maps[r], v, 0)]
             && |mem| == |mem0|
    requires free ==> f in g0.role && g0.role[f] == Leaf(r, v) && g.role == g0.role[f := Free]
    requires free ==> forall x | x in g0.role && x != f :: g0.role[x] != Leaf(r, v)
    requires !free ==> g.role == g0.role && Disowned(g0, r, v, 1)
    requires t in g.role && g.role[t].Node? && t < |mem|
    requires forall x | 0 <= x < |mem| && x != t && (x != f || !free) :: mem[x] == mem0[x]
    ensures Unmapped(mem0, g0, mem, g, r, v, 1, free)
  {
    assert WithEntry(g0.maps[r], v, 0) == Removed(g0.maps[r], v, 1);
    assert free ==> g0.role[f := Free].Keys == g0.role.Keys;
    forall x | x in g0.role
      ensures free && LeafIn(g0.role[x], r, v, 1) <==> free && x == f
    {
      assert LeafIn(g0.role[x], r, v, 1) ==> g0.role[x] == Leaf(r, v);
    }
  }

  /** Page u of the tree is a page that was free. */
  ghost predicate OwnsNew(g0: Pool, g: Pool, r: nat, u: nat) {
    && r in g.maps && u in g.maps[r] && Frame(g.maps[r][u]) in g0.role && Frame(g.maps[r][u]) in g.role
    && g0.role[Frame(g.maps[r][u])].Free? && g.role[Frame(g.maps[r][u])] == Leaf(r, u)
  }

  /** The tree has n pages more, from v on, which were free; all other pages that were taken are tables of the tree. */
  ghost predicate Grown(mem0: seq<Page>, g0: Pool, mem: seq<Page>, g: Pool, r: nat, v: nat, n: nat) {
    && Kept(mem0, g0, mem, g) && r in g0.maps && r in g.maps && g.maps == g0.maps[r := g.maps[r]]
    && Removed(g.maps[r], v, n) == g0.maps[r] && Disowned(g0, r, v, n)
    && (forall u | v <= u < v + n :: OwnsNew(g0, g, r, u))
    && (forall f | f in g0.role && g0.role[f].Free? && f in g.role ::
          g.role[f].Free? || (g.role[f].Node? && g.role[f].key.root == r) || LeafIn(g.role[f], r, v, n))
  }

  lemma GrownNothing(mem: seq<Page>, g: Pool, r: nat, v: nat)
    requires r in g.maps
    ensures Grown(mem, g, mem, g, r, v, 0)
  {
    assert Removed(g.maps[r], v, 0) == g.maps[r];
    assert g.maps[r := g.maps[r]] == g.maps;
  }

  lemma GrownTables(mem0: seq<Page>, g0: Pool, mem1: seq<Page>, g1: Pool, mem: seq<Page>, g: Pool, r: nat, v: nat,
                    n: nat)
    requires Grown(mem0, g0, mem1, g1, r, v, n) && TablesAdded(r, mem1, g1, mem, g) && g.maps == g1.maps
    ensures Grown(mem0, g0, mem, g, r, v, n)
  {
    assert forall f :: f in g0.role <==> f in g1.role;
    forall u | v <= u < v + n
      ensures OwnsNew(g0, g, r, u)
    {
      assert OwnsNew(g0, g1, r, u);
    }
  }

  lemma GrownMore(mem0: seq<Page>, g0: Pool, mem1: seq<Page>, g1: Pool, mem: seq<Page>, g: Pool, r: nat, v: nat, n: nat)
    requires Grown(mem0, g0, mem1, g1, r, v, n) && Grown(mem1, g1, mem, g, r, v + n, 1)
    ensures Grown(mem0, g0, mem, g, r, v, n + 1)
  {
    assert forall f :: f in g0.role <==> f in g1.role;
    assert Removed(Removed(g.maps[r], v + n, 1), v, n) == Removed(g.maps[r], v, n + 1);
    forall u | v <= u < v + n + 1
      ensures OwnsNew(g0, g, r, u)
    {
      if u < v + n {
        assert OwnsNew(g0, g1, r, u) && u in Removed(g.maps[r], v + n, 1);
      } else {
        assert OwnsNew(g1, g, r, u);
      }
    }
    forall f | f in g0.role
      ensures !LeafIn(g0.role[f], r, v, n + 1)
    {
      assert !LeafIn(g0.role[f], r, v, n) && (!g0.role[f].Free? ==> !LeafIn(g1.role[f], r, v + n, 1));
    }
  }

  /** Growing and then unmapping what was added leaves the leaf map as it was; only tables may have been added. */
  lemma GrownUndone(mem0: seq<Page>, g0: Pool, mem1: seq<Page>, g1: Pool, mem: seq<Page>, g: Pool, r: nat, v: nat,
                    n: nat)
    requires Grown(mem0, g0, mem1, g1, r, v, n) && Unmapped(mem1, g1, mem, g, r, v, n, true)
    ensures TablesAdded(r, mem0, g0, mem, g) && g.maps == g0.maps
  {
    assert forall f :: f in g0.role <==> f in g1.role;
    assert forall f | f in g0.role :: !LeafIn(g0.role[f], r, v, n);
    assert g.maps[r] == g0.maps[r];
  }

  lemma GrownOwned(mem0: seq<Page>, g0: Pool, mem: seq<Page>, g: Pool, r: nat, v: nat, n: nat)
    requires Grown(mem0, g0, mem, g, r, v, n)
    ensures Owned(g, r, v, n) && forall u | v <= u < v + n :: u in g.maps[r]
  {
    forall u | v <= u < v + n
      ensures u in g.maps[r] && Frame(g.maps[r][u]) in g.role && g.role[Frame(g.maps[r][u])] == Leaf(r, u)
    {
      assert OwnsNew(g0, g, r, u);
    }
  }

  /** Page v of the tree holds data, with these permissions. */
  ghost predicate PageIs(mem: seq<Page>, g: Pool, r: nat, v: nat, data: seq<byte>, perm: nat) {
    && r in g.maps && v in g.maps[r] && Frame(g.maps[r][v]) < |mem| && mem[Frame(g.maps[r][v])] == Data(data)
    && Flags(g.maps[r][v]) == if IsV(perm) then perm else perm + 1
  }

  /** Page f was taken for use, tables were added, and f was given back. */
  lemma GivenBack(r: nat, mem0: seq<Page>, g0: Pool, mem1: seq<Page>, g1: Pool, mem: seq<Page>, g: Pool, f: nat,
                  page: Page, free: seq<nat>)
    requires f in g0.role && g0.role[f].Free? && g1.role == g0.role[f := Held] && g1.nodes == g0.nodes
             && f < |mem0| == |mem1|
    requires forall x | 0 <= x < |mem0| && x != f :: mem1[x] == mem0[x]
    requires TablesAdded(r, mem1, g1, mem, g)
    ensures f in g.role && g.role[f].Held?
            && TablesAdded(r, mem0, g0, mem[f := page], g.(free := free, role := g.role[f := Free]))
  {
    assert g1.role.Keys == g0.role.Keys && g.role[f := Free].Keys == g.role.Keys;
    assert f in g1.role && g1.role[f].Held?;
  }

  /** Page f was taken for use, filled, and mapped as page v. */
  lemma GrownOne(mem0: seq<Page>, g0: Pool, mem1: seq<Page>, g1: Pool, mem: seq<Page>, g: Pool, r: nat, v: nat, f: nat,
                 data: seq<byte>, perm: nat)
    requires f in g0.role && g0.role[f].Free? && g1.role == g0.role[f := Held] && g1.nodes == g0.nodes
             && g1.maps == g0.maps
    requires f < |mem0| == |mem1| && mem1[f] == Data(data) && forall x | 0 <= x < |mem0| && x != f :: mem1[x] == mem0[x]
    requires TablesAdded(r, mem1, g1, mem, g) && r in g0.maps && perm < 1024
    requires v !in g0.maps[r] && Disowned(g0, r, v, 1) && g.maps == g0.maps[r := Inserted(g0.maps[r], v, 1, f, perm)]
    ensures f in g.role && g.role[f].Held? && mem[f] == Data(data) && Frame(Mapped(g.maps, r, v)) == f
    ensures var g' := g.(role := g.role[f := Leaf(r, v)]);
            Grown(mem0, g0, mem, g', r, v, 1) && OwnsNew(g0, g', r, v) && PageIs(mem, g', r, v, data, perm)
  {
    var g' := g.(role := g.role[f := Leaf(r, v)]);
    assert g1.role.Keys == g0.role.Keys && g'.role.Keys == g.role.Keys;
    assert f in g1.role && g1.role[f].Held?;
    var m := Inserted(g0.maps[r], v, 1, f, perm);
    assert m == Inserted(g0.maps[r], v, 0, f, perm)[v := Pte(f, perm)];
    assert Removed(m, v, 1) == g0.maps[r];
    assert OwnsNew(g0, g', r, v);
  }

  /** Everything the growth did not map is as mapped as before. */
  lemma GrownElsewhere(mem0: seq<Page>, g0: Pool, mem: seq<Page>, g: Pool, r: nat, v: nat, n: nat)
    requires Grown(mem0, g0, mem, g, r, v, n)
    ensures r in g0.maps && r in g.maps && forall u | u < v || v + n <= u :: u in g.maps[r] <==> u in g0.maps[r]
  {
    assert forall u :: u in Removed(g.maps[r], v, n) <==> u in g.maps[r] && !(v <= u < v + n);
  }

  /** How many pages a size takes up. */
  function PgUp(sz: nat): nat {
    (sz + PGSIZE - 1) / PGSIZE
  }

  ghost predicate ZeroPage(mem: seq<Page>, g: Pool, r: nat, u: nat) {
    PageIs(mem, g, r, u, Junk(PGSIZE, 0), PTE_W + PTE_X + PTE_R + PTE_U)
  }

  /** n pages from v on are zeroed user pages. */
  ghost predicate Zeroed(mem: seq<Page>, g: Pool, r: nat, v: nat, n: nat) {
    forall u | v <= u < v + n :: ZeroPage(mem, g, r, u)
  }

  lemma ZeroedNothing(mem: seq<Page>, g: Pool, r: nat, v: nat)
    ensures Zeroed(mem, g, r, v, 0)
  {
  }

  /** A page of the tree holds what it held when the tree has grown elsewhere. */
  lemma PageKept(mem0: seq<Page>, g0: Pool, mem: seq<Page>, g: Pool, r: nat, v: nat, u: nat, data: seq<byte>, perm: nat)
    requires Grown(mem0, g0, mem, g, r, v, 1) && u != v && PageIs(mem0, g0, r, u, data, perm)
    requires Frame(g0.maps[r][u]) in g0.role && g0.role[Frame(g0.maps[r][u])] == Leaf(r, u)
    ensures PageIs(mem, g, r, u, data, perm)
  {
    assert u in Removed(g.maps[r], v, 1);
  }

  lemma ZeroedMore(mem0: seq<Page>, g0: Pool, mem: seq<Page>, g: Pool, r: nat, v: nat, n: nat)
    requires Grown(mem0, g0, mem, g, r, v + n, 1) && Zeroed(mem0, g0, r, v, n) && Owned(g0, r, v, n)
    requires ZeroPage(mem, g, r, v + n)
    ensures Zeroed(mem, g, r, v, n + 1)
  {
    forall u | v <= u < v + n + 1
      ensures ZeroPage(mem, g, r, u)
    {
      if u < v + n {
        assert ZeroPage(mem0, g0, r, u);
        PageKept(mem0, g0, mem, g, r, v + n, u, Junk(PGSIZE, 0), PTE_W + PTE_X + PTE_R + PTE_U);
      }
    }
  }

  /** Pages from v up to w were added to the tree, all zero. */
  ghost predicate AllAdded(mem0: seq<Page>, g0: Pool, mem: seq<Page>, g: Pool, r: nat, v: nat, w: nat) {
    v <= w && Grown(mem0, g0, mem, g, r, v, w - v) && Zeroed(mem, g, r, v, w - v)
  }

  /** The table that a table lies below at a level. */
  function Ancestor(k: Key, level: nat): Key
    decreases level - k.level
  {
    if k.level >= level then k else Ancestor(Parent(k), level)
  }

  /** Table k is key, or lies below it. */
  predicate Below(key: Key, k: Key) {
    k.level <= key.level && Ancestor(k, key.level) == key
  }

  /** Table k lies below one of the first n entries of key. */
  predicate Done(key: Key, n: nat, k: Key) {
    k.level < key.level && Below(key, k) && Ancestor(k, key.level - 1).prefix % ENTRIES < n
  }

  lemma {:induction false} AncestorStep(k: Key, level: nat)
    requires k.level < level
    ensures Ancestor(k, level) == Parent(Ancestor(k, level - 1)) && Ancestor(k, level - 1).level == level - 1
    decreases level - k.level
  {
    if k.level < level - 1 {
      AncestorStep(Parent(k), level);
    }
  }

  /** What lies below the first n + 1 entries lies below the first n, or below entry n. */
  lemma DoneNext(key: Key, n: nat, k: Key)
    requires key.level > 0 && n < ENTRIES
    ensures Done(key, n + 1, k) <==> Done(key, n, k) || Below(Child(key, n), k)
    ensures !(Done(key, n, k) && Below(Child(key, n), k))
    ensures Below(key, k) <==> k == key || Done(key, ENTRIES, k)
  {
    ChildParent(key, n);
    if k.level < key.level {
      AncestorStep(k, key.level);
      ParentChild(Ancestor(k, key.level - 1));
    }
  }

  /** The tables in gone were given back, and nothing else changed. */
  ghost predicate Pruned(mem0: seq<Page>, g0: Pool, mem: seq<Page>, g: Pool, gone: set<Key>) {
    && |mem| == |mem0| && g.nodes == g0.nodes - gone && g.role.Keys == g0.role.Keys
    && (forall f | f in g0.role && f in g.role ::
          g.role[f] == if g0.role[f].Node? && g0.role[f].key in gone then Free else g0.role[f])
    && (forall f | f in g0.role && f < |mem| && (g0.role[f].Held? || g0.role[f].Leaf?) :: mem[f] == mem0[f])
  }

  lemma PrunedMore(mem0: seq<Page>, g0: Pool, mem1: seq<Page>, g1: Pool, mem: seq<Page>, g: Pool, gone: set<Key>,
                   more: set<Key>)
    requires Pruned(mem0, g0, mem1, g1, gone) && Pruned(mem1, g1, mem, g, more)
    ensures Pruned(mem0, g0, mem, g, gone + more)
  {
    assert forall f :: f in g0.role <==> f in g1.role;
    assert g0.nodes - gone - more == g0.nodes - (gone + more);
  }

  ghost function Subtree(g: Pool, key: Key): set<Key> {
    set k | k in g.nodes && Below(key, k)
  }

  ghost function DoneTables(g: Pool, key: Key, n: nat): set<Key> {
    set k | k in g.nodes && Done(key, n, k)
  }

  /** One more entry of key is done. */
  lemma SubtreeDone(g0: Pool, g: Pool, key: Key, n: nat)
    requires key.level > 0 && n < ENTRIES && g.nodes == g0.nodes - DoneTables(g0, key, n)
    ensures DoneTables(g0, key, n) + Subtree(g, Child(key, n)) == DoneTables(g0, key, n + 1)
  {
    forall k | k in g0.nodes
      ensures Done(key, n + 1, k) <==> Done(key, n, k) || (k in g.nodes && Below(Child(key, n), k))
    {
      DoneNext(key, n, k);
    }
  }

  lemma NothingDone(g: Pool, key: Key)
    ensures DoneTables(g, key, 0) == {}
  {
  }

  lemma AllDone(g: Pool, key: Key)
    requires key in g.nodes
    ensures (if key.level == 0 then {} else DoneTables(g, key, ENTRIES)) + {key} == Subtree(g, key)
  {
    forall k | k in g.nodes
      ensures Below(key, k) <==> k == key || (key.level > 0 && Done(key, ENTRIES, k))
    {
      if key.level > 0 {
        DoneNext(key, 0, k);
      }
    }
  }

  lemma {:induction false} AncestorIn(g: Pool, k: Key, level: nat)
    requires PlacesOk(g) && k in g.nodes && k.level <= level <= 2
    ensures Ancestor(k, level) in g.nodes && Ancestor(k, level).root == k.root
    decreases level - k.level
  {
    if k.level < level {
      assert PlaceOk(g, k, g.nodes[k]);
      AncestorIn(g, Parent(k), level);
    }
  }

  /** Nothing lies below a table that is not there, and no page is mapped below it. */
  lemma SubtreeEmpty(g: Pool, c: Key)
    requires PlacesOk(g) && c !in g.nodes && c.level <= 2
    ensures Subtree(g, c) == {}
  {
    forall k | k in g.nodes
      ensures !Below(c, k)
    {
      if k.level <= c.level {
        AncestorIn(g, k, c.level);
      }
    }
  }

  /** All tables of a tree lie below its root. */
  lemma AllBelowRoot(g: Pool, key: Key, k: Key)
    requires PlacesOk(g) && key in g.nodes && key.level == 2 && k in g.nodes && k.root == key.root
    ensures Below(key, k)
  {
    assert PlaceOk(g, key, g.nodes[key]) && PlaceOk(g, k, g.nodes[k]);
    AncestorIn(g, k, 2);
    var a := Ancestor(k, 2);
    assert PlaceOk(g, a, g.nodes[a]);
    if k.level < 2 {
      AncestorStep(k, 2);
    }
  }

  /** Page v is mapped below table key. */
  ghost predicate MappedBelow(g: Pool, key: Key, v: nat) {
    key.root in g.maps && v in g.maps[key.root] && Below(key, KeyAt(key.root, 0, v))
  }

  /** Page v is mapped by entry i of table key, or below it. */
  ghost predicate MappedAt(g: Pool, key: Key, i: nat, v: nat) {
    && key.root in g.maps && v in g.maps[key.root]
    && if key.level == 0 then v == key.prefix * ENTRIES + i else Below(Child(key, i), KeyAt(key.root, 0, v))
  }

  /** A page mapped below a table is mapped by one of its entries, and the other way round. */
  lemma MappedAtSome(g: Pool, key: Key, v: nat) returns (i: nat)
    requires MappedBelow(g, key, v)
    ensures i < ENTRIES && MappedAt(g, key, i, v)
  {
    var k := KeyAt(key.root, 0, v);
    if key.level == 0 {
      i := v % ENTRIES;
    } else {
      AncestorStep(k, key.level);
      i := Ancestor(k, key.level - 1).prefix % ENTRIES;
      DoneNext(key, i, k);
    }
  }

  lemma MappedAtBelow(g: Pool, key: Key, i: nat, v: nat)
    requires MappedAt(g, key, i, v) && i < ENTRIES
    ensures MappedBelow(g, key, v)
  {
    var k := KeyAt(key.root, 0, v);
    if key.level > 0 {
      DoneNext(key, i, k);
    }
  }

  lemma PrunedNothing(mem: seq<Page>, g: Pool)
    ensures Pruned(mem, g, mem, g, {})
  {
    assert g.nodes - {} == g.nodes;
  }

  lemma PrunedTable(mem0: seq<Page>, g0: Pool, mem: seq<Page>, g: Pool, gone: set<Key>, t: nat, page: Page)
    requires Pruned(mem0, g0, mem, g, gone) && t < |mem| && t in g.role && g.role[t].Node?
    ensures Pruned(mem0, g0, mem[t := page], g, gone)
  {
  }

  lemma DroppedOne(mem0: seq<Page>, g0: Pool, mem: seq<Page>, g: Pool, key: Key)
    requires PlacesOk(g0) && key in g0.nodes && g.role == g0.role[g0.nodes[key] := Free] && g.nodes == g0.nodes - {key}
    requires |mem| == |mem0| && forall x | 0 <= x < |mem| && x != g0.nodes[key] :: mem[x] == mem0[x]
    ensures Pruned(mem0, g0, mem, g, {key})
  {
    assert PlaceOk(g0, key, g0.nodes[key]);
    assert g.role.Keys == g0.role.Keys;
  }

  /** A table is still there when a table below it is gone. */
  lemma StillThere(mem0: seq<Page>, g0: Pool, mem: seq<Page>, g: Pool, key: Key, i: nat)
    requires key in g0.nodes && key.level > 0 && Pruned(mem0, g0, mem, g, Subtree(g0, Child(key, i)))
    ensures key in g.nodes && g.nodes[key] == g0.nodes[key] && Child(key, i) !in g.nodes
  {
    assert Below(Child(key, i), Child(key, i));
  }

  /** The first n entries of a table are bare. */
  predicate BareUpTo(g: Pool, key: Key, n: nat) {
    forall j | 0 <= j < n :: BareEntry(g, key, j)
  }

  ghost function DoneSet(g: Pool, key: Key, n: nat): set<Key> {
    if key.level == 0 then {} else DoneTables(g, key, n)
  }

  lemma EntryDone(mem0: seq<Page>, g0: Pool, mem1: seq<Page>, g1: Pool, mem: seq<Page>, g: Pool, key: Key, i: nat)
    requires Pruned(mem0, g0, mem1, g1, DoneSet(g0, key, i)) && i < ENTRIES && g.maps == g1.maps
    requires Pruned(mem1, g1, mem, g, if key.level == 0 then {} else Subtree(g1, Child(key, i)))
    requires BareUpTo(g1, key, i) && BareEntry(g, key, i)
    ensures Pruned(mem0, g0, mem, g, DoneSet(g0, key, i + 1)) && BareUpTo(g, key, i + 1)
  {
    hide Below, Done;
    PrunedMore(mem0, g0, mem1, g1, mem, g, DoneSet(g0, key, i), if key.level == 0 then {}
               else Subtree(g1, Child(key, i)));
    if key.level > 0 {
      SubtreeDone(g0, g1, key, i);
    }
    forall j | 0 <= j < i
      ensures BareEntry(g, key, j)
    {
      assert BareEntry(g1, key, j);
    }
  }

  /** When all entries of a root are done, no other table of the tree is left. */
  lemma OnlyRootLeft(mem0: seq<Page>, g0: Pool, mem: seq<Page>, g: Pool, key: Key)
    requires PlacesOk(g0) && key in g0.nodes && key.level == 2 && Pruned(mem0, g0, mem, g, DoneSet(g0, key, ENTRIES))
    ensures forall other | other in g.nodes && other.root == key.root :: other == key
  {
    forall other | other in g.nodes && other.root == key.root
      ensures other == key
    {
      AllBelowRoot(g0, key, other);
      DoneNext(key, 0, other);
    }
  }

  lemma TreeDone(mem0: seq<Page>, g0: Pool, mem1: seq<Page>, g1: Pool, mem: seq<Page>, g: Pool, key: Key)
    requires key in g0.nodes && Pruned(mem0, g0, mem1, g1, DoneSet(g0, key, ENTRIES)) && Pruned(mem1, g1, mem, g, {key})
    ensures Pruned(mem0, g0, mem, g, Subtree(g0, key))
  {
    hide Below, Done;
    PrunedMore(mem0, g0, mem1, g1, mem, g, DoneSet(g0, key, ENTRIES), {key});
    AllDone(g0, key);
  }

  /** Tree r, with its n pages from 0 on, is gone: all its pages are free, and nothing else has changed. */
  ghost predicate TornDown(mem0: seq<Page>, g0: Pool, mem: seq<Page>, g: Pool, r: nat, n: nat) {
    && |mem| == |mem0| && g.maps == g0.maps - {r} && g.role.Keys == g0.role.Keys
    && (forall f | f in g0.role && f in g.role ::
          g.role[f] == if LeafIn(g0.role[f], r, 0, n) || (g0.role[f].Node? && g0.role[f].key.root == r) then Free
          else g0.role[f])
    && (forall f | f in g.role && f < |mem| && (g.role[f].Held? || g.role[f].Leaf?) :: mem[f] == mem0[f])
  }

  lemma UnmappedRoot(mem0: seq<Page>, g0: Pool, mem: seq<Page>, g: Pool, r: nat, n: nat)
    requires Unmapped(mem0, g0, mem, g, r, 0, n, true)
    ensures g.nodes == g0.nodes && r in g.maps && forall v :: v in g.maps[r] <==> v in g0.maps[r] && v >= n
  {
  }

  lemma TornTogether(mem0: seq<Page>, g0: Pool, mem1: seq<Page>, g1: Pool, mem: seq<Page>, g: Pool, r: nat, n: nat)
    requires Unmapped(mem0, g0, mem1, g1, r, 0, n, true) && Pruned(mem1, g1, mem, g, Subtree(g1, Key(r, 2, 0)))
    requires g.maps == WithoutTree(g1, Key(r, 2, 0)) && PlacesOk(g1) && Key(r, 2, 0) in g1.nodes
    ensures TornDown(mem0, g0, mem, g, r, n)
  {
    hide Below, Ancestor;
    assert forall f :: f in g0.role <==> f in g1.role;
    assert g1.maps - {r} == g0.maps - {r};
    forall f | f in g1.role && g1.role[f].Node?
      ensures g1.role[f].key in Subtree(g1, Key(r, 2, 0)) <==> g1.role[f].key.root == r
    {
      var k := g1.role[f].key;
      if k.root == r {
        AllBelowRoot(g1, Key(r, 2, 0), k);
      } else if Below(Key(r, 2, 0), k) {
        SameRoot(Key(r, 2, 0), k);
      }
    }
  }

  lemma {:induction false} AncestorRoot(k: Key, level: nat)
    ensures Ancestor(k, level).root == k.root
    decreases level - k.level
  {
    if k.level < level {
      AncestorRoot(Parent(k), level);
    }
  }

  lemma SameRoot(key: Key, k: Key)
    requires Below(key, k)
    ensures k.root == key.root
  {
    AncestorRoot(k, key.level);
  }

  /** Page u of one tree is a copy of what page u of another tree was. */
  ghost predicate PageCopied(mem0: seq<Page>, g0: Pool, mem: seq<Page>, g: Pool, from: nat, to: nat, u: nat) {
    && from in g0.maps && u in g0.maps[from] && Frame(g0.maps[from][u]) < |mem0| && mem0[Frame(g0.maps[from][u])].Data?
    && PageIs(mem, g, to, u, mem0[Frame(g0.maps[from][u])].bytes, Flags(g0.maps[from][u]))
  }

  ghost predicate CopyOf(mem0: seq<Page>, g0: Pool, mem: seq<Page>, g: Pool, from: nat, to: nat, n: nat) {
    forall u | 0 <= u < n :: PageCopied(mem0, g0, mem, g, from, to, u)
  }

  lemma CopyOfNothing(mem: seq<Page>, g: Pool, from: nat, to: nat)
    ensures CopyOf(mem, g, mem, g, from, to, 0)
  {
  }

  lemma CopyOfMore(mem0: seq<Page>, g0: Pool, mem1: seq<Page>, g1: Pool, mem: seq<Page>, g: Pool, from: nat, to: nat,
                   n: nat)
    requires CopyOf(mem0, g0, mem1, g1, from, to, n) && Owned(g1, to, 0, n) && Grown(mem1, g1, mem, g, to, n, 1)
    requires PageCopied(mem0, g0, mem, g, from, to, n)
    ensures CopyOf(mem0, g0, mem, g, from, to, n + 1)
  {
    hide Grown;
    forall u | 0 <= u < n + 1
      ensures PageCopied(mem0, g0, mem, g, from, to, u)
    {
      if u < n {
        assert PageCopied(mem0, g0, mem1, g1, from, to, u);
        PageKept(mem1, g1, mem, g, to, n, u, mem0[Frame(g0.maps[from][u])].bytes, Flags(g0.maps[from][u]));
      }
    }
  }

  /** The pages of another tree stay as they are while a tree grows. */
  lemma GrownOther(mem0: seq<Page>, g0: Pool, mem: seq<Page>, g: Pool, from: nat, to: nat, n: nat)
    requires Grown(mem0, g0, mem, g, to, 0, n) && from != to && from in g0.maps && Owned(g0, from, 0, n + 1)
    ensures from in g.maps && g.maps[from] == g0.maps[from] && |mem| == |mem0|
    ensures n in g0.maps[from] ==>
              && var f := Frame(g0.maps[from][n]);
              f in g.role && g.role[f] == Leaf(from, n) && (f < |mem| ==> mem[f] == mem0[f])
  {
  }

  /** Address va lies in a user page of tree r. */
  ghost predicate IsUser(g: Pool, r: nat, va: nat) {
    r in g.maps && va / PGSIZE in g.maps[r] && IsU(g.maps[r][va / PGSIZE])
  }

  /** The user pages of the tree are its own. */
  ghost predicate Private(g: Pool, r: nat) {
    && r in g.maps
    && forall v | v in g.maps[r] && IsU(g.maps[r][v]) ::
         Frame(g.maps[r][v]) in g.role && g.role[Frame(g.maps[r][v])] == Leaf(r, v)
  }

  /** The byte at a user address. */
  ghost function UserByte(mem: seq<Page>, g: Pool, r: nat, va: nat): byte {
    if IsUser(g, r, va) && Frame(g.maps[r][va / PGSIZE]) < |mem| && IsData(mem[Frame(g.maps[r][va / PGSIZE])])
    then mem[Frame(g.maps[r][va / PGSIZE])].bytes[va % PGSIZE] else 0
  }

  /** The user memory of tree r has data at va, and is otherwise as before; so is every other page. */
  ghost predicate Stored(mem0: seq<Page>, mem: seq<Page>, g: Pool, r: nat, va: nat, data: seq<byte>) {
    && |mem| == |mem0|
    && (forall a: nat {:trigger UserByte(mem, g, r, a)} ::
          UserByte(mem, g, r, a) == if va <= a < va + |data| then data[a - va] else UserByte(mem0, g, r, a))
    && (forall f | f in g.role && f < |mem| && !(g.role[f].Leaf? && g.role[f].root == r) :: mem[f] == mem0[f])
  }

  /** The user memory of tree r holds data at va. */
  ghost predicate Holds(mem: seq<Page>, g: Pool, r: nat, va: nat, data: seq<byte>) {
    forall a: nat | va <= a < va + |data| :: UserByte(mem, g, r, a) == data[a - va]
  }

  lemma HoldsMore(mem: seq<Page>, g: Pool, r: nat, va: nat, a: seq<byte>, b: seq<byte>)
    requires Holds(mem, g, r, va, a) && Holds(mem, g, r, va + |a|, b)
    ensures Holds(mem, g, r, va, a + b)
  {
    hide UserByte;
  }

  /** copyin after a successful copyout returns the same bytes, however many pages they span. */
  lemma CopyRoundTrip(mem0: seq<Page>, mem: seq<Page>, g: Pool, r: nat, va: nat, src: seq<byte>, dst: seq<byte>)
    requires Stored(mem0, mem, g, r, va, src) && |dst| == |src| && Holds(mem, g, r, va, dst)
    ensures dst == src
  {
    hide UserByte;
    forall k | 0 <= k < |dst|
      ensures dst[k] == src[k]
    {
      assert UserByte(mem, g, r, va + k) == dst[k];
    }
  }

  lemma StoredNothing(mem: seq<Page>, g: Pool, r: nat, va: nat)
    ensures Stored(mem, mem, g, r, va, [])
  {
  }

  lemma StoredMore(mem0: seq<Page>, mem1: seq<Page>, mem: seq<Page>, g: Pool, r: nat, va: nat, a: seq<byte>,
                   b: seq<byte>)
    requires Stored(mem0, mem1, g, r, va, a) && Stored(mem1, mem, g, r, va + |a|, b)
    ensures Stored(mem0, mem, g, r, va, a + b)
  {
    hide UserByte;
  }

  ghost predicate AllUser(g: Pool, r: nat, va: nat, n: nat) {
    forall a: nat | va <= a < va + n :: IsUser(g, r, a)
  }

  /** User code may read, write and execute page u of tree r. */
  ghost predicate FullAccess(g: Pool, r: nat, u: nat) {
    && r in g.maps && u in g.maps[r]
    && IsR(g.maps[r][u]) && IsW(g.maps[r][u]) && IsX(g.maps[r][u]) && IsU(g.maps[r][u])
  }

  /** Zeroed pages are user memory. */
  lemma ZeroedUser(mem: seq<Page>, g: Pool, r: nat, v: nat, n: nat)
    requires Zeroed(mem, g, r, v, n)
    ensures AllUser(g, r, v * PGSIZE, n * PGSIZE)
    ensures forall u | v <= u < v + n :: FullAccess(g, r, u)
  {
    forall u | v <= u < v + n
      ensures FullAccess(g, r, u)
    {
      assert ZeroPage(mem, g, r, u);
    }
    forall a: nat | v * PGSIZE <= a < v * PGSIZE + n * PGSIZE
      ensures IsUser(g, r, a)
    {
      assert v <= a / PGSIZE < v + n;
      assert ZeroPage(mem, g, r, a / PGSIZE);
    }
  }

  lemma ZeroedByte(mem: seq<Page>, g: Pool, r: nat, v: nat, n: nat, a: nat)
    requires Zeroed(mem, g, r, v, n) && v * PGSIZE <= a < v * PGSIZE + n * PGSIZE
    ensures UserByte(mem, g, r, a) == 0
  {
    assert v <= a / PGSIZE < v + n;
    assert ZeroPage(mem, g, r, a / PGSIZE);
  }

  /** Addresses in one page are user memory together. */
  lemma SamePage(g: Pool, r: nat, va: nat, n: nat)
    requires va % PGSIZE + n <= PGSIZE && IsUser(g, r, va)
    ensures AllUser(g, r, va, n)
  {
    forall a: nat | va <= a < va + n
      ensures a / PGSIZE == va / PGSIZE
    {
    }
  }

  lemma ChunkStored(lo: nat, hi: nat, mem: seq<Page>, head: nat, g: Pool, r: nat, va: nat, f: nat, chunk: seq<byte>)
    requires Ok(lo, hi, mem, head, g, {}) && Private(g, r) && IsUser(g, r, va) && f == Frame(g.maps[r][va / PGSIZE])
    requires f < |mem| && IsData(mem[f]) && va % PGSIZE + |chunk| <= PGSIZE
    ensures var off, bytes := va % PGSIZE, mem[f].bytes;
            && var mem' := mem[f := Data(bytes[..off] + chunk + bytes[off + |chunk|..])];
            Ok(lo, hi, mem', head, g, {}) && Stored(mem, mem', g, r, va, chunk)
  {
    hide PlacesOk, TablesOk, FreeOk, DataOk, MapsOk, Stored;
    var off, bytes := va % PGSIZE, mem[f].bytes;
    var page := Data(bytes[..off] + chunk + bytes[off + |chunk|..]);
    assert g.role[f := Leaf(r, va / PGSIZE)] == g.role;
    PageUsed(lo, hi, mem, head, g, {}, f, page, Leaf(r, va / PGSIZE));
    PageStored(mem, g, r, va, f, chunk);
  }

  lemma PageStored(mem: seq<Page>, g: Pool, r: nat, va: nat, f: nat, chunk: seq<byte>)
    requires Private(g, r) && IsUser(g, r, va) && f == Frame(g.maps[r][va / PGSIZE])
    requires f < |mem| && IsData(mem[f]) && va % PGSIZE + |chunk| <= PGSIZE
    ensures var off, bytes := va % PGSIZE, mem[f].bytes;
            Stored(mem, mem[f := Data(bytes[..off] + chunk + bytes[off + |chunk|..])], g, r, va, chunk)
  {
    hide UserByte;
    var off, bytes := va % PGSIZE, mem[f].bytes;
    var mem' := mem[f := Data(bytes[..off] + chunk + bytes[off + |chunk|..])];
    forall a: nat
      ensures UserByte(mem', g, r, a) == if va <= a < va + |chunk| then chunk[a - va] else UserByte(mem, g, r, a)
    {
      StoredByte(mem, g, r, va, f, chunk, a);
    }
  }

  lemma StoredByte(mem: seq<Page>, g: Pool, r: nat, va: nat, f: nat, chunk: seq<byte>, a: nat)
    requires Private(g, r) && IsUser(g, r, va) && f == Frame(g.maps[r][va / PGSIZE])
    requires f < |mem| && IsData(mem[f]) && va % PGSIZE + |chunk| <= PGSIZE
    ensures var off, bytes := va % PGSIZE, mem[f].bytes;
            && var mem' := mem[f := Data(bytes[..off] + chunk + bytes[off + |chunk|..])];
            UserByte(mem', g, r, a) == if va <= a < va + |chunk| then chunk[a - va] else UserByte(mem, g, r, a)
  {
    if IsUser(g, r, a) && a / PGSIZE != va / PGSIZE {
      assert g.role[Frame(g.maps[r][a / PGSIZE])] == Leaf(r, a / PGSIZE);
    }
  }

  function Junk(n: nat, b: byte): (s: seq<byte>)
    ensures |s| == n && forall i | 0 <= i < n :: s[i] == b
  {
    if n == 0 then [] else Junk(n - 1, b) + [b]
  }

  ghost function AllHeld(first: nat, last: nat): (role: map<nat, Role>)
    requires first <= last
    ensures forall f :: f in role <==> first <= f < last
    ensures forall f | f in role :: role[f].Held?
    decreases last
  {
    if first == last then map[] else AllHeld(first, last - 1)[last - 1 := Held]
  }

  // What a walk takes from the free list.

  /** Mapping and marking pages takes none. */
  lemma SpentSame(g0: Pool, g1: Pool, g: Pool, r: nat, v: nat, n: nat, others: nat)
    requires Spent(g0, g1, r, v, n, others) && g.free == g1.free && g.nodes == g1.nodes
    ensures Spent(g0, g, r, v, n, others)
  {
  }

  /** One page, and then the tables for it. */
  lemma SpentFirst(g0: Pool, g1: Pool, g: Pool, r: nat, v: nat)
    requires |g1.free| + 1 == |g0.free| && g1.nodes == g0.nodes && Spent(g1, g, r, v, 1, 0)
    ensures Spent(g0, g, r, v, 1, 1)
  {
  }

  /** A walk that has come down to a level. */
  ghost predicate WalkPaid(g0: Pool, g: Pool, r: nat, v: nat, level: nat) {
    match level
    case 2 => g == g0
    case 1 => SpentTable(g0, g, r, Place(1, v / ENTRIES / ENTRIES))
    case _ => Spent(g0, g, r, v, 1, 0)
  }

  lemma WalkGoesOn(g0: Pool, g1: Pool, g: Pool, r: nat, v: nat, level: nat)
    requires 1 <= level <= 2 && WalkPaid(g0, g1, r, v, level)
    requires SpentTable(g1, g, r, Place(level - 1, KeyAt(r, level - 1, v).prefix))
    ensures WalkPaid(g0, g, r, v, level - 1)
  {
    if level == 1 {
      SpentPath(g0, g1, g, r, v);
    }
  }

  lemma WalkStops(g0: Pool, g: Pool, r: nat, v: nat, level: nat)
    requires 1 <= level <= 2 && WalkPaid(g0, g, r, v, level) && g.free == []
    requires KeyAt(r, level - 1, v) !in g.nodes && KeyAt(r, 0, v) !in g.nodes
    ensures |g0.free| < |Missing(g0.nodes, r, v, 1)|
  {
    MissingOne(g0.nodes, r, v);
  }

  const UINT64: nat := 0x1_0000_0000_0000_0000

  class Memory {
    const lo: nat
    const hi: nat
    var mem: seq<Page>
    var freelist: nat
    ghost var g: Pool

    ghost predicate Valid()
      reads this
    {
      Linking({})
    }

    ghost predicate Linking(hole: set<Key>)
      reads this
    {
      Ok(lo, hi, mem, freelist, g, hole)
    }

    /** kinit: before freerange, no page of the pool is free. */
    constructor (first: nat, last: nat, pages: seq<Page>)
      requires 0 < first <= last <= |pages|
      ensures Valid() && lo == first && hi == last && g.free == [] && g.maps == map[]
      ensures forall f | lo <= f < hi :: f in g.role && g.role[f].Held?
    {
      lo, hi, mem, freelist := first, last, pages, 0;
      g := Pool([], AllHeld(first, last), map[], map[]);
    }

    /** freerange(end, PHYSTOP) */
    method Freerange()
      requires Valid() && forall f | lo <= f < hi :: f in g.role && g.role[f].Held?
      modifies this
      ensures Valid() && forall f | lo <= f < hi :: f in g.role && g.role[f].Free?
    {
      var p := lo;
      while p + 1 <= hi
        invariant lo <= p <= hi && Valid()
        invariant forall f | lo <= f < hi :: f in g.role && g.role[f] == if f < p then Free else Held
      {
        hide PlacesOk, TablesOk, MapsOk, FreeOk, DataOk;
        var panic := Kfree(p * PGSIZE, {});
        p := p + 1;
      }
    }

    /** kfree */
    method Kfree(pa: nat, ghost hole: set<Key>) returns (panic: bool)
      requires Linking(hole) && (pa / PGSIZE in g.role ==> g.role[pa / PGSIZE].Held?)
      modifies this
      ensures panic <==> pa % PGSIZE != 0 || pa / PGSIZE !in g.role
      ensures panic ==> unchanged(this)
      ensures !panic ==>
                && var f := pa / PGSIZE;
                && f < |old(mem)| && mem == old(mem)[f := Link(old(freelist))]
                && g == old(g).(free := [f] + old(g).free, role := old(g).role[f := Free])
      ensures Linking(hole)
    {
      var f := pa / PGSIZE;
      panic := pa % PGSIZE != 0 || pa < lo * PGSIZE || pa >= hi * PGSIZE;
      if !panic {
        PageGiven(lo, hi, mem, freelist, g, hole, f);
        mem := mem[f := Link(freelist)];
        freelist := f;
        g := g.(free := [f] + g.free, role := g.role[f := Free]);
      }
    }

    /** kalloc */
    method Kalloc() returns (f: nat)
      requires Valid()
      modifies this
      ensures Valid()
      ensures f == 0 <==> old(g).free == []
      ensures f == 0 ==> unchanged(this)
      ensures f != 0 ==>
                && f in old(g).role && old(g).role[f].Free? && f < |old(mem)|
                && mem == old(mem)[f := Data(Junk(PGSIZE, 5))]
                && g == old(g).(free := old(g).free[1..], role := old(g).role[f := Held])
    {
      f := freelist;
      if f != 0 {
        PageTaken(lo, hi, mem, freelist, g, {}, Data(Junk(PGSIZE, 5)));
        freelist := mem[f].next;
        mem := mem[f := Data(Junk(PGSIZE, 5))];
        g := g.(free := g.free[1..], role := g.role[f := Held]);
      }
    }

    /** The tables that walk makes on the way to a page, if it may. */
    ghost predicate Walked(root: nat, mem0: seq<Page>, g0: Pool)
      reads this
    {
      Valid() && TablesAdded(root, mem0, g0, mem, g)
    }

    /** An absent table is made: kalloc, memset, and the link to it. */
    method MakeTable(ghost parent: Key, t: nat, i: nat) returns (f: nat)
      requires Valid() && parent in g.nodes && g.nodes[parent] == t && parent.level > 0 && i < ENTRIES
               && Child(parent, i) !in g.nodes
      modifies this
      ensures Walked(parent.root, old(mem), old(g)) && g.maps == old(g).maps
      ensures f == 0 ==> g.free == [] && unchanged(this)
      ensures f != 0 ==> Child(parent, i) in g.nodes && g.nodes[Child(parent, i)] == f
      ensures f != 0 ==> |g.free| + 1 == |old(g).free| && g.nodes == old(g).nodes[Child(parent, i) := f]
    {
      hide PlacesOk, TablesOk, MapsOk, FreeOk, DataOk, TablesAdded;
      TableAt(mem, g, {}, parent);
      AddedNothing(parent.root, mem, g);
      f := Kalloc();
      if f != 0 {
        AddedOne(old(mem), old(g), Child(parent, i), t, f, g.free, Table(ZeroTable(ENTRIES)),
                 Table(mem[t].ptes[i := Pte(f, 0)]));
        NodeAdded(lo, hi, mem, freelist, g, parent, i, f);
        mem := mem[f := Table(ZeroTable(ENTRIES))];
        mem := mem[t := Table(mem[t].ptes[i := Pte(f, 0)])];
        g := g.(role := g.role[f := Node(Child(parent, i))], nodes := g.nodes[Child(parent, i) := f]);
        assert g.role == old(g).role[f := Node(Child(parent, i))];
        assert mem == old(mem)[f := Table(ZeroTable(ENTRIES))][t := mem[t]];
      }
    }

    /** One turn of walk's loop: from the table at a level to the one below. */
    method Descend(ghost root: nat, va: nat, level: nat, t: nat, alloc: bool) returns (f: nat)
      requires Valid() && va < MAXVA && 1 <= level <= 2
      requires KeyAt(root, level, va / PGSIZE) in g.nodes && g.nodes[KeyAt(root, level, va / PGSIZE)] == t
      modifies this
      ensures Walked(root, old(mem), old(g)) && g.maps == old(g).maps && (!alloc ==> unchanged(this))
      ensures f != 0 ==> KeyAt(root, level - 1, va / PGSIZE) in g.nodes
                         && g.nodes[KeyAt(root, level - 1, va / PGSIZE)] == f
      ensures f == 0 ==> KeyAt(root, level - 1, va / PGSIZE) !in g.nodes && unchanged(this) && (alloc ==> g.free == [])
      ensures f != 0 ==> SpentTable(old(g), g, root, Place(level - 1, KeyAt(root, level - 1, va / PGSIZE).prefix))
    {
      hide PlacesOk, TablesOk, MapsOk, FreeOk, DataOk, KeyAt, TablesAdded;
      assert KeyAt(root, level - 1, va / PGSIZE).level == level - 1 by {
        KeyIs(root, level - 1, va / PGSIZE);
      }
      ghost var key, child := KeyAt(root, level, va / PGSIZE), KeyAt(root, level - 1, va / PGSIZE);
      WalkStep(root, level, va);
      EntryAt(mem, g, {}, key, PX(level, va));
      var pte := mem[t].ptes[PX(level, va)];
      if child in g.nodes {
        TableAt(mem, g, {}, child);
      }
      AddedNothing(root, mem, g);
      if IsV(pte) {
        f := Frame(pte);
      } else if !alloc {
        f := 0;
      } else {
        f := MakeTable(key, t, PX(level, va));
      }
    }

    lemma KeyIs(root: nat, level: nat, vpn: nat)
      ensures KeyAt(root, level, vpn) == Key(root, level, KeyAt(root, level, vpn).prefix)
    {
    }

    lemma RootTable(root: nat, vpn: nat)
      requires Valid() && root in g.maps
      ensures KeyAt(root, 2, vpn) in g.nodes && g.nodes[KeyAt(root, 2, vpn)] == root
    {
      assert PlaceOk(g, Key(root, 2, 0), g.nodes[Key(root, 2, 0)]);
    }

    lemma NoneBelow(root: nat, va: nat)
      requires Valid() && va < MAXVA && KeyAt(root, 1, va / PGSIZE) !in g.nodes
      ensures KeyAt(root, 0, va / PGSIZE) !in g.nodes
    {
      WalkStep(root, 1, va);
      var key := KeyAt(root, 0, va / PGSIZE);
      assert key in g.nodes ==> PlaceOk(g, key, g.nodes[key]);
    }

    /** walk. Without alloc nothing changes; with it, only tables are added, and no leaf map changes. */
    method Walk(root: nat, va: nat, alloc: bool) returns (ok: bool, t: nat, i: nat, panic: bool)
      requires Valid() && root in g.maps
      modifies this
      ensures panic <==> va >= MAXVA
      ensures Walked(root, old(mem), old(g)) && g.maps == old(g).maps && (panic || !alloc ==> unchanged(this))
      ensures !panic && ok ==> Reaches(g, root, va, t, i)
      ensures !panic && !ok ==> KeyAt(root, 0, va / PGSIZE) !in g.nodes && (alloc ==> g.free == [])
      ensures !panic && alloc ==> (ok <==> |old(g).free| >= |Missing(old(g).nodes, root, va / PGSIZE, 1)|)
      ensures !panic && alloc && ok ==> Spent(old(g), g, root, va / PGSIZE, 1, 0)
    {
      hide Ok, TablesAdded, KeyAt, PX, Spent, SpentTable, Missing;
      ok, t, i, panic := false, root, 0, va >= MAXVA;
      AddedNothing(root, mem, g);
      if panic {
        return;
      }
      ghost var vpn := va / PGSIZE;
      RootTable(root, vpn);
      var level := 2;
      while level > 0
        invariant 0 <= level <= 2 && Walked(root, old(mem), old(g)) && g.maps == old(g).maps
                  && (!alloc ==> unchanged(this))
        invariant KeyAt(root, level, vpn) in g.nodes && g.nodes[KeyAt(root, level, vpn)] == t
        invariant WalkPaid(old(g), g, root, vpn, level)
      {
        ghost var mem1, g1 := mem, g;
        t := Descend(root, va, level, t, alloc);
        AddedMore(root, old(mem), old(g), mem1, g1, mem, g);
        if t == 0 {
          if level == 2 {
            NoneBelow(root, va);
          }
          if alloc {
            WalkStops(old(g), g, root, vpn, level);
          }
          return;
        }
        WalkGoesOn(old(g), g1, g, root, vpn, level);
        level := level - 1;
      }
      SpentEnough(old(g), g, root, vpn, 1, 0);
      ok, i := true, PX(0, va);
    }

    /** What a walk finds at its end. */
    lemma EntryFound(root: nat, va: nat, t: nat, i: nat)
      requires Valid() && va < MAXVA && Reaches(g, root, va, t, i)
      ensures t < |mem| && mem[t].Table? && |mem[t].ptes| == ENTRIES && i == va / PGSIZE % ENTRIES < ENTRIES
              && root in g.maps
      ensures mem[t].ptes[i] == Mapped(g.maps, root, va / PGSIZE) && t in g.role && g.role[t].Node?
    {
      hide MapsOk, FreeOk, DataOk;
      DigitsOfVa(va);
      var key := KeyAt(root, 0, va / PGSIZE);
      TableAt(mem, g, {}, key);
      EntryAt(mem, g, {}, key, i);
    }

    /** Where a walk finds no table, nothing is mapped. */
    lemma NothingMapped(root: nat, vpn: nat)
      requires Valid() && KeyAt(root, 0, vpn) !in g.nodes
      ensures Mapped(g.maps, root, vpn) == 0
    {
      hide PlacesOk, TablesOk, FreeOk, DataOk;
    }

    lemma MappedValid(root: nat, vpn: nat)
      requires Valid() && root in g.maps
      ensures vpn in g.maps[root] <==> IsV(Mapped(g.maps, root, vpn))
      ensures vpn in g.maps[root] ==> IsLeaf(g.maps[root][vpn]) && vpn < MAXPN
      ensures vpn !in g.maps[root] ==> Disowned(g, root, vpn, 1)
    {
      hide PlacesOk, TablesOk, FreeOk, DataOk;
      if vpn !in g.maps[root] {
        assert Frame(0) == 0;
      }
    }

    /** walkaddr: the physical address of a user page, or 0. */
    method Walkaddr(root: nat, va: nat) returns (pa: nat)
      requires Valid() && root in g.maps
      modifies this
      ensures unchanged(this)
      ensures var vpn := va / PGSIZE;
              pa == if vpn in g.maps[root] && IsU(g.maps[root][vpn]) then Frame(g.maps[root][vpn]) * PGSIZE else 0
    {
      hide Ok, KeyAt, TablesAdded;
      MappedValid(root, va / PGSIZE);
      if va >= MAXVA {
        return 0;
      }
      var ok, t, i, panic := Walk(root, va, false);
      if !ok {
        NothingMapped(root, va / PGSIZE);
        return 0;
      }
      EntryFound(root, va, t, i);
      var pte := mem[t].ptes[i];
      if !IsV(pte) || !IsU(pte) {
        return 0;
      }
      pa := Frame(pte) * PGSIZE;
    }

    /** *pte = e, for the entry that a walk has reached. */
    method SetEntry(ghost root: nat, va: nat, t: nat, i: nat, e: nat)
      requires Valid() && va < MAXVA && Reaches(g, root, va, t, i) && (e == 0 || (IsV(e) && IsLeaf(e)))
      requires Disowned(g, root, va / PGSIZE, 1)
      modifies this`mem, this`g
      ensures Valid() && root in old(g).maps
              && g == old(g).(maps := old(g).maps[root := WithEntry(old(g).maps[root], va / PGSIZE, e)])
      ensures t < |old(mem)| && mem == old(mem)[t := mem[t]] && t in g.role && g.role[t].Node?
    {
      hide PlacesOk, TablesOk, FreeOk, DataOk, MapsOk, KeyAt;
      EntryFound(root, va, t, i);
      forall f | f in g.role
        ensures g.role[f] != Leaf(root, va / PGSIZE)
      {
        assert !LeafIn(g.role[f], root, va / PGSIZE, 1);
      }
      EntrySet(lo, hi, mem, freelist, g, root, va / PGSIZE, e);
      g := g.(maps := g.maps[root := WithEntry(g.maps[root], va / PGSIZE, e)]);
      mem := mem[t := Table(mem[t].ptes[i := e])];
    }

    /** One turn of mappages' loop. Mapping one page is an insertion into the leaf map, and a failure leaves the map
        alone. */
    method MapPage(root: nat, a: nat, pa: nat, perm: nat) returns (r: int, panic: bool)
      requires Valid() && root in g.maps && perm < 1024 && IsLeaf(perm)
      modifies this
      ensures Walked(root, old(mem), old(g))
      ensures panic <==> a >= MAXVA || a / PGSIZE in old(g).maps[root]
      ensures panic || r != 0 ==> g.maps == old(g).maps
      ensures !panic && r != 0 ==> r == -1 && g.free == []
      ensures !panic && r == 0 ==> g.maps == old(g).maps[root :=
                                             Inserted(old(g).maps[root], a / PGSIZE, 1, pa / PGSIZE, perm)]
      ensures !panic ==> (r == 0 <==> |old(g).free| >= |Missing(old(g).nodes, root, a / PGSIZE, 1)|)
      ensures !panic && r == 0 ==> Spent(old(g), g, root, a / PGSIZE, 1, 0)
    {
      hide Ok, KeyAt, TablesAdded, Spent, Missing;
      MappedValid(root, a / PGSIZE);
      r := 0;
      var ok, t, i;
      ok, t, i, panic := Walk(root, a, true);
      if panic {
        return;
      }
      MappedValid(root, a / PGSIZE);
      if !ok {
        NothingMapped(root, a / PGSIZE);
        return -1, false;
      }
      EntryFound(root, a, t, i);
      if IsV(mem[t].ptes[i]) {
        return 0, true;
      }
      ghost var mem1, g1 := mem, g;
      SetEntry(root, a, t, i, Pte(pa / PGSIZE, perm));
      AddedEntry(root, old(mem), old(g), mem1, g1, t, mem[t], g.maps);
      SpentSame(old(g), g1, g, root, a / PGSIZE, 1, 0);
    }

    /** mappages: maps pages until it is done, runs out of memory, or meets a mapping. The n pages it did map are
        inserted into the leaf map. */
    method Mappages(root: nat, va: nat, size: nat, pa: nat, perm: nat) returns (r: int, panic: bool, ghost n: nat)
      requires Valid() && root in g.maps && perm < 1024 && IsLeaf(perm)
      modifies this
      ensures Walked(root, old(mem), old(g))
      ensures g.maps == old(g).maps[root := Inserted(old(g).maps[root], va / PGSIZE, n, pa / PGSIZE, perm)]
      ensures panic ==> size == 0 || va / PGSIZE + n >= MAXPN || va / PGSIZE + n in old(g).maps[root]
      ensures !panic && r != 0 ==> r == -1 && g.free == [] && va / PGSIZE + n !in old(g).maps[root]
      ensures !panic && r == 0 ==> n == (va + size - 1) % UINT64 / PGSIZE - va / PGSIZE + 1
      ensures (panic || r != 0) && 0 < size && va + size <= UINT64 ==> va / PGSIZE + n <= (va + size - 1) / PGSIZE
      ensures forall u | va / PGSIZE <= u < va / PGSIZE + n :: u !in old(g).maps[root]
      ensures !panic && r == 0 ==> Spent(old(g), g, root, va / PGSIZE, n, 0)
      ensures !panic && r != 0 ==> |old(g).free| < |Missing(old(g).nodes, root, va / PGSIZE, n + 1)|
    {
      hide Ok, TablesAdded, Inserted, Spent, Missing;
      SpentNothing(g, root, va / PGSIZE);
      AddedNothing(root, mem, g);
      r, panic, n := 0, size == 0, 0;
      ghost var v, m := va / PGSIZE, old(g).maps[root];
      InsertedNothing(old(g).maps, root, v, pa / PGSIZE, perm);
      if panic {
        return;
      }
      var a, last, p := va / PGSIZE * PGSIZE, (va + size - 1) % UINT64 / PGSIZE * PGSIZE, pa;
      while true
        invariant a == (v + n) * PGSIZE && p == pa + n * PGSIZE && (va + size <= UINT64 ==> a <= last)
        invariant Walked(root, old(mem), old(g)) && g.maps == old(g).maps[root := Inserted(m, v, n, pa / PGSIZE, perm)]
        invariant (forall u | v <= u < v + n :: u !in m) && Spent(old(g), g, root, v, n, 0)
        decreases MAXVA - a
      {
        assert a / PGSIZE == v + n && p / PGSIZE == pa / PGSIZE + n;
        InsertedAt(m, v, n, pa / PGSIZE, perm, v + n);
        InsertedOneMore(m, v, n, pa / PGSIZE, perm);
        ghost var mem1, g1 := mem, g;
        r, panic := MapPage(root, a, p, perm);
        AddedMore(root, old(mem), old(g), mem1, g1, mem, g);
        if panic || r != 0 {
          if !panic {
            TooFew(old(g), g1, root, v, n, 0, 0, n + 1);
          }
          return;
        }
        SpentMore(old(g), g1, g, root, v, n, 0, 0);
        n := n + 1;
        if a == last {
          return;
        }
        a := a + PGSIZE;
        p := p + PGSIZE;
      }
    }

    /** One turn of uvmunmap's loop. */
    method UnmapPage(root: nat, a: nat, doFree: bool) returns (panic: bool)
      requires Valid() && root in g.maps && if doFree then Owned(g, root, a / PGSIZE, 1)
               else Disowned(g, root, a / PGSIZE, 1)
      modifies this
      ensures panic <==> a / PGSIZE !in old(g).maps[root]
      ensures !panic ==> Valid() && Unmapped(old(mem), old(g), mem, g, root, a / PGSIZE, 1, doFree)
    {
      hide Ok, KeyAt, TablesAdded, Unmapped;
      ghost var v := a / PGSIZE;
      MappedValid(root, v);
      var ok, t, i;
      ok, t, i, panic := Walk(root, a, false);
      if panic {
        return;
      }
      if !ok {
        NothingMapped(root, v);
        return true;
      }
      EntryFound(root, a, t, i);
      var pte := mem[t].ptes[i];
      if !IsV(pte) || Flags(pte) == PTE_V {
        return true;
      }
      if doFree {
        ghost var f := Frame(pte);
        assert f in g.role && g.role[f] == Leaf(root, v);
        FreeLeaf(root, v, f);
        panic := Kfree(Frame(pte) * PGSIZE, {});
      }
      SetEntry(root, a, t, i, 0);
      PageUnmapped(old(mem), old(g), mem, g, root, v, Frame(pte), t, doFree);
    }

    /** Before it is given back, a leaf page stops being the tree's. */
    ghost method FreeLeaf(root: nat, v: nat, f: nat)
      requires Valid() && f in g.role && g.role[f] == Leaf(root, v)
      modifies this`g
      ensures Valid() && g == old(g).(role := old(g).role[f := Held]) && Disowned(g, root, v, 1)
      ensures forall x | x in old(g).role && x != f :: old(g).role[x] != Leaf(root, v)
    {
      hide PlacesOk, TablesOk, FreeOk, DataOk;
      PageUsed(lo, hi, mem, freelist, g, {}, f, mem[f], Held);
      assert mem[f := mem[f]] == mem;
      g := g.(role := g.role[f := Held]);
    }

    /** uvmunmap: the pages must all be mapped. */
    method Uvmunmap(root: nat, va: nat, npages: nat, doFree: bool) returns (panic: bool)
      requires Valid() && root in g.maps && va + npages * PGSIZE < UINT64
      requires if doFree then Owned(g, root, va / PGSIZE, npages) else Disowned(g, root, va / PGSIZE, npages)
      modifies this
      ensures panic <==> va % PGSIZE != 0 || exists v ::
                           va / PGSIZE <= v < va / PGSIZE + npages && v !in old(g).maps[root]
      ensures !panic ==> Valid() && Unmapped(old(mem), old(g), mem, g, root, va / PGSIZE, npages, doFree)
    {
      hide Ok, Unmapped;
      panic := va % PGSIZE != 0;
      if panic {
        return;
      }
      ghost var v, n := va / PGSIZE, 0;
      UnmappedNothing(mem, g, root, v, doFree);
      var a := va;
      while a < va + npages * PGSIZE
        invariant Valid() && n <= npages && a == (v + n) * PGSIZE
                  && Unmapped(old(mem), old(g), mem, g, root, v, n, doFree)
        invariant forall u | v <= u < v + n :: u in old(g).maps[root]
      {
        ghost var mem1, g1 := mem, g;
        UnmappedRest(old(mem), old(g), mem, g, root, v, n, npages, doFree);
        UnmappedKeeps(old(mem), old(g), mem, g, root, v, n, doFree);
        panic := UnmapPage(root, a, doFree);
        if panic {
          return;
        }
        UnmappedMore(old(mem), old(g), mem1, g1, mem, g, root, v, n, doFree);
        n := n + 1;
        a := a + PGSIZE;
      }
    }

    /** uvmcreate */
    method Uvmcreate() returns (root: nat)
      requires Valid()
      modifies this
      ensures Valid()
      ensures root == 0 <==> old(g).free == []
      ensures root == 0 ==> unchanged(this)
      ensures root != 0 ==> |g.free| + 1 == |old(g).free| && g.nodes == old(g).nodes[Key(root, 2, 0) := root]
      ensures root != 0 ==>
                && root !in old(g).maps && g.maps == old(g).maps[root := map[]]
                && TablesAdded(root, old(mem), old(g), mem, g)
    {
      hide PlacesOk, TablesOk, FreeOk, DataOk, MapsOk;
      root := Kalloc();
      if root != 0 {
        RootAdded(lo, hi, mem, freelist, g, root);
        mem := mem[root := Table(ZeroTable(ENTRIES))];
        g := g.(role := g.role[root := Node(Key(root, 2, 0))], nodes := g.nodes[Key(root, 2, 0) := root], maps :=
        g.maps[root := map[]]);
        assert g.role == old(g).role[root := Node(Key(root, 2, 0))];
        AddedRoot(old(mem), old(g), mem, root, g.free, g.maps);
      }
    }

    /** kalloc, fill the page, mappages, and kfree if that fails: what uvmalloc and uvmcopy do for each page. */
    method AddPage(root: nat, a: nat, data: seq<byte>, perm: nat) returns (ok: bool, panic: bool)
      requires Valid() && root in g.maps && perm < 1024 && IsLeaf(perm) && |data| == PGSIZE && a % PGSIZE == 0
               && a + PGSIZE < UINT64
      modifies this
      ensures panic ==> a / PGSIZE >= MAXPN || a / PGSIZE in old(g).maps[root]
      ensures !panic ==> Valid()
      ensures !panic && !ok ==> TablesAdded(root, old(mem), old(g), mem, g) && g.maps == old(g).maps
      ensures !panic && ok ==>
                && Grown(old(mem), old(g), mem, g, root, a / PGSIZE, 1) && OwnsNew(old(g), g, root, a / PGSIZE)
                && PageIs(mem, g, root, a / PGSIZE, data, perm)
      ensures !panic && !ok ==> |old(g).free| < Price(old(g).nodes, root, a / PGSIZE, 1)
      ensures !panic && ok ==> Spent(old(g), g, root, a / PGSIZE, 1, 1)
    {
      hide Ok, TablesAdded, Grown, OwnsNew, PageIs, Disowned, Spent, Missing;
      ghost var v := a / PGSIZE;
      AddedNothing(root, mem, g);
      MappedValid(root, v);
      ok, panic := false, false;
      var f := Kalloc();
      if f == 0 {
        return;
      }
      FillHeld(f, data);
      ghost var mem1, g1 := mem, g;
      var r;
      ghost var n;
      r, panic, n := Mappages(root, a, PGSIZE, f * PGSIZE, perm);
      assert (a + PGSIZE - 1) % UINT64 / PGSIZE == v;
      if panic {
        return;
      }
      if r != 0 {
        GivenBack(root, old(mem), old(g), mem1, g1, mem, g, f, Link(freelist), [f] + g.free);
        panic := Kfree(f * PGSIZE, {});
        return;
      }
      ok := true;
      GrownOne(old(mem), old(g), mem1, g1, mem, g, root, v, f, data, perm);
      ghost var g2 := g;
      TakeLeaf(root, v, f);
      SpentSame(g1, g2, g, root, v, 1, 0);
      SpentFirst(old(g), g1, g, root, v);
    }

    /** memset or memmove to a page just allocated. */
    method FillHeld(f: nat, data: seq<byte>)
      requires Valid() && f in g.role && g.role[f].Held? && |data| == PGSIZE
      modifies this`mem
      ensures Valid() && f < |old(mem)| && mem == old(mem)[f := Data(data)]
    {
      PageUsed(lo, hi, mem, freelist, g, {}, f, Data(data), Held);
      mem := mem[f := Data(data)];
    }

    /** A page that was just mapped becomes the tree's. */
    ghost method TakeLeaf(root: nat, v: nat, f: nat)
      requires Valid() && f in g.role && g.role[f].Held? && f < |mem| && IsData(mem[f])
               && Frame(Mapped(g.maps, root, v)) == f
      modifies this`g
      ensures Valid() && g == old(g).(role := old(g).role[f := Leaf(root, v)])
    {
      hide PlacesOk, TablesOk, FreeOk, DataOk;
      PageUsed(lo, hi, mem, freelist, g, {}, f, mem[f], Leaf(root, v));
      assert mem[f := mem[f]] == mem;
      g := g.(role := g.role[f := Leaf(root, v)]);
    }

    /** uvmdealloc */
    method Uvmdealloc(root: nat, oldsz: nat, newsz: nat) returns (r: nat, panic: bool)
      requires Valid() && root in g.maps
      requires newsz < oldsz ==> oldsz <= MAXVA && Owned(g, root, PgUp(newsz), PgUp(oldsz) - PgUp(newsz))
      modifies this
      ensures newsz >= oldsz ==> !panic && r == oldsz && unchanged(this)
      ensures newsz < oldsz ==> (panic <==> exists v :: PgUp(newsz) <= v < PgUp(oldsz) && v !in old(g).maps[root])
      ensures newsz < oldsz && !panic ==>
                r == newsz && Valid() && Unmapped(old(mem), old(g), mem, g, root, PgUp(newsz),
                                                  PgUp(oldsz) - PgUp(newsz), true)
    {
      hide Ok, Unmapped;
      panic := false;
      if newsz >= oldsz {
        return oldsz, false;
      }
      r := newsz;
      UnmappedNothing(mem, g, root, PgUp(newsz), true);
      if PgUp(newsz) < PgUp(oldsz) {
        var npages := PgUp(oldsz) - PgUp(newsz);
        panic := Uvmunmap(root, PgUp(newsz) * PGSIZE, npages, true);
      }
    }

    /** uvmalloc: either the process grows by zeroed pages of its own, or, when memory runs out, its leaf map is as
        before and only table pages are gone from the free list. */
    method Uvmalloc(root: nat, oldsz: nat, newsz: nat) returns (r: nat, panic: bool)
      requires Valid() && root in g.maps && newsz + PGSIZE < UINT64
      modifies this
      ensures newsz < oldsz ==> !panic && r == oldsz && unchanged(this)
      ensures panic ==> exists v :: PgUp(oldsz) <= v < PgUp(newsz) && (v >= MAXPN || v in old(g).maps[root])
      ensures !panic ==> Valid()
      ensures oldsz <= newsz && !panic ==> r == 0 || r == newsz
      ensures oldsz <= newsz && !panic && r == newsz
              ==> AllAdded(old(mem), old(g), mem, g, root, PgUp(oldsz), PgUp(newsz))
      ensures oldsz <= newsz && !panic && r != newsz
              ==> TablesAdded(root, old(mem), old(g), mem, g) && g.maps == old(g).maps
      ensures oldsz <= newsz && !panic ==>
                && PgUp(oldsz) <= PgUp(newsz)
                && (r == newsz
                    <==> |old(g).free| >= Price(old(g).nodes, root, PgUp(oldsz), PgUp(newsz) - PgUp(oldsz)))
      ensures oldsz <= newsz && !panic && r == newsz ==>
                AllUser(g, root, PgUp(oldsz) * PGSIZE, (PgUp(newsz) - PgUp(oldsz)) * PGSIZE)
    {
      hide Ok, Grown, TablesAdded, Unmapped, Zeroed, Spent, Missing, AllUser;
      panic := false;
      if newsz < oldsz {
        return oldsz, false;
      }
      ghost var v, n := PgUp(oldsz), 0;
      GrownNothing(mem, g, root, v);
      ZeroedNothing(mem, g, root, v);
      SpentNothing(g, root, v);
      var first := PgUp(oldsz) * PGSIZE;
      var a := first;
      while a < newsz
        invariant Valid() && a == (v + n) * PGSIZE && Grown(old(mem), old(g), mem, g, root, v, n)
                  && Zeroed(mem, g, root, v, n) && Spent(old(g), g, root, v, n, n)
        invariant v + n <= PgUp(newsz) || n == 0
        decreases newsz + PGSIZE - a
      {
        assert a / PGSIZE == v + n < PgUp(newsz) && a % PGSIZE == 0;
        GrownElsewhere(old(mem), old(g), mem, g, root, v, n);
        assert v + n in g.maps[root] <==> v + n in old(g).maps[root];
        ghost var mem1, g1 := mem, g;
        var ok;
        ok, panic := AddPage(root, a, Junk(PGSIZE, 0), PTE_W + PTE_X + PTE_R + PTE_U);
        if panic {
          assert PgUp(oldsz) <= v + n < PgUp(newsz) && (v + n >= MAXPN || v + n in old(g).maps[root]);
          return 0, true;
        }
        if !ok {
          TooFew(old(g), g1, root, v, n, n, 1, PgUp(newsz) - v);
          UndoGrowth(root, old(mem), old(g), mem1, g1, a, first);
          return 0, false;
        }
        GrownMore(old(mem), old(g), mem1, g1, mem, g, root, v, n);
        GrownOwned(old(mem), old(g), mem1, g1, root, v, n);
        ZeroedMore(mem1, g1, mem, g, root, v, n);
        SpentMore(old(g), g1, g, root, v, n, n, 1);
        n := n + 1;
        a := a + PGSIZE;
      }
      assert newsz > oldsz ==> n == PgUp(newsz) - PgUp(oldsz);
      SpentEnough(old(g), g, root, v, n, n);
      ZeroedUser(mem, g, root, v, n);
      r := newsz;
    }

    /** uvmalloc's way out: uvmdealloc of what it has mapped so far. */
    method UndoGrowth(root: nat, ghost mem0: seq<Page>, ghost g0: Pool, ghost mem1: seq<Page>, ghost g1: Pool, a: nat,
                      first: nat)
      requires Valid() && first <= a && first % PGSIZE == 0 && a % PGSIZE == 0
      requires Grown(mem0, g0, mem1, g1, root, first / PGSIZE, (a - first) / PGSIZE)
      requires TablesAdded(root, mem1, g1, mem, g) && g.maps == g1.maps
      modifies this
      ensures Valid() && TablesAdded(root, mem0, g0, mem, g) && g.maps == g0.maps
    {
      hide Ok, Grown, TablesAdded, Unmapped;
      ghost var v, n := first / PGSIZE, (a - first) / PGSIZE;
      GrownTables(mem0, g0, mem1, g1, mem, g, root, v, n);
      GrownOwned(mem0, g0, mem, g, root, v, n);
      if a > first {
        MappedValid(root, v + n - 1);
      }
      assert PgUp(first) == v && PgUp(a) == v + n;
      UnmappedNothing(mem, g, root, v, true);
      ghost var mem2, g2 := mem, g;
      var r, panic := Uvmdealloc(root, a, first);
      GrownUndone(mem0, g0, mem2, g2, mem, g, root, v, n);
    }

    /** What an entry of a table tells about the tree below it. */
    lemma EntryTells(key: Key, i: nat)
      requires Valid() && key in g.nodes && i < ENTRIES
      ensures var t := g.nodes[key];
              && t < |mem| && mem[t].Table? && |mem[t].ptes| == ENTRIES && t in g.role && g.role[t].Node?
              && key.level <= 2
              && var e := mem[t].ptes[i];
              && (IsV(e) && !IsLeaf(e) ==> key.level > 0 && Child(key, i) in g.nodes
                                           && g.nodes[Child(key, i)] == Frame(e))
              && (IsV(e) && IsLeaf(e) ==> exists v :: MappedAt(g, key, i, v))
              && (!IsV(e) ==> (forall v :: !MappedAt(g, key, i, v)) && BareEntry(g, key, i))
              && (!IsV(e) && key.level > 0 ==> Subtree(g, Child(key, i)) == {})
    {
      hide PlacesOk, TablesOk, FreeOk, DataOk, MapsOk, Below;
      TableAt(mem, g, {}, key);
      EntryAt(mem, g, {}, key, i);
      var e := mem[g.nodes[key]].ptes[i];
      if key.level == 0 {
        MappedValid(key.root, key.prefix * ENTRIES + i);
        if IsV(e) {
          assert MappedAt(g, key, i, key.prefix * ENTRIES + i);
        }
      } else if !IsV(e) {
        SubtreeEmpty(g, Child(key, i));
        forall v
          ensures !MappedAt(g, key, i, v)
        {
          if key.root in g.maps && v in g.maps[key.root] {
            MappedHasTable(key.root, v);
            assert KeyAt(key.root, 0, v) !in Subtree(g, Child(key, i));
          }
        }
      }
    }

    lemma TableThere(key: Key, hole: set<Key>)
      requires Linking(hole) && key in g.nodes
      ensures var t := g.nodes[key]; t < |mem| && mem[t].Table? && |mem[t].ptes| == ENTRIES && t in g.role
                                     && g.role[t].Node?
    {
      hide MapsOk, FreeOk, DataOk;
      TableAt(mem, g, hole, key);
    }

    lemma RootOnly(mem0: seq<Page>, head0: nat, g0: Pool, key: Key)
      requires Ok(lo, hi, mem0, head0, g0, {}) && key in g0.nodes && key.level == 2
               && Pruned(mem0, g0, mem, g, DoneSet(g0, key, ENTRIES))
      ensures forall other | other in g.nodes && other.root == key.root :: other == key
    {
      hide PlacesOk, TablesOk, MapsOk, FreeOk, DataOk;
      OnlyRootLeft(mem0, g0, mem, g, key);
    }

    lemma MappedBelowRoot(root: nat)
      requires Valid() && root in g.maps
      ensures Key(root, 2, 0) in g.nodes && forall v :: MappedBelow(g, Key(root, 2, 0), v) <==> v in g.maps[root]
    {
      hide TablesOk, FreeOk, DataOk, Below;
      forall v | v in g.maps[root]
        ensures Below(Key(root, 2, 0), KeyAt(root, 0, v))
      {
        AllBelowRoot(g, Key(root, 2, 0), KeyAt(root, 0, v));
      }
    }

    lemma TornAll(mem0: seq<Page>, g0: Pool, mem1: seq<Page>, head1: nat, g1: Pool, root: nat, n: nat)
      requires Ok(lo, hi, mem1, head1, g1, {}) && Key(root, 2, 0) in g1.nodes
      requires Unmapped(mem0, g0, mem1, g1, root, 0, n, true) && Pruned(mem1, g1, mem, g, Subtree(g1, Key(root, 2, 0)))
      requires g.maps == WithoutTree(g1, Key(root, 2, 0))
      ensures TornDown(mem0, g0, mem, g, root, n)
    {
      hide PlacesOk, TablesOk, MapsOk, FreeOk, DataOk, Unmapped, Pruned, TornDown;
      TornTogether(mem0, g0, mem1, g1, mem, g, root, n);
    }

    lemma MappedHasTable(root: nat, v: nat)
      requires Valid() && root in g.maps && v in g.maps[root]
      ensures KeyAt(root, 0, v) in g.nodes
    {
      hide PlacesOk, TablesOk, FreeOk, DataOk;
    }

    /** The end of freewalk: a table with nothing left below it is given back. */
    method DropTable(t: nat, ghost key: Key)
      requires Valid() && key in g.nodes && g.nodes[key] == t && Bare(g, key)
      requires key.level == 2 ==> forall other | other in g.nodes && other.root == key.root :: other == key
      modifies this
      ensures Linking(if key.level == 2 then {} else {key}) && Pruned(old(mem), old(g), mem, g, {key})
              && g.maps == WithoutTree(old(g), key)
    {
      hide PlacesOk, TablesOk, MapsOk, FreeOk, DataOk, Bare;
      TableAt(mem, g, {}, key);
      NodeDropped(lo, hi, mem, freelist, g, key);
      g := g.(role := g.role[t := Held], nodes := g.nodes - {key}, maps := WithoutTree(g, key));
      if key.level == 2 {
        NoLinkToRoot(mem, g, key);
      }
      var panic := Kfree(t * PGSIZE, if key.level == 2 then {} else {key});
      DroppedOne(old(mem), old(g), mem, g, key);
    }

    /** One turn of freewalk's loop. */
    method FreeEntry(t: nat, i: nat, ghost key: Key) returns (panic: bool)
      requires Valid() && key in g.nodes && g.nodes[key] == t && i < ENTRIES
      modifies this
      ensures panic <==> exists v :: MappedAt(old(g), key, i, v)
      ensures !panic ==>
                && Valid() && g.maps == old(g).maps && key in g.nodes && g.nodes[key] == t && BareEntry(g, key, i)
                && Pruned(old(mem), old(g), mem, g, if key.level == 0 then {} else Subtree(old(g), Child(key, i)))
      decreases key.level, 0
    {
      hide Ok, Pruned, Below, KeyAt;
      panic := false;
      EntryTells(key, i);
      PrunedNothing(mem, g);
      var pte := mem[t].ptes[i];
      if IsV(pte) && !IsLeaf(pte) {
        ghost var c := Child(key, i);
        assert forall v :: MappedAt(g, key, i, v) <==> MappedBelow(g, c, v);
        panic := Freewalk(Frame(pte), c);
        if !panic {
          assert Linking({c});
          StillThere(old(mem), old(g), mem, g, key, i);
          LinkCleared(lo, hi, mem, freelist, g, key, i);
          TableThere(key, {c});
          PrunedTable(old(mem), old(g), mem, g, Subtree(old(g), c), t, Table(mem[t].ptes[i := 0]));
          mem := mem[t := Table(mem[t].ptes[i := 0])];
        }
      } else if IsV(pte) {
        panic := true;
      }
    }

    /** freewalk. It panics if and only if a page is still mapped below the table. */
    method Freewalk(t: nat, ghost key: Key) returns (panic: bool)
      requires Valid() && key in g.nodes && g.nodes[key] == t
      modifies this
      ensures panic <==> exists v :: MappedBelow(old(g), key, v)
      ensures !panic ==>
                && Linking(if key.level == 2 then {} else {key}) && g.maps == WithoutTree(old(g), key)
                && Pruned(old(mem), old(g), mem, g, Subtree(old(g), key))
      decreases key.level, 1
    {
      hide Ok, Pruned, Below, KeyAt, BareEntry;
      panic := false;
      PrunedNothing(mem, g);
      NothingDone(g, key);
      var i := 0;
      while i < ENTRIES
        invariant 0 <= i <= ENTRIES && Valid() && g.maps == old(g).maps && key in g.nodes && g.nodes[key] == t
        invariant Pruned(old(mem), old(g), mem, g, DoneSet(old(g), key, i)) && BareUpTo(g, key, i)
        invariant forall j, v | 0 <= j < i :: !MappedAt(old(g), key, j, v)
      {
        ghost var mem1, g1 := mem, g;
        panic := FreeEntry(t, i, key);
        assert forall v :: MappedAt(g1, key, i, v) <==> MappedAt(old(g), key, i, v);
        if panic {
          ghost var v :| MappedAt(old(g), key, i, v);
          MappedAtBelow(old(g), key, i, v);
          return;
        }
        EntryDone(old(mem), old(g), mem1, g1, mem, g, key, i);
        i := i + 1;
      }
      if v :| MappedBelow(old(g), key, v) {
        ghost var j := MappedAtSome(old(g), key, v);
      }
      if key.level == 2 {
        RootOnly(old(mem), old(freelist), old(g), key);
      }
      ghost var mem1, g1 := mem, g;
      DropTable(t, key);
      TreeDone(old(mem), old(g), mem1, g1, mem, g, key);
    }

    /** uvmfree. It panics unless exactly the pages of [0, PGROUNDUP(sz)) are mapped; if it does not, all pages of the
        tree, leaves and tables, are free again, and nothing else has changed. */
    method Uvmfree(root: nat, sz: nat) returns (panic: bool)
      requires Valid() && root in g.maps && sz <= MAXVA && Owned(g, root, 0, PgUp(sz))
      modifies this
      ensures panic <==> exists v: nat :: v in old(g).maps[root] <==> v >= PgUp(sz)
      ensures !panic ==> Valid() && TornDown(old(mem), old(g), mem, g, root, PgUp(sz))
    {
      hide Ok, Unmapped, Pruned;
      panic := false;
      UnmappedNothing(mem, g, root, 0, true);
      RootTable(root, 0);
      if sz > 0 {
        panic := Uvmunmap(root, 0, PgUp(sz), true);
        if panic {
          return;
        }
      }
      ghost var mem1, head1, g1 := mem, freelist, g;
      UnmappedRoot(old(mem), old(g), mem, g, root, PgUp(sz));
      MappedBelowRoot(root);
      panic := Freewalk(root, Key(root, 2, 0));
      if !panic {
        TornAll(old(mem), old(g), mem1, head1, g1, root, PgUp(sz));
      }
    }

    /** uvmcopy: either the new tree gets a copy of every page, with the same flags, or it has none of them and only
        table pages are gone from the free list. The old tree is left alone. */
    method Uvmcopy(from: nat, to: nat, sz: nat) returns (r: int, panic: bool)
      requires Valid() && from in g.maps && to in g.maps && from != to && sz <= MAXVA && Owned(g, from, 0, PgUp(sz))
      modifies this
      ensures panic ==> exists v :: 0 <= v < PgUp(sz) && (v !in old(g).maps[from] || v in old(g).maps[to])
      ensures !panic ==> Valid() && (r == 0 || r == -1)
      ensures !panic && r == 0 ==>
                Grown(old(mem), old(g), mem, g, to, 0, PgUp(sz)) && CopyOf(old(mem), old(g), mem, g, from, to, PgUp(sz))
      ensures !panic && r != 0 ==> TablesAdded(to, old(mem), old(g), mem, g) && g.maps == old(g).maps
      ensures !panic ==> (r == 0 <==> |old(g).free| >= Price(old(g).nodes, to, 0, PgUp(sz)))
    {
      hide Ok, Grown, TablesAdded, Unmapped, CopyOf, PageIs, KeyAt, Spent, Missing;
      SpentNothing(g, to, 0);
      panic := false;
      ghost var n := 0;
      GrownNothing(mem, g, to, 0);
      CopyOfNothing(mem, g, from, to);
      var i := 0;
      while i < sz
        invariant Valid() && i == n * PGSIZE && n <= PgUp(sz) && Spent(old(g), g, to, 0, n, n)
        invariant Grown(old(mem), old(g), mem, g, to, 0, n) && CopyOf(old(mem), old(g), mem, g, from, to, n)
      {
        GrownElsewhere(old(mem), old(g), mem, g, to, 0, n);
        ghost var mem1, g1 := mem, g;
        var ok;
        ok, panic := CopyPage(from, to, i, old(mem), old(g), n);
        if panic {
          assert 0 <= n < PgUp(sz) && (n !in old(g).maps[from] || n in old(g).maps[to]);
          return 0, true;
        }
        if !ok {
          TooFew(old(g), g1, to, 0, n, n, 1, PgUp(sz));
          UndoCopy(to, old(mem), old(g), mem1, g1, i);
          return -1, false;
        }
        GrownMore(old(mem), old(g), mem1, g1, mem, g, to, 0, n);
        GrownOwned(old(mem), old(g), mem1, g1, to, 0, n);
        CopyOfMore(old(mem), old(g), mem1, g1, mem, g, from, to, n);
        SpentMore(old(g), g1, g, to, 0, n, n, 1);
        n := n + 1;
        i := i + PGSIZE;
      }
      SpentEnough(old(g), g, to, 0, n, n);
      r := 0;
    }

    /** One turn of uvmcopy's loop. */
    method CopyPage(from: nat, to: nat, i: nat, ghost mem0: seq<Page>, ghost g0: Pool, ghost n: nat)
      returns (ok: bool, panic: bool)
      requires Valid() && Grown(mem0, g0, mem, g, to, 0, n) && from in g0.maps && from != to && i == n * PGSIZE
               && i < MAXVA
      requires Owned(g0, from, 0, n + 1)
      modifies this
      ensures panic ==> n !in g0.maps[from] || n in g0.maps[to]
      ensures !panic ==> Valid()
      ensures !panic && !ok ==> TablesAdded(to, old(mem), old(g), mem, g) && g.maps == old(g).maps
      ensures !panic && ok ==> Grown(old(mem), old(g), mem, g, to, n, 1) && PageCopied(mem0, g0, mem, g, from, to, n)
      ensures !panic && !ok ==> |old(g).free| < Price(old(g).nodes, to, n, 1)
      ensures !panic && ok ==> Spent(old(g), g, to, n, 1, 1)
    {
      hide Spent, Missing, Ok, Grown, TablesAdded, Unmapped, PageIs, KeyAt, OwnsNew;
      GrownOther(mem0, g0, mem, g, from, to, n);
      GrownElsewhere(mem0, g0, mem, g, to, 0, n);
      MappedValid(from, n);
      ok := false;
      var t, j;
      ok, t, j, panic := Walk(from, i, false);
      if !ok {
        NothingMapped(from, n);
        return false, true;
      }
      EntryFound(from, i, t, j);
      var pte := mem[t].ptes[j];
      if !IsV(pte) {
        return false, true;
      }
      LeafData(from, n, Frame(pte));
      ok, panic := AddPage(to, i, mem[Frame(pte)].bytes, Flags(pte));
    }

    lemma LeafData(root: nat, v: nat, f: nat)
      requires Valid() && f in g.role && g.role[f] == Leaf(root, v)
      ensures f < |mem| && IsData(mem[f])
    {
      hide PlacesOk, TablesOk, FreeOk, MapsOk;
    }

    /** uvmcopy's way out: uvmunmap of what it has mapped so far. */
    method UndoCopy(to: nat, ghost mem0: seq<Page>, ghost g0: Pool, ghost mem1: seq<Page>, ghost g1: Pool, i: nat)
      requires Valid() && i % PGSIZE == 0 && i <= MAXVA && Grown(mem0, g0, mem1, g1, to, 0, i / PGSIZE)
      requires TablesAdded(to, mem1, g1, mem, g) && g.maps == g1.maps
      modifies this
      ensures Valid() && TablesAdded(to, mem0, g0, mem, g) && g.maps == g0.maps
    {
      hide Ok, Grown, TablesAdded, Unmapped;
      ghost var n := i / PGSIZE;
      GrownTables(mem0, g0, mem1, g1, mem, g, to, 0, n);
      GrownOwned(mem0, g0, mem, g, to, 0, n);
      ghost var mem2, g2 := mem, g;
      var panic := Uvmunmap(to, 0, i / PGSIZE, true);
      GrownUndone(mem0, g0, mem2, g2, mem, g, to, 0, n);
    }

    /** copyout: it succeeds if and only if all of the destination is user memory; the bytes up to the first page that
        is not are written, and no other byte of any page changes. */
    method Copyout(root: nat, dstva: nat, src: seq<byte>) returns (r: int, ghost w: nat)
      requires Valid() && Private(g, root)
      modifies this
      ensures Valid() && g == old(g) && w <= |src| && Stored(old(mem), mem, g, root, dstva, src[..w])
      ensures r == (if AllUser(g, root, dstva, |src|) then 0 else -1)
      ensures r == 0 ==> w == |src|
      ensures r != 0 ==> w < |src| && AllUser(g, root, dstva, w) && !IsUser(g, root, dstva + w)
    {
      hide Ok, Stored, Private, IsUser;
      StoredNothing(mem, g, root, dstva);
      w := 0;
      var len, rest, dst := |src|, src, dstva;
      while len > 0
        invariant Valid() && g == old(g) && w <= |src| && len == |rest| && rest == src[w..]
                  && (len > 0 ==> dst == dstva + w)
        invariant Stored(old(mem), mem, g, root, dstva, src[..w])
        invariant AllUser(g, root, dstva, w)
        decreases len
      {
        var va0, pa0 := Translate(root, dst);
        if pa0 == 0 {
          return -1, w;
        }
        var n := PGSIZE - (dst - va0);
        if n > len {
          n := len;
        }
        ghost var mem1 := mem;
        StoreChunk(root, dst, pa0 / PGSIZE, rest[..n]);
        StoredMore(old(mem), mem1, mem, g, root, dstva, src[..w], rest[..n]);
        assert src[..w] + rest[..n] == src[..w + n];
        SamePage(g, root, dst, n);
        len := len - n;
        rest := rest[n..];
        dst := va0 + PGSIZE;
        w := w + n;
      }
      r := 0;
    }

    /** memmove to part of a user page. */
    method StoreChunk(ghost root: nat, va: nat, f: nat, chunk: seq<byte>)
      requires Valid() && Private(g, root) && IsUser(g, root, va) && f == Frame(g.maps[root][va / PGSIZE])
               && va % PGSIZE + |chunk| <= PGSIZE
      modifies this`mem
      ensures Valid() && Stored(old(mem), mem, g, root, va, chunk)
    {
      hide Ok, Stored;
      LeafData(root, va / PGSIZE, f);
      var off, bytes := va % PGSIZE, mem[f].bytes;
      ChunkStored(lo, hi, mem, freelist, g, root, va, f, chunk);
      mem := mem[f := Data(bytes[..off] + chunk + bytes[off + |chunk|..])];
    }

    /** The start of the page of va, and its physical address if it is user memory. */
    method Translate(root: nat, va: nat) returns (va0: nat, pa0: nat)
      requires Valid() && Private(g, root)
      modifies this
      ensures unchanged(this) && va0 == va - va % PGSIZE
      ensures pa0 == 0 <==> !IsUser(g, root, va)
      ensures pa0 != 0 ==> pa0 / PGSIZE == Frame(g.maps[root][va / PGSIZE])
    {
      hide PlacesOk, TablesOk, FreeOk, DataOk, MapsOk;
      va0 := va / PGSIZE * PGSIZE;
      pa0 := Walkaddr(root, va0);
      assert va0 / PGSIZE == va / PGSIZE;
    }

    /** copyin: it succeeds if and only if all of the source is user memory, and then it reads what is there. */
    method Copyin(root: nat, srcva: nat, len: nat) returns (r: int, dst: seq<byte>)
      requires Valid() && Private(g, root)
      modifies this
      ensures unchanged(this)
      ensures r == (if AllUser(g, root, srcva, len) then 0 else -1)
      ensures r == 0 ==> |dst| == len && Holds(mem, g, root, srcva, dst)
    {
      hide Ok, Private, IsUser, UserByte;
      dst := [];
      var left, src := len, srcva;
      while left > 0
        invariant unchanged(this) && left >= 0 && left + |dst| == len && (left > 0 ==> src == srcva + |dst|)
                  && Holds(mem, g, root, srcva, dst)
        invariant AllUser(g, root, srcva, |dst|)
        decreases left
      {
        var va0, pa0 := Translate(root, src);
        if pa0 == 0 {
          return -1, dst;
        }
        var n := PGSIZE - (src - va0);
        if n > left {
          n := left;
        }
        SamePage(g, root, src, n);
        var chunk := LoadChunk(root, src, pa0 / PGSIZE, n);
        HoldsMore(mem, g, root, srcva, dst, chunk);
        left := left - n;
        dst := dst + chunk;
        src := va0 + PGSIZE;
      }
      r := 0;
    }

    /** memmove from part of a user page. */
    method LoadChunk(ghost root: nat, va: nat, f: nat, n: nat) returns (chunk: seq<byte>)
      requires Valid() && Private(g, root) && IsUser(g, root, va) && f == Frame(g.maps[root][va / PGSIZE])
               && va % PGSIZE + n <= PGSIZE
      ensures |chunk| == n && Holds(mem, g, root, va, chunk)
    {
      hide Ok;
      LeafData(root, va / PGSIZE, f);
      chunk := mem[f].bytes[va % PGSIZE..va % PGSIZE + n];
      forall a: nat | va <= a < va + n
        ensures UserByte(mem, g, root, a) == chunk[a - va]
      {
        assert a / PGSIZE == va / PGSIZE && a % PGSIZE == va % PGSIZE + (a - va);
      }
    }
  }
}
