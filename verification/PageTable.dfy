/** Sv39 page tables (section 4.4 of the RISC-V Privileged Architecture manual) as kernel/vm.c builds them out of the
    pages of kernel/kalloc.c. A page of memory is what it is used as: a link of the free list, a table, or data. */
module PageTable {
  import opened Blocks

  const PGSIZE: nat := 4096
  const ENTRIES: nat := 512
  const MAXVA: nat := 0x40_0000_0000
  const MAXPN: nat := MAXVA / PGSIZE

  const PTE_V: nat := 1
  const PTE_R: nat := 2
  const PTE_W: nat := 4
  const PTE_X: nat := 8
  const PTE_U: nat := 16

  // Page table entries: the physical page number above ten flag bits.

  predicate IsV(e: nat) {
    Flags(e) % 2 == 1
  }

  /** One of the bits R, W and X is set. */
  predicate IsLeaf(e: nat) {
    Flags(e) / 2 % 8 != 0
  }

  predicate IsR(e: nat) {
    Flags(e) / 2 % 2 == 1
  }

  predicate IsW(e: nat) {
    Flags(e) / 4 % 2 == 1
  }

  predicate IsX(e: nat) {
    Flags(e) / 8 % 2 == 1
  }

  predicate IsU(e: nat) {
    Flags(e) / 16 % 2 == 1
  }

  function Frame(e: nat): nat {
    e / 1024
  }

  function Flags(e: nat): nat {
    e % 1024
  }

  /** A valid entry for a page, with permissions. */
  function Pte(frame: nat, perm: nat): (e: nat)
    requires perm < 1024
    ensures IsV(e) && Frame(e) == frame && IsLeaf(e) == IsLeaf(perm) && IsU(e) == IsU(perm)
    ensures Flags(e) == if IsV(perm) then perm else perm + 1
  {
    frame * 1024 + if IsV(perm) then perm else perm + 1
  }

  /** The nine bits of an address that select the entry at a level. */
  function PX(level: nat, va: nat): (i: nat)
    requires level <= 2
    ensures i < ENTRIES
  {
    va / (if level == 2 then 0x4000_0000 else if level == 1 then 0x20_0000 else 0x1000) % 512
  }

  // The pages, and what each is for.

  datatype Page = Link(next: nat) | Table(ptes: seq<nat>) | Data(bytes: seq<byte>)

  /** A table page, by the tree it belongs to, its level, and the part of the virtual address that leads to it. */
  datatype Key = Key(root: nat, level: nat, prefix: nat)

  /** Every page of the pool is exactly one of these. Held pages are in use outside any tree, as trapframes are. */
  datatype Role = Free | Held | Node(key: Key) | Leaf(root: nat, vpn: nat)

  /** The abstract state: the free list in order, the role of each page, the table pages, and for each tree its leaf
      map. */
  datatype Pool = Pool(free: seq<nat>, role: map<nat, Role>, nodes: map<Key, nat>, maps: map<nat, map<nat, nat>>)

  function Child(key: Key, i: nat): Key
    requires key.level > 0
  {
    Key(key.root, key.level - 1, key.prefix * ENTRIES + i)
  }

  function Parent(key: Key): Key {
    Key(key.root, key.level + 1, key.prefix / ENTRIES)
  }

  /** The table that a walk for page vpn reaches at a level. */
  function KeyAt(root: nat, level: nat, vpn: nat): Key {
    Key(root, level, if level == 2 then 0 else if level == 1 then vpn / ENTRIES / ENTRIES else vpn / ENTRIES)
  }

  lemma DigitsOfVa(va: nat)
    requires va < MAXVA
    ensures PX(2, va) == va / PGSIZE / ENTRIES / ENTRIES && PX(1, va) == va / PGSIZE / ENTRIES % ENTRIES
            && PX(0, va) == va / PGSIZE % ENTRIES
  {
  }

  /** One step of a walk goes from the table of one level to that of the next. */
  lemma WalkStep(root: nat, level: nat, va: nat)
    requires va < MAXVA && 1 <= level <= 2
    ensures Child(KeyAt(root, level, va / PGSIZE), PX(level, va)) == KeyAt(root, level - 1, va / PGSIZE)
    ensures Parent(KeyAt(root, level - 1, va / PGSIZE)) == KeyAt(root, level, va / PGSIZE)
            && KeyAt(root, level, va / PGSIZE).root == root
  {
    DigitsOfVa(va);
  }

  lemma ChildParent(key: Key, i: nat)
    requires key.level > 0 && i < ENTRIES
    ensures Parent(Child(key, i)) == key && Child(key, i).prefix % ENTRIES == i
  {
  }

  lemma ParentChild(key: Key)
    ensures Child(Parent(key), key.prefix % ENTRIES) == key
  {
  }

  // Well-formed memory.

  predicate Linked(mem: seq<Page>, head: nat, free: seq<nat>)
    decreases |free|
  {
    if free == [] then head == 0
    else head == free[0] && head < |mem| && mem[head].Link? && Linked(mem, mem[head].next, free[1..])
  }

  predicate FreeOk(mem: seq<Page>, head: nat, g: Pool) {
    && Linked(mem, head, g.free) && Distinct(g.free)
    && (forall f | f in g.role :: g.role[f].Free? <==> f in g.free)
    && (forall f | f in g.free :: f in g.role)
  }

  function Mapped(maps: map<nat, map<nat, nat>>, root: nat, vpn: nat): nat {
    if root in maps && vpn in maps[root] then maps[root][vpn] else 0
  }

  /** What entry i of a table holds. The link to a table in hole may be out of date. */
  predicate EntryOk(nodes: map<Key, nat>, maps: map<nat, map<nat, nat>>, hole: set<Key>, key: Key, i: nat, e: nat) {
    if key.level == 0 then e == Mapped(maps, key.root, key.prefix * ENTRIES + i)
    else Child(key, i) in hole || e == if Child(key, i) in nodes then Pte(nodes[Child(key, i)], 0) else 0
  }

  predicate TableOk(nodes: map<Key, nat>, maps: map<nat, map<nat, nat>>, hole: set<Key>, key: Key, page: Page) {
    page.Table? && |page.ptes| == ENTRIES && forall i | 0 <= i < ENTRIES ::
      EntryOk(nodes, maps, hole, key, i, page.ptes[i])
  }

  predicate TablesOk(mem: seq<Page>, nodes: map<Key, nat>, maps: map<nat, map<nat, nat>>, hole: set<Key>) {
    forall key | key in nodes :: nodes[key] < |mem| && TableOk(nodes, maps, hole, key, mem[nodes[key]])
  }

  /** Where a table stands in its tree. */
  predicate PlaceOk(g: Pool, key: Key, f: nat) {
    && f in g.role && g.role[f] == Node(key) && key.root in g.maps && key.level <= 2
    && (key.level == 2 ==> key.prefix == 0 && f == key.root)
    && (key.level < 2 ==> Parent(key) in g.nodes)
  }

  predicate PlacesOk(g: Pool) {
    && (forall key | key in g.nodes :: PlaceOk(g, key, g.nodes[key]))
    && (forall f | f in g.role && g.role[f].Node? :: g.role[f].key in g.nodes && g.nodes[g.role[f].key] == f)
    && (forall r | r in g.maps :: Key(r, 2, 0) in g.nodes)
  }

  predicate MapsOk(g: Pool) {
    && (forall r, v | r in g.maps && v in g.maps[r] ::
          v < MAXPN && KeyAt(r, 0, v) in g.nodes && IsV(g.maps[r][v]) && IsLeaf(g.maps[r][v]))
    && (forall f | f in g.role && g.role[f].Leaf? :: Frame(Mapped(g.maps, g.role[f].root, g.role[f].vpn)) == f)
  }

  predicate IsData(page: Page) {
    page.Data? && |page.bytes| == PGSIZE
  }

  predicate DataOk(mem: seq<Page>, role: map<nat, Role>) {
    forall f | f in role && role[f].Leaf? :: f < |mem| && IsData(mem[f])
  }

  ghost predicate InPool(lo: nat, hi: nat, mem: seq<Page>, role: map<nat, Role>) {
    0 < lo <= hi <= |mem| && forall f :: f in role <==> lo <= f < hi
  }

  ghost predicate Ok(lo: nat, hi: nat, mem: seq<Page>, head: nat, g: Pool, hole: set<Key>) {
    && InPool(lo, hi, mem, g.role) && FreeOk(mem, head, g) && PlacesOk(g) && TablesOk(mem, g.nodes, g.maps, hole)
    && MapsOk(g) && DataOk(mem, g.role)
  }

  /** The table page and the entry in it that a walk for va ends at. */
  ghost predicate Reaches(g: Pool, root: nat, va: nat, table: nat, i: nat) {
    KeyAt(root, 0, va / PGSIZE) in g.nodes && table == g.nodes[KeyAt(root, 0, va / PGSIZE)] && i == PX(0, va)
  }

  /** Two pages below MAXVA never share an entry, whether in one tree or in two. */
  lemma DistinctEntries(lo: nat, hi: nat, mem: seq<Page>, head: nat, g: Pool, r: nat, va: nat, s: nat, vb: nat,
                        table: nat, i: nat)
    requires Ok(lo, hi, mem, head, g, {}) && va < MAXVA && vb < MAXVA
    requires Reaches(g, r, va, table, i) && Reaches(g, s, vb, table, i)
    ensures r == s && va / PGSIZE == vb / PGSIZE
  {
    DigitsOfVa(va);
    DigitsOfVa(vb);
    assert PlaceOk(g, KeyAt(r, 0, va / PGSIZE), table) && PlaceOk(g, KeyAt(s, 0, vb / PGSIZE), table);
  }

  // What the steps of the code do to well-formed memory.

  lemma {:induction false} LinkedFrame(mem: seq<Page>, mem': seq<Page>, head: nat, free: seq<nat>)
    requires Linked(mem, head, free) && |mem| == |mem'|
    requires forall f | f in free && f < |mem| :: mem'[f] == mem[f]
    ensures Linked(mem', head, free)
    decreases |free|
  {
    if free != [] {
      LinkedFrame(mem, mem', mem[head].next, free[1..]);
    }
  }

  lemma ListFrame(mem: seq<Page>, mem': seq<Page>, head: nat, g: Pool, g': Pool)
    requires FreeOk(mem, head, g) && |mem| == |mem'| && g'.free == g.free && g'.role.Keys == g.role.Keys
    requires forall f | f in g.role :: (g'.role[f].Free? <==> g.role[f].Free?)
                                       && (g.role[f].Free? && f < |mem| ==> mem'[f] == mem[f])
    ensures FreeOk(mem', head, g')
  {
    LinkedFrame(mem, mem', head, g.free);
  }

  lemma DataFrame(mem: seq<Page>, mem': seq<Page>, role: map<nat, Role>)
    requires DataOk(mem, role) && |mem| == |mem'| && forall f | f in role && role[f].Leaf? && f < |mem| ::
               mem'[f] == mem[f]
    ensures DataOk(mem', role)
  {
  }

  /** One page that is no table changes its role, or its data. */
  lemma PageChanged(lo: nat, hi: nat, mem: seq<Page>, g: Pool, hole: set<Key>, f: nat, page: Page, role: Role)
    requires InPool(lo, hi, mem, g.role) && PlacesOk(g) && TablesOk(mem, g.nodes, g.maps, hole) && DataOk(mem, g.role)
    requires f in g.role && !g.role[f].Node? && !role.Node? && (role.Leaf? ==> IsData(page))
    ensures var mem', role' := mem[f := page], g.role[f := role];
            && InPool(lo, hi, mem', role') && PlacesOk(g.(role := role')) && TablesOk(mem', g.nodes, g.maps, hole)
            && DataOk(mem', role')
  {
    hide TableOk;
    forall key | key in g.nodes
      ensures PlaceOk(g.(role := g.role[f := role]), key, g.nodes[key]) && g.nodes[key] != f
    {
      assert PlaceOk(g, key, g.nodes[key]);
    }
  }

  /** kalloc takes the first page of the list. */
  lemma PageTaken(lo: nat, hi: nat, mem: seq<Page>, head: nat, g: Pool, hole: set<Key>, page: Page)
    requires Ok(lo, hi, mem, head, g, hole) && head != 0 && IsData(page)
    ensures head in g.role && mem[head].Link? && g.free != [] && g.free[0] == head && g.role[head].Free?
    ensures Ok(lo, hi, mem[head := page], mem[head].next, g.(free := g.free[1..], role := g.role[head := Held]), hole)
  {
    hide TablesOk, PlacesOk, KeyAt;
    LinkedFrame(mem, mem[head := page], mem[head].next, g.free[1..]);
    PageChanged(lo, hi, mem, g, hole, head, page, Held);
    assert g.(free := g.free[1..], role := g.role[head := Held]).nodes == g.nodes;
    PlacesSame(g.(role := g.role[head := Held]), g.free[1..]);
  }

  lemma PlacesSame(g: Pool, free: seq<nat>)
    requires PlacesOk(g)
    ensures PlacesOk(g.(free := free))
  {
    assert forall key | key in g.nodes :: PlaceOk(g, key, g.nodes[key])
                                          ==> PlaceOk(g.(free := free), key, g.nodes[key]);
  }

  /** kfree puts a page in front. */
  lemma PageGiven(lo: nat, hi: nat, mem: seq<Page>, head: nat, g: Pool, hole: set<Key>, f: nat)
    requires Ok(lo, hi, mem, head, g, hole) && f in g.role && g.role[f].Held?
    ensures Ok(lo, hi, mem[f := Link(head)], f, g.(free := [f] + g.free, role := g.role[f := Free]), hole)
  {
    hide TablesOk, PlacesOk, KeyAt;
    LinkedFrame(mem, mem[f := Link(head)], head, g.free);
    assert ([f] + g.free)[1..] == g.free;
    PageChanged(lo, hi, mem, g, hole, f, Link(head), Free);
    PlacesSame(g.(role := g.role[f := Free]), [f] + g.free);
  }

  function ZeroTable(n: nat): (z: seq<nat>)
    ensures |z| == n && forall i | 0 <= i < n :: z[i] == 0
  {
    if n == 0 then [] else ZeroTable(n - 1) + [0]
  }

  lemma TableAt(mem: seq<Page>, g: Pool, hole: set<Key>, key: Key)
    requires PlacesOk(g) && TablesOk(mem, g.nodes, g.maps, hole) && key in g.nodes
    ensures var t := g.nodes[key];
            t < |mem| && mem[t].Table? && |mem[t].ptes| == ENTRIES && PlaceOk(g, key, t)
  {
    assert TableOk(g.nodes, g.maps, hole, key, mem[g.nodes[key]]);
  }

  lemma EntryAt(mem: seq<Page>, g: Pool, hole: set<Key>, key: Key, i: nat)
    requires PlacesOk(g) && TablesOk(mem, g.nodes, g.maps, hole) && key in g.nodes && i < ENTRIES
    ensures var t := g.nodes[key];
            t < |mem| && mem[t].Table? && |mem[t].ptes| == ENTRIES
            && EntryOk(g.nodes, g.maps, hole, key, i, mem[t].ptes[i])
  {
    assert TableOk(g.nodes, g.maps, hole, key, mem[g.nodes[key]]);
  }

  /** Neither the leaf maps nor the data pages notice that a held page becomes a table. */
  lemma MapsAfterAdding(g: Pool, c: Key, f: nat, mem: seq<Page>, mem': seq<Page>)
    requires MapsOk(g) && DataOk(mem, g.role) && f in g.role && g.role[f].Held? && |mem'| == |mem|
    requires forall x | x in g.role && x < |mem| && !g.role[x].Node? && x != f :: mem'[x] == mem[x]
    ensures MapsOk(g.(role := g.role[f := Node(c)], nodes := g.nodes[c := f])) && DataOk(mem', g.role[f := Node(c)])
  {
  }

  /** A held page becomes an empty table below an existing one. */
  lemma NodeAdded(lo: nat, hi: nat, mem: seq<Page>, head: nat, g: Pool, parent: Key, i: nat, f: nat)
    requires Ok(lo, hi, mem, head, g, {}) && f in g.role && g.role[f].Held?
    requires parent in g.nodes && parent.level > 0 && i < ENTRIES && Child(parent, i) !in g.nodes
    ensures var t := g.nodes[parent];
            && t < |mem| && mem[t].Table? && |mem[t].ptes| == ENTRIES && t != f
            && Ok(lo, hi, mem[f := Table(ZeroTable(ENTRIES))][t := Table(mem[t].ptes[i := Pte(f, 0)])], head,
                  g.(role := g.role[f := Node(Child(parent, i))], nodes := g.nodes[Child(parent, i) := f]), {})
  {
    hide PlacesOk, TablesOk, MapsOk, DataOk, FreeOk, ZeroTable;
    TableAt(mem, g, {}, parent);
    var t, c := g.nodes[parent], Child(parent, i);
    ChildParent(parent, i);
    var g' := g.(role := g.role[f := Node(c)], nodes := g.nodes[c := f]);
    var mem' := mem[f := Table(ZeroTable(ENTRIES))][t := Table(mem[t].ptes[i := Pte(f, 0)])];
    MapsAfterAdding(g, c, f, mem, mem');
    ListFrame(mem, mem', head, g, g');
    NodePlaced(g, c, f);
    TablesAfterAdding(mem, g, parent, i, f);
  }

  lemma NodePlaced(g: Pool, c: Key, f: nat)
    requires PlacesOk(g) && f in g.role && g.role[f].Held? && c !in g.nodes && c.level < 2 && Parent(c) in g.nodes
    ensures PlacesOk(g.(role := g.role[f := Node(c)], nodes := g.nodes[c := f]))
  {
    var g' := g.(role := g.role[f := Node(c)], nodes := g.nodes[c := f]);
    assert PlaceOk(g, Parent(c), g.nodes[Parent(c)]);
    forall key | key in g'.nodes
      ensures PlaceOk(g', key, g'.nodes[key])
    {
      assert key != c ==> PlaceOk(g, key, g.nodes[key]);
    }
  }

  lemma TablesAfterAdding(mem: seq<Page>, g: Pool, parent: Key, i: nat, f: nat)
    requires PlacesOk(g) && MapsOk(g) && TablesOk(mem, g.nodes, g.maps, {}) && f in g.role && g.role[f].Held?
             && f < |mem|
    requires parent in g.nodes && parent.level > 0 && i < ENTRIES && Child(parent, i) !in g.nodes
    ensures var t := g.nodes[parent];
            && mem[t].Table? && |mem[t].ptes| == ENTRIES && t != f
            && TablesOk(mem[f := Table(ZeroTable(ENTRIES))][t := Table(mem[t].ptes[i := Pte(f, 0)])],
                        g.nodes[Child(parent, i) := f], g.maps, {})
  {
    hide MapsOk, EntryOk;
    var t, c := g.nodes[parent], Child(parent, i);
    assert PlaceOk(g, parent, t) && TableOk(g.nodes, g.maps, {}, parent, mem[t]);
    var mem' := mem[f := Table(ZeroTable(ENTRIES))][t := Table(mem[t].ptes[i := Pte(f, 0)])];
    var nodes' := g.nodes[c := f];
    NewTableOk(g, c, f);
    forall key | key in nodes'
      ensures nodes'[key] < |mem'| && TableOk(nodes', g.maps, {}, key, mem'[nodes'[key]])
    {
      if key != c {
        assert PlaceOk(g, key, g.nodes[key]) && TableOk(g.nodes, g.maps, {}, key, mem[g.nodes[key]]);
        EntriesAfterAdding(g.nodes, g.maps, key, parent, i, f, mem[g.nodes[key]]);
      }
    }
  }

  /** An empty table is right for a place where there was none, since nothing lies below it. */
  lemma NewTableOk(g: Pool, c: Key, f: nat)
    requires PlacesOk(g) && MapsOk(g) && c !in g.nodes && c.level < 2
    ensures TableOk(g.nodes[c := f], g.maps, {}, c, Table(ZeroTable(ENTRIES)))
  {
    var nodes', none := g.nodes[c := f], {};
    var page := Table(ZeroTable(ENTRIES));
    forall k | 0 <= k < ENTRIES
      ensures EntryOk(nodes', g.maps, none, c, k, page.ptes[k])
    {
      if c.level > 0 {
        ChildParent(c, k);
        assert Child(c, k) in g.nodes ==> PlaceOk(g, Child(c, k), g.nodes[Child(c, k)]);
      } else {
        assert KeyAt(c.root, 0, c.prefix * ENTRIES + k) == c;
      }
    }
  }

  lemma EntriesAfterAdding(nodes: map<Key, nat>, maps: map<nat, map<nat, nat>>, key: Key, parent: Key, i: nat, f: nat,
                           page: Page)
    requires parent.level > 0 && i < ENTRIES && Child(parent, i) !in nodes
    requires TableOk(nodes, maps, {}, key, page)
    ensures TableOk(nodes[Child(parent, i) := f], maps, {}, key, if key == parent then Table(page.ptes[i := Pte(f, 0)])
                    else page)
  {
    ChildParent(parent, i);
    forall k | 0 <= k < ENTRIES && key.level > 0
      ensures Child(key, k) == Child(parent, i) <==> key == parent && k == i
    {
      ChildParent(key, k);
    }
  }

  /** A held page becomes the empty root of a new tree. */
  lemma RootAdded(lo: nat, hi: nat, mem: seq<Page>, head: nat, g: Pool, f: nat)
    requires Ok(lo, hi, mem, head, g, {}) && f in g.role && g.role[f].Held?
    ensures f !in g.maps && Key(f, 2, 0) !in g.nodes
    ensures Ok(lo, hi, mem[f := Table(ZeroTable(ENTRIES))], head,
               g.(role := g.role[f := Node(Key(f, 2, 0))], nodes := g.nodes[Key(f, 2, 0) := f], maps :=
               g.maps[f := map[]]), {})
  {
    hide PlacesOk, TablesOk, MapsOk, DataOk, FreeOk;
    RootFresh(g, f);
    var c := Key(f, 2, 0);
    var g1 := g.(role := g.role[f := Node(c)], nodes := g.nodes[c := f]);
    var mem' := mem[f := Table(ZeroTable(ENTRIES))];
    ListFrame(mem, mem', head, g, g1);
    ListFrame(mem', mem', head, g1, g1.(maps := g.maps[f := map[]]));
    MapsAfterAdding(g, c, f, mem, mem');
    RootMaps(g1, f);
    RootPlaced(g, f);
    RootTables(mem, g, f);
  }

  lemma RootFresh(g: Pool, f: nat)
    requires PlacesOk(g) && f in g.role && g.role[f].Held?
    ensures f !in g.maps && forall key | key in g.nodes :: key.root != f && g.nodes[key] != f
  {
    var c := Key(f, 2, 0);
    assert c in g.nodes ==> PlaceOk(g, c, g.nodes[c]);
    assert f in g.maps ==> c in g.nodes;
    forall key | key in g.nodes
      ensures key.root != f && g.nodes[key] != f
    {
      assert PlaceOk(g, key, g.nodes[key]);
    }
  }

  lemma RootMaps(g: Pool, f: nat)
    requires MapsOk(g) && f !in g.maps
    ensures MapsOk(g.(maps := g.maps[f := map[]]))
  {
    var maps' := g.maps[f := map[]];
    assert forall r, v :: Mapped(maps', r, v) == Mapped(g.maps, r, v);
  }

  lemma RootPlaced(g: Pool, f: nat)
    requires PlacesOk(g) && f in g.role && g.role[f].Held? && f !in g.maps && Key(f, 2, 0) !in g.nodes
    ensures PlacesOk(g.(role := g.role[f := Node(Key(f, 2, 0))], nodes := g.nodes[Key(f, 2, 0) := f], maps :=
                     g.maps[f := map[]]))
  {
    var c := Key(f, 2, 0);
    var g' := g.(role := g.role[f := Node(c)], nodes := g.nodes[c := f], maps := g.maps[f := map[]]);
    forall key | key in g'.nodes
      ensures PlaceOk(g', key, g'.nodes[key])
    {
      assert key != c ==> PlaceOk(g, key, g.nodes[key]);
    }
  }

  lemma RootTables(mem: seq<Page>, g: Pool, f: nat)
    requires TablesOk(mem, g.nodes, g.maps, {}) && f < |mem| && f !in g.maps
    requires forall key | key in g.nodes :: key.root != f && g.nodes[key] != f
    ensures TablesOk(mem[f := Table(ZeroTable(ENTRIES))], g.nodes[Key(f, 2, 0) := f], g.maps[f := map[]], {})
  {
    var c, maps' := Key(f, 2, 0), g.maps[f := map[]];
    var nodes', page := g.nodes[c := f], Table(ZeroTable(ENTRIES));
    forall key | key in nodes'
      ensures TableOk(nodes', maps', {}, key, mem[f := page][nodes'[key]])
    {
      if key != c {
        assert TableOk(g.nodes, g.maps, {}, key, mem[g.nodes[key]]);
      }
    }
  }

  /** A page in use changes what it is for, or what it holds. */
  lemma PageUsed(lo: nat, hi: nat, mem: seq<Page>, head: nat, g: Pool, hole: set<Key>, f: nat, page: Page, role: Role)
    requires Ok(lo, hi, mem, head, g, hole) && f in g.role && (g.role[f].Held? || g.role[f].Leaf?)
    requires role.Held? || (role.Leaf? && IsData(page) && Frame(Mapped(g.maps, role.root, role.vpn)) == f)
    ensures Ok(lo, hi, mem[f := page], head, g.(role := g.role[f := role]), hole)
  {
    hide PlacesOk, TablesOk, DataOk, FreeOk, MapsOk;
    PageChanged(lo, hi, mem, g, hole, f, page, role);
    MapsAfterUse(g, f, role);
    ListFrame(mem, mem[f := page], head, g, g.(role := g.role[f := role]));
  }

  lemma MapsAfterUse(g: Pool, f: nat, role: Role)
    requires MapsOk(g) && f in g.role && (role.Leaf? ==> Frame(Mapped(g.maps, role.root, role.vpn)) == f)
    ensures MapsOk(g.(role := g.role[f := role]))
  {
  }

  /** The leaf map after entry v is set, or cleared. */
  function WithEntry(m: map<nat, nat>, v: nat, e: nat): map<nat, nat> {
    if e == 0 then m - {v} else m[v := e]
  }

  /** mappages and uvmunmap set one entry of a last-level table. */
  lemma EntrySet(lo: nat, hi: nat, mem: seq<Page>, head: nat, g: Pool, r: nat, v: nat, e: nat)
    requires Ok(lo, hi, mem, head, g, {}) && v < MAXPN && KeyAt(r, 0, v) in g.nodes && (e == 0 || (IsV(e) && IsLeaf(e)))
    requires forall f | f in g.role && g.role[f] == Leaf(r, v) :: Frame(e) == f
    ensures r in g.maps
    ensures var t := g.nodes[KeyAt(r, 0, v)];
            && t < |mem| && mem[t].Table? && |mem[t].ptes| == ENTRIES
            && Ok(lo, hi, mem[t := Table(mem[t].ptes[v % ENTRIES := e])], head,
                  g.(maps := g.maps[r := WithEntry(g.maps[r], v, e)]), {})
  {
    hide PlacesOk, TablesOk, MapsOk, FreeOk, DataOk;
    TableAt(mem, g, {}, KeyAt(r, 0, v));
    var t, maps' := g.nodes[KeyAt(r, 0, v)], g.maps[r := WithEntry(g.maps[r], v, e)];
    DataFrame(mem, mem[t := Table(mem[t].ptes[v % ENTRIES := e])], g.role);
    MapsAfterSetting(g, r, v, e);
    PlacesAfterSetting(g, maps');
    TablesAfterSetting(mem, g, r, v, e);
    ListFrame(mem, mem[t := Table(mem[t].ptes[v % ENTRIES := e])], head, g, g.(maps := maps'));
  }

  lemma MapsAfterSetting(g: Pool, r: nat, v: nat, e: nat)
    requires MapsOk(g) && r in g.maps && v < MAXPN && KeyAt(r, 0, v) in g.nodes && (e == 0 || (IsV(e) && IsLeaf(e)))
    requires forall f | f in g.role && g.role[f] == Leaf(r, v) :: Frame(e) == f
    ensures MapsOk(g.(maps := g.maps[r := WithEntry(g.maps[r], v, e)]))
  {
    var maps' := g.maps[r := WithEntry(g.maps[r], v, e)];
    assert forall s, u :: Mapped(maps', s, u) == if s == r && u == v then e else Mapped(g.maps, s, u);
  }

  lemma PlacesAfterSetting(g: Pool, maps': map<nat, map<nat, nat>>)
    requires PlacesOk(g) && maps'.Keys == g.maps.Keys
    ensures PlacesOk(g.(maps := maps'))
  {
    assert forall r :: r in maps' <==> r in g.maps;
    forall key | key in g.nodes
      ensures PlaceOk(g.(maps := maps'), key, g.nodes[key])
    {
      assert PlaceOk(g, key, g.nodes[key]);
    }
  }

  lemma TablesAfterSetting(mem: seq<Page>, g: Pool, r: nat, v: nat, e: nat)
    requires PlacesOk(g) && TablesOk(mem, g.nodes, g.maps, {}) && KeyAt(r, 0, v) in g.nodes && r in g.maps
    ensures var t := g.nodes[KeyAt(r, 0, v)];
            && t < |mem| && mem[t].Table? && |mem[t].ptes| == ENTRIES
            && TablesOk(mem[t := Table(mem[t].ptes[v % ENTRIES := e])], g.nodes,
                        g.maps[r := WithEntry(g.maps[r], v, e)], {})
  {
    TableAt(mem, g, {}, KeyAt(r, 0, v));
    var t, maps' := g.nodes[KeyAt(r, 0, v)], g.maps[r := WithEntry(g.maps[r], v, e)];
    var mem' := mem[t := Table(mem[t].ptes[v % ENTRIES := e])];
    forall key | key in g.nodes
      ensures TableOk(g.nodes, maps', {}, key, mem'[g.nodes[key]])
    {
      assert TableOk(g.nodes, g.maps, {}, key, mem[g.nodes[key]]) && PlaceOk(g, key, g.nodes[key]);
      EntriesAfterSetting(g.nodes, g.maps, key, r, v, e, mem[g.nodes[key]]);
    }
  }

  lemma EntriesAfterSetting(nodes: map<Key, nat>, maps: map<nat, map<nat, nat>>, key: Key, r: nat, v: nat, e: nat,
                            page: Page)
    requires r in maps && TableOk(nodes, maps, {}, key, page)
    ensures TableOk(nodes, maps[r := WithEntry(maps[r], v, e)], {}, key,
                    if key == KeyAt(r, 0, v) then Table(page.ptes[v % ENTRIES := e]) else page)
  {
    var maps' := maps[r := WithEntry(maps[r], v, e)];
    forall i | 0 <= i < ENTRIES
      ensures EntryOk(nodes, maps', {}, key, i, if key == KeyAt(r, 0, v) && i == v % ENTRIES then e else page.ptes[i])
    {
      assert EntryOk(nodes, maps, {}, key, i, page.ptes[i]);
      var u := key.prefix * ENTRIES + i;
      assert u == v <==> key.prefix == v / ENTRIES && i == v % ENTRIES;
      assert Mapped(maps', key.root, u) == if key.root == r && u == v then e else Mapped(maps, key.root, u);
    }
  }

  predicate BareEntry(g: Pool, key: Key, i: nat) {
    if key.level == 0 then Mapped(g.maps, key.root, key.prefix * ENTRIES + i) == 0 else Child(key, i) !in g.nodes
  }

  /** Nothing is left below a table. */
  predicate Bare(g: Pool, key: Key) {
    forall i | 0 <= i < ENTRIES :: BareEntry(g, key, i)
  }

  function WithoutTree(g: Pool, key: Key): map<nat, map<nat, nat>> {
    if key.level == 2 then g.maps - {key.root} else g.maps
  }

  /** freewalk is done with a table: it is no longer in the tree, though a link to it may be left. */
  lemma NodeDropped(lo: nat, hi: nat, mem: seq<Page>, head: nat, g: Pool, key: Key)
    requires Ok(lo, hi, mem, head, g, {}) && key in g.nodes && Bare(g, key)
    requires key.level == 2 ==> forall other | other in g.nodes && other.root == key.root :: other == key
    ensures var g' := g.(role := g.role[g.nodes[key] := Held], nodes := g.nodes - {key}, maps := WithoutTree(g, key));
            Ok(lo, hi, mem, head, g', {key})
  {
    hide PlacesOk, TablesOk, MapsOk, FreeOk;
    TableAt(mem, g, {}, key);
    DroppedMaps(g, key);
    DroppedPlaces(g, key);
    DroppedTables(mem, g, key);
    ListFrame(mem, mem, head, g, g.(role := g.role[g.nodes[key] := Held], nodes := g.nodes - {key}, maps :=
              WithoutTree(g, key)));
  }

  lemma DroppedMaps(g: Pool, key: Key)
    requires PlacesOk(g) && MapsOk(g) && key in g.nodes && Bare(g, key)
    requires key.level == 2 ==> forall other | other in g.nodes && other.root == key.root :: other == key
    ensures MapsOk(g.(role := g.role[g.nodes[key] := Held], nodes := g.nodes - {key}, maps := WithoutTree(g, key)))
  {
    var g' := g.(role := g.role[g.nodes[key] := Held], nodes := g.nodes - {key}, maps := WithoutTree(g, key));
    hide PlacesOk, Bare, BareEntry;
    forall r, v | r in g.maps && v in g.maps[r]
      ensures KeyAt(r, 0, v) != key && (key.level == 2 ==> r != key.root)
    {
      NotBelowBare(g, key, r, v);
    }
    assert forall r, v :: Mapped(g'.maps, r, v) == Mapped(g.maps, r, v);
  }

  lemma NotBelowBare(g: Pool, key: Key, r: nat, v: nat)
    requires Bare(g, key) && r in g.maps && v in g.maps[r] && KeyAt(r, 0, v) in g.nodes && IsV(g.maps[r][v])
    requires key.level == 2 ==> forall other | other in g.nodes && other.root == key.root :: other == key
    ensures KeyAt(r, 0, v) != key && (key.level == 2 ==> r != key.root)
  {
    assert BareEntry(g, key, v % ENTRIES);
    assert v == v / ENTRIES * ENTRIES + v % ENTRIES;
  }

  lemma DroppedPlaces(g: Pool, key: Key)
    requires PlacesOk(g) && key in g.nodes && Bare(g, key)
    requires key.level == 2 ==> forall other | other in g.nodes && other.root == key.root :: other == key
    ensures PlacesOk(g.(role := g.role[g.nodes[key] := Held], nodes := g.nodes - {key}, maps := WithoutTree(g, key)))
  {
    var g' := g.(role := g.role[g.nodes[key] := Held], nodes := g.nodes - {key}, maps := WithoutTree(g, key));
    forall k | k in g'.nodes
      ensures PlaceOk(g', k, g'.nodes[k])
    {
      assert PlaceOk(g, k, g.nodes[k]) && PlaceOk(g, key, g.nodes[key]);
      ParentChild(k);
      assert BareEntry(g, key, k.prefix % ENTRIES);
    }
    forall r | r in g'.maps
      ensures Key(r, 2, 0) in g'.nodes
    {
      assert PlaceOk(g, key, g.nodes[key]);
    }
  }

  lemma DroppedTables(mem: seq<Page>, g: Pool, key: Key)
    requires PlacesOk(g) && TablesOk(mem, g.nodes, g.maps, {}) && key in g.nodes
    requires key.level == 2 ==> forall other | other in g.nodes && other.root == key.root :: other == key
    ensures TablesOk(mem, g.nodes - {key}, WithoutTree(g, key), {key})
  {
    var nodes', maps' := g.nodes - {key}, WithoutTree(g, key);
    forall k | k in nodes'
      ensures TableOk(nodes', maps', {key}, k, mem[nodes'[k]])
    {
      assert TableOk(g.nodes, g.maps, {}, k, mem[g.nodes[k]]) && k != key;
      DroppedEntries(g, key, k, mem[g.nodes[k]]);
    }
  }

  lemma DroppedEntries(g: Pool, key: Key, k: Key, page: Page)
    requires TableOk(g.nodes, g.maps, {}, k, page) && (key.level == 2 ==> k.root != key.root)
    ensures TableOk(g.nodes - {key}, WithoutTree(g, key), {key}, k, page)
  {
    forall i | 0 <= i < ENTRIES
      ensures EntryOk(g.nodes - {key}, WithoutTree(g, key), {key}, k, i, page.ptes[i])
    {
      assert EntryOk(g.nodes, g.maps, {}, k, i, page.ptes[i]);
    }
  }

  /** The link to a dropped table is cleared. */
  lemma LinkCleared(lo: nat, hi: nat, mem: seq<Page>, head: nat, g: Pool, parent: Key, i: nat)
    requires parent.level > 0 && i < ENTRIES && Child(parent, i) !in g.nodes && parent in g.nodes
    requires Ok(lo, hi, mem, head, g, {Child(parent, i)})
    ensures var t := g.nodes[parent];
            && t < |mem| && mem[t].Table? && |mem[t].ptes| == ENTRIES
            && Ok(lo, hi, mem[t := Table(mem[t].ptes[i := 0])], head, g, {})
  {
    TableAt(mem, g, {Child(parent, i)}, parent);
    var t := g.nodes[parent];
    var mem' := mem[t := Table(mem[t].ptes[i := 0])];
    ListFrame(mem, mem', head, g, g);
    forall k | k in g.nodes
      ensures TableOk(g.nodes, g.maps, {}, k, mem'[g.nodes[k]])
    {
      assert TableOk(g.nodes, g.maps, {Child(parent, i)}, k, mem[g.nodes[k]]) && PlaceOk(g, k, g.nodes[k]);
      EntriesAfterClearing(g.nodes, g.maps, k, parent, i, mem[g.nodes[k]]);
    }
  }

  lemma EntriesAfterClearing(nodes: map<Key, nat>, maps: map<nat, map<nat, nat>>, key: Key, parent: Key, i: nat,
                             page: Page)
    requires parent.level > 0 && i < ENTRIES && Child(parent, i) !in nodes
             && TableOk(nodes, maps, {Child(parent, i)}, key, page)
    ensures TableOk(nodes, maps, {}, key, if key == parent then Table(page.ptes[i := 0]) else page)
  {
    ChildParent(parent, i);
    var page' := if key == parent then Table(page.ptes[i := 0]) else page;
    forall k | 0 <= k < ENTRIES
      ensures EntryOk(nodes, maps, {}, key, k, page'.ptes[k])
    {
      assert EntryOk(nodes, maps, {Child(parent, i)}, key, k, page.ptes[k]);
      if key.level > 0 {
        ChildParent(key, k);
      }
    }
  }

  /** No table links to a root. */
  lemma NoLinkToRoot(mem: seq<Page>, g: Pool, key: Key)
    requires PlacesOk(g) && TablesOk(mem, g.nodes, g.maps, {key}) && key.level == 2
    ensures TablesOk(mem, g.nodes, g.maps, {})
  {
    forall k | k in g.nodes
      ensures TableOk(g.nodes, g.maps, {}, k, mem[g.nodes[k]])
    {
      assert PlaceOk(g, k, g.nodes[k]) && TableOk(g.nodes, g.maps, {key}, k, mem[g.nodes[k]]);
      assert forall i | 0 <= i < ENTRIES :: EntryOk(g.nodes, g.maps, {key}, k, i, mem[g.nodes[k]].ptes[i]);
    }
  }
}
