/** The address spaces of processes (kernel/proc.c): allocproc, freeproc, growproc, and fork as far as memory and
    registers go. */
module AddressSpace {
  import opened Blocks
  import opened PageTable
  import opened PageBudget
  import opened Vm

  const TRAMPOLINE: nat := MAXPN - 1
  const TRAPFRAME: nat := MAXPN - 2
  const UINT: nat := 0x1_0000_0000

  /** The memory of a process. An unused slot has no page table. */
  datatype Proc = Proc(trapframe: nat, pagetable: nat, sz: nat)

  const UNUSED := Proc(0, 0, 0)

  predicate OfTree(role: Role, pt: nat) {
    (role.Node? && role.key.root == pt) || (role.Leaf? && role.root == pt)
  }

  predicate MayChange(role: Role, f: nat, pt: nat, tf: nat) {
    role.Free? || OfTree(role, pt) || (f == tf && role.Held?)
  }

  /** Only free pages, pages of tree pt and page tf have changed what they are for, and no other tree has changed. */
  ghost predicate Within(mem0: seq<Page>, g0: Pool, mem: seq<Page>, g: Pool, pt: nat, tf: nat) {
    && |mem| == |mem0| && g.role.Keys == g0.role.Keys && g.maps - {pt} == g0.maps - {pt}
    && (forall f | f in g0.role && f in g.role ::
          if MayChange(g0.role[f], f, pt, tf) then MayChange(g.role[f], f, pt, tf) else g.role[f] == g0.role[f])
    && (forall f | f in g0.role && f < |mem| && (g0.role[f].Held? || g0.role[f].Leaf?)
                   && !MayChange(g0.role[f], f, pt, tf) :: mem[f] == mem0[f])
  }

  lemma WithinTrans(mem0: seq<Page>, g0: Pool, mem1: seq<Page>, g1: Pool, mem: seq<Page>, g: Pool, pt: nat, tf: nat)
    requires Within(mem0, g0, mem1, g1, pt, tf) && Within(mem1, g1, mem, g, pt, tf)
    ensures Within(mem0, g0, mem, g, pt, tf)
  {
    assert forall f :: f in g0.role <==> f in g1.role;
  }

  lemma WithinSelf(mem: seq<Page>, g: Pool, pt: nat, tf: nat)
    ensures Within(mem, g, mem, g, pt, tf)
  {
  }

  lemma WithinTables(mem0: seq<Page>, g0: Pool, mem: seq<Page>, g: Pool, pt: nat, tf: nat)
    requires TablesAdded(pt, mem0, g0, mem, g) && g.maps - {pt} == g0.maps - {pt}
    ensures Within(mem0, g0, mem, g, pt, tf)
  {
    assert forall f :: f in g0.role <==> f in g.role;
  }

  lemma WithinGrown(mem0: seq<Page>, g0: Pool, mem: seq<Page>, g: Pool, pt: nat, v: nat, n: nat, tf: nat)
    requires Grown(mem0, g0, mem, g, pt, v, n)
    ensures Within(mem0, g0, mem, g, pt, tf)
  {
    assert forall f :: f in g0.role <==> f in g.role;
  }

  lemma WithinUnmapped(mem0: seq<Page>, g0: Pool, mem: seq<Page>, g: Pool, pt: nat, v: nat, n: nat, free: bool, tf: nat)
    requires Unmapped(mem0, g0, mem, g, pt, v, n, free)
    ensures Within(mem0, g0, mem, g, pt, tf)
  {
    assert forall f :: f in g0.role <==> f in g.role;
  }

  lemma WithinTorn(mem0: seq<Page>, g0: Pool, mem: seq<Page>, g: Pool, pt: nat, n: nat, tf: nat)
    requires TornDown(mem0, g0, mem, g, pt, n)
    ensures Within(mem0, g0, mem, g, pt, tf)
  {
    assert forall f :: f in g0.role <==> f in g.role;
    assert g0.maps - {pt} - {pt} == g0.maps - {pt};
  }

  /** kalloc or kfree of page tf. */
  lemma WithinPage(mem: seq<Page>, g: Pool, free: seq<nat>, pt: nat, tf: nat, page: Page, role: Role)
    requires tf in g.role && tf < |mem| && MayChange(g.role[tf], tf, pt, tf) && (role.Free? || role.Held?)
    ensures Within(mem, g, mem[tf := page], g.(free := free, role := g.role[tf := role]), pt, tf)
  {
    assert g.role[tf := role].Keys == g.role.Keys;
  }

  /** Pages of a tree that is not there do not exist. */
  lemma NoTreePages(lo: nat, hi: nat, mem: seq<Page>, head: nat, g: Pool, pt: nat, f: nat)
    requires Ok(lo, hi, mem, head, g, {}) && pt !in g.maps && f in g.role
    ensures !OfTree(g.role[f], pt)
  {
    assert g.role[f].Node? ==> PlaceOk(g, g.role[f].key, f);
    assert forall v :: Frame(Mapped(g.maps, pt, v)) == 0;
  }

  /** Everything is as it was: every page is for what it was for, every tree maps what it mapped, all data is the
    same. */
  ghost predicate Restored(mem0: seq<Page>, g0: Pool, mem: seq<Page>, g: Pool) {
    && |mem| == |mem0| && g.role == g0.role && g.maps == g0.maps
    && forall f | f in g0.role && f < |mem| && (g0.role[f].Held? || g0.role[f].Leaf?) :: mem[f] == mem0[f]
  }

  /** When a tree that was not there is gone again, and page tf is free as before, nothing has leaked. */
  lemma AllRestored(lo: nat, hi: nat, mem0: seq<Page>, head0: nat, g0: Pool, mem: seq<Page>, head: nat, g: Pool,
                    pt: nat, tf: nat)
    requires Ok(lo, hi, mem0, head0, g0, {}) && Ok(lo, hi, mem, head, g, {}) && Within(mem0, g0, mem, g, pt, tf)
    requires pt !in g0.maps && pt !in g.maps
    requires tf in g0.role ==> (g0.role[tf].Free? && g.role[tf].Free?)
                               || (g0.role[tf].Held? && g.role[tf].Held? && tf < |mem| && mem[tf] == mem0[tf])
    ensures Restored(mem0, g0, mem, g)
  {
    hide Ok;
    assert g0.maps - {pt} == g0.maps && g.maps - {pt} == g.maps;
    forall f | f in g0.role
      ensures f in g.role && g.role[f] == g0.role[f]
      ensures f < |mem| && (g0.role[f].Held? || g0.role[f].Leaf?) ==> mem[f] == mem0[f]
    {
      assert f in g.role;
      NoTreePages(lo, hi, mem0, head0, g0, pt, f);
      NoTreePages(lo, hi, mem, head, g, pt, f);
    }
  }

  // The address-space invariant.

  /** The leaf mappings are exactly the pages of [0, PGROUNDUP(sz)), TRAPFRAME and TRAMPOLINE; the user pages are the
      process's own, its trapframe is in use, and the last two are not user memory. */
  ghost predicate Space(g: Pool, trampoline: nat, p: Proc) {
    && p.sz < UINT && p.pagetable in g.maps && p.trapframe in g.role && g.role[p.trapframe].Held?
    && (forall v :: v in g.maps[p.pagetable] <==> 0 <= v < PgUp(p.sz) || v == TRAPFRAME || v == TRAMPOLINE)
    && g.maps[p.pagetable][TRAPFRAME] == Pte(p.trapframe, PTE_R + PTE_W)
    && g.maps[p.pagetable][TRAMPOLINE] == Pte(trampoline, PTE_R + PTE_X)
    && Owned(g, p.pagetable, 0, PgUp(p.sz))
  }

  /** So copyin and copyout reach only pages of the process itself. */
  lemma SpacePrivate(g: Pool, trampoline: nat, p: Proc)
    requires Space(g, trampoline, p)
    ensures Private(g, p.pagetable)
  {
    var m := g.maps[p.pagetable];
    assert !IsU(m[TRAPFRAME]) && !IsU(m[TRAMPOLINE]);
  }

  /** The trampoline can be executed but not written, the trapframe written but not executed, and neither of them by
      user code. */
  lemma SystemAccess(g: Pool, trampoline: nat, p: Proc)
    requires Space(g, trampoline, p)
    ensures var e := g.maps[p.pagetable][TRAMPOLINE]; IsR(e) && IsX(e) && !IsW(e) && !IsU(e)
    ensures var e := g.maps[p.pagetable][TRAPFRAME]; IsR(e) && IsW(e) && !IsX(e) && !IsU(e)
  {
    assert Flags(g.maps[p.pagetable][TRAMPOLINE]) == PTE_R + PTE_X + 1;
    assert Flags(g.maps[p.pagetable][TRAPFRAME]) == PTE_R + PTE_W + 1;
  }

  /** A process does not notice what happens within another one's tree and trapframe. */
  lemma SpaceKept(mem0: seq<Page>, g0: Pool, mem: seq<Page>, g: Pool, trampoline: nat, pt: nat, tf: nat, q: Proc)
    requires Within(mem0, g0, mem, g, pt, tf) && Space(g0, trampoline, q) && q.pagetable != pt && q.trapframe != tf
    ensures Space(g, trampoline, q)
  {
    assert q.pagetable in g0.maps - {pt};
    assert q.pagetable in g.maps - {pt};
    assert g.maps[q.pagetable] == (g.maps - {pt})[q.pagetable] == (g0.maps - {pt})[q.pagetable] == g0.maps[q.pagetable];
    assert forall f :: f in g0.role <==> f in g.role;
  }

  /** What proc_pagetable maps. */
  function SystemMap(trampoline: nat, trapframe: nat): map<nat, nat> {
    Inserted(Inserted(map[], TRAMPOLINE, 1, trampoline, PTE_R + PTE_X), TRAPFRAME, 1, trapframe, PTE_R + PTE_W)
  }

  lemma SystemMapIs(trampoline: nat, trapframe: nat)
    ensures var m := SystemMap(trampoline, trapframe);
            && m.Keys == {TRAMPOLINE, TRAPFRAME}
            && m[TRAMPOLINE] == Pte(trampoline, PTE_R + PTE_X) && m[TRAPFRAME] == Pte(trapframe, PTE_R + PTE_W)
  {
    var none: map<nat, nat> := map[];
    var m1 := Inserted(none, TRAMPOLINE, 1, trampoline, PTE_R + PTE_X);
    forall u: nat
      ensures u in m1 <==> u == TRAMPOLINE
      ensures u in SystemMap(trampoline, trapframe) <==> u == TRAMPOLINE || u == TRAPFRAME
    {
      InsertedAt(none, TRAMPOLINE, 1, trampoline, PTE_R + PTE_X, u);
      InsertedAt(m1, TRAPFRAME, 1, trapframe, PTE_R + PTE_W, u);
    }
    InsertedAt(none, TRAMPOLINE, 1, trampoline, PTE_R + PTE_X, TRAMPOLINE);
    InsertedAt(m1, TRAPFRAME, 1, trapframe, PTE_R + PTE_W, TRAPFRAME);
    InsertedAt(m1, TRAPFRAME, 1, trapframe, PTE_R + PTE_W, TRAMPOLINE);
  }

  lemma RemovedInserted(m: map<nat, nat>, v: nat, f: nat, perm: nat)
    requires perm < 1024 && v !in m
    ensures Removed(Inserted(m, v, 1, f, perm), v, 1) == m
  {
    assert Inserted(m, v, 1, f, perm) == Inserted(m, v, 0, f, perm)[v := Pte(f, perm)];
  }

  lemma TornGone(mem0: seq<Page>, g0: Pool, mem: seq<Page>, g: Pool, pt: nat, n: nat)
    requires TornDown(mem0, g0, mem, g, pt, n)
    ensures pt !in g.maps
  {
  }

  lemma NoPageZero(lo: nat, hi: nat, mem: seq<Page>, head: nat, g: Pool)
    requires Ok(lo, hi, mem, head, g, {})
    ensures 0 !in g.role
  {
  }

  lemma RestoredSelf(mem: seq<Page>, g: Pool)
    ensures Restored(mem, g, mem, g)
  {
  }

  lemma FrameBound(lo: nat, hi: nat, mem: seq<Page>, head: nat, g: Pool, f: nat)
    requires Ok(lo, hi, mem, head, g, {}) && f in g.role
    ensures 0 < f < |mem|
  {
  }

  /** A page that was free is still free when a tree is gone. */
  lemma StillFree(lo: nat, hi: nat, mem0: seq<Page>, g0: Pool, mem: seq<Page>, head: nat, g: Pool, pt: nat, f: nat)
    requires Ok(lo, hi, mem, head, g, {}) && Within(mem0, g0, mem, g, pt, 0) && pt !in g.maps && f in g0.role
             && g0.role[f].Free?
    ensures f in g.role && g.role[f].Free?
  {
    hide Ok;
    assert f in g.role;
    NoTreePages(lo, hi, mem, head, g, pt, f);
    NoPageZero(lo, hi, mem, head, g);
  }

  lemma NoTreeZero(lo: nat, hi: nat, mem: seq<Page>, head: nat, g: Pool)
    requires Ok(lo, hi, mem, head, g, {})
    ensures 0 !in g.maps
  {
    var c := Key(0, 2, 0);
    assert c in g.nodes ==> PlaceOk(g, c, g.nodes[c]);
  }

  lemma SpaceTrapframe(lo: nat, hi: nat, mem: seq<Page>, head: nat, g: Pool, trampoline: nat, p: Proc)
    requires Ok(lo, hi, mem, head, g, {}) && Space(g, trampoline, p)
    ensures p.trapframe != 0 && p.trapframe in g.role && g.role[p.trapframe].Held? && p.pagetable in g.maps
            && p.pagetable != 0
  {
    NoPageZero(lo, hi, mem, head, g);
    NoTreeZero(lo, hi, mem, head, g);
  }

  lemma WithinKeys(mem0: seq<Page>, g0: Pool, mem: seq<Page>, g: Pool, pt: nat, tf: nat)
    requires Within(mem0, g0, mem, g, pt, tf)
    ensures |mem| == |mem0| && forall f :: f in g.role <==> f in g0.role
  {
    assert forall f :: f in g0.role.Keys <==> f in g.role.Keys;
  }

  /** A page mapped to something that is not the tree's own page. */
  lemma NotOwned(lo: nat, hi: nat, mem: seq<Page>, head: nat, g: Pool, pt: nat, v: nat)
    requires Ok(lo, hi, mem, head, g, {}) && pt in g.maps && v in g.maps[pt]
    requires var f := Frame(g.maps[pt][v]); f in g.role ==> g.role[f] != Leaf(pt, v)
    ensures Disowned(g, pt, v, 1)
  {
    hide PlacesOk, TablesOk, FreeOk, DataOk;
  }

  /** The trapframe is a page of data. */
  predicate FrameOk(mem: seq<Page>, tf: nat) {
    tf < |mem| && IsData(mem[tf])
  }

  ghost predicate AllSpaces(mem: seq<Page>, g: Pool, trampoline: nat, procs: seq<Proc>, except: int) {
    forall i | 0 <= i < |procs| && i != except && procs[i].pagetable != 0 ::
      Space(g, trampoline, procs[i]) && FrameOk(mem, procs[i].trapframe)
  }

  /** The trapframe of another process keeps its bytes. */
  lemma FrameKept(mem0: seq<Page>, g0: Pool, mem: seq<Page>, g: Pool, trampoline: nat, pt: nat, tf: nat, q: Proc)
    requires Within(mem0, g0, mem, g, pt, tf) && Space(g0, trampoline, q) && FrameOk(mem0, q.trapframe)
             && q.trapframe != tf
    ensures FrameOk(mem, q.trapframe) && mem[q.trapframe] == mem0[q.trapframe]
  {
  }

  predicate Separate(procs: seq<Proc>) {
    forall i, j | 0 <= i < j < |procs| && procs[i].pagetable != 0 && procs[j].pagetable != 0 ::
      procs[i].pagetable != procs[j].pagetable && procs[i].trapframe != procs[j].trapframe
  }

  /** Slot i has a page table and a trapframe that no other process uses. */
  predicate Alone(procs: seq<Proc>, i: nat, pt: nat, tf: nat) {
    forall j | 0 <= j < |procs| && j != i && procs[j].pagetable != 0 ::
      procs[j].pagetable != pt && procs[j].trapframe != tf
  }

  lemma OthersKept(mem0: seq<Page>, g0: Pool, mem: seq<Page>, g: Pool, trampoline: nat, procs: seq<Proc>, i: nat,
                   pt: nat, tf: nat)
    requires AllSpaces(mem0, g0, trampoline, procs, i) && Alone(procs, i, pt, tf) && Within(mem0, g0, mem, g, pt, tf)
    ensures AllSpaces(mem, g, trampoline, procs, i)
  {
    hide Space, Within;
    forall j | 0 <= j < |procs| && j != i && procs[j].pagetable != 0
      ensures Space(g, trampoline, procs[j]) && FrameOk(mem, procs[j].trapframe)
    {
      SpaceKept(mem0, g0, mem, g, trampoline, pt, tf, procs[j]);
      FrameKept(mem0, g0, mem, g, trampoline, pt, tf, procs[j]);
    }
  }

  /** The pages and the page table of a new process are not another one's. */
  lemma NewAlone(mem: seq<Page>, g: Pool, trampoline: nat, procs: seq<Proc>, i: nat, pt: nat, tf: nat)
    requires AllSpaces(mem, g, trampoline, procs, i) && pt !in g.maps && (tf in g.role ==> g.role[tf].Free?)
    ensures Alone(procs, i, pt, tf)
  {
    forall j | 0 <= j < |procs| && j != i && procs[j].pagetable != 0
      ensures procs[j].pagetable != pt && procs[j].trapframe != tf
    {
      assert Space(g, trampoline, procs[j]);
    }
  }

  lemma RestoredSpaces(mem0: seq<Page>, g0: Pool, mem: seq<Page>, g: Pool, trampoline: nat, procs: seq<Proc>)
    requires Restored(mem0, g0, mem, g) && AllSpaces(mem0, g0, trampoline, procs, -1)
    ensures AllSpaces(mem, g, trampoline, procs, -1)
  {
    forall i | 0 <= i < |procs| && procs[i].pagetable != 0
      ensures Space(g, trampoline, procs[i]) && FrameOk(mem, procs[i].trapframe)
    {
      assert Space(g0, trampoline, procs[i]);
    }
  }

  lemma WithinMore(mem0: seq<Page>, g0: Pool, mem: seq<Page>, g: Pool, pt: nat, tf: nat)
    requires Within(mem0, g0, mem, g, pt, 0) && 0 !in g0.role
    ensures Within(mem0, g0, mem, g, pt, tf)
  {
  }

  /** The address space of a process that has just been allocated. */
  lemma NewSpace(g: Pool, trampoline: nat, tf: nat, pt: nat)
    requires pt in g.maps && g.maps[pt] == SystemMap(trampoline, tf) && tf in g.role && g.role[tf].Held?
    ensures Space(g, trampoline, Proc(tf, pt, 0))
  {
    SystemMapIs(trampoline, tf);
  }

  /** What is left to map and to own when the system pages of a process are unmapped. */
  lemma SystemUnmapped(m: map<nat, nat>, n: nat)
    requires n <= TRAPFRAME && forall v :: v in m <==> 0 <= v < n || v == TRAPFRAME || v == TRAMPOLINE
    ensures var m' := Removed(Removed(m, TRAMPOLINE, 1), TRAPFRAME, 1);
            && (forall v :: v in m' <==> 0 <= v < n) && (forall v | v in m' :: m'[v] == m[v])
  {
  }

  lemma AloneIn(lo: nat, hi: nat, mem: seq<Page>, head: nat, g: Pool, trampoline: nat, procs: seq<Proc>, i: nat)
    requires Ok(lo, hi, mem, head, g, {}) && AllSpaces(mem, g, trampoline, procs, -1) && Separate(procs) && i < |procs|
             && procs[i].pagetable != 0
    ensures Alone(procs, i, procs[i].pagetable, procs[i].trapframe) && Alone(procs, i, procs[i].pagetable, 0)
  {
    hide Ok;
    NoPageZero(lo, hi, mem, head, g);
    forall j | 0 <= j < |procs| && j != i && procs[j].pagetable != 0
      ensures procs[j].trapframe != 0
    {
      assert Space(g, trampoline, procs[j]);
    }
  }

  lemma SpaceSize(g: Pool, trampoline: nat, p: Proc)
    requires Space(g, trampoline, p)
    ensures p.sz < UINT && Owned(g, p.pagetable, 0, PgUp(p.sz))
  {
  }

  lemma SpaceGrown(mem0: seq<Page>, g0: Pool, mem: seq<Page>, g: Pool, trampoline: nat, p: Proc, newsz: nat)
    requires Space(g0, trampoline, p) && p.sz <= newsz < UINT
    requires Grown(mem0, g0, mem, g, p.pagetable, PgUp(p.sz), PgUp(newsz) - PgUp(p.sz))
    ensures Space(g, trampoline, p.(sz := newsz))
  {
    var r, v, n := p.pagetable, PgUp(p.sz), PgUp(newsz) - PgUp(p.sz);
    GrownOwned(mem0, g0, mem, g, r, v, n);
    var m := Removed(g.maps[r], v, n);
    assert m == g0.maps[r];
    forall u
      ensures u in g.maps[r] <==> u in m || v <= u < v + n
    {
    }
    forall u | 0 <= u < PgUp(newsz) && u in g.maps[r]
      ensures Frame(g.maps[r][u]) in g.role && g.role[Frame(g.maps[r][u])] == Leaf(r, u)
    {
      if u < v {
        assert u in m && m[u] == g.maps[r][u];
      }
    }
    assert TRAPFRAME in m && TRAMPOLINE in m;
  }

  lemma SpaceTables(mem0: seq<Page>, g0: Pool, mem: seq<Page>, g: Pool, trampoline: nat, p: Proc)
    requires Space(g0, trampoline, p) && TablesAdded(p.pagetable, mem0, g0, mem, g) && g.maps == g0.maps
    ensures Space(g, trampoline, p)
  {
    assert forall f :: f in g0.role <==> f in g.role;
  }

  lemma SpaceShrunk(mem0: seq<Page>, g0: Pool, mem: seq<Page>, g: Pool, trampoline: nat, p: Proc, newsz: nat)
    requires Space(g0, trampoline, p) && newsz < p.sz
    requires Unmapped(mem0, g0, mem, g, p.pagetable, PgUp(newsz), PgUp(p.sz) - PgUp(newsz), true)
    ensures Space(g, trampoline, p.(sz := newsz))
  {
    assert forall f :: f in g0.role <==> f in g.role;
    assert g.maps[p.pagetable] == Removed(g0.maps[p.pagetable], PgUp(newsz), PgUp(p.sz) - PgUp(newsz));
  }

  /** Page u of tree r is mapped as it was, to the same bytes. */
  ghost predicate PageKept(mem0: seq<Page>, g0: Pool, mem: seq<Page>, g: Pool, r: nat, u: nat) {
    && r in g0.maps && r in g.maps && u in g0.maps[r] && u in g.maps[r] && g.maps[r][u] == g0.maps[r][u]
    && Frame(g.maps[r][u]) < |mem0| == |mem| && mem[Frame(g.maps[r][u])] == mem0[Frame(g.maps[r][u])]
  }

  /** So are the first n pages. */
  ghost predicate PagesKept(mem0: seq<Page>, g0: Pool, mem: seq<Page>, g: Pool, r: nat, n: nat) {
    forall u | 0 <= u < n :: PageKept(mem0, g0, mem, g, r, u)
  }

  /** The page of the process that is mapped at u. */
  lemma OwnPage(lo: nat, hi: nat, mem: seq<Page>, head: nat, g: Pool, trampoline: nat, p: Proc, u: nat)
    requires Ok(lo, hi, mem, head, g, {}) && Space(g, trampoline, p) && u < PgUp(p.sz)
    ensures p.pagetable in g.maps && u in g.maps[p.pagetable]
    ensures var f := Frame(g.maps[p.pagetable][u]); f in g.role && g.role[f] == Leaf(p.pagetable, u) && f < |mem|
  {
    hide PlacesOk, TablesOk, FreeOk, MapsOk;
  }

  lemma PagesSelf(lo: nat, hi: nat, mem: seq<Page>, head: nat, g: Pool, trampoline: nat, p: Proc)
    requires Ok(lo, hi, mem, head, g, {}) && Space(g, trampoline, p)
    ensures PagesKept(mem, g, mem, g, p.pagetable, PgUp(p.sz))
  {
    hide Ok, Space;
    forall u | 0 <= u < PgUp(p.sz)
      ensures PageKept(mem, g, mem, g, p.pagetable, u)
    {
      OwnPage(lo, hi, mem, head, g, trampoline, p, u);
    }
  }

  lemma GrowthKeeps(lo: nat, hi: nat, mem0: seq<Page>, head: nat, g0: Pool, mem: seq<Page>, g: Pool, trampoline: nat,
                    p: Proc, n: nat)
    requires Ok(lo, hi, mem0, head, g0, {}) && Space(g0, trampoline, p)
    requires Grown(mem0, g0, mem, g, p.pagetable, PgUp(p.sz), n)
    ensures PagesKept(mem0, g0, mem, g, p.pagetable, PgUp(p.sz))
  {
    hide Ok, Space;
    var r, v := p.pagetable, PgUp(p.sz);
    forall u | 0 <= u < v
      ensures PageKept(mem0, g0, mem, g, r, u)
    {
      OwnPage(lo, hi, mem0, head, g0, trampoline, p, u);
      assert u in Removed(g.maps[r], v, n) && Removed(g.maps[r], v, n)[u] == g.maps[r][u];
    }
  }

  lemma TablesKeep(lo: nat, hi: nat, mem0: seq<Page>, head: nat, g0: Pool, mem: seq<Page>, g: Pool, trampoline: nat,
                   p: Proc)
    requires Ok(lo, hi, mem0, head, g0, {}) && Space(g0, trampoline, p)
    requires TablesAdded(p.pagetable, mem0, g0, mem, g) && g.maps == g0.maps
    ensures PagesKept(mem0, g0, mem, g, p.pagetable, PgUp(p.sz))
  {
    hide Ok, Space;
    forall u | 0 <= u < PgUp(p.sz)
      ensures PageKept(mem0, g0, mem, g, p.pagetable, u)
    {
      OwnPage(lo, hi, mem0, head, g0, trampoline, p, u);
    }
  }

  lemma ShrunkKeeps(lo: nat, hi: nat, mem0: seq<Page>, head: nat, g0: Pool, mem: seq<Page>, g: Pool,
                    trampoline: nat, p: Proc, newsz: nat)
    requires Ok(lo, hi, mem0, head, g0, {}) && Space(g0, trampoline, p) && newsz <= p.sz
    requires Unmapped(mem0, g0, mem, g, p.pagetable, PgUp(newsz), PgUp(p.sz) - PgUp(newsz), true)
    ensures PagesKept(mem0, g0, mem, g, p.pagetable, PgUp(newsz))
  {
    hide Ok, Space;
    var r, v := p.pagetable, PgUp(newsz);
    forall u | 0 <= u < v
      ensures PageKept(mem0, g0, mem, g, r, u)
    {
      OwnPage(lo, hi, mem0, head, g0, trampoline, p, u);
      assert g.maps[r] == Removed(g0.maps[r], v, PgUp(p.sz) - v);
      assert forall f :: f in g0.role.Keys <==> f in g.role.Keys;
    }
  }

  lemma RestoredWithin(mem0: seq<Page>, g0: Pool, mem: seq<Page>, g: Pool, pt: nat, tf: nat)
    requires Restored(mem0, g0, mem, g)
    ensures Within(mem0, g0, mem, g, pt, tf)
  {
  }

  lemma RestoredKeys(mem0: seq<Page>, g0: Pool, mem: seq<Page>, g: Pool)
    requires Restored(mem0, g0, mem, g)
    ensures g.role == g0.role
  {
  }

  lemma StillHeld(mem0: seq<Page>, g0: Pool, mem: seq<Page>, g: Pool, pt: nat, f: nat)
    requires Within(mem0, g0, mem, g, pt, 0) && f in g0.role && g0.role[f].Held? && f != 0
    ensures f in g.role && g.role[f].Held? && (f < |mem0| == |mem| ==> mem[f] == mem0[f])
  {
    assert f in g0.role.Keys;
  }

  lemma WithinTransMore(lo: nat, hi: nat, mem0: seq<Page>, g0: Pool, mem1: seq<Page>, g1: Pool, mem: seq<Page>,
                        head: nat, g: Pool, pt: nat, tf: nat)
    requires Within(mem0, g0, mem1, g1, pt, tf) && Within(mem1, g1, mem, g, pt, 0) && Ok(lo, hi, mem, head, g, {})
    ensures Within(mem0, g0, mem, g, pt, tf)
  {
    hide Ok, Within;
    NoPageZero(lo, hi, mem, head, g);
    WithinKeys(mem1, g1, mem, g, pt, 0);
    WithinMore(mem1, g1, mem, g, pt, tf);
    WithinTrans(mem0, g0, mem1, g1, mem, g, pt, tf);
  }

  /** What was copied is what the parent had before the child was there. */
  lemma CopySource(mem0: seq<Page>, g0: Pool, mem1: seq<Page>, g1: Pool, mem: seq<Page>, g: Pool, from: nat, to: nat,
                   tf: nat, n: nat)
    requires Within(mem0, g0, mem1, g1, to, tf) && from != to && Owned(g0, from, 0, n)
             && CopyOf(mem1, g1, mem, g, from, to, n)
    ensures CopyOf(mem0, g0, mem, g, from, to, n)
  {
    hide PageIs;
    assert from in g0.maps - {to};
    assert from in g1.maps && g1.maps[from] == (g1.maps - {to})[from] == g0.maps[from];
    forall u | 0 <= u < n
      ensures PageCopied(mem0, g0, mem, g, from, to, u)
    {
      assert PageCopied(mem1, g1, mem, g, from, to, u);
      var f := Frame(g0.maps[from][u]);
      assert f in g0.role && g0.role[f] == Leaf(from, u) && !MayChange(g0.role[f], f, to, tf);
    }
  }

  const REGISTERS: nat := 288  // sizeof(struct trapframe)
  const A0: nat := 112  // the offset of a0 in it

  /** b has the registers that a has, but for a0, which is 0. */
  predicate SameRegisters(a: seq<byte>, b: seq<byte>) {
    && |a| == |b| == PGSIZE
    && forall k | 0 <= k < REGISTERS :: b[k] == if A0 <= k < A0 + 8 then 0 else a[k]
  }

  /** Writing a page that the process holds leaves the pages of its tree as they are. */
  lemma CopyWithFrame(mem0: seq<Page>, g0: Pool, mem: seq<Page>, g: Pool, trampoline: nat, from: nat, c: Proc,
                      page: Page)
    requires CopyOf(mem0, g0, mem, g, from, c.pagetable, PgUp(c.sz)) && Space(g, trampoline, c)
    requires c.trapframe < |mem|
    ensures CopyOf(mem0, g0, mem[c.trapframe := page], g, from, c.pagetable, PgUp(c.sz))
  {
    var to, n, tf := c.pagetable, PgUp(c.sz), c.trapframe;
    var mem' := mem[tf := page];
    forall u | 0 <= u < n
      ensures PageCopied(mem0, g0, mem', g, from, to, u)
    {
      assert PageCopied(mem0, g0, mem, g, from, to, u);
    }
  }

  // What a new process takes from the free list.

  lemma NewRoot(lo: nat, hi: nat, mem: seq<Page>, head: nat, g: Pool, pt: nat)
    requires Ok(lo, hi, mem, head, g, {}) && pt !in g.maps
    ensures forall k | k in g.nodes :: k.root != pt
  {
    forall k | k in g.nodes
      ensures k.root != pt
    {
      assert PlaceOk(g, k, g.nodes[k]);
    }
  }

  /** Tree pt is new, and has the tables for the trampoline and no others. */
  ghost predicate NewTree(g0: Pool, g: Pool, pt: nat) {
    && (forall k | k in g0.nodes :: k.root != pt)
    && forall k :: k in g.nodes <==> k in g0.nodes || k == Key(pt, 2, 0)
                                     || (k.root == pt && Place(k.level, k.prefix) in PathTo(TRAMPOLINE))
  }

  /** A new root: what it takes to map the trampoline and the trapframe, which share their tables. */
  lemma SystemTables(g0: Pool, g1: Pool, g2: Pool, pt: nat)
    requires (forall k | k in g0.nodes :: k.root != pt) && g1.nodes == g0.nodes[Key(pt, 2, 0) := pt]
    requires Spent(g1, g2, pt, TRAMPOLINE, 1, 0)
    ensures |Missing(g1.nodes, pt, TRAMPOLINE, 1)| + |Missing(g2.nodes, pt, TRAPFRAME, 1)| == 2
    ensures TablesFor(TRAPFRAME, 1) == TablesFor(TRAMPOLINE, 1) == PathTo(TRAMPOLINE)
  {
    MissingOne(g1.nodes, pt, TRAMPOLINE);
    MissingOne(g2.nodes, pt, TRAPFRAME);
    assert PathTo(TRAPFRAME) == PathTo(TRAMPOLINE);
    assert TablesFor(TRAMPOLINE, 1) == TablesFor(TRAMPOLINE, 0) + PathTo(TRAMPOLINE) == PathTo(TRAMPOLINE);
    assert TablesFor(TRAPFRAME, 1) == TablesFor(TRAPFRAME, 0) + PathTo(TRAPFRAME) == PathTo(TRAPFRAME);
    var k1, k0 := Key(pt, 1, TRAPFRAME / ENTRIES / ENTRIES), Key(pt, 0, TRAPFRAME / ENTRIES);
    assert k1 in g2.nodes <==> k1 in g1.nodes || Place(k1.level, k1.prefix) in TablesFor(TRAMPOLINE, 1);
    assert k0 in g2.nodes <==> k0 in g1.nodes || Place(k0.level, k0.prefix) in TablesFor(TRAMPOLINE, 1);
  }

  lemma TwoMissing(nodes: map<Key, nat>, pt: nat)
    requires forall k | k in nodes :: k.root != pt
    ensures |Missing(nodes[Key(pt, 2, 0) := pt], pt, TRAMPOLINE, 1)| == 2
  {
    MissingOne(nodes[Key(pt, 2, 0) := pt], pt, TRAMPOLINE);
  }

  lemma SystemPaid(g0: Pool, g1: Pool, g2: Pool, g: Pool, pt: nat)
    requires (forall k | k in g0.nodes :: k.root != pt) && g1.nodes == g0.nodes[Key(pt, 2, 0) := pt]
             && |g1.free| + 1 == |g0.free|
    requires Spent(g1, g2, pt, TRAMPOLINE, 1, 0) && Spent(g2, g, pt, TRAPFRAME, 1, 0)
    ensures |g.free| + 3 == |g0.free| && NewTree(g0, g, pt)
  {
    SystemTables(g0, g1, g2, pt);
  }

  lemma SameTables(g0: Pool, g1: Pool, g: Pool, pt: nat)
    requires g1.nodes == g0.nodes && NewTree(g1, g, pt)
    ensures NewTree(g0, g, pt)
  {
  }

  /** The pages that fork takes for a process of n pages: its trapframe, its root table, the two tables for trampoline
      and trapframe, the copies, and the tables for them. */
  function ForkNeeds(n: nat): nat {
    4 + n + Up(n, ENTRIES) + Up(n, ENTRIES * ENTRIES)
  }

  lemma CopyPrice(g0: Pool, g: Pool, pt: nat, n: nat)
    requires NewTree(g0, g, pt) && n <= PgUp(UINT)
    ensures 4 + Price(g.nodes, pt, 0, n) == ForkNeeds(n)
  {
    TableCount(n);
    TablesFromZero(n);
    FirstTablesAre(1, Up(n, ENTRIES * ENTRIES));
    FirstTablesAre(0, Up(n, ENTRIES));
    hide TablesFor, FirstTables;
    forall x | x in TablesFor(0, n)
      ensures !Has(g.nodes, pt, x)
    {
      var k := Key(pt, x.level, x.prefix);
      assert x.level < 2 && x !in PathTo(TRAMPOLINE);
      assert k !in g0.nodes && Place(k.level, k.prefix) == x;
    }
    assert Missing(g.nodes, pt, 0, n) == TablesFor(0, n);
  }

  class ProcTable {
    const vm: Memory
    const trampoline: nat
    var procs: seq<Proc>

    /** Every process in use has its address space, and no two share one. */
    ghost predicate Valid()
      reads this, vm
    {
      && vm.Valid() && trampoline !in vm.g.role && AllSpaces(vm.mem, vm.g, trampoline, procs, -1) && Separate(procs)
      && forall i | 0 <= i < |procs| && procs[i].pagetable == 0 :: procs[i] == UNUSED
    }

    constructor (memory: Memory, trampolinePage: nat, slots: nat)
      requires memory.Valid() && trampolinePage !in memory.g.role
      ensures Valid() && vm == memory && |procs| == slots
    {
      vm, trampoline := memory, trampolinePage;
      procs := seq(slots, _ => UNUSED);
    }

    /** mappages of one page that is not the tree's own. */
    method MapSystem(pt: nat, v: nat, f: nat, perm: nat) returns (ok: bool)
      requires vm.Valid() && pt in vm.g.maps && v < MAXPN && v !in vm.g.maps[pt] && perm < 1024 && IsLeaf(perm)
      modifies vm
      ensures vm.Valid() && Within(old(vm.mem), old(vm.g), vm.mem, vm.g, pt, 0)
      ensures vm.g.maps == if ok then old(vm.g).maps[pt := Inserted(old(vm.g).maps[pt], v, 1, f, perm)]
                           else old(vm.g).maps
      ensures ok ==> Spent(old(vm.g), vm.g, pt, v, 1, 0)
      ensures !ok ==> |old(vm.g).free| < |Missing(old(vm.g).nodes, pt, v, 1)|
    {
      hide Ok, Within, TablesAdded, Spent, Missing;
      assert v * PGSIZE / PGSIZE == v && (v * PGSIZE + PGSIZE - 1) % UINT64 / PGSIZE == v && f * PGSIZE / PGSIZE == f;
      var r, panic;
      ghost var n;
      r, panic, n := vm.Mappages(pt, v * PGSIZE, PGSIZE, f * PGSIZE, perm);
      ok := r == 0;
      InsertedNothing(old(vm.g).maps, pt, v, f, perm);
      assert vm.g.maps - {pt} == old(vm.g).maps - {pt};
      WithinTables(old(vm.mem), old(vm.g), vm.mem, vm.g, pt, 0);
    }

    /** uvmunmap of one page, without freeing it. */
    method UnmapSystem(pt: nat, v: nat)
      requires vm.Valid() && pt in vm.g.maps && v in vm.g.maps[pt] && v < MAXPN
      requires var f := Frame(vm.g.maps[pt][v]); f in vm.g.role ==> vm.g.role[f] != Leaf(pt, v)
      modifies vm
      ensures vm.Valid() && Within(old(vm.mem), old(vm.g), vm.mem, vm.g, pt, 0) && vm.g.role == old(vm.g).role
      ensures vm.g.maps == old(vm.g).maps[pt := Removed(old(vm.g).maps[pt], v, 1)]
    {
      hide Ok, Within;
      NotOwned(vm.lo, vm.hi, vm.mem, vm.freelist, vm.g, pt, v);
      var panic := vm.Uvmunmap(pt, v * PGSIZE, 1, false);
      WithinUnmapped(old(vm.mem), old(vm.g), vm.mem, vm.g, pt, v, 1, false, 0);
      assert forall f :: f in vm.g.role <==> f in old(vm.g).role;
    }

    /** Take away a tree that was not there before and maps nothing now. */
    method DropEmpty(pt: nat, ghost mem0: seq<Page>, ghost head0: nat, ghost g0: Pool)
      requires vm.Valid() && pt in vm.g.maps && vm.g.maps[pt] == map[]
      requires Ok(vm.lo, vm.hi, mem0, head0, g0, {}) && Within(mem0, g0, vm.mem, vm.g, pt, 0) && pt !in g0.maps
      modifies vm
      ensures vm.Valid() && Restored(mem0, g0, vm.mem, vm.g)
    {
      hide Ok, Within, TornDown, Restored;
      ghost var mem1, g1 := vm.mem, vm.g;
      var panic := vm.Uvmfree(pt, 0);
      WithinTorn(mem1, g1, vm.mem, vm.g, pt, PgUp(0), 0);
      WithinTrans(mem0, g0, mem1, g1, vm.mem, vm.g, pt, 0);
      TornGone(mem1, g1, vm.mem, vm.g, pt, PgUp(0));
      NoPageZero(vm.lo, vm.hi, mem0, head0, g0);
      AllRestored(vm.lo, vm.hi, mem0, head0, g0, vm.mem, vm.freelist, vm.g, pt, 0);
    }

    /** proc_pagetable: a tree with just the trampoline and the trapframe, or nothing at all. */
    method ProcPagetable(trapframe: nat) returns (pt: nat)
      requires vm.Valid() && trampoline !in vm.g.role && trapframe in vm.g.role && vm.g.role[trapframe].Held?
      modifies vm
      ensures vm.Valid()
      ensures pt == 0 <==> |old(vm.g).free| < 3
      ensures pt == 0 ==> Restored(old(vm.mem), old(vm.g), vm.mem, vm.g)
      ensures pt != 0 ==> |vm.g.free| + 3 == |old(vm.g).free| && NewTree(old(vm.g), vm.g, pt)
      ensures pt != 0 ==>
                && pt !in old(vm.g).maps && vm.g.maps == old(vm.g).maps[pt := SystemMap(trampoline, trapframe)]
                && Within(old(vm.mem), old(vm.g), vm.mem, vm.g, pt, 0)
    {
      hide Ok, Within, TablesAdded, Restored, Unmapped, Spent, Missing, NewTree;
      ghost var mem0, head0, g0 := vm.mem, vm.freelist, vm.g;
      pt := vm.Uvmcreate();
      if pt == 0 {
        RestoredSelf(mem0, g0);
        return;
      }
      assert vm.g.maps - {pt} == g0.maps - {pt};
      WithinTables(mem0, g0, vm.mem, vm.g, pt, 0);
      NewRoot(vm.lo, vm.hi, mem0, head0, g0, pt);
      ghost var mem1, g1 := vm.mem, vm.g;
      var ok := MapSystem(pt, TRAMPOLINE, trampoline, PTE_R + PTE_X);
      WithinTrans(mem0, g0, mem1, g1, vm.mem, vm.g, pt, 0);
      if !ok {
        TwoMissing(g0.nodes, pt);
        DropEmpty(pt, mem0, head0, g0);
        return 0;
      }
      ghost var mem2, g2 := vm.mem, vm.g;
      SystemTables(g0, g1, g2, pt);
      SpentEnough(g1, g2, pt, TRAMPOLINE, 1, 0);
      var none: map<nat, nat> := map[];
      InsertedAt(none, TRAMPOLINE, 1, trampoline, PTE_R + PTE_X, TRAPFRAME);
      ok := MapSystem(pt, TRAPFRAME, trapframe, PTE_R + PTE_W);
      WithinTrans(mem0, g0, mem2, g2, vm.mem, vm.g, pt, 0);
      if !ok {
        ghost var mem3, g3 := vm.mem, vm.g;
        RemovedInserted(none, TRAMPOLINE, trampoline, PTE_R + PTE_X);
        InsertedAt(none, TRAMPOLINE, 1, trampoline, PTE_R + PTE_X, TRAMPOLINE);
        UnmapSystem(pt, TRAMPOLINE);
        WithinTrans(mem0, g0, mem3, g3, vm.mem, vm.g, pt, 0);
        DropEmpty(pt, mem0, head0, g0);
        return 0;
      }
      SystemPaid(g0, g1, g2, vm.g, pt);
    }

    /** proc_freepagetable: nothing is left of the tree, and no panic is reached. The trapframe may be free already. */
    method ProcFreepagetable(pt: nat, sz: nat)
      requires vm.Valid() && trampoline !in vm.g.role && pt in vm.g.maps && sz < UINT && Owned(vm.g, pt, 0, PgUp(sz))
      requires forall v :: v in vm.g.maps[pt] <==> 0 <= v < PgUp(sz) || v == TRAPFRAME || v == TRAMPOLINE
      requires Frame(vm.g.maps[pt][TRAMPOLINE]) == trampoline
      requires var f := Frame(vm.g.maps[pt][TRAPFRAME]); f in vm.g.role ==> !vm.g.role[f].Leaf?
      modifies vm
      ensures vm.Valid() && pt !in vm.g.maps && Within(old(vm.mem), old(vm.g), vm.mem, vm.g, pt, 0)
    {
      hide Ok, Within, TornDown;
      ghost var mem0, g0, n := vm.mem, vm.g, PgUp(sz);
      SystemUnmapped(vm.g.maps[pt], n);
      UnmapSystem(pt, TRAMPOLINE);
      ghost var mem1, g1 := vm.mem, vm.g;
      UnmapSystem(pt, TRAPFRAME);
      WithinTrans(mem0, g0, mem1, g1, vm.mem, vm.g, pt, 0);
      assert Owned(vm.g, pt, 0, n);
      ghost var mem2, g2 := vm.mem, vm.g;
      var panic := vm.Uvmfree(pt, sz);
      assert !panic;
      WithinTorn(mem2, g2, vm.mem, vm.g, pt, n, 0);
      WithinTrans(mem0, g0, mem2, g2, vm.mem, vm.g, pt, 0);
      TornGone(mem2, g2, vm.mem, vm.g, pt, n);
    }

    /** freeproc, for a slot with an address space or with only part of one. */
    method Freeproc(i: nat)
      requires vm.Valid() && trampoline !in vm.g.role && i < |procs|
      requires procs[i].pagetable != 0 ==> Space(vm.g, trampoline, procs[i])
      requires procs[i].trapframe != 0 ==> procs[i].trapframe in vm.g.role && vm.g.role[procs[i].trapframe].Held?
      modifies this, vm
      ensures vm.Valid() && procs == old(procs)[i := UNUSED] && old(procs)[i].pagetable !in vm.g.maps
      ensures Within(old(vm.mem), old(vm.g), vm.mem, vm.g, old(procs)[i].pagetable, old(procs)[i].trapframe)
      ensures old(procs)[i].trapframe != 0 ==> old(procs)[i].trapframe in vm.g.role
                                               && vm.g.role[old(procs)[i].trapframe].Free?
    {
      hide Ok, Within;
      var p := procs[i];
      NoPageZero(vm.lo, vm.hi, vm.mem, vm.freelist, vm.g);
      WithinSelf(vm.mem, vm.g, p.pagetable, p.trapframe);
      if p.trapframe != 0 {
        FrameBound(vm.lo, vm.hi, vm.mem, vm.freelist, vm.g, p.trapframe);
        WithinPage(vm.mem, vm.g, [p.trapframe] + vm.g.free, p.pagetable, p.trapframe, Link(vm.freelist), Free);
        assert p.trapframe * PGSIZE / PGSIZE == p.trapframe && p.trapframe * PGSIZE % PGSIZE == 0;
        var panic := vm.Kfree(p.trapframe * PGSIZE, {});
      }
      ghost var mem1, g1 := vm.mem, vm.g;
      if p.pagetable != 0 {
        ProcFreepagetable(p.pagetable, p.sz);
        WithinMore(mem1, g1, vm.mem, vm.g, p.pagetable, p.trapframe);
        WithinTrans(old(vm.mem), old(vm.g), mem1, g1, vm.mem, vm.g, p.pagetable, p.trapframe);
        if p.trapframe != 0 {
          StillFree(vm.lo, vm.hi, mem1, g1, vm.mem, vm.freelist, vm.g, p.pagetable, p.trapframe);
        }
      } else {
        NoTreeZero(vm.lo, vm.hi, vm.mem, vm.freelist, vm.g);
      }
      procs := procs[i := UNUSED];
    }

    /** freeproc of a process in use, as wait does. */
    method Reap(i: nat)
      requires Valid() && i < |procs| && procs[i].pagetable != 0
      modifies this, vm
      ensures Valid() && procs == old(procs)[i := UNUSED] && old(procs)[i].pagetable !in vm.g.maps
      ensures Within(old(vm.mem), old(vm.g), vm.mem, vm.g, old(procs)[i].pagetable, old(procs)[i].trapframe)
    {
      hide Ok, Within, Space;
      ghost var p, ps := procs[i], procs;
      SpaceTrapframe(vm.lo, vm.hi, vm.mem, vm.freelist, vm.g, trampoline, p);
      Freeproc(i);
      OthersKept(old(vm.mem), old(vm.g), vm.mem, vm.g, trampoline, ps, i, p.pagetable, p.trapframe);
      WithinKeys(old(vm.mem), old(vm.g), vm.mem, vm.g, p.pagetable, p.trapframe);
    }

    /** The first slot that is not in use, or the number of slots. */
    method FindUnused() returns (i: nat)
      ensures i <= |procs| && (i < |procs| ==> procs[i].pagetable == 0)
      ensures forall j | 0 <= j < i :: procs[j].pagetable != 0
    {
      i := 0;
      while i < |procs| && procs[i].pagetable != 0
        invariant i <= |procs| && forall j | 0 <= j < i :: procs[j].pagetable != 0
      {
        i := i + 1;
      }
    }

    /** allocproc: a new process with an empty address space, or everything as before. */
    method Allocproc() returns (i: nat)
      requires Valid()
      modifies this, vm
      ensures Valid() && |procs| == |old(procs)|
      ensures i < |procs| <==> UNUSED in old(procs) && |old(vm.g).free| >= 4
      ensures i >= |procs| ==> procs == old(procs) && Restored(old(vm.mem), old(vm.g), vm.mem, vm.g)
      ensures i < |procs| ==>
                && old(procs)[i] == UNUSED && procs == old(procs)[i := procs[i]] && procs[i].pagetable != 0
                && procs[i].sz == 0
                && |vm.g.free| + 4 == |old(vm.g).free| && NewTree(old(vm.g), vm.g, procs[i].pagetable)
                && procs[i].pagetable !in old(vm.g).maps && procs[i].trapframe in old(vm.g).role
                && old(vm.g).role[procs[i].trapframe].Free?
                && Within(old(vm.mem), old(vm.g), vm.mem, vm.g, procs[i].pagetable, procs[i].trapframe)
                && vm.g.maps[procs[i].pagetable].Keys == {TRAMPOLINE, TRAPFRAME}
    {
      hide Ok, Within, Space, Restored, NewTree;
      RestoredSelf(vm.mem, vm.g);
      i := FindUnused();
      if i == |procs| {
        return;
      }
      ghost var mem0, head0, g0 := vm.mem, vm.freelist, vm.g;
      var tf := vm.Kalloc();
      if tf == 0 {
        return |procs|;
      }
      ghost var mem1, g1 := vm.mem, vm.g;
      NoPageZero(vm.lo, vm.hi, mem0, head0, g0);
      assert mem0[tf := mem1[tf]] == mem1 && forall f :: f in g1.role <==> f in g0.role;
      procs := procs[i := Proc(tf, 0, 0)];
      var pt := ProcPagetable(tf);
      WithinPage(mem0, g0, g1.free, pt, tf, mem1[tf], Held);
      if pt == 0 {
        RestoredWithin(mem1, g1, vm.mem, vm.g, 0, tf);
        RestoredKeys(mem1, g1, vm.mem, vm.g);
        WithinTrans(mem0, g0, mem1, g1, vm.mem, vm.g, 0, tf);
        FreeHalf(i, mem0, head0, g0);
        RestoredSpaces(mem0, g0, vm.mem, vm.g, trampoline, old(procs));
        RestoredKeys(mem0, g0, vm.mem, vm.g);
        assert procs == old(procs);
        return |procs|;
      }
      WithinMore(mem1, g1, vm.mem, vm.g, pt, tf);
      WithinTrans(mem0, g0, mem1, g1, vm.mem, vm.g, pt, tf);
      NewAlone(mem0, g0, trampoline, old(procs), i, pt, tf);
      OthersKept(mem0, g0, vm.mem, vm.g, trampoline, old(procs), i, pt, tf);
      WithinKeys(mem0, g0, vm.mem, vm.g, pt, tf);
      StillHeld(mem1, g1, vm.mem, vm.g, pt, tf);
      NewSpace(vm.g, trampoline, tf, pt);
      SystemMapIs(trampoline, tf);
      SameTables(g0, g1, vm.g, pt);
      procs := procs[i := Proc(tf, pt, 0)];
    }

    /** allocproc's way out when there is no page table. */
    method FreeHalf(i: nat, ghost mem0: seq<Page>, ghost head0: nat, ghost g0: Pool)
      requires vm.Valid() && trampoline !in vm.g.role && i < |procs| && procs[i].pagetable == 0 && procs[i].sz == 0
      requires var tf := procs[i].trapframe; tf in vm.g.role && vm.g.role[tf].Held? && tf in g0.role
                                             && g0.role[tf].Free?
      requires Ok(vm.lo, vm.hi, mem0, head0, g0, {}) && Within(mem0, g0, vm.mem, vm.g, 0, procs[i].trapframe)
      modifies this, vm
      ensures vm.Valid() && procs == old(procs)[i := UNUSED] && Restored(mem0, g0, vm.mem, vm.g)
    {
      hide Ok, Within, Restored;
      ghost var tf := procs[i].trapframe;
      NoPageZero(vm.lo, vm.hi, mem0, head0, g0);
      NoTreeZero(vm.lo, vm.hi, mem0, head0, g0);
      Freeproc(i);
      WithinTrans(mem0, g0, old(vm.mem), old(vm.g), vm.mem, vm.g, 0, tf);
      AllRestored(vm.lo, vm.hi, mem0, head0, g0, vm.mem, vm.freelist, vm.g, 0, tf);
    }

    /** growproc. The size is 32 bits wide: a growth or a shrinkage that does not fit is reported as done, and changes
        nothing at all. Otherwise the pages below both sizes stay as they are, and new ones are zero. */
    method Growproc(i: nat, n: int) returns (rc: int)
      requires Valid() && i < |procs| && procs[i].pagetable != 0 && -0x8000_0000 <= n < 0x8000_0000
      modifies this, vm
      ensures Valid() && |procs| == |old(procs)| && procs == old(procs)[i := old(procs)[i].(sz := procs[i].sz)]
      ensures rc == 0 || (rc == -1 && n > 0)
      ensures n > 0 && old(procs)[i].sz + n < UINT ==>
                var v := PgUp(old(procs)[i].sz);
                && v <= PgUp(old(procs)[i].sz + n)
                && (rc == 0 <==> |old(vm.g).free| >= Price(old(vm.g).nodes, procs[i].pagetable, v,
                                                           PgUp(old(procs)[i].sz + n) - v))
      ensures procs[i].sz == if rc == 0 && 0 <= old(procs)[i].sz + n < UINT then old(procs)[i].sz + n
                             else old(procs)[i].sz
      ensures !(0 <= old(procs)[i].sz + n < UINT) ==> rc == 0 && vm.mem == old(vm.mem) && vm.g == old(vm.g)
      ensures Within(old(vm.mem), old(vm.g), vm.mem, vm.g, procs[i].pagetable, 0)
      ensures var small := if procs[i].sz < old(procs)[i].sz then procs[i].sz else old(procs)[i].sz;
              && PagesKept(old(vm.mem), old(vm.g), vm.mem, vm.g, procs[i].pagetable, PgUp(small))
              && Zeroed(vm.mem, vm.g, procs[i].pagetable, PgUp(small), PgUp(procs[i].sz) - PgUp(small))
              && AllUser(vm.g, procs[i].pagetable, PgUp(small) * PGSIZE, (PgUp(procs[i].sz) - PgUp(small)) * PGSIZE)
    {
      hide Ok, Within, Space, PagesKept, Zeroed, Price, AllUser;
      var p := procs[i];
      assert Space(vm.g, trampoline, p);
      AloneIn(vm.lo, vm.hi, vm.mem, vm.freelist, vm.g, trampoline, procs, i);
      WithinSelf(vm.mem, vm.g, p.pagetable, 0);
      PagesSelf(vm.lo, vm.hi, vm.mem, vm.freelist, vm.g, trampoline, p);
      var sz := p.sz;
      SpaceSize(vm.g, trampoline, p);
      if n > 0 {
        assert p.sz + n < UINT ==> (p.sz + n) % UINT == p.sz + n;
        sz := GrowSpace(p, (sz + n) % UINT);
        assert p.sz + n < UINT ==> (sz == 0 <==> sz != p.sz + n);
      } else if n < 0 {
        sz := ShrinkSpace(p, (sz + n) % UINT);
      }
      ZeroedNothing(vm.mem, vm.g, p.pagetable, PgUp(sz));
      ZeroedNothing(vm.mem, vm.g, p.pagetable, PgUp(p.sz));
      OthersKept(old(vm.mem), old(vm.g), vm.mem, vm.g, trampoline, procs, i, p.pagetable, 0);
      WithinKeys(old(vm.mem), old(vm.g), vm.mem, vm.g, p.pagetable, 0);
      SpaceTrapframe(vm.lo, vm.hi, old(vm.mem), old(vm.freelist), old(vm.g), trampoline, p);
      FrameKept(old(vm.mem), old(vm.g), vm.mem, vm.g, trampoline, p.pagetable, 0, p);
      ZeroedUser(vm.mem, vm.g, p.pagetable, PgUp(p.sz), 0);
      if n > 0 && sz == 0 {
        return -1;
      }
      procs := procs[i := p.(sz := sz)];
      if sz > p.sz {
        ZeroedUser(vm.mem, vm.g, p.pagetable, PgUp(p.sz), PgUp(sz) - PgUp(p.sz));
      } else {
        ZeroedUser(vm.mem, vm.g, p.pagetable, PgUp(sz), 0);
      }
      rc := 0;
    }

    /** Memory that growproc has added can be read, and is zero, and can be written, and then read again. */
    method UseNewMemory(i: nat, n: nat, va: nat, src: seq<byte>)
      returns (rc: int, first: seq<byte>, r: int, dst: seq<byte>)
      requires Valid() && i < |procs| && procs[i].pagetable != 0 && n < 0x8000_0000 && procs[i].sz + n < UINT
      requires PgUp(procs[i].sz) * PGSIZE <= va && va + |src| <= PgUp(procs[i].sz + n) * PGSIZE
      modifies this, vm
      ensures rc == 0 ==> |first| == |src| && (forall k | 0 <= k < |src| :: first[k] == 0) && r == 0 && dst == src
    {
      hide Ok, Space, Within, PagesKept, Zeroed, Price, IsUser, UserByte, Stored;
      ghost var v := PgUp(procs[i].sz);
      rc := Growproc(i, n);
      first, r, dst := [], -1, [];
      if rc == 0 {
        var p := procs[i];
        SpacePrivate(vm.g, trampoline, p);
        r, first := vm.Copyin(p.pagetable, va, |src|);
        forall k | 0 <= k < |src|
          ensures first[k] == 0
        {
          ZeroedByte(vm.mem, vm.g, p.pagetable, v, PgUp(p.sz) - v, va + k);
          assert UserByte(vm.mem, vm.g, p.pagetable, va + k) == first[k];
        }
        ghost var mem1, w := vm.mem, 0;
        r, w := vm.Copyout(p.pagetable, va, src);
        assert src[..w] == src;
        r, dst := vm.Copyin(p.pagetable, va, |src|);
        CopyRoundTrip(mem1, vm.mem, vm.g, p.pagetable, va, src, dst);
      }
    }

    /** uvmalloc for a process whose address space is in order. */
    method GrowSpace(p: Proc, newsz: nat) returns (r: nat)
      requires vm.Valid() && Space(vm.g, trampoline, p) && newsz < UINT
      modifies vm
      ensures vm.Valid() && Within(old(vm.mem), old(vm.g), vm.mem, vm.g, p.pagetable, 0)
      ensures PagesKept(old(vm.mem), old(vm.g), vm.mem, vm.g, p.pagetable, PgUp(p.sz))
      ensures newsz < p.sz ==> r == p.sz && Space(vm.g, trampoline, p) && vm.mem == old(vm.mem) && vm.g == old(vm.g)
      ensures p.sz <= newsz && r == newsz ==>
                && Space(vm.g, trampoline, p.(sz := newsz))
                && Zeroed(vm.mem, vm.g, p.pagetable, PgUp(p.sz), PgUp(newsz) - PgUp(p.sz))
      ensures p.sz <= newsz && r != newsz ==> r == 0 && Space(vm.g, trampoline, p)
      ensures p.sz <= newsz ==>
                && PgUp(p.sz) <= PgUp(newsz)
                && (r == newsz <==> |old(vm.g).free| >= Price(old(vm.g).nodes, p.pagetable, PgUp(p.sz),
                                                              PgUp(newsz) - PgUp(p.sz)))
    {
      hide Ok, Within, Grown, TablesAdded, Zeroed, Owned, PagesKept, Missing, AllUser;
      WithinSelf(vm.mem, vm.g, p.pagetable, 0);
      PagesSelf(vm.lo, vm.hi, vm.mem, vm.freelist, vm.g, trampoline, p);
      ghost var head := vm.freelist;
      var panic;
      assert forall v | PgUp(p.sz) <= v < PgUp(newsz) :: v < MAXPN && v !in vm.g.maps[p.pagetable];
      r, panic := vm.Uvmalloc(p.pagetable, p.sz, newsz);
      if p.sz <= newsz {
        if r == newsz {
          WithinGrown(old(vm.mem), old(vm.g), vm.mem, vm.g, p.pagetable, PgUp(p.sz), PgUp(newsz) - PgUp(p.sz), 0);
          SpaceGrown(old(vm.mem), old(vm.g), vm.mem, vm.g, trampoline, p, newsz);
          GrowthKeeps(vm.lo, vm.hi, old(vm.mem), head, old(vm.g), vm.mem, vm.g, trampoline, p,
                      PgUp(newsz) - PgUp(p.sz));
        } else {
          WithinTables(old(vm.mem), old(vm.g), vm.mem, vm.g, p.pagetable, 0);
          SpaceTables(old(vm.mem), old(vm.g), vm.mem, vm.g, trampoline, p);
          TablesKeep(vm.lo, vm.hi, old(vm.mem), head, old(vm.g), vm.mem, vm.g, trampoline, p);
        }
      }
    }

    /** uvmdealloc for a process whose address space is in order. */
    method ShrinkSpace(p: Proc, newsz: nat) returns (r: nat)
      requires vm.Valid() && Space(vm.g, trampoline, p)
      modifies vm
      ensures vm.Valid() && Within(old(vm.mem), old(vm.g), vm.mem, vm.g, p.pagetable, 0)
      ensures r == (if newsz < p.sz then newsz else p.sz) && Space(vm.g, trampoline, p.(sz := r))
      ensures newsz >= p.sz ==> vm.mem == old(vm.mem) && vm.g == old(vm.g)
      ensures PagesKept(old(vm.mem), old(vm.g), vm.mem, vm.g, p.pagetable, PgUp(r))
    {
      hide Ok, Within, Unmapped, PagesKept;
      WithinSelf(vm.mem, vm.g, p.pagetable, 0);
      PagesSelf(vm.lo, vm.hi, vm.mem, vm.freelist, vm.g, trampoline, p);
      ghost var head := vm.freelist;
      var panic;
      r, panic := vm.Uvmdealloc(p.pagetable, p.sz, newsz);
      if newsz < p.sz {
        WithinUnmapped(old(vm.mem), old(vm.g), vm.mem, vm.g, p.pagetable, PgUp(newsz), PgUp(p.sz) - PgUp(newsz), true,
                       0);
        SpaceShrunk(old(vm.mem), old(vm.g), vm.mem, vm.g, trampoline, p, newsz);
        ShrunkKeeps(vm.lo, vm.hi, old(vm.mem), head, old(vm.g), vm.mem, vm.g, trampoline, p, newsz);
      }
    }

    /** fork, as far as memory and registers go: the child has a copy of every page of the parent with the same flags,
        and of its registers but for a0, and the parent has what it had; or, if memory or slots run out, everything is
        as before and no page is lost. */
    method Fork(i: nat) returns (j: nat)
      requires Valid() && i < |procs| && procs[i].pagetable != 0
      modifies this, vm
      ensures Valid() && |procs| == |old(procs)|
      ensures j < |procs| <==> UNUSED in old(procs) && |old(vm.g).free| >= ForkNeeds(PgUp(old(procs)[i].sz))
      ensures j >= |procs| ==> procs == old(procs) && Restored(old(vm.mem), old(vm.g), vm.mem, vm.g)
      ensures j < |procs| ==>
                && old(procs)[j] == UNUSED && procs == old(procs)[j := procs[j]] && procs[j].sz == procs[i].sz
                && Within(old(vm.mem), old(vm.g), vm.mem, vm.g, procs[j].pagetable, procs[j].trapframe)
                && CopyOf(old(vm.mem), old(vm.g), vm.mem, vm.g, procs[i].pagetable, procs[j].pagetable,
                          PgUp(procs[i].sz))
                && FrameOk(old(vm.mem), procs[i].trapframe) && FrameOk(vm.mem, procs[j].trapframe)
                && SameRegisters(old(vm.mem)[procs[i].trapframe].bytes, vm.mem[procs[j].trapframe].bytes)
    {
      hide Ok, Within, Space, Restored, CopyOf, Grown, TablesAdded, SameRegisters, FrameOk, Price, NewTree;
      ghost var mem0, head0, g0 := vm.mem, vm.freelist, vm.g;
      j := Allocproc();
      if j >= |procs| {
        return;
      }
      var p, c := procs[i], procs[j];
      SpaceSize(g0, trampoline, p);
      AloneIn(vm.lo, vm.hi, vm.mem, vm.freelist, vm.g, trampoline, procs, j);
      WithinKeys(mem0, g0, vm.mem, vm.g, c.pagetable, c.trapframe);
      ghost var mem1, head1, g1 := vm.mem, vm.freelist, vm.g;
      CopyPrice(g0, g1, c.pagetable, PgUp(p.sz));
      var ok := CopySpace(p, c);
      WithinTransMore(vm.lo, vm.hi, mem0, g0, mem1, g1, vm.mem, vm.freelist, vm.g, c.pagetable, c.trapframe);
      WithinKeys(mem0, g0, vm.mem, vm.g, c.pagetable, c.trapframe);
      if !ok {
        SpaceTrapframe(vm.lo, vm.hi, vm.mem, vm.freelist, vm.g, trampoline, c);
        ghost var mem2, g2 := vm.mem, vm.g;
        Freeproc(j);
        WithinTrans(mem0, g0, mem2, g2, vm.mem, vm.g, c.pagetable, c.trapframe);
        AllRestored(vm.lo, vm.hi, mem0, head0, g0, vm.mem, vm.freelist, vm.g, c.pagetable, c.trapframe);
        RestoredSpaces(mem0, g0, vm.mem, vm.g, trampoline, old(procs));
        RestoredKeys(mem0, g0, vm.mem, vm.g);
        assert procs == old(procs);
        return |procs|;
      }
      CopySource(mem0, g0, mem1, g1, vm.mem, vm.g, p.pagetable, c.pagetable, c.trapframe, PgUp(p.sz));
      OthersKept(mem1, g1, vm.mem, vm.g, trampoline, procs, j, c.pagetable, 0);
      procs := procs[j := c.(sz := p.sz)];
      ghost var mem2 := vm.mem;
      FrameKept(mem0, g0, mem2, vm.g, trampoline, c.pagetable, c.trapframe, p);
      SpaceTrapframe(vm.lo, vm.hi, mem1, head1, g1, trampoline, c);
      FrameKept(mem1, g1, mem2, vm.g, trampoline, c.pagetable, 0, c);
      CopyRegisters(p, procs[j]);
      CopyWithFrame(mem0, g0, mem2, vm.g, trampoline, p.pagetable, procs[j], vm.mem[c.trapframe]);
      WithinTrans(mem0, g0, mem2, vm.g, vm.mem, vm.g, c.pagetable, c.trapframe);
      OthersKept(mem2, vm.g, vm.mem, vm.g, trampoline, procs, j, c.pagetable, c.trapframe);
    }

    /** The child's trapframe becomes a copy of the parent's, in which fork returns 0. */
    method CopyRegisters(p: Proc, c: Proc)
      requires vm.Valid() && Space(vm.g, trampoline, p) && Space(vm.g, trampoline, c)
      requires FrameOk(vm.mem, p.trapframe) && FrameOk(vm.mem, c.trapframe) && p.trapframe != c.trapframe
      modifies vm`mem
      ensures vm.Valid() && Within(old(vm.mem), vm.g, vm.mem, vm.g, c.pagetable, c.trapframe)
      ensures FrameOk(vm.mem, c.trapframe) && vm.mem == old(vm.mem)[c.trapframe := vm.mem[c.trapframe]]
      ensures SameRegisters(old(vm.mem)[p.trapframe].bytes, vm.mem[c.trapframe].bytes)
    {
      hide Ok, Within;
      var from, to := vm.mem[p.trapframe].bytes, vm.mem[c.trapframe].bytes;
      to := from[..REGISTERS] + to[REGISTERS..];
      to := to[..A0] + Junk(8, 0) + to[A0 + 8..];
      assert vm.g.role[c.trapframe := Held] == vm.g.role;
      PageUsed(vm.lo, vm.hi, vm.mem, vm.freelist, vm.g, {}, c.trapframe, Data(to), Held);
      WithinPage(vm.mem, vm.g, vm.g.free, c.pagetable, c.trapframe, Data(to), Held);
      vm.mem := vm.mem[c.trapframe := Data(to)];
    }

    /** uvmcopy between two processes whose address spaces are in order. */
    method CopySpace(p: Proc, c: Proc) returns (ok: bool)
      requires vm.Valid() && Space(vm.g, trampoline, p) && Space(vm.g, trampoline, c) && c.sz == 0
               && p.pagetable != c.pagetable
      modifies vm
      ensures vm.Valid() && Within(old(vm.mem), old(vm.g), vm.mem, vm.g, c.pagetable, 0)
      ensures Space(vm.g, trampoline, if ok then c.(sz := p.sz) else c)
      ensures ok ==> CopyOf(old(vm.mem), old(vm.g), vm.mem, vm.g, p.pagetable, c.pagetable, PgUp(p.sz))
      ensures ok <==> |old(vm.g).free| >= Price(old(vm.g).nodes, c.pagetable, 0, PgUp(p.sz))
    {
      hide Ok, Within, CopyOf, Grown, TablesAdded, Missing;
      var r, panic := vm.Uvmcopy(p.pagetable, c.pagetable, p.sz);
      ok := r == 0;
      if ok {
        WithinGrown(old(vm.mem), old(vm.g), vm.mem, vm.g, c.pagetable, 0, PgUp(p.sz), 0);
        SpaceGrown(old(vm.mem), old(vm.g), vm.mem, vm.g, trampoline, c, p.sz);
      } else {
        WithinTables(old(vm.mem), old(vm.g), vm.mem, vm.g, c.pagetable, 0);
        SpaceTables(old(vm.mem), old(vm.g), vm.mem, vm.g, trampoline, c);
      }
    }
  }
}
