/** The in-memory side of kernel/log.c, on top of the buffer cache. The disk images its methods leave
    behind are those of LogSpec, one per disk write, so LogSpec's crash theorem is about this code. */
module RedoLog {
  import opened Blocks
  import opened BufferCache
  import opened LogSpec
  import LogAdmission

  /** Locks are as before, references too except for one dropped from each block of the given set, and
      a buffer that is still referenced has not been recycled. */
  predicate Steady(was: seq<Buf>, now: seq<Buf>, dropped: set<nat>) {
    && |now| == |was|
    && forall i | 0 <= i < |was| ::
         && now[i].locked == was[i].locked
         && now[i].refcnt == was[i].refcnt - (if was[i].dev == ROOTDEV && was[i].blockno in dropped then 1 else 0)
         && (was[i].refcnt > 0 && now[i].refcnt > 0
             ==> now[i].dev == was[i].dev && now[i].blockno == was[i].blockno && (was[i].valid ==> now[i].valid))
  }

  /** The buffers after bpin(b). */
  function Pin(bufs: seq<Buf>, b: nat): (r: seq<Buf>)
    requires b < |bufs|
  {
    bufs[b := bufs[b].(refcnt := bufs[b].refcnt + 1)]
  }

  predicate SomeFree(bufs: seq<Buf>) {
    exists i :: 0 <= i < |bufs| && bufs[i].refcnt == 0
  }

  predicate TwoFree(bufs: seq<Buf>) {
    exists i, j :: 0 <= i < j < |bufs| && bufs[i].refcnt == 0 && bufs[j].refcnt == 0
  }

  /** Block k stays cached: its buffer is valid and referenced by someone besides the holder of its lock. */
  ghost predicate Pinned(bufs: seq<Buf>, k: nat) {
    exists b :: Holds(bufs, b, k) && bufs[b].valid && bufs[b].refcnt > if bufs[b].locked then 1 else 0
  }

  /** The open transaction: every logged block stays cached with the contents last logged, and a block
      that differs from the disk is logged or still in the hands of the process changing it. */
  ghost predicate Tracked(bufs: seq<Buf>, contents: seq<Block>, disk: Disk, lh: seq<nat>, pending: set<nat>,
                          logged: map<nat, Block>) {
    && (forall i | 0 <= i < |lh| :: Pinned(bufs, lh[i]))
    && |contents| == |disk|
    && (forall k | 0 <= k < |disk| && k !in lh && k !in pending :: contents[k] == disk[k])
    && (forall k :: k in logged <==> k in lh)
    && (forall k | k in lh && k !in pending :: k < |disk| && contents[k] == logged[k])
  }

  /** Replacing buffer b keeps logged blocks pinned if it keeps the identity of a referenced buffer and
      drops no reference other than the lock holder's. */
  lemma StillPinned(bufs: seq<Buf>, bufs': seq<Buf>, lh: seq<nat>, b: nat)
    requires b < |bufs| == |bufs'| && bufs' == bufs[b := bufs'[b]]
    requires forall i | 0 <= i < |lh| :: Pinned(bufs, lh[i])
    requires bufs[b].refcnt > 0 ==> bufs'[b].dev == bufs[b].dev && bufs'[b].blockno == bufs[b].blockno
                                    && (bufs[b].valid ==> bufs'[b].valid)
    requires bufs'[b].refcnt - (if bufs'[b].locked then 1 else 0) >= bufs[b].refcnt - if bufs[b].locked then 1 else 0
    ensures forall i | 0 <= i < |lh| :: Pinned(bufs', lh[i])
  {
    forall i | 0 <= i < |lh|
      ensures Pinned(bufs', lh[i])
    {
      var j :| Holds(bufs, j, lh[i]) && bufs[j].valid && bufs[j].refcnt > if bufs[j].locked then 1 else 0;
      assert Holds(bufs', j, lh[i]) && bufs'[j].valid && bufs'[j].refcnt > if bufs'[j].locked then 1 else 0;
    }
  }

  lemma OneMoreEntry(L: Layout, d: Disk, lh: seq<nat>, k: nat)
    requires GoodEntries(L, d, lh) && Distinct(lh) && L.IsHome(d, k) && k !in lh && |lh| < LOGSIZE && |lh| + 1 < L.size
    ensures GoodEntries(L, d, lh + [k]) && Distinct(lh + [k])
  {
  }

  /** Logging the contents of a held buffer keeps the transaction tracked. */
  lemma TrackedLogged(bufs: seq<Buf>, bufs': seq<Buf>, contents: seq<Block>, disk: Disk, lh: seq<nat>, lh': seq<nat>,
                      pending: set<nat>, logged: map<nat, Block>, b: nat)
    requires Tracked(bufs, contents, disk, lh, pending, logged)
    requires b < |bufs| && bufs[b].dev == ROOTDEV && bufs[b].valid && bufs[b].locked && bufs[b].refcnt > 0
    requires bufs[b].blockno < |contents| && contents[bufs[b].blockno] == bufs[b].data
    requires var k := bufs[b].blockno;
             if k in lh then lh' == lh && bufs' == bufs
             else lh' == lh + [k] && bufs' == bufs[b := bufs[b].(refcnt := bufs[b].refcnt + 1)]
    ensures var k := bufs[b].blockno;
            Tracked(bufs', contents, disk, lh', pending - {k}, logged[k := bufs[b].data])
  {
    var k := bufs[b].blockno;
    if k !in lh {
      StillPinned(bufs, bufs', lh, b);
      assert Holds(bufs', b, k);
      assert forall j :: j in lh' <==> j in lh || j == k;
    }
  }

  /** memmove into a held buffer, then bwrite it. */
  method Overwrite(cache: BCache, b: nat, data: Block)
    requires cache.Valid() && b < cache.nbuf && cache.bufs[b].locked && cache.bufs[b].valid
    modifies cache`bufs, cache`contents, cache`disk, cache`history
    ensures cache.Valid() && cache.bufs[b].blockno < |cache.disk| == |old(cache.disk)|
    ensures cache.bufs == old(cache.bufs)[b := old(cache.bufs)[b].(data := data)]
    ensures cache.contents == old(cache.contents)[cache.bufs[b].blockno := data]
    ensures cache.disk == old(cache.disk)[cache.bufs[b].blockno := data]
            && cache.history == old(cache.history) + [cache.disk]
  {
    hide IsList, View;
    cache.Modify(b, data);
    cache.Bwrite(b);
  }

  /** bread of two blocks, with enough free buffers for those that are not pinned. */
  method ReadBoth(cache: BCache, j: nat, k: nat) returns (a: nat, b: nat)
    requires cache.Valid() && j != k && j < |cache.disk| && k < |cache.disk|
    requires (SomeFree(cache.bufs) && Pinned(cache.bufs, k)) || TwoFree(cache.bufs)
    requires Unlocked(cache.bufs, j) && Unlocked(cache.bufs, k)
    modifies cache`bufs
    ensures cache.Valid() && a < cache.nbuf && b < cache.nbuf && a != b
    ensures cache.bufs == old(cache.bufs)[a :=
                          Buf(ROOTDEV, j, true, old(cache.bufs)[a].refcnt + 1, true, cache.contents[j])]
                          [b := Buf(ROOTDEV, k, true, old(cache.bufs)[b].refcnt + 1, true,
                                    cache.contents[k])]
    ensures Holds(old(cache.bufs), a, j) || old(cache.bufs)[a].refcnt == 0
    ensures Holds(old(cache.bufs), b, k) || old(cache.bufs)[b].refcnt == 0
    ensures Pinned(old(cache.bufs), k) ==> Holds(old(cache.bufs), b, k) && old(cache.bufs)[b].refcnt > 0
  {
    hide IsList, View;
    var full;
    a, full := cache.Bread(ROOTDEV, j);
    assert Unlocked(cache.bufs, k);
    if Pinned(old(cache.bufs), k) {
      ghost var p :| Holds(old(cache.bufs), p, k) && old(cache.bufs)[p].refcnt > 0;
      assert a != p && Holds(cache.bufs, p, k);
    } else {
      ghost var x, y :| 0 <= x < y < |old(cache.bufs)| && old(cache.bufs)[x].refcnt == 0
                        && old(cache.bufs)[y].refcnt == 0;
      assert cache.bufs[if a == x then y else x].refcnt == 0;
    }
    b, full := cache.Bread(ROOTDEV, k);
  }

  /** brelse of two held buffers. */
  method ReleaseBoth(cache: BCache, a: nat, b: nat)
    requires cache.Valid() && a < cache.nbuf && b < cache.nbuf && a != b
    requires forall x | x in {a, b} :: && cache.bufs[x].locked && cache.bufs[x].blockno < |cache.disk|
                                       && (cache.bufs[x].refcnt == 1
                                           ==> cache.bufs[x].data == cache.disk[cache.bufs[x].blockno])
    modifies cache`bufs, cache`next, cache`prev, cache`ring
    ensures cache.Valid()
    ensures cache.bufs == old(cache.bufs)[a :=
                          old(cache.bufs)[a].(locked := false, refcnt := old(cache.bufs)[a].refcnt - 1)]
                          [b := old(cache.bufs)[b].(locked := false, refcnt :=
                          old(cache.bufs)[b].refcnt - 1)]
  {
    hide IsList, View;
    cache.Brelse(a);
    cache.Brelse(b);
  }

  /** The body of write_log's loop: copy the cached contents of block src, which is pinned, to the log block dst. */
  method CopyToLog(cache: BCache, dst: nat, src: nat)
    requires cache.Valid() && dst != src && dst < |cache.disk| && src < |cache.disk|
    requires SomeFree(cache.bufs) && Pinned(cache.bufs, src)
    requires Unlocked(cache.bufs, src) && Unlocked(cache.bufs, dst)
    modifies cache
    ensures cache.Valid() && Steady(old(cache.bufs), cache.bufs, {})
    ensures cache.disk == old(cache.disk)[dst := old(cache.contents)[src]]
            && cache.history == old(cache.history) + [cache.disk]
    ensures cache.contents == old(cache.contents)[dst := cache.disk[dst]]
  {
    hide IsList, View;
    var to, from := ReadBoth(cache, dst, src);
    Overwrite(cache, to, cache.bufs[from].data);
    ReleaseBoth(cache, from, to);
  }

  /** The body of install_trans's loop: copy the log block src to its home location dst. */
  method CopyFromLog(cache: BCache, src: nat, dst: nat, recovering: bool)
    requires cache.Valid() && src != dst && src < |cache.disk| && dst < |cache.disk|
    requires cache.contents[src] == cache.disk[src]
    requires if recovering then TwoFree(cache.bufs) else SomeFree(cache.bufs) && Pinned(cache.bufs, dst)
    requires Unlocked(cache.bufs, src) && Unlocked(cache.bufs, dst)
    modifies cache
    ensures cache.Valid() && Steady(old(cache.bufs), cache.bufs, if recovering then {} else {dst})
    ensures cache.disk == old(cache.disk)[dst := old(cache.disk)[src]]
            && cache.history == old(cache.history) + [cache.disk]
    ensures cache.contents == old(cache.contents)[dst := cache.disk[dst]]
  {
    hide IsList, View;
    var lbuf, dbuf := ReadBoth(cache, src, dst);
    Overwrite(cache, dbuf, cache.bufs[lbuf].data);
    if !recovering {
      cache.Bunpin(dbuf);
    }
    ReleaseBoth(cache, lbuf, dbuf);
  }

  lemma SteadyTrans(a: seq<Buf>, b: seq<Buf>, c: seq<Buf>, da: Disk, db: Disk, dropped: set<nat>, k: nat)
    requires Coherent(a, da) && Coherent(b, db) && Steady(a, b, dropped) && Steady(b, c, {k})
    requires k !in dropped && Pinned(b, k)
    ensures Steady(a, c, dropped + {k})
  {
    var p :| Holds(b, p, k) && b[p].refcnt > 0;
    assert a[p].refcnt > 0;
    forall i | 0 <= i < |a|
      ensures (a[i].dev == ROOTDEV && a[i].blockno == k <==> i == p)
              && (b[i].dev == ROOTDEV && b[i].blockno == k <==> i == p)
      ensures a[i].refcnt == 0 ==> b[i].refcnt == 0
    {
    }
  }

  lemma StillSteady(was: seq<Buf>, b: seq<Buf>, c: seq<Buf>, before: Disk, disk: Disk, lh: seq<nat>, t: nat)
    requires Coherent(was, before) && Coherent(b, disk) && t < |lh| && Distinct(lh)
    requires Steady(was, b, Elements(lh[..t])) && Steady(b, c, {lh[t]}) && Pinned(b, lh[t])
    ensures Steady(was, c, Elements(lh[..t + 1]))
  {
    SteadyTrans(was, b, c, before, disk, Elements(lh[..t]), lh[t]);
    ElementsStep(lh, t);
  }

  /** References kept before a stretch that drops those of lh. */
  lemma SteadyAfter(a: seq<Buf>, b: seq<Buf>, c: seq<Buf>, disk: Disk, lh: seq<nat>)
    requires Coherent(a, disk) && forall i | 0 <= i < |lh| :: Pinned(a, lh[i])
    requires Steady(a, b, {}) && Steady(b, c, Elements(lh))
    ensures Steady(a, c, Elements(lh))
  {
    forall i | 0 <= i < |a| && a[i].dev == ROOTDEV && a[i].blockno in lh
      ensures a[i].refcnt > 0
    {
      var j :| 0 <= j < |lh| && lh[j] == a[i].blockno;
      assert Pinned(a, lh[j]);
    }
  }

  /** Nobody keeps commit from the buffers it needs: one buffer is free to hold log blocks, no log block
      and no block of the transaction is locked, and those not yet installed are still pinned. */
  ghost predicate Ready(L: Layout, bufs: seq<Buf>, lh: seq<nat>, installed: nat) {
    && SomeFree(bufs)
    && (forall k | L.InLog(k) || k in lh :: Unlocked(bufs, k))
    && (forall i | installed <= i < |lh| :: Pinned(bufs, lh[i]))
  }

  lemma StillReady(L: Layout, was: seq<Buf>, now: seq<Buf>, disk: Disk, disk': Disk, lh: seq<nat>, t: nat)
    requires Coherent(was, disk) && Coherent(now, disk') && Distinct(lh) && t <= |lh|
    requires Ready(L, was, lh, 0) && Steady(was, now, Elements(lh[..t]))
    ensures Ready(L, now, lh, t)
    ensures t < |lh| ==> lh[t] !in Elements(lh[..t])
  {
    var f :| 0 <= f < |was| && was[f].refcnt == 0;
    assert now[f].refcnt == 0;
    forall i | t <= i < |lh|
      ensures Pinned(now, lh[i]) && lh[i] !in Elements(lh[..t])
    {
      var b :| Holds(was, b, lh[i]) && was[b].valid && was[b].refcnt > if was[b].locked then 1 else 0;
      assert Holds(now, b, lh[i]);
    }
    forall k | L.InLog(k) || k in lh
      ensures Unlocked(now, k)
    {
      forall b | 0 <= b < |now| && Holds(now, b, k)
        ensures !now[b].locked
      {
        assert BufOk(was[b], disk) && BufOk(now[b], disk');
        assert Unlocked(was, k);
      }
    }
  }

  // Reads by processes that are in no operation, between any two disk writes of a commit.

  /** Which blocks are read before write w. */
  function At(others: seq<seq<nat>>, w: nat): seq<nat> {
    if w < |others| then others[w] else []
  }

  /** What was read is what the file system sees. */
  predicate Saw(got: seq<Block>, ks: seq<nat>, seen: seq<Block>) {
    |got| == |ks| && forall i | 0 <= i < |ks| :: ks[i] < |seen| && got[i] == seen[ks[i]]
  }

  /** The same of all reads from write lo on. */
  predicate SawAll(got: seq<seq<Block>>, others: seq<seq<nat>>, lo: nat, seen: seq<Block>) {
    forall i | 0 <= i < |got| :: Saw(got[i], At(others, lo + i), seen)
  }

  /** Nobody holds a home block that is going to be read. */
  ghost predicate MayVisit(L: Layout, seen: seq<Block>, bufs: seq<Buf>, others: seq<seq<nat>>) {
    forall w, k | 0 <= w < |others| && k in others[w] :: L.IsHome(seen, k) && Unlocked(bufs, k)
  }

  /** As long as the locks stay, an unlocked block stays so. */
  lemma StaysUnlocked(was: seq<Buf>, now: seq<Buf>, disk: Disk, disk': Disk, dropped: set<nat>, k: nat)
    requires Coherent(was, disk) && Coherent(now, disk') && Steady(was, now, dropped) && Unlocked(was, k)
    ensures Unlocked(now, k)
  {
    forall b | 0 <= b < |now| && Holds(now, b, k)
      ensures !now[b].locked
    {
      assert BufOk(was[b], disk) && BufOk(now[b], disk');
    }
  }

  lemma StillMayVisit(L: Layout, seen: seq<Block>, was: seq<Buf>, now: seq<Buf>, disk: Disk, disk': Disk,
                      dropped: set<nat>, others: seq<seq<nat>>)
    requires Coherent(was, disk) && Coherent(now, disk') && Steady(was, now, dropped) && MayVisit(L, seen, was, others)
    ensures MayVisit(L, seen, now, others)
  {
    hide Unlocked, Coherent, Steady;
    forall w, k | 0 <= w < |others| && k in others[w]
      ensures L.IsHome(seen, k) && Unlocked(now, k)
    {
      StaysUnlocked(was, now, disk, disk', dropped, k);
    }
  }

  lemma NothingSeen(others: seq<seq<nat>>, seen: seq<Block>)
    ensures SawAll([], others, 0, seen)
  {
  }

  lemma SawMore(a: seq<seq<Block>>, b: seq<seq<Block>>, others: seq<seq<nat>>, seen: seq<Block>)
    requires SawAll(a, others, 0, seen) && SawAll(b, others, |a|, seen)
    ensures SawAll(a + b, others, 0, seen)
  {
    forall i | 0 <= i < |a + b|
      ensures Saw((a + b)[i], At(others, i), seen)
    {
      assert i >= |a| ==> Saw(b[i - |a|], At(others, |a| + (i - |a|)), seen);
    }
  }

  lemma SteadySame(a: seq<Buf>, b: seq<Buf>, c: seq<Buf>, dropped: set<nat>)
    requires Steady(a, b, dropped) && Steady(b, c, {})
    ensures Steady(a, c, dropped)
  {
  }

  lemma SteadySelf(bufs: seq<Buf>, lh: seq<nat>)
    ensures Elements(lh[..0]) == {} && Steady(bufs, bufs, {})
  {
  }

  lemma ReadyFree(L: Layout, bufs: seq<Buf>, lh: seq<nat>, t: nat)
    requires Ready(L, bufs, lh, t)
    ensures SomeFree(bufs) && (t < |lh| ==> Pinned(bufs, lh[t]))
  {
  }

  lemma StillReadyVisited(L: Layout, was: seq<Buf>, now: seq<Buf>, disk: Disk, lh: seq<nat>, t: nat)
    requires Coherent(was, disk) && Coherent(now, disk) && Ready(L, was, lh, t) && Steady(was, now, {})
    ensures Ready(L, now, lh, t)
  {
    var f :| 0 <= f < |was| && was[f].refcnt == 0;
    assert now[f].refcnt == 0;
    forall i | t <= i < |lh|
      ensures Pinned(now, lh[i])
    {
      var b :| Holds(was, b, lh[i]) && was[b].valid && was[b].refcnt > if was[b].locked then 1 else 0;
      assert Holds(now, b, lh[i]);
    }
    forall k | L.InLog(k) || k in lh
      ensures Unlocked(now, k)
    {
      StaysUnlocked(was, now, disk, disk, {}, k);
    }
  }

  /** bread, look, and brelse of each block. */
  method Visit(cache: BCache, ks: seq<nat>) returns (got: seq<Block>)
    requires cache.Valid() && SomeFree(cache.bufs) && forall k | k in ks :: k < |cache.disk| && Unlocked(cache.bufs, k)
    modifies cache`bufs, cache`next, cache`prev, cache`ring
    ensures cache.Valid() && Steady(old(cache.bufs), cache.bufs, {}) && Saw(got, ks, cache.contents)
  {
    hide IsList, View, Unlocked;
    got := [];
    var i := 0;
    while i < |ks|
      invariant 0 <= i <= |ks| && cache.Valid() && Steady(old(cache.bufs), cache.bufs, {})
                && Saw(got, ks[..i], cache.contents)
    {
      StaysUnlocked(old(cache.bufs), cache.bufs, cache.disk, cache.disk, {}, ks[i]);
      var data := VisitOne(cache, ks[i]);
      got := got + [data];
      i := i + 1;
    }
    assert ks[..|ks|] == ks;
  }

  method VisitOne(cache: BCache, k: nat) returns (data: Block)
    requires cache.Valid() && SomeFree(cache.bufs) && k < |cache.disk| && Unlocked(cache.bufs, k)
    modifies cache`bufs, cache`next, cache`prev, cache`ring
    ensures cache.Valid() && Steady(old(cache.bufs), cache.bufs, {}) && data == cache.contents[k]
  {
    hide IsList, View;
    var b, full := cache.Bread(ROOTDEV, k);
    if Holds(old(cache.bufs), b, k) {
      ViewIs(old(cache.bufs), cache.disk, b);
    } else {
      ViewUncached(old(cache.bufs), cache.disk, k);
    }
    data := cache.bufs[b].data;
    cache.Brelse(b);
  }

  /** The part of the storage stack's state that no disk write of a commit changes: what the file
      system sees in the home blocks; and the log blocks it writes are never left dirty. */
  ghost predicate Undisturbed(L: Layout, seen: seq<Block>, contents: seq<Block>, disk: Disk) {
    && |contents| == |disk| == |seen|
    && (forall k | L.IsHome(disk, k) :: contents[k] == seen[k])
    && (forall k | 0 <= k < |disk| && L.InLog(k) :: contents[k] == disk[k])
  }

  /** The images of a commit that logs what the file system sees in the blocks of lh. */
  ghost predicate Planned(L: Layout, lh: seq<nat>, images: seq<Disk>, seen: seq<Block>) {
    && |images| > 0 && |images[0]| == |seen|
    && L.Fits(images[0]) && GoodEntries(L, images[0], lh) && Distinct(lh)
    && CommitSteps(L, images, lh, Selected(seen, lh))
  }

  lemma PlanFacts(L: Layout, lh: seq<nat>, images: seq<Disk>, seen: seq<Block>)
    requires Planned(L, lh, images, seen)
    ensures Distinct(lh) && |images| == 2 * |lh| + 3
    ensures Writes(L, images[|lh|], lh, images[|lh| + 1]) && Writes(L, images[2 * |lh| + 1], [], images[2 * |lh| + 2])
  {
  }

  lemma PlanCommit(L: Layout, d: Disk, lh: seq<nat>, seen: seq<Block>, images: seq<Disk>)
    requires |seen| == |d| && L.Fits(d) && GoodEntries(L, d, lh) && Distinct(lh) && EmptyLog(L, d) && |lh| > 0
    requires forall k | L.IsHome(d, k) && k !in lh :: seen[k] == d[k]
    requires images == CommitImages(L, d, lh, Selected(seen, lh))
    ensures Planned(L, lh, images, seen) && images[0] == d
    ensures var e := images[|images| - 1];
            EmptyLog(L, e) && |e| == |d| && forall k | L.IsHome(e, k) :: e[k] == seen[k]
  {
    CommitImagesStep(L, d, lh, Selected(seen, lh));
    CommitCatchesUp(L, d, lh, seen);
  }

  lemma NothingOpen(L: Layout, bufs: seq<Buf>, contents: seq<Block>, disk: Disk, seen: seq<Block>)
    requires Undisturbed(L, seen, contents, disk) && forall k | L.IsHome(disk, k) :: disk[k] == seen[k]
    ensures Tracked(bufs, contents, disk, [], {}, map[])
    ensures forall k | L.IsHome(disk, k) :: disk[k] == contents[k] == seen[k]
  {
    forall k | 0 <= k < |disk|
      ensures contents[k] == disk[k]
    {
      assert L.InLog(k) || L.IsHome(disk, k);
    }
  }

  /** Nobody references any buffer, as after boot. */
  predicate Idle(bufs: seq<Buf>) {
    forall i | 0 <= i < |bufs| :: bufs[i].refcnt == 0 && !bufs[i].locked
  }

  /** The images of a recovery that installs the header lh. */
  ghost predicate RecoveryPlan(L: Layout, lh: seq<nat>, images: seq<Disk>) {
    && |images| == |lh| + 2
    && (forall w | 0 <= w < |images| :: |images[w]| == |images[0]|)
    && L.Fits(images[0]) && GoodEntries(L, images[0], lh)
    && (forall t | 0 <= t < |lh| :: RestoresBlock(L, images, lh, t))
    && Writes(L, images[|lh|], [], images[|lh| + 1])
  }

  /** If only the pins of a transaction keep buffers referenced, and it has fewer entries than there are
      buffers, commit finds the free buffer it needs: bget does not run out of buffers. */
  lemma CommitHasBuffer(bufs: seq<Buf>, disk: Disk, lh: seq<nat>)
    requires Coherent(bufs, disk) && Distinct(lh) && |lh| < |bufs|
    requires forall i | 0 <= i < |bufs| && bufs[i].refcnt > 0 :: bufs[i].blockno in lh
    ensures SomeFree(bufs)
  {
    if !SomeFree(bufs) {
      var held := seq(|bufs|, i requires 0 <= i < |bufs| => bufs[i].blockno);
      assert forall i | 0 <= i < |bufs| :: BufOk(bufs[i], disk);
      DistinctSize(held);
      DistinctSize(lh);
      assert Elements(held) <= Elements(lh);
      SubsetSize(Elements(held), Elements(lh));
      assert false;
    }
  }

  class Log {
    const cache: BCache
    const L: Layout
    var outstanding: nat
    var committing: bool
    var n: nat
    var block: seq<nat>
    ghost var ops: seq<nat>  // entries added so far by each open operation
    ghost var pending: set<nat>  // changed by their holder, not yet passed to log_write
    ghost var logged: map<nat, Block>  // what was last passed to log_write in the open transaction
    ghost var trace: LogAdmission.Run  // the steps of the admission protocol so far

    /** initlog up to its call of recover_from_log; c is the cache of a machine that has just booted. */
    constructor (c: BCache, l: Layout)
      ensures cache == c && L == l && outstanding == 0 && !committing && n == 0
      ensures |block| == LOGSIZE && ops == [] && pending == {} && logged == map[]
      ensures trace == LogAdmission.Start
    {
      cache := c;
      L := l;
      outstanding, committing, n := 0, false, 0;
      block := seq(LOGSIZE, _ => 0);
      ops, pending, logged, trace := [], {}, map[], LogAdmission.Start;
    }

    ghost function Entries(): (lh: seq<nat>)
      requires n <= |block|
      reads this
    {
      block[..n]
    }

    ghost predicate HeaderOk()
      reads this, cache
    {
      && cache.Valid() && L.Fits(cache.disk)
      && |block| == LOGSIZE && n <= LOGSIZE && n < L.size
      && GoodEntries(L, cache.disk, Entries()) && Distinct(Entries())
    }

    ghost predicate Valid()
      reads this, cache
    {
      && HeaderOk()
      && EmptyLog(L, cache.disk)
      && |ops| == outstanding
      && (committing ==> outstanding == 0)
      && (outstanding == 0 && !committing ==> n == 0)
      && Tracked(cache.bufs, cache.contents, cache.disk, Entries(), pending, logged)
      && (forall k | k in pending :: L.IsHome(cache.disk, k))
      && Traced()
    }

    /** The state of the admission protocol. */
    ghost function Protocol(): (s: LogAdmission.Admission)
      requires n <= |block|
      reads this
    {
      LogAdmission.Admission(Entries(), committing, ops)
    }

    /** The steps taken so far lead to the present state, if the log has the size that mkfs gives it. */
    ghost predicate Traced()
      requires n <= |block|
      reads this
    {
      L.size == LOGSIZE ==> LogAdmission.Possible(MAXOPBLOCKS, trace) && LogAdmission.Final(trace) == Protocol()
    }

    /** The condition on which begin_op sleeps. */
    predicate MustWait()
      reads this
    {
      committing || n + (outstanding + 1) * MAXOPBLOCKS > LOGSIZE
    }

    /** One turn of begin_op's loop. */
    method BeginOp() returns (admitted: bool)
      requires Valid()
      modifies this`outstanding, this`ops, this`trace
      ensures Valid() && admitted == !old(MustWait())
      ensures outstanding == if admitted then old(outstanding) + 1 else old(outstanding)
      ensures trace == if admitted then LogAdmission.Then(old(trace), LogAdmission.Begin, Protocol()) else old(trace)
      ensures !admitted ==> Protocol() == old(Protocol())
    {
      if committing {
        admitted := false;
      } else if n + (outstanding + 1) * MAXOPBLOCKS > LOGSIZE {
        admitted := false;
      } else {
        outstanding := outstanding + 1;
        ops := ops + [0];
        trace := LogAdmission.Then(trace, LogAdmission.Begin, Protocol());
        admitted := true;
      }
    }

    /** end_op up to its release of log.lock. Its "log.committing" panic is out of reach for an operation that has
        begun. */
    method EndOp(ghost op: nat) returns (doCommit: bool)
      requires Valid() && op < outstanding
      modifies this`outstanding, this`committing, this`ops, this`trace
      ensures Valid() && outstanding == old(outstanding) - 1
      ensures doCommit == (outstanding == 0) == committing
      ensures trace == LogAdmission.Then(old(trace), LogAdmission.End(op), Protocol())
    {
      ops := ops[..op] + ops[op + 1..];
      outstanding := outstanding - 1;
      if committing {
        assert false;
      }
      if outstanding == 0 {
        doCommit := true;
        committing := true;
      } else {
        doCommit := false;
      }
      trace := LogAdmission.Then(trace, LogAdmission.End(op), Protocol());
    }

    /** The rest of end_op, for the operation that commits. */
    method EndCommit()
      requires Valid() && committing && n == 0
      modifies this`committing, this`trace
      ensures Valid() && !committing
      ensures trace == LogAdmission.Then(old(trace), LogAdmission.EndCommit, Protocol())
    {
      committing := false;
      trace := LogAdmission.Then(trace, LogAdmission.EndCommit, Protocol());
    }

    /** bread while operations are open: the latest logged contents of a block of the transaction, else the disk's. */
    method Read(k: nat) returns (b: nat, panic: bool)
      requires Valid() && k < |cache.disk| && k !in pending && Unlocked(cache.bufs, k)
      modifies cache`bufs
      ensures panic <==> !old(cache.Available(k))
      ensures Valid() && cache.disk == old(cache.disk) && (panic ==> cache.bufs == old(cache.bufs))
      ensures !panic ==>
                && b < |cache.bufs| && Holds(cache.bufs, b, k) && cache.bufs[b].locked && cache.bufs[b].valid
                && cache.bufs[b].data == (if k in logged then logged[k] else cache.disk[k])
                && cache.bufs == old(cache.bufs)[b := cache.bufs[b]]
    {
      b, panic := cache.Bread(ROOTDEV, k);
      if !panic {
        StillPinned(old(cache.bufs), cache.bufs, Entries(), b);
      }
    }

    /** The holder of a home block's buffer changes its data. */
    method Modify(b: nat, data: Block)
      requires Valid() && outstanding > 0 && b < |cache.bufs| && cache.bufs[b].locked && cache.bufs[b].valid
      requires L.IsHome(cache.disk, cache.bufs[b].blockno)
      modifies cache`bufs, cache`contents, this`pending
      ensures Valid() && cache.disk == old(cache.disk)
      ensures cache.bufs == old(cache.bufs)[b := old(cache.bufs)[b].(data := data)]
      ensures pending == old(pending) + {cache.bufs[b].blockno}
    {
      cache.Modify(b, data);
      pending := pending + {cache.bufs[b].blockno};
      StillPinned(old(cache.bufs), cache.bufs, Entries(), b);
    }

    /** log_write. Panics exactly when the header has no room for one more entry, even if the block
        is in it already, or when no operation is open. */
    method LogWrite(b: nat, ghost op: nat) returns (panic: bool)
      requires Valid() && (outstanding > 0 ==> op < outstanding) && b < |cache.bufs| && cache.bufs[b].locked
               && cache.bufs[b].valid
      requires L.IsHome(cache.disk, cache.bufs[b].blockno)
      modifies cache`bufs, this`n, this`block, this`ops, this`pending, this`logged, this`trace
      ensures Valid() && cache.disk == old(cache.disk)
      ensures panic <==> old(n) >= LOGSIZE || old(n) >= L.size - 1 || outstanding < 1
      ensures panic ==> n == old(n) && block == old(block) && cache.bufs == old(cache.bufs)
                        && pending == old(pending) && logged == old(logged) && ops == old(ops) && trace == old(trace)
      ensures !panic ==>
                var k := old(cache.bufs[b].blockno);
                && Entries() == (if k in old(Entries()) then old(Entries()) else old(Entries()) + [k])
                && logged == old(logged)[k := cache.bufs[b].data] && pending == old(pending) - {k}
                && cache.bufs == (if k in old(Entries()) then old(cache.bufs) else Pin(old(cache.bufs), b))
                && trace == LogAdmission.Then(old(trace), LogAdmission.Write(op, k), Protocol())
    {
      hide IsList, View, Tracked, EmptyLog;
      if n >= LOGSIZE || n >= L.size - 1 {
        return true;
      }
      if outstanding < 1 {
        return true;
      }
      panic := false;
      var i := FindEntry(cache.bufs[b].blockno);
      cache.HeldContents(b);
      if i == n {
        Append(b, op);
      } else {
        ghost var k := cache.bufs[b].blockno;
        assert Entries()[i] == k;
        block := block[i := cache.bufs[b].blockno];
        assert Entries() == old(Entries());
        TrackedLogged(cache.bufs, cache.bufs, cache.contents, cache.disk, Entries(), Entries(), pending, logged, b);
        pending := pending - {k};
        logged := logged[k := cache.bufs[b].data];
        trace := LogAdmission.Then(trace, LogAdmission.Write(op, k), Protocol());
      }
    }

    /** log_write of a block that is not in the header yet: pin its buffer and add an entry. */
    method Append(b: nat, ghost op: nat)
      requires Valid() && op < outstanding && b < |cache.bufs| && cache.bufs[b].locked && cache.bufs[b].valid
               && cache.bufs[b].refcnt > 0
      requires L.IsHome(cache.disk, cache.bufs[b].blockno) && cache.bufs[b].blockno !in Entries()
      requires cache.bufs[b].dev == ROOTDEV && cache.contents[cache.bufs[b].blockno] == cache.bufs[b].data
      requires n < LOGSIZE && n < L.size - 1
      modifies cache`bufs, this`n, this`block, this`ops, this`pending, this`logged, this`trace
      ensures Valid()
      ensures var k := old(cache.bufs[b].blockno);
              && Entries() == old(Entries()) + [k] && ops == old(ops)[op := old(ops)[op] + 1]
              && logged == old(logged)[k := cache.bufs[b].data] && pending == old(pending) - {k}
              && cache.bufs == Pin(old(cache.bufs), b)
              && trace == LogAdmission.Then(old(trace), LogAdmission.Write(op, k), Protocol())
    {
      hide IsList, View, EmptyLog, Tracked, GoodEntries;
      ghost var k := cache.bufs[b].blockno;
      block := block[n := cache.bufs[b].blockno];
      pending := pending - {k};
      logged := logged[k := cache.bufs[b].data];
      cache.Bpin(b);
      n := n + 1;
      ops := ops[op := ops[op] + 1];
      assert Entries() == old(Entries()) + [k];
      trace := LogAdmission.Then(trace, LogAdmission.Write(op, k), Protocol());
      OneMoreEntry(L, cache.disk, old(Entries()), k);
      TrackedLogged(old(cache.bufs), cache.bufs, cache.contents, cache.disk, old(Entries()), Entries(), old(pending),
                    old(logged), b);
    }

    /** The loop of log_write: the position of block k in the header, or n. */
    method FindEntry(k: nat) returns (i: nat)
      requires n <= |block|
      ensures i <= n && (i < n ==> block[i] == k) && (i == n ==> k !in Entries())
    {
      i := 0;
      while i < n
        invariant 0 <= i <= n
        invariant forall j | 0 <= j < i :: block[j] != k
      {
        if block[i] == k {
          break;
        }
        i := i + 1;
      }
    }

    /** Whatever the interleaving so far: if no open operation has passed as many blocks to log_write as begin_op
        reserves for it, log_write does not panic. */
    lemma FindsRoom(B: nat)
      requires Valid() && L.size == LOGSIZE && outstanding > 0
      requires B < MAXOPBLOCKS && LogAdmission.Small(B, trace)
      ensures n < LOGSIZE && n < L.size - 1
    {
      LogAdmission.PassedExactly(MAXOPBLOCKS, B);
    }

    /** brelse of a buffer whose changes, if any, have been logged. */
    method Release(b: nat)
      requires Valid() && b < |cache.bufs| && cache.bufs[b].locked && cache.bufs[b].valid
      requires cache.bufs[b].blockno !in pending
      modifies cache`bufs, cache`next, cache`prev, cache`ring
      ensures Valid() && cache.disk == old(cache.disk)
      ensures cache.bufs == old(cache.bufs)[b :=
                            old(cache.bufs)[b].(locked := false, refcnt := old(cache.bufs)[b].refcnt - 1)]
    {
      hide IsList, View;
      ghost var k := cache.bufs[b].blockno;
      cache.HeldContents(b);
      if k in Entries() {
        var i :| 0 <= i < n && block[i] == k;
        assert Pinned(cache.bufs, block[i]);
        var j :| Holds(cache.bufs, j, k) && cache.bufs[j].valid && cache.bufs[j].refcnt > if cache.bufs[j].locked
                                                                                          then 1 else 0;
        assert j == b;
      }
      cache.Brelse(b);
      StillPinned(old(cache.bufs), cache.bufs, Entries(), b);
    }

    // Commit and recovery.

    /** write_head: one disk write, to the header block. */
    method WriteHead()
      requires HeaderOk() && SomeFree(cache.bufs) && Unlocked(cache.bufs, L.start)
      requires cache.contents[L.start] == cache.disk[L.start]
      modifies cache
      ensures HeaderOk() && Steady(old(cache.bufs), cache.bufs, {})
      ensures cache.disk == Headed(L, old(cache.disk), Entries()) && cache.history == old(cache.history) + [cache.disk]
      ensures cache.contents == old(cache.contents)[L.start := cache.disk[L.start]]
    {
      hide IsList, View;
      var b, full := cache.Bread(ROOTDEV, L.start);
      var hb := PutWord(cache.bufs[b].data, 0, n);
      var i := 0;
      while i < n
        invariant 0 <= i <= n && hb == EncodeUpTo(cache.bufs[b].data, Entries(), i)
      {
        hb := PutWord(hb, i + 1, block[i]);
        i := i + 1;
      }
      Overwrite(cache, b, hb);
      cache.Brelse(b);
    }

    /** What write_log copies to the log: the cached contents of the transaction's blocks. */
    ghost function Data(): (data: seq<Block>)
      requires HeaderOk()
      reads this, cache
    {
      assert forall i | 0 <= i < n :: L.IsHome(cache.disk, Entries()[i]);
      Selected(cache.contents, Entries())
    }

    /** The disk's history h, extended by the images of the first w writes of a commit or recovery. */
    static ghost function Recorded(images: seq<Disk>, w: nat, h: seq<Disk>): (r: seq<Disk>)
      requires w < |images|
    {
      h + images[1..w + 1]
    }

    lemma HistoryGrows(images: seq<Disk>, w: nat, h: seq<Disk>)
      requires w + 1 < |images|
      ensures Recorded(images, w + 1, h) == Recorded(images, w, h) + [images[w + 1]]
    {
    }

    /** The state after write w of a commit: the w-th image is on the disk, and the file system sees
        what it saw before. */
    ghost predicate Committing(images: seq<Disk>, w: nat, h: seq<Disk>, seen: seq<Block>)
      reads this, cache
    {
      && cache.Valid() && Undisturbed(L, seen, cache.contents, cache.disk)
      && w < |images| && cache.disk == images[w] && cache.history == Recorded(images, w, h)
    }

    /** Reads by others in the state after write w. */
    method Visits(w: nat, others: seq<seq<nat>>, ghost lh: seq<nat>, ghost t: nat, ghost images: seq<Disk>,
                  ghost h: seq<Disk>, ghost seen: seq<Block>)
      returns (got: seq<Block>)
      requires Committing(images, w, h, seen) && Ready(L, cache.bufs, lh, t) && MayVisit(L, seen, cache.bufs, others)
      modifies cache`bufs, cache`next, cache`prev, cache`ring
      ensures Committing(images, w, h, seen) && Ready(L, cache.bufs, lh, t) && MayVisit(L, seen, cache.bufs, others)
      ensures Steady(old(cache.bufs), cache.bufs, {}) && Saw(got, At(others, w), seen)
    {
      hide IsList, View, Coherent, Recorded, Steady, Ready, Unlocked;
      assert SomeFree(cache.bufs) by { ReadyFree(L, cache.bufs, lh, t); }
      forall k | k in At(others, w)
        ensures L.IsHome(seen, k) && Unlocked(cache.bufs, k)
      {
        assert w < |others| && k in others[w];
      }
      got := Visit(cache, At(others, w));
      StillReadyVisited(L, old(cache.bufs), cache.bufs, cache.disk, lh, t);
      StillMayVisit(L, seen, old(cache.bufs), cache.bufs, cache.disk, cache.disk, {}, others);
    }

    /** One turn of write_log's loop. */
    method LogOne(tail: nat, ghost lh: seq<nat>, ghost images: seq<Disk>, ghost h: seq<Disk>, ghost seen: seq<Block>)
      requires tail < n <= |block| && lh == Entries() && Planned(L, lh, images, seen)
               && Committing(images, tail, h, seen)
      requires Ready(L, cache.bufs, lh, 0)
      modifies cache
      ensures Committing(images, tail + 1, h, seen) && Steady(old(cache.bufs), cache.bufs, {})
    {
      hide IsList, View;
      assert block[tail] == lh[tail] && L.IsHome(cache.disk, lh[tail]);
      assert LogsBlock(L, images, Selected(seen, lh), tail);
      HistoryGrows(images, tail, h);
      CopyToLog(cache, L.start + tail + 1, block[tail]);
    }

    /** write_log: one disk write for each log block, in order. */
    method WriteLog(others: seq<seq<nat>>, ghost lh: seq<nat>, ghost images: seq<Disk>, ghost h: seq<Disk>,
                    ghost seen: seq<Block>)
      returns (got: seq<seq<Block>>)
      requires n <= |block| && lh == Entries() && Planned(L, lh, images, seen) && Committing(images, 0, h, seen)
      requires Ready(L, cache.bufs, lh, 0) && MayVisit(L, seen, cache.bufs, others)
      modifies cache
      ensures Committing(images, n, h, seen) && Steady(old(cache.bufs), cache.bufs, {})
      ensures MayVisit(L, seen, cache.bufs, others) && |got| == n && SawAll(got, others, 0, seen)
    {
      hide IsList, View, Recorded, Coherent, MayVisit, Saw, Unlocked, Pinned, Planned, Ready, Steady, Undisturbed,
        Distinct;
      PlanFacts(L, lh, images, seen);
      SteadySelf(cache.bufs, lh);
      ghost var was := cache.bufs;
      got := [];
      var tail := 0;
      while tail < n
        invariant 0 <= tail <= n && Committing(images, tail, h, seen)
        invariant Steady(was, cache.bufs, {})
        invariant MayVisit(L, seen, cache.bufs, others) && |got| == tail && SawAll(got, others, 0, seen)
      {
        ghost var before := cache.bufs;
        StillReady(L, was, cache.bufs, old(cache.disk), cache.disk, lh, 0);
        var g := Visits(tail, others, lh, 0, images, h, seen);
        got := got + [g];
        ghost var bufs, disk := cache.bufs, cache.disk;
        SteadySame(was, before, bufs, {});
        LogOne(tail, lh, images, h, seen);
        SteadySame(was, bufs, cache.bufs, {});
        StillMayVisit(L, seen, bufs, cache.bufs, disk, cache.disk, {}, others);
        tail := tail + 1;
      }
    }

    /** One turn of install_trans's loop, after the header of the transaction is on the disk. */
    method InstallOne(tail: nat, ghost lh: seq<nat>, ghost images: seq<Disk>, ghost h: seq<Disk>,
                      ghost seen: seq<Block>)
      requires tail < n <= |block| && lh == Entries() && Planned(L, lh, images, seen)
               && Committing(images, n + 1 + tail, h, seen)
      requires Ready(L, cache.bufs, lh, tail)
      modifies cache
      ensures Committing(images, n + 1 + tail + 1, h, seen) && Steady(old(cache.bufs), cache.bufs, {lh[tail]})
    {
      hide IsList, View;
      assert block[tail] == lh[tail] && L.IsHome(cache.disk, lh[tail]);
      assert InstallsBlock(L, images, lh, Selected(seen, lh), tail);
      HistoryGrows(images, n + 1 + tail, h);
      CopyFromLog(cache, L.start + tail + 1, block[tail], false);
      assert cache.contents == old(cache.contents);
    }

    /** install_trans(0): one disk write for each home block, and its pin is dropped. */
    method InstallTrans(others: seq<seq<nat>>, ghost lh: seq<nat>, ghost images: seq<Disk>, ghost h: seq<Disk>,
                        ghost seen: seq<Block>)
      returns (got: seq<seq<Block>>)
      requires n <= |block| && lh == Entries() && Planned(L, lh, images, seen) && Committing(images, n + 1, h, seen)
      requires Ready(L, cache.bufs, lh, 0) && MayVisit(L, seen, cache.bufs, others)
      modifies cache
      ensures Committing(images, n + 1 + n, h, seen) && Steady(old(cache.bufs), cache.bufs, Elements(lh))
      ensures MayVisit(L, seen, cache.bufs, others) && |got| == n && SawAll(got, others, n + 1, seen)
    {
      hide IsList, View, Recorded, Coherent, MayVisit, Saw, Unlocked, Pinned, Planned, Ready, Steady, Undisturbed,
        Distinct;
      PlanFacts(L, lh, images, seen);
      SteadySelf(cache.bufs, lh);
      ghost var was, before := cache.bufs, cache.disk;
      got := [];
      var tail := 0;
      while tail < n
        invariant 0 <= tail <= n && Committing(images, n + 1 + tail, h, seen)
        invariant Steady(was, cache.bufs, Elements(lh[..tail]))
        invariant MayVisit(L, seen, cache.bufs, others) && |got| == tail && SawAll(got, others, n + 1, seen)
      {
        ghost var unread := cache.bufs;
        StillReady(L, was, cache.bufs, before, cache.disk, lh, tail);
        var g := Visits(n + 1 + tail, others, lh, tail, images, h, seen);
        got := got + [g];
        ghost var bufs, disk := cache.bufs, cache.disk;
        SteadySame(was, unread, bufs, Elements(lh[..tail]));
        ReadyFree(L, bufs, lh, tail);
        InstallOne(tail, lh, images, h, seen);
        StillSteady(was, bufs, cache.bufs, before, disk, lh, tail);
        StillMayVisit(L, seen, bufs, cache.bufs, disk, cache.disk, {lh[tail]}, others);
        tail := tail + 1;
      }
      assert lh[..n] == lh;
    }

    /** write_head inside commit: write w leaves image w + 1. */
    method CommitHead(ghost w: nat, ghost images: seq<Disk>, ghost h: seq<Disk>, ghost seen: seq<Block>)
      requires HeaderOk() && Committing(images, w, h, seen) && w + 1 < |images|
      requires Writes(L, images[w], Entries(), images[w + 1])
      requires SomeFree(cache.bufs) && Unlocked(cache.bufs, L.start)
      modifies cache
      ensures HeaderOk() && Committing(images, w + 1, h, seen) && Steady(old(cache.bufs), cache.bufs, {})
    {
      HistoryGrows(images, w, h);
      WriteHead();
    }

    /** The first half of commit: the log blocks, then the header, which is the point of commit. */
    method LogTransaction(others: seq<seq<nat>>, ghost lh: seq<nat>, ghost images: seq<Disk>, ghost h: seq<Disk>,
                          ghost seen: seq<Block>)
      returns (got: seq<seq<Block>>)
      requires HeaderOk() && lh == Entries() && Planned(L, lh, images, seen) && Committing(images, 0, h, seen)
      requires Ready(L, cache.bufs, lh, 0) && MayVisit(L, seen, cache.bufs, others)
      modifies cache
      ensures HeaderOk() && Committing(images, n + 1, h, seen) && Steady(old(cache.bufs), cache.bufs, {})
      ensures Ready(L, cache.bufs, lh, 0) && MayVisit(L, seen, cache.bufs, others)
      ensures |got| == n + 1 && SawAll(got, others, 0, seen)
    {
      hide IsList, View, Recorded, Coherent, MayVisit, Saw, Pinned, Planned, Steady, Undisturbed;
      PlanFacts(L, lh, images, seen);
      SteadySelf(cache.bufs, lh);
      got := WriteLog(others, lh, images, h, seen);
      ghost var bufs := cache.bufs;
      StillReady(L, old(cache.bufs), cache.bufs, old(cache.disk), cache.disk, lh, 0);
      var g := Visits(n, others, lh, 0, images, h, seen);
      got := got + [g];
      SteadySame(old(cache.bufs), bufs, cache.bufs, {});
      ghost var visited, disk := cache.bufs, cache.disk;
      CommitHead(n, images, h, seen);
      SteadySame(old(cache.bufs), visited, cache.bufs, {});
      StillReady(L, old(cache.bufs), cache.bufs, old(cache.disk), cache.disk, lh, 0);
      StillMayVisit(L, seen, visited, cache.bufs, disk, cache.disk, {}, others);
    }

    /** The second half: the home blocks, then the empty header. */
    method ApplyTransaction(others: seq<seq<nat>>, ghost lh: seq<nat>, ghost images: seq<Disk>, ghost h: seq<Disk>,
                            ghost seen: seq<Block>)
      returns (got: seq<seq<Block>>)
      requires HeaderOk() && lh == Entries() && Planned(L, lh, images, seen) && Committing(images, n + 1, h, seen)
      requires Ready(L, cache.bufs, lh, 0) && MayVisit(L, seen, cache.bufs, others)
      modifies cache, this`n
      ensures n == 0 && HeaderOk() && Committing(images, |images| - 1, h, seen)
      ensures Steady(old(cache.bufs), cache.bufs, Elements(lh))
      ensures |got| == |lh| + 1 && SawAll(got, others, |lh| + 1, seen)
    {
      hide IsList, View, Recorded, Coherent, MayVisit, Saw, Pinned, Planned, Steady, Undisturbed;
      PlanFacts(L, lh, images, seen);
      got := InstallTrans(others, lh, images, h, seen);
      assert lh[..n] == lh;
      ghost var bufs := cache.bufs;
      StillReady(L, old(cache.bufs), cache.bufs, old(cache.disk), cache.disk, lh, n);
      var w := n + 1 + n;
      var g := Visits(w, others, lh, n, images, h, seen);
      got := got + [g];
      SteadySame(old(cache.bufs), bufs, cache.bufs, Elements(lh));
      ghost var visited := cache.bufs;
      n := 0;
      assert Entries() == [];
      CommitHead(w, images, h, seen);
      SteadySame(old(cache.bufs), visited, cache.bufs, Elements(lh));
    }

    /** commit. Each of its disk writes leaves the next of LogSpec's images, the file system sees no change, and in the
        end the disk has all that it sees and every pin of the transaction is dropped. Before each write other processes
        may read blocks, those of the transaction too, and get what they would have got before the commit. */
    method Commit(others: seq<seq<nat>>) returns (got: seq<seq<Block>>)
      requires Valid() && committing && pending == {} && Ready(L, cache.bufs, Entries(), 0)
      requires MayVisit(L, cache.contents, cache.bufs, others)
      modifies this`n, this`logged, this`trace, cache
      ensures Valid() && n == 0
      ensures old(n) == 0 ==> cache.disk == old(cache.disk) && cache.history == old(cache.history)
                              && cache.bufs == old(cache.bufs)
      ensures old(n) > 0 ==>
                var images := CommitImages(L, old(cache.disk), old(Entries()), old(Data()));
                cache.disk == images[|images| - 1]
                && cache.history == Recorded(images, |images| - 1, old(cache.history))
      ensures forall k | L.IsHome(cache.disk, k) :: cache.disk[k] == cache.contents[k] == old(cache.contents)[k]
      ensures Steady(old(cache.bufs), cache.bufs, Elements(old(Entries())))
      ensures |got| == CommitWrites(old(n)) && SawAll(got, others, 0, old(cache.contents))
      ensures trace == LogAdmission.Then(old(trace), LogAdmission.Commit, Protocol())
    {
      hide IsList, View, EmptyLog, Ready, Coherent, MayVisit, SawAll;
      if n > 0 {
        ghost var seen := cache.contents;
        got := CommitOpen(others, CommitImages(L, cache.disk, Entries(), Data()));
        logged := map[];
        assert Entries() == [];
        NothingOpen(L, cache.bufs, cache.contents, cache.disk, seen);
      } else {
        got := [];
        NothingSeen(others, cache.contents);
      }
      trace := LogAdmission.Then(trace, LogAdmission.Commit, Protocol());
    }

    method CommitOpen(others: seq<seq<nat>>, ghost images: seq<Disk>) returns (got: seq<seq<Block>>)
      requires Valid() && n > 0 && pending == {} && Ready(L, cache.bufs, Entries(), 0)
      requires MayVisit(L, cache.contents, cache.bufs, others)
      requires images == CommitImages(L, cache.disk, Entries(), Data())
      modifies this`n, cache
      ensures n == 0 && HeaderOk() && Undisturbed(L, old(cache.contents), cache.contents, cache.disk)
      ensures |images| > 0 && cache.disk == images[|images| - 1]
      ensures cache.history == Recorded(images, |images| - 1, old(cache.history))
      ensures EmptyLog(L, cache.disk) && forall k | L.IsHome(cache.disk, k) :: cache.disk[k] == old(cache.contents)[k]
      ensures Steady(old(cache.bufs), cache.bufs, Elements(old(Entries())))
      ensures |got| == CommitWrites(old(n)) && SawAll(got, others, 0, old(cache.contents))
    {
      hide IsList, View, MayVisit, SawAll;
      PlanCommit(L, cache.disk, Entries(), cache.contents, images);
      got := CommitAll(others, Entries(), images, cache.history, cache.contents);
    }

    method CommitAll(others: seq<seq<nat>>, ghost lh: seq<nat>, ghost images: seq<Disk>, ghost h: seq<Disk>,
                     ghost seen: seq<Block>)
      returns (got: seq<seq<Block>>)
      requires HeaderOk() && lh == Entries() && Planned(L, lh, images, seen) && Committing(images, 0, h, seen)
      requires Ready(L, cache.bufs, lh, 0) && MayVisit(L, seen, cache.bufs, others)
      modifies cache, this`n
      ensures n == 0 && HeaderOk() && Committing(images, |images| - 1, h, seen)
      ensures Steady(old(cache.bufs), cache.bufs, Elements(lh))
      ensures |got| == 2 * |lh| + 2 && SawAll(got, others, 0, seen)
    {
      hide IsList, View, Recorded, Coherent, MayVisit, SawAll;
      got := LogTransaction(others, lh, images, h, seen);
      ghost var bufs := cache.bufs;
      var more := ApplyTransaction(others, lh, images, h, seen);
      SteadyAfter(old(cache.bufs), bufs, cache.bufs, old(cache.disk), lh);
      SawMore(got, more, others, seen);
      got := got + more;
    }

    /** The state after write w of a recovery. Until the first transaction the file system sees the disk. */
    ghost predicate Recovering(images: seq<Disk>, w: nat, h: seq<Disk>)
      reads this, cache
    {
      && cache.Valid() && Idle(cache.bufs) && cache.nbuf >= 2
      && w < |images| && cache.contents == cache.disk == images[w] && cache.history == Recorded(images, w, h)
    }

    /** read_head: load the in-memory header from the header block. */
    method ReadHead()
      requires cache.Valid() && Idle(cache.bufs) && cache.nbuf >= 1 && |block| == LOGSIZE
      requires cache.contents == cache.disk && L.Fits(cache.disk) && HeaderCount(cache.disk[L.start]) <= LOGSIZE
      modifies this`n, this`block, cache`bufs, cache`next, cache`prev, cache`ring
      ensures cache.Valid() && Idle(cache.bufs)
      ensures |block| == LOGSIZE && n <= LOGSIZE && Entries() == Decode(cache.disk[L.start])
    {
      assert cache.bufs[0].refcnt == 0;
      var b, full := cache.Bread(ROOTDEV, L.start);
      var lh := cache.bufs[b].data;
      n := WordAt(lh, 0);
      var i := 0;
      while i < n
        invariant 0 <= i <= n <= LOGSIZE == |block|
        invariant forall j | 0 <= j < i :: block[j] == WordAt(lh, j + 1)
        modifies this`block
      {
        block := block[i := WordAt(lh, i + 1)];
        i := i + 1;
      }
      cache.Brelse(b);
    }

    /** install_trans(1). */
    method InstallRecovered(ghost lh: seq<nat>, ghost images: seq<Disk>, ghost h: seq<Disk>)
      requires n <= |block| && lh == Entries() && RecoveryPlan(L, lh, images) && Recovering(images, 0, h)
      modifies cache
      ensures Recovering(images, n, h)
    {
      hide IsList, View;
      var tail := 0;
      while tail < n
        invariant 0 <= tail <= n && Recovering(images, tail, h)
      {
        assert block[tail] == lh[tail] && RestoresBlock(L, images, lh, tail) && L.IsHome(images[0], lh[tail]);
        HistoryGrows(images, tail, h);
        assert TwoFree(cache.bufs) by {
          assert cache.bufs[0].refcnt == 0 && cache.bufs[1].refcnt == 0;
        }
        CopyFromLog(cache, L.start + tail + 1, block[tail], true);
        tail := tail + 1;
      }
    }

    /** recover_from_log on a machine that has just booted: each of its disk writes leaves the next of
        LogSpec's images, and it ends with the recovered disk and an empty log. */
    method RecoverFromLog()
      requires cache.Valid() && Idle(cache.bufs) && cache.nbuf >= 2 && cache.contents == cache.disk
      requires GoodDisk(L, cache.disk) && |block| == LOGSIZE
      requires outstanding == 0 && ops == [] && !committing && pending == {} && logged == map[]
      requires trace == LogAdmission.Start
      modifies this`n, this`block, cache
      ensures Valid() && n == 0 && Idle(cache.bufs)
      ensures cache.contents == cache.disk == Recovered(L, old(cache.disk))
      ensures var images := RecoveryImages(L, old(cache.disk));
              cache.history == Recorded(images, |images| - 1, old(cache.history))
    {
      hide IsList, View, Coherent, Installed, Encode, Decode;
      ghost var images, h := RecoveryImages(L, cache.disk), cache.history;
      RecoveryImagesStep(L, cache.disk, Decode(cache.disk[L.start]));
      ReadHead();
      InstallRecovered(Entries(), images, h);
      HistoryGrows(images, n, h);
      n := 0;
      assert Entries() == [];
      assert cache.bufs[0].refcnt == 0;
      ClearedHeader(L, cache.disk);
      WriteHead();
    }
  }
}
