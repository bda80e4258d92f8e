/** The buffer cache of kernel/bio.c: NBUF buffers on a doubly linked list, most recently used first.
    Each method is the part of the C function that runs under bcache.lock or under the buffer's
    sleep lock, so that any interleaving of several processes is a sequence of these calls. */
module BufferCache {
  import opened Blocks

  const ROOTDEV: nat := 1  // kernel/param.h

  datatype Buf = Buf(dev: nat, blockno: nat, valid: bool, refcnt: nat, locked: bool, data: Block)

  // The list. Nodes are numbers; a ring is the sequence of nodes met by following next from the head.

  /** next and prev lead from x to y and back. */
  predicate Edge(next: seq<nat>, prev: seq<nat>, x: nat, y: nat) {
    x < |next| && y < |prev| && next[x] == y && prev[y] == x
  }

  /** The node after position k of a ring. */
  function After(ring: seq<nat>, k: nat): nat
    requires k < |ring|
  {
    if k == |ring| - 1 then ring[0] else ring[k + 1]
  }

  predicate Linked(next: seq<nat>, prev: seq<nat>, ring: seq<nat>) {
    && |next| == |prev| && |ring| > 0 && Distinct(ring)
    && forall i {:trigger After(ring, i)} | 0 <= i < |ring| :: Edge(next, prev, ring[i], After(ring, i))
  }

  /** The list holds every buffer exactly once; node nbuf is bcache.head, and comes first in the ring. */
  predicate IsList(nbuf: nat, next: seq<nat>, prev: seq<nat>, ring: seq<nat>) {
    && |ring| == |next| == nbuf + 1 && ring[0] == nbuf
    && Linked(next, prev, ring)
    && forall b | 0 <= b < nbuf :: b in ring
  }

  function Without(s: seq<nat>, k: nat): (r: seq<nat>)
    requires k < |s|
  {
    s[..k] + s[k + 1..]
  }

  lemma WithoutDistinct(ring: seq<nat>, k: nat)
    requires Distinct(ring) && k < |ring|
    ensures Distinct(Without(ring, k)) && ring[k] !in Without(ring, k)
  {
  }

  /** Unlinking a node leaves a well-formed list of the others, in the same order. */
  lemma Unlink(next: seq<nat>, prev: seq<nat>, ring: seq<nat>, k: nat)
    requires Linked(next, prev, ring) && 0 < k < |ring|
    ensures ring[k] < |next| && next[ring[k]] < |next| && prev[ring[k]] < |next|
    ensures var b := ring[k];
            Linked(next[prev[b] := next[b]], prev[next[b] := prev[b]], Without(ring, k))
  {
    var b, before, after := ring[k], ring[k - 1], After(ring, k);
    assert After(ring, k - 1) == b;
    var next', prev', ring' := next[before := after], prev[after := before], Without(ring, k);
    WithoutDistinct(ring, k);
    forall i | 0 <= i < |ring'|
      ensures Edge(next', prev', ring'[i], After(ring', i))
    {
      if i != k - 1 {
        var j := if i < k then i else i + 1;
        assert ring'[i] == ring[j] && After(ring', i) == After(ring, j);
        assert ring[j] != before && After(ring, j) != after;
      }
    }
  }

  /** Linking a node in after the head puts it first. */
  lemma PushFront(next: seq<nat>, prev: seq<nat>, ring: seq<nat>, b: nat)
    requires Linked(next, prev, ring) && b < |next| && b !in ring
    ensures ring[0] < |next| && next[ring[0]] < |next|
    ensures var head := ring[0];
            Linked(next[b := next[head]][head := b], prev[b := head][next[head] := b], [head, b] + ring[1..])
  {
    var head, first := ring[0], After(ring, 0);
    assert After(ring, |ring| - 1) == head;
    var next' := next[b := first][head := b];
    var prev' := prev[b := head][first := b];
    var ring' := [head, b] + ring[1..];
    assert b != first;
    forall i | 0 <= i < |ring'|
      ensures Edge(next', prev', ring'[i], After(ring', i))
    {
      if i > 1 {
        assert ring'[i] == ring[i - 1] && After(ring', i) == After(ring, i - 1);
      }
    }
  }

  /** The ring with position k moved to the front, right behind the head. */
  function ToFront(ring: seq<nat>, k: nat): (r: seq<nat>)
    requires 0 < k < |ring|
  {
    [ring[0], ring[k]] + Without(ring, k)[1..]
  }

  /** The pointer updates of brelse take a buffer from wherever it is to the front of the list. */
  lemma MovedToFront(nbuf: nat, next: seq<nat>, prev: seq<nat>, ring: seq<nat>, k: nat)
    requires IsList(nbuf, next, prev, ring) && 0 < k <= nbuf
    ensures ring[k] < nbuf && next[ring[k]] < |next| && prev[ring[k]] < |next|
    ensures var b := ring[k];
            var next1, prev1 := next[prev[b] := next[b]], prev[next[b] := prev[b]];
            && next1[nbuf] < |next|
            && IsList(nbuf, next1[b := next1[nbuf]][nbuf := b], prev1[b := nbuf][next1[nbuf] := b], ToFront(ring, k))
  {
    var b := ring[k];
    OnList(nbuf, next, prev, ring, k);
    Unlink(next, prev, ring, k);
    WithoutDistinct(ring, k);
    PushFront(next[prev[b] := next[b]], prev[next[b] := prev[b]], Without(ring, k), b);
    forall m | 0 <= m < nbuf
      ensures m in ToFront(ring, k)
    {
      assert m in ring;
      var j :| 0 <= j < |ring| && ring[j] == m;
      if j != k {
        assert Without(ring, k)[1..][if j < k then j - 1 else j - 2] == m;
      }
    }
  }

  lemma OnList(nbuf: nat, next: seq<nat>, prev: seq<nat>, ring: seq<nat>, i: nat)
    requires IsList(nbuf, next, prev, ring) && 0 < i <= nbuf
    ensures ring[i] < nbuf && next[ring[i]] == After(ring, i) && prev[ring[i]] == ring[i - 1]
  {
    assert ring[0] != ring[i] && After(ring, i - 1) == ring[i];
  }

  // The contents.

  predicate Holds(bufs: seq<Buf>, i: int, k: nat) {
    0 <= i < |bufs| && bufs[i].dev == ROOTDEV && bufs[i].blockno == k
  }

  /** Nobody holds the lock of the buffer for block k. */
  predicate Unlocked(bufs: seq<Buf>, k: nat) {
    forall b | 0 <= b < |bufs| && Holds(bufs, b, k) :: !bufs[b].locked
  }

  predicate Unique(bufs: seq<Buf>) {
    forall i, j | 0 <= i < |bufs| && 0 <= j < |bufs| && i != j && bufs[i].dev == bufs[j].dev != 0 ::
      bufs[i].blockno != bufs[j].blockno
  }

  /** What each buffer keeps: an identity on the one device, a lock only while referenced,
      and, once nobody references it, nothing that the disk does not have. */
  predicate BufOk(b: Buf, disk: seq<Block>) {
    && (b.dev == 0 ==> !b.valid && b.refcnt == 0)
    && (b.dev != 0 ==> b.dev == ROOTDEV && b.blockno < |disk|)
    && (b.locked ==> b.refcnt > 0)
    && (b.valid && b.refcnt == 0 ==> b.data == disk[b.blockno])
  }

  predicate Coherent(bufs: seq<Buf>, disk: seq<Block>) {
    Unique(bufs) && forall i | 0 <= i < |bufs| :: BufOk(bufs[i], disk)
  }

  /** The contents of block k as the file system sees them: the valid cached copy, else the disk's. */
  ghost function View(bufs: seq<Buf>, disk: seq<Block>, k: nat): (d: Block)
    requires k < |disk|
  {
    if exists i :: Holds(bufs, i, k) && bufs[i].valid then
      var i :| Holds(bufs, i, k) && bufs[i].valid; bufs[i].data
    else
      disk[k]
  }

  lemma ViewIs(bufs: seq<Buf>, disk: seq<Block>, i: nat)
    requires Coherent(bufs, disk) && i < |bufs| && bufs[i].dev == ROOTDEV && bufs[i].blockno < |disk|
    ensures View(bufs, disk, bufs[i].blockno) == if bufs[i].valid then bufs[i].data else disk[bufs[i].blockno]
  {
    assert Holds(bufs, i, bufs[i].blockno);
  }

  lemma ViewUncached(bufs: seq<Buf>, disk: seq<Block>, k: nat)
    requires k < |disk| && forall i | 0 <= i < |bufs| :: !Holds(bufs, i, k)
    ensures View(bufs, disk, k) == disk[k]
  {
  }

  /** Replacing buffer b changes the view of no block other than the ones b held and holds. */
  lemma ViewElsewhere(bufs: seq<Buf>, bufs': seq<Buf>, disk: seq<Block>, disk': seq<Block>, b: nat, k: nat)
    requires Coherent(bufs, disk) && Coherent(bufs', disk')
    requires b < |bufs| == |bufs'| && bufs' == bufs[b := bufs'[b]] && k < |disk| == |disk'| && disk[k] == disk'[k]
    requires !Holds(bufs, b, k) && !Holds(bufs', b, k)
    ensures View(bufs', disk', k) == View(bufs, disk, k)
  {
    if i :| 0 <= i < |bufs| && Holds(bufs, i, k) {
      assert bufs'[i] == bufs[i];
      ViewIs(bufs, disk, i);
      ViewIs(bufs', disk', i);
    } else {
      forall i | 0 <= i < |bufs'|
        ensures !Holds(bufs', i, k)
      {
        assert !Holds(bufs, i, k) && (i != b ==> bufs'[i] == bufs[i]);
      }
      ViewUncached(bufs, disk, k);
      ViewUncached(bufs', disk', k);
    }
  }

  /** The contents a buffer stands for. */
  function Effective(b: Buf, disk: seq<Block>): (d: Block)
    requires b.blockno < |disk|
  {
    if b.valid then b.data else disk[b.blockno]
  }

  /** Changing a buffer without changing what it stands for changes no block's contents. */
  lemma SameView(bufs: seq<Buf>, bufs': seq<Buf>, disk: seq<Block>, b: nat)
    requires Coherent(bufs, disk) && Coherent(bufs', disk)
    requires b < |bufs| == |bufs'| && bufs' == bufs[b := bufs'[b]]
    requires bufs[b].dev == bufs'[b].dev == ROOTDEV && bufs[b].blockno == bufs'[b].blockno
    requires Effective(bufs[b], disk) == Effective(bufs'[b], disk)
    ensures forall k | 0 <= k < |disk| :: View(bufs', disk, k) == View(bufs, disk, k)
  {
    forall k | 0 <= k < |disk|
      ensures View(bufs', disk, k) == View(bufs, disk, k)
    {
      if k == bufs[b].blockno {
        ViewIs(bufs, disk, b);
        ViewIs(bufs', disk, b);
      } else {
        ViewElsewhere(bufs, bufs', disk, disk, b, k);
      }
    }
  }

  /** Recycling an unreferenced buffer for an uncached block changes no block's contents. */
  lemma RecycledView(bufs: seq<Buf>, disk: seq<Block>, b: nat, k: nat)
    requires Coherent(bufs, disk) && b < |bufs| && bufs[b].refcnt == 0 && k < |disk|
    requires forall i | 0 <= i < |bufs| :: !Holds(bufs, i, k)
    ensures var bufs' := bufs[b := bufs[b].(dev := ROOTDEV, blockno := k, valid := false, refcnt := 1)];
            && Coherent(bufs', disk)
            && forall j | 0 <= j < |disk| :: View(bufs', disk, j) == View(bufs, disk, j)
  {
    var bufs' := bufs[b := bufs[b].(dev := ROOTDEV, blockno := k, valid := false, refcnt := 1)];
    forall i | 0 <= i < |bufs| && i != b && bufs[i].dev != 0
      ensures bufs[i].blockno != k
    {
      assert !Holds(bufs, i, k) && BufOk(bufs[i], disk);
    }
    assert Coherent(bufs', disk);
    forall j | 0 <= j < |disk|
      ensures View(bufs', disk, j) == View(bufs, disk, j)
    {
      if j == k {
        ViewIs(bufs', disk, b);
        ViewUncached(bufs, disk, k);
      } else if Holds(bufs, b, j) {
        ViewIs(bufs, disk, b);
        forall i | 0 <= i < |bufs|
          ensures !Holds(bufs', i, j)
        {
          assert i != b ==> bufs'[i] == bufs[i];
        }
        ViewUncached(bufs', disk, j);
      } else {
        ViewElsewhere(bufs, bufs', disk, disk, b, j);
      }
    }
  }

  predicate AllReferenced(bufs: seq<Buf>, s: seq<nat>) {
    forall i | 0 <= i < |s| :: s[i] < |bufs| && bufs[s[i]].refcnt > 0
  }

  /** b is the least recently used buffer that nobody references. */
  ghost predicate LeastRecentUnused(bufs: seq<Buf>, ring: seq<nat>, b: nat) {
    && b < |bufs| && bufs[b].refcnt == 0
    && exists j :: 0 < j < |ring| && ring[j] == b && AllReferenced(bufs, ring[j + 1..])
  }

  class BCache {
    const nbuf: nat
    var bufs: seq<Buf>
    var next: seq<nat>  // index nbuf is bcache.head
    var prev: seq<nat>
    var disk: seq<Block>
    ghost var contents: seq<Block>  // what the file system sees in each block
    ghost var ring: seq<nat>  // bcache.head, then the buffers, most recently used first
    ghost var history: seq<seq<Block>>  // the disk after each write so far

    ghost predicate Valid()
      reads this
    {
      && |bufs| == nbuf && IsList(nbuf, next, prev, ring) && Coherent(bufs, disk)
      && |contents| == |disk|
      && forall k {:trigger View(bufs, disk, k)} | 0 <= k < |disk| :: contents[k] == View(bufs, disk, k)
    }

    /** Some buffer can be used for block k. */
    ghost predicate Available(k: nat)
      reads this`bufs
    {
      exists i :: 0 <= i < |bufs| && (Holds(bufs, i, k) || bufs[i].refcnt == 0)
    }

    constructor (n: nat, d: seq<Block>)
      ensures Valid() && nbuf == n && disk == d && history == []
      ensures contents == d
      ensures forall i | 0 <= i < n :: bufs[i].refcnt == 0 && !bufs[i].locked
    {
      nbuf := n;
      disk, contents := d, d;
      history := [];
      bufs := seq(n, _ => Buf(0, 0, false, 0, false, ZeroBlock()));
      var forward, backward, nodes := Binit(n);
      next, prev, ring := forward, backward, nodes;
      new;
      forall k | 0 <= k < |d|
        ensures View(bufs, disk, k) == d[k]
      {
        ViewUncached(bufs, disk, k);
      }
    }

    /** binit: link the buffers one by one in front of the list. */
    static method Binit(n: nat) returns (next: seq<nat>, prev: seq<nat>, ghost ring: seq<nat>)
      ensures IsList(n, next, prev, ring)
      ensures ring == seq(n + 1, i requires 0 <= i <= n => n - i)
    {
      next := seq(n + 1, _ => n);
      prev := seq(n + 1, _ => n);
      ring := [n];
      var b := 0;
      while b < n
        invariant 0 <= b <= n && |next| == n + 1
        invariant ring == [n] + seq(b, i requires 0 <= i < b => b - 1 - i)
        invariant Linked(next, prev, ring)
      {
        PushFront(next, prev, ring, b);
        next := next[b := next[n]];
        prev := prev[b := n];
        prev := prev[next[n] := b];
        next := next[n := b];
        ring := [n, b] + ring[1..];
        b := b + 1;
      }
      forall b | 0 <= b < n
        ensures b in ring
      {
        assert ring[n - b] == b;
      }
    }

    /** bget up to its release of bcache.lock: find the block's buffer, or recycle the least recently used unreferenced
        one. Never touches the identity or contents of a referenced buffer. It panics exactly if the block has no buffer
        and every buffer is referenced. */
    method Bget(dev: nat, k: nat) returns (b: nat, panic: bool)
      requires Valid() && dev == ROOTDEV && k < |disk|
      modifies this`bufs
      ensures panic <==> !old(Available(k))
      ensures Valid() && (panic ==> bufs == old(bufs)) && (!panic ==> b < nbuf && Holds(bufs, b, k))
      ensures !panic && Holds(old(bufs), b, k)
              ==> bufs == old(bufs)[b := old(bufs)[b].(refcnt := old(bufs)[b].refcnt + 1)]
      ensures !panic && !Holds(old(bufs), b, k) ==>
                && (forall i | 0 <= i < nbuf :: !Holds(old(bufs), i, k))
                && bufs == old(bufs)[b := old(bufs)[b].(dev := dev, blockno := k, valid := false, refcnt := 1)]
                && LeastRecentUnused(old(bufs), ring, b)
    {
      b := Find(dev, k);
      panic := false;
      if b != nbuf {
        bufs := bufs[b := bufs[b].(refcnt := bufs[b].refcnt + 1)];
        SameView(old(bufs), bufs, disk, b);
      } else {
        b := FindUnused();
        if b == nbuf {
          return b, true;
        }
        bufs := bufs[b := bufs[b].(dev := dev, blockno := k, valid := false, refcnt := 1)];
        RecycledView(old(bufs), disk, b, k);
      }
    }

    /** The first loop of bget: follow next from the head, looking for the block. */
    method Find(dev: nat, k: nat) returns (b: nat)
      requires Valid() && dev == ROOTDEV
      ensures b < nbuf ==> Holds(bufs, b, k)
      ensures b >= nbuf ==> b == nbuf && forall i | 0 <= i < nbuf :: !Holds(bufs, i, k)
    {
      ghost var i := 1;
      b := next[nbuf];
      assert b == After(ring, 0);
      while b != nbuf
        invariant 1 <= i <= |ring| && b == After(ring, i - 1)
        invariant forall j | 1 <= j < i :: !Holds(bufs, ring[j], k)
        decreases |ring| - i
      {
        OnList(nbuf, next, prev, ring, i);
        if bufs[b].dev == dev && bufs[b].blockno == k {
          return;
        }
        b := next[b];
        i := i + 1;
      }
      assert i == |ring|;
      forall m | 0 <= m < nbuf
        ensures !Holds(bufs, m, k)
      {
        assert m in ring;
      }
    }

    /** The second loop of bget: follow prev from the head, looking for the last unreferenced buffer. */
    method FindUnused() returns (b: nat)
      requires Valid()
      ensures b < nbuf ==> LeastRecentUnused(bufs, ring, b)
      ensures b >= nbuf ==> b == nbuf && forall m | 0 <= m < nbuf :: bufs[m].refcnt > 0
    {
      ghost var i := nbuf;
      b := prev[nbuf];
      assert After(ring, nbuf) == nbuf;
      while b != nbuf
        invariant 0 <= i <= nbuf && b == ring[i]
        invariant AllReferenced(bufs, ring[i + 1..])
        decreases i
      {
        OnList(nbuf, next, prev, ring, i);
        if bufs[b].refcnt == 0 {
          return;
        }
        assert ring[i..] == [b] + ring[i + 1..];
        b := prev[b];
        i := i - 1;
      }
      assert i == 0;
      forall m | 0 <= m < nbuf
        ensures bufs[m].refcnt > 0
      {
        assert m in ring;
        var j :| 0 <= j < |ring| && ring[j] == m;
        assert ring[1..][j - 1] == m;
      }
    }

    /** The rest of bread: take the buffer's sleep lock, and read the disk if the buffer is not valid. */
    method LockAndFill(b: nat)
      requires Valid() && b < nbuf && bufs[b].dev == ROOTDEV && bufs[b].refcnt > 0 && !bufs[b].locked
      modifies this`bufs
      ensures Valid() && bufs[b].blockno < |contents|
      ensures bufs == old(bufs)[b := old(bufs)[b].(locked := true, valid := true, data := contents[bufs[b].blockno])]
    {
      ViewIs(bufs, disk, b);
      bufs := bufs[b := bufs[b].(locked := true)];
      if !bufs[b].valid {
        bufs := bufs[b := bufs[b].(data := disk[bufs[b].blockno])];
        bufs := bufs[b := bufs[b].(valid := true)];
      }
      SameView(old(bufs), bufs, disk, b);
    }

    /** bread, once nobody holds the block's lock: a locked buffer with the contents of block k, and no change to any
        block's contents. It panics as bget does. */
    method Bread(dev: nat, k: nat) returns (b: nat, panic: bool)
      requires Valid() && dev == ROOTDEV && k < |disk|
      requires Unlocked(bufs, k)
      modifies this`bufs
      ensures panic <==> !old(Available(k))
      ensures Valid() && (panic ==> bufs == old(bufs)) && (!panic ==> b < nbuf)
      ensures !panic ==> bufs == old(bufs)[b := Buf(ROOTDEV, k, true, old(bufs)[b].refcnt + 1, true, contents[k])]
      ensures !panic ==>
                Holds(old(bufs), b, k) || (old(bufs)[b].refcnt == 0 && forall i | 0 <= i < nbuf ::
                                             !Holds(old(bufs), i, k))
    {
      b, panic := Bget(dev, k);
      if !panic {
        LockAndFill(b);
      }
    }

    /** The holder of a buffer changes its data. */
    method Modify(b: nat, data: Block)
      requires Valid() && b < nbuf && bufs[b].locked && bufs[b].valid
      modifies this`bufs, this`contents
      ensures Valid()
      ensures bufs == old(bufs)[b := old(bufs)[b].(data := data)]
      ensures contents == old(contents)[bufs[b].blockno := data]
    {
      assert BufOk(bufs[b], disk);
      bufs := bufs[b := bufs[b].(data := data)];
      contents := contents[bufs[b].blockno := data];
      forall j | 0 <= j < |disk|
        ensures View(bufs, disk, j) == contents[j]
      {
        if j == bufs[b].blockno {
          ViewIs(bufs, disk, b);
        } else {
          ViewElsewhere(old(bufs), bufs, disk, disk, b, j);
        }
      }
    }

    /** bwrite: the disk block becomes the buffer's data, in one disk write. */
    method Bwrite(b: nat)
      requires Valid() && b < nbuf && bufs[b].locked && bufs[b].valid
      modifies this`disk, this`history
      ensures Valid()
      ensures disk == old(disk)[bufs[b].blockno := bufs[b].data] && history == old(history) + [disk]
    {
      assert BufOk(bufs[b], disk);
      disk := disk[bufs[b].blockno := bufs[b].data];
      history := history + [disk];
      assert forall i | 0 <= i < |bufs| && i != b && bufs[i].dev != 0 :: bufs[i].blockno != bufs[b].blockno;
      forall j | 0 <= j < |disk|
        ensures View(bufs, disk, j) == View(bufs, old(disk), j)
      {
        if j == bufs[b].blockno {
          ViewIs(bufs, disk, b);
          ViewIs(bufs, old(disk), b);
        } else if i :| Holds(bufs, i, j) {
          ViewIs(bufs, disk, i);
          ViewIs(bufs, old(disk), i);
        } else {
          ViewUncached(bufs, disk, j);
          ViewUncached(bufs, old(disk), j);
        }
      }
    }

    /** brelse: drop the lock and the reference; a buffer nobody references moves to the front of the list.
        The last reference may be dropped only when the disk has the buffer's data. */
    method Brelse(b: nat)
      requires Valid() && b < nbuf && bufs[b].locked
      requires bufs[b].refcnt == 1 && bufs[b].valid ==> bufs[b].data == disk[bufs[b].blockno]
      modifies this`bufs, this`next, this`prev, this`ring
      ensures Valid()
      ensures bufs == old(bufs)[b := old(bufs)[b].(locked := false, refcnt := old(bufs)[b].refcnt - 1)]
      ensures bufs[b].refcnt > 0 ==> ring == old(ring)
      ensures bufs[b].refcnt == 0 ==>
                exists k :: 0 < k < |old(ring)| && old(ring)[k] == b && ring == ToFront(old(ring), k)
    {
      bufs := bufs[b := bufs[b].(locked := false)];
      bufs := bufs[b := bufs[b].(refcnt := bufs[b].refcnt - 1)];
      if bufs[b].refcnt == 0 {
        MoveToFront(b);
      }
      SameView(old(bufs), bufs, disk, b);
    }

    /** A buffer with an identity holds the contents of its block. */
    lemma HeldContents(b: nat)
      requires Valid() && b < nbuf && bufs[b].dev == ROOTDEV
      ensures bufs[b].blockno < |disk| && contents[bufs[b].blockno] == Effective(bufs[b], disk)
    {
      assert BufOk(bufs[b], disk);
      ViewIs(bufs, disk, b);
    }

    /** The pointer updates of brelse. */
    method MoveToFront(b: nat)
      requires IsList(nbuf, next, prev, ring) && b < nbuf
      modifies this`next, this`prev, this`ring
      ensures IsList(nbuf, next, prev, ring)
      ensures exists k :: 0 < k < |old(ring)| && old(ring)[k] == b && ring == ToFront(old(ring), k)
    {
      assert b in ring;
      ghost var k :| 0 <= k < |ring| && ring[k] == b;
      MovedToFront(nbuf, next, prev, ring, k);
      prev := prev[next[b] := prev[b]];
      next := next[prev[b] := next[b]];
      next := next[b := next[nbuf]];
      prev := prev[b := nbuf];
      prev := prev[next[nbuf] := b];
      next := next[nbuf := b];
      ring := ToFront(ring, k);
    }

    method Bpin(b: nat)
      requires Valid() && b < nbuf && bufs[b].refcnt > 0
      modifies this`bufs
      ensures Valid()
      ensures bufs == old(bufs)[b := old(bufs)[b].(refcnt := old(bufs)[b].refcnt + 1)]
    {
      bufs := bufs[b := bufs[b].(refcnt := bufs[b].refcnt + 1)];
      SameView(old(bufs), bufs, disk, b);
    }

    method Bunpin(b: nat)
      requires Valid() && b < nbuf && bufs[b].refcnt > 0
      requires bufs[b].refcnt == 1 ==> !bufs[b].locked && (bufs[b].valid ==> bufs[b].data == disk[bufs[b].blockno])
      modifies this`bufs
      ensures Valid()
      ensures bufs == old(bufs)[b := old(bufs)[b].(refcnt := old(bufs)[b].refcnt - 1)]
    {
      bufs := bufs[b := bufs[b].(refcnt := bufs[b].refcnt - 1)];
      SameView(old(bufs), bufs, disk, b);
    }
  }
}
