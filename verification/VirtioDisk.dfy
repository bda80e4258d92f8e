/** The virtqueue bookkeeping of the disk driver (kernel/virtio_disk.c, sections 2.6 and 5.2 of VirtIO 1.1). Each method
    of the driver is one critical section under vdisk_lock, up to where it sleeps. The device takes requests in ring
    order, and completes them in any order. */
module VirtioDisk {
  import opened Blocks

  const NUM: nat := 8
  const UINT16: nat := 0x1_0000

  const F_NEXT: nat := 1
  const F_WRITE: nat := 2

  predicate HasNext(flags: nat) {
    flags % 2 == 1
  }

  predicate DeviceWrites(flags: nat) {
    flags / 2 % 2 == 1
  }

  /** What a descriptor points to: the header of a request, the data of a buffer, or a status byte. */
  datatype Addr = Nowhere | HeaderAt(i: nat) | DataOf(b: nat) | StatusAt(i: nat)

  datatype Desc = Desc(addr: Addr, len: nat, flags: nat, next: nat)

  const NODESC := Desc(Nowhere, 0, 0, 0)

  const T_IN: nat := 0
  const T_OUT: nat := 1
  const HEADERSIZE: nat := 16  // sizeof(struct virtio_blk_req)

  /** struct virtio_blk_req */
  datatype BlkReq = BlkReq(kind: nat, reserved: nat, sector: nat)

  /** b: the buffer whose request starts at this descriptor, or 0. */
  datatype Info = Info(b: nat, status: nat)

  const PENDING: nat := 0xff  // the status before the device writes one

  datatype Phase = Posted | Taken | Done | Seen

  /** A request in flight: the second and third descriptor of its chain, its buffer and what to do with it, how far it
      has come, and the status that the device has reported. */
  datatype Request = Request(d1: nat, d2: nat, b: nat, write: bool, blockno: word, phase: Phase, status: nat) {
    /** A request moves on. */
    predicate MovesTo(r: Request) {
      r == this.(phase := r.phase, status := r.status)
    }
  }

  type Requests = map<nat, Request>

  function Cells(reqs: Requests, h: nat): (s: set<nat>)
    requires h in reqs
  {
    {h, reqs[h].d1, reqs[h].d2}
  }

  // The chains.

  predicate ChainOk(desc: seq<Desc>, reqs: Requests, h: nat)
    requires h in reqs && |desc| == NUM
  {
    var r := reqs[h];
    && h < NUM && r.d1 < NUM && r.d2 < NUM && h != r.d1 && h != r.d2 && r.d1 != r.d2
    && HasNext(desc[h].flags) && desc[h].next == r.d1 && HasNext(desc[r.d1].flags) && desc[r.d1].next == r.d2
    && !HasNext(desc[r.d2].flags)
    && !DeviceWrites(desc[h].flags) && (DeviceWrites(desc[r.d1].flags) <==> !r.write) && DeviceWrites(desc[r.d2].flags)
    && desc[h].addr == HeaderAt(h) && desc[h].len == HEADERSIZE
    && desc[r.d1].addr == DataOf(r.b) && desc[r.d1].len == BSIZE
    && desc[r.d2].addr == StatusAt(h) && desc[r.d2].len == 1
  }

  /** The first of the sectors of 512 bytes of a block, computed with 32 bits. */
  function Sector(blockno: word): nat {
    blockno * (BSIZE / 512) % WORDLIMIT
  }

  /** The headers of the requests. */
  predicate HeadersOk(ops: seq<BlkReq>, reqs: Requests) {
    |ops| == NUM && forall h | h in reqs ::
      h < NUM && ops[h] == BlkReq(if reqs[h].write then T_OUT else T_IN, 0, Sector(reqs[h].blockno))
  }

  /** What a chain of descriptors asks the device to do: to write the sectors with the data of a buffer, or to read them
      into it, and to put the status somewhere. */
  datatype Command = Malformed | Command(write: bool, sector: nat, b: nat, status: nat)

  /** A chain as the device reads it (section 5.2.6 of VirtIO 1.1): a header and a status byte around one block of data,
      which the device reads for a request of type 1, and writes for one of type 0. */
  function ReadChain(desc: seq<Desc>, ops: seq<BlkReq>, h: nat): (c: Command)
    requires |desc| == NUM && |ops| == NUM
  {
    if h >= NUM || !HasNext(desc[h].flags) || DeviceWrites(desc[h].flags) || desc[h].next >= NUM then
      Malformed
    else
      var d0, d1 := desc[h], desc[desc[h].next];
      if !HasNext(d1.flags) || d1.next >= NUM then
        Malformed
      else
        var d2 := desc[d1.next];
        if HasNext(d2.flags) || !DeviceWrites(d2.flags) || !d2.addr.StatusAt? || d2.len != 1
           || !d1.addr.DataOf? || d1.len != BSIZE || !d0.addr.HeaderAt? || d0.addr.i >= NUM || d0.len != 16 then
          Malformed
        else
          var op := ops[d0.addr.i];
          if op.kind == 1 && !DeviceWrites(d1.flags) then
            Command(true, op.sector, d1.addr.b, d2.addr.i)
          else if op.kind == 0 && DeviceWrites(d1.flags) then
            Command(false, op.sector, d1.addr.b, d2.addr.i)
          else
            Malformed
  }

  /** The device reads from a chain what the driver was asked to do. */
  lemma DeviceUnderstands(desc: seq<Desc>, ops: seq<BlkReq>, reqs: Requests, h: nat)
    requires AllChainsOk(desc, reqs) && HeadersOk(ops, reqs) && h in reqs
    ensures ReadChain(desc, ops, h) == Command(reqs[h].write, Sector(reqs[h].blockno), reqs[h].b, h)
    ensures Sector(reqs[h].blockno) == 2 * reqs[h].blockno <==> reqs[h].blockno < WORDLIMIT / 2
  {
    assert ChainOk(desc, reqs, h);
  }

  predicate Disjoint(reqs: Requests) {
    forall g, h | g in reqs && h in reqs && g != h :: Cells(reqs, g) !! Cells(reqs, h) && reqs[g].b != reqs[h].b
  }

  /** Descriptor i belongs to a request. */
  ghost predicate InChain(reqs: Requests, i: nat) {
    exists h :: h in reqs && i in Cells(reqs, h)
  }

  /** A descriptor is free unless it belongs to a request, or has just been allocated. */
  ghost predicate FreeOk(free: seq<bool>, reqs: Requests, held: set<nat>)
    requires |free| == NUM
  {
    && (forall i | 0 <= i < NUM :: free[i] <==> !InChain(reqs, i) && i !in held)
    && (forall i | i in held :: i < NUM && !InChain(reqs, i))
  }

  // The rings.

  /** From position first on, the ring holds these entries. */
  predicate RingHas(ring: seq<nat>, first: nat, entries: seq<nat>) {
    |ring| == NUM && |entries| <= NUM && forall k | 0 <= k < |entries| :: ring[(first + k) % NUM] == entries[k]
  }

  predicate Lists(reqs: Requests, entries: seq<nat>, phase: Phase) {
    && Distinct(entries)
    && (forall h | h in entries :: h in reqs && reqs[h].phase == phase)
    && (forall h | h in reqs && reqs[h].phase == phase :: h in entries)
  }

  ghost function Below(n: nat): (s: set<nat>)
    ensures |s| == n && forall i :: i in s <==> 0 <= i < n
  {
    if n == 0 then {} else Below(n - 1) + {n - 1}
  }

  /** Distinct numbers below n that miss one are fewer than n. */
  lemma RoomForOne(s: seq<nat>, h: nat, n: nat)
    requires Distinct(s) && h < n && h !in s && forall x | x in s :: x < n
    ensures |s| < n
  {
    var b := Below(n);
    assert |b - {h}| == n - 1;
    DistinctBound(s, b - {h});
  }

  /** A 16-bit index that has wrapped still selects the right slot, since NUM divides 2^16. */
  lemma WrapKeepsSlot(n: nat)
    ensures n % UINT16 % NUM == n % NUM
  {
    assert UINT16 == NUM * 0x2000;
    var q := n / UINT16;
    assert n == NUM * (0x2000 * q) + n % UINT16;
  }

  /** Writing the slot after the last entry leaves the unread ones alone. */
  lemma RingPush(ring: seq<nat>, first: nat, entries: seq<nat>, h: nat)
    requires RingHas(ring, first, entries) && |entries| < NUM
    ensures RingHas(ring[(first + |entries|) % NUM := h], first, entries + [h])
  {
    var ring', entries' := ring[(first + |entries|) % NUM := h], entries + [h];
    forall k | 0 <= k < |entries'|
      ensures ring'[(first + k) % NUM] == entries'[k]
    {
      assert k < |entries| ==> (first + k) % NUM != (first + |entries|) % NUM;
    }
  }

  lemma RingPop(ring: seq<nat>, first: nat, entries: seq<nat>)
    requires RingHas(ring, first, entries) && entries != []
    ensures ring[first % NUM] == entries[0] && RingHas(ring, first + 1, entries[1..])
  {
    assert first + 0 == first;
    forall k | 0 <= k < |entries| - 1
      ensures ring[(first + 1 + k) % NUM] == entries[1..][k]
    {
      assert first + 1 + k == first + (k + 1);
    }
  }

  /** Comparing 16-bit indices tells whether there is an entry, since there are fewer than 2^16. */
  lemma IndexTellsEmpty(first: nat, n: nat)
    requires n <= NUM
    ensures first % UINT16 == (first + n) % UINT16 <==> n == 0
  {
  }

  // Operations on the abstract state.

  /** Three allocated descriptors become the chain of a new request. */
  lemma RequestAdded(free: seq<bool>, desc: seq<Desc>, reqs: Requests, h: nat, r: Request)
    requires |free| == NUM && |desc| == NUM && FreeOk(free, reqs, {h, r.d1, r.d2}) && Disjoint(reqs)
    requires (forall g | g in reqs :: ChainOk(desc, reqs, g)) && (forall g | g in reqs :: reqs[g].b != r.b)
    ensures h !in reqs && FreeOk(free, reqs[h := r], {}) && Disjoint(reqs[h := r])
    ensures forall g | g in reqs :: Cells(reqs, g) !! {h, r.d1, r.d2}
  {
    hide ChainOk;
    assert h in reqs ==> h in Cells(reqs, h) && InChain(reqs, h);
    forall g | g in reqs
      ensures Cells(reqs, g) !! {h, r.d1, r.d2}
    {
      forall i | i in Cells(reqs, g)
        ensures i !in {h, r.d1, r.d2}
      {
        assert InChain(reqs, i);
      }
    }
    forall i: nat
      ensures InChain(reqs[h := r], i) <==> InChain(reqs, i) || i in {h, r.d1, r.d2}
    {
      InMore(reqs, h, r, i);
    }
    hide InChain;
  }

  lemma InMore(reqs: Requests, h: nat, r: Request, i: nat)
    requires h !in reqs
    ensures InChain(reqs[h := r], i) <==> InChain(reqs, i) || i in {h, r.d1, r.d2}
  {
    InRest(reqs[h := r], h, i);
    assert reqs[h := r] - {h} == reqs;
  }

  /** The request that starts at h is over, and its descriptors are no longer in a chain. */
  lemma RequestRemoved(free: seq<bool>, reqs: Requests, h: nat)
    requires |free| == NUM && FreeOk(free, reqs, {}) && Disjoint(reqs) && h in reqs
             && forall i | i in Cells(reqs, h) :: i < NUM
    ensures FreeOk(free, reqs - {h}, Cells(reqs, h)) && Disjoint(reqs - {h})
  {
    var reqs' := reqs - {h};
    forall g | g in reqs'
      ensures g in reqs && Cells(reqs', g) == Cells(reqs, g)
    {
    }
    forall i: nat
      ensures InChain(reqs', i) <==> InChain(reqs, i) && i !in Cells(reqs, h)
    {
      if g :| g in reqs && i in Cells(reqs, g) {
        assert g != h ==> g in reqs' && i in Cells(reqs', g);
        assert InChain(reqs, i);
      }
      if g :| g in reqs' && i in Cells(reqs', g) {
        assert g in reqs && i in Cells(reqs, g);
      }
    }
  }

  /** Only the phase of a request changes. */
  lemma PhaseChanged(reqs: Requests, h: nat, r: Request)
    requires h in reqs && reqs[h].MovesTo(r)
    ensures var reqs' := reqs[h := r];
            && (forall g | g in reqs :: g in reqs' && Cells(reqs', g) == Cells(reqs, g) && reqs'[g].b == reqs[g].b)
            && (forall i :: InChain(reqs', i) <==> InChain(reqs, i))
  {
    var reqs' := reqs[h := r];
    forall i
      ensures InChain(reqs', i) <==> InChain(reqs, i)
    {
      assert forall g | g in reqs :: g in reqs' && Cells(reqs', g) == Cells(reqs, g);
      assert forall g | g in reqs' :: g in reqs;
    }
  }

  // The number of descriptors.

  ghost function AllCells(reqs: Requests): (s: set<nat>) {
    if reqs == map[] then {} else
    var h :| h in reqs;
    Cells(reqs, h) + AllCells(reqs - {h})
  }

  lemma InRest(reqs: Requests, h: nat, i: nat)
    requires h in reqs
    ensures InChain(reqs, i) <==> i in Cells(reqs, h) || InChain(reqs - {h}, i)
  {
    var rest := reqs - {h};
    if g :| g in reqs && i in Cells(reqs, g) {
      assert g != h ==> g in rest && i in Cells(rest, g);
    }
    if g :| g in rest && i in Cells(rest, g) {
      assert g in reqs && i in Cells(reqs, g);
    }
  }

  lemma {:induction false} AllCellsAre(reqs: Requests)
    requires forall h | h in reqs :: h != reqs[h].d1 && h != reqs[h].d2 && reqs[h].d1 != reqs[h].d2
    requires Disjoint(reqs)
    ensures |AllCells(reqs)| == 3 * |reqs| && forall i: nat :: i in AllCells(reqs) <==> InChain(reqs, i)
    decreases |reqs|
  {
    if reqs != map[] {
      var h :| h in reqs && AllCells(reqs) == Cells(reqs, h) + AllCells(reqs - {h});
      var rest := reqs - {h};
      assert |rest| == |reqs| - 1;
      assert forall g | g in rest :: g in reqs && Cells(rest, g) == Cells(reqs, g);
      AllCellsAre(rest);
      forall i: nat
        ensures i in AllCells(reqs) <==> InChain(reqs, i)
      {
        InRest(reqs, h, i);
      }
      OutOfRest(reqs, h);
      hide InChain, Disjoint;
      ThreeMore(h, reqs[h].d1, reqs[h].d2, AllCells(rest));
    }
  }

  lemma OutOfRest(reqs: Requests, h: nat)
    requires Disjoint(reqs) && h in reqs
    ensures forall i: nat | InChain(reqs - {h}, i) :: i !in Cells(reqs, h)
  {
    var rest := reqs - {h};
    forall i: nat | InChain(rest, i)
      ensures i !in Cells(reqs, h)
    {
      var g :| g in rest && i in Cells(rest, g);
      assert Cells(rest, g) == Cells(reqs, g);
    }
  }

  lemma ThreeMore(a: nat, b: nat, c: nat, s: set<nat>)
    requires a != b && a != c && b != c && a !in s && b !in s && c !in s
    ensures |{a, b, c} + s| == 3 + |s|
  {
    assert {a, b, c} + s == s + {a} + {b} + {c};
  }

  /** Free descriptors and three for each request in flight are all there are. */
  lemma DescriptorsConserved(free: seq<bool>, desc: seq<Desc>, reqs: Requests)
    requires |free| == NUM && |desc| == NUM && FreeOk(free, reqs, {}) && Disjoint(reqs) && forall h | h in reqs ::
               ChainOk(desc, reqs, h)
    ensures |FreeSet(free)| + 3 * |reqs| == NUM
  {
    hide InChain, Disjoint, AllCells;
    AllCellsAre(reqs);
    forall i: nat | InChain(reqs, i)
      ensures i < NUM
    {
      ChainBound(desc, reqs, i);
    }
    CountBoth(free, AllCells(reqs));
  }

  lemma ChainBound(desc: seq<Desc>, reqs: Requests, i: nat)
    requires |desc| == NUM && (forall h | h in reqs :: ChainOk(desc, reqs, h)) && InChain(reqs, i)
    ensures i < NUM
  {
    hide HasNext;
    var g :| g in reqs && i in Cells(reqs, g);
    assert ChainOk(desc, reqs, g);
  }

  ghost function FreeSet(free: seq<bool>): (s: set<nat>) {
    set i | 0 <= i < |free| && free[i]
  }

  lemma CountBoth(free: seq<bool>, c: set<nat>)
    requires (forall i | 0 <= i < |free| :: free[i] <==> i !in c) && forall i | i in c :: i < |free|
    ensures |FreeSet(free)| + |c| == |free|
  {
    var f, b := FreeSet(free), Below(|free|);
    assert f + c == b && f * c == {};
    assert |f + c| == |f| + |c| - |f * c|;
  }

  predicate AllChainsOk(desc: seq<Desc>, reqs: Requests) {
    |desc| == NUM && forall h | h in reqs :: ChainOk(desc, reqs, h)
  }

  /** The interrupt handler finds the buffer of a request, which is marked until the request has been seen, and its
      status, which is the one that the device has written. */
  predicate InfoOk(info: seq<Info>, reqs: Requests, busy: set<nat>) {
    |info| == NUM && forall h | h in reqs ::
      && h < NUM && info[h] == Info(reqs[h].b, reqs[h].status) && (reqs[h].b in busy <==> reqs[h].phase != Seen)
      && (reqs[h].phase in {Posted, Taken} ==> reqs[h].status == PENDING)
  }

  /** A ring whose unread entries these are, with its writer's and its reader's 16-bit index. */
  predicate QueueOk(ring: seq<nat>, first: nat, entries: seq<nat>, writer: nat, reader: nat) {
    RingHas(ring, first, entries) && writer == (first + |entries|) % UINT16 && reader == first % UINT16
  }

  /** There is room for one more entry, and writing it leaves the unread ones alone, also when the index wraps
    around. */
  lemma QueuePush(ring: seq<nat>, first: nat, entries: seq<nat>, writer: nat, reader: nat, h: nat)
    requires QueueOk(ring, first, entries, writer, reader) && Distinct(entries) && h < NUM && h !in entries
             && forall x | x in entries :: x < NUM
    ensures |ring| == NUM && QueueOk(ring[writer % NUM := h], first, entries + [h], (writer + 1) % UINT16, reader)
  {
    RoomForOne(entries, h, NUM);
    WrapKeepsSlot(first + |entries|);
    hide RingHas;
    RingPush(ring, first, entries, h);
    assert (first + |entries| + 1) % UINT16 == ((first + |entries|) % UINT16 + 1) % UINT16;
  }

  /** Reading takes the oldest entry. */
  lemma QueuePop(ring: seq<nat>, first: nat, entries: seq<nat>, writer: nat, reader: nat)
    requires QueueOk(ring, first, entries, writer, reader) && entries != []
    ensures |ring| == NUM && ring[reader % NUM] == entries[0]
            && QueueOk(ring, first + 1, entries[1..], writer, (reader + 1) % UINT16)
  {
    WrapKeepsSlot(first);
    RingPop(ring, first, entries);
    hide RingHas;
    assert (first + 1) % UINT16 == (first % UINT16 + 1) % UINT16;
  }

  /** The indices are equal if and only if there is nothing to read. */
  lemma QueueEmpty(ring: seq<nat>, first: nat, entries: seq<nat>, writer: nat, reader: nat)
    requires QueueOk(ring, first, entries, writer, reader)
    ensures |ring| == NUM && (reader == writer <==> entries == [])
  {
    IndexTellsEmpty(first, |entries|);
  }

  lemma ListsAdd(reqs: Requests, entries: seq<nat>, phase: Phase, h: nat, r: Request)
    requires Lists(reqs, entries, phase) && h !in reqs
    ensures if r.phase == phase then h !in entries && Lists(reqs[h := r], entries + [h], phase)
            else Lists(reqs[h := r], entries, phase)
  {
  }

  lemma ListsRemove(reqs: Requests, entries: seq<nat>, phase: Phase, h: nat)
    requires Lists(reqs, entries, phase) && h in reqs && reqs[h].phase != phase
    ensures Lists(reqs - {h}, entries, phase)
  {
  }

  lemma ListsBound(desc: seq<Desc>, reqs: Requests, entries: seq<nat>, phase: Phase)
    requires Lists(reqs, entries, phase) && AllChainsOk(desc, reqs)
    ensures Distinct(entries) && forall x | x in entries :: x < NUM
  {
    forall x | x in entries
      ensures x < NUM
    {
      assert ChainOk(desc, reqs, x);
    }
  }

  /** A new request is posted behind the others. */
  lemma ListsNew(desc: seq<Desc>, reqs: Requests, posted: seq<nat>, done: seq<nat>, h: nat, r: Request)
    requires Lists(reqs, posted, Posted) && Lists(reqs, done, Done) && AllChainsOk(desc, reqs)
    requires h !in reqs && r.phase == Posted
    ensures h !in posted && Distinct(posted) && forall x | x in posted :: x < NUM
    ensures Lists(reqs[h := r], posted + [h], Posted) && Lists(reqs[h := r], done, Done)
  {
    ListsAdd(reqs, posted, Posted, h, r);
    ListsAdd(reqs, done, Done, h, r);
    ListsBound(desc, reqs, posted, Posted);
  }

  /** The phase of h moves on, and with it h moves from one list to the other. */
  lemma ListsMove(reqs: Requests, entries: seq<nat>, phase: Phase, h: nat, r: Request)
    requires Lists(reqs, entries, phase) && h in reqs
    ensures var reqs', now := reqs[h := r], r.phase;
            && (reqs[h].phase != phase && now == phase ==> h !in entries && Lists(reqs', entries + [h], phase))
            && (reqs[h].phase != phase && now != phase ==> Lists(reqs', entries, phase))
            && (reqs[h].phase == phase && now != phase && entries != [] && entries[0] == h
                ==> Lists(reqs', entries[1..], phase))
  {
    var reqs', now := reqs[h := r], r.phase;
    if reqs[h].phase == phase && now != phase && entries != [] && entries[0] == h {
      forall g | g in reqs' && reqs'[g].phase == phase
        ensures g in entries[1..]
      {
        assert g in entries;
      }
    }
  }

  /** Just the descriptors in idx are marked allocated since. */
  predicate Marked(before: seq<bool>, free: seq<bool>, idx: seq<nat>) {
    && |free| == |before| && (forall i | i in idx :: i < |free| && before[i] && !free[i])
    && (forall i | 0 <= i < |free| && i !in idx :: free[i] == before[i])
  }

  lemma MarkMore(before: seq<bool>, free: seq<bool>, idx: seq<nat>, i: nat)
    requires i < |before| && before[i] && |free| == |before| && Marked(before, free[i := true], idx) && !free[i]
             && i !in idx
    ensures Marked(before, free, idx + [i])
  {
  }

  lemma UnmarkOne(before: seq<bool>, free: seq<bool>, idx: seq<nat>)
    requires idx != [] && Distinct(idx) && idx[0] < |free| && free[idx[0]] && Marked(before, free[idx[0] := false], idx)
    ensures Marked(before, free, idx[1..])
  {
    assert forall i | i in idx[1..] :: i in idx && i != idx[0];
    assert forall i | i in idx :: i == idx[0] || i in idx[1..];
  }

  /** If nothing is left free, there were as many free descriptors as have been allocated. */
  lemma NotEnough(before: seq<bool>, free: seq<bool>, idx: seq<nat>)
    requires Marked(before, free, idx) && Distinct(idx) && forall i | 0 <= i < |free| :: !free[i]
    ensures |FreeSet(before)| == |idx|
  {
    assert FreeSet(before) == Elements(idx);
    DistinctSize(idx);
  }

  lemma Enough(before: seq<bool>, free: seq<bool>, idx: seq<nat>)
    requires Marked(before, free, idx) && Distinct(idx)
    ensures |FreeSet(before)| >= |idx|
  {
    DistinctBound(idx, FreeSet(before));
  }

  /** Other chains do not use the descriptors of a new one. */
  lemma ChainsKept(desc: seq<Desc>, desc': seq<Desc>, reqs: Requests, h: nat, r: Request)
    requires AllChainsOk(desc, reqs) && |desc'| == NUM && h !in reqs && forall g | g in reqs ::
               Cells(reqs, g) !! {h, r.d1, r.d2}
    requires forall i | 0 <= i < NUM && i !in {h, r.d1, r.d2} :: desc'[i] == desc[i]
    requires ChainOk(desc', map[h := r], h)
    ensures AllChainsOk(desc', reqs[h := r])
  {
    var reqs' := reqs[h := r];
    forall g | g in reqs'
      ensures ChainOk(desc', reqs', g)
    {
      if g in reqs {
        assert ChainOk(desc, reqs, g) && g in Cells(reqs, g) && reqs[g].d1 in Cells(reqs, g)
               && reqs[g].d2 in Cells(reqs, g);
      }
    }
  }

  /** The three descriptors of a request, as virtio_disk_rw fills them in. */
  function Formatted(desc: seq<Desc>, h: nat, d1: nat, d2: nat, b: nat, write: bool): (desc': seq<Desc>)
    requires h < |desc| && d1 < |desc| && d2 < |desc|
  {
    desc[h := Desc(HeaderAt(h), HEADERSIZE, F_NEXT, d1)]
    [d1 := Desc(DataOf(b), BSIZE, (if write then 0 else F_WRITE) + F_NEXT, d2)]
    [d2 := Desc(StatusAt(h), 1, F_WRITE, 0)]
  }

  lemma FormattedOk(desc: seq<Desc>, reqs: Requests, h: nat, r: Request)
    requires AllChainsOk(desc, reqs) && h !in reqs && forall g | g in reqs :: Cells(reqs, g) !! {h, r.d1, r.d2}
    requires h < NUM && r.d1 < NUM && r.d2 < NUM && h != r.d1 && h != r.d2 && r.d1 != r.d2
    ensures AllChainsOk(Formatted(desc, h, r.d1, r.d2, r.b, r.write), reqs[h := r])
  {
    ChainsKept(desc, Formatted(desc, h, r.d1, r.d2, r.b, r.write), reqs, h, r);
  }

  /** Chains and buffers do not notice that a request moves on, except that its buffer is released once it is seen. */
  lemma PhaseMoved(free: seq<bool>, desc: seq<Desc>, info: seq<Info>, ops: seq<BlkReq>, reqs: Requests, busy: set<nat>,
                   h: nat, r: Request)
    requires |free| == NUM && FreeOk(free, reqs, {}) && Disjoint(reqs) && AllChainsOk(desc, reqs)
             && InfoOk(info, reqs, busy) && HeadersOk(ops, reqs)
    requires h in reqs && reqs[h].phase != Seen && reqs[h].MovesTo(r)
    requires r.phase in {Posted, Taken} ==> r.status == PENDING
    ensures var reqs' := reqs[h := r];
            && FreeOk(free, reqs', {}) && Disjoint(reqs') && AllChainsOk(desc, reqs') && HeadersOk(ops, reqs')
            && h < |info|
            && InfoOk(info[h := Info(r.b, r.status)], reqs', if r.phase == Seen then busy - {r.b} else busy)
  {
    hide InChain, Cells, HasNext, DeviceWrites, Sector;
    var reqs' := reqs[h := r];
    PhaseChanged(reqs, h, r);
    InfoMoved(info, reqs, busy, h, r);
    hide InfoOk;
    forall g | g in reqs'
      ensures ChainOk(desc, reqs', g)
    {
      assert ChainOk(desc, reqs, g);
    }
  }

  lemma InfoMoved(info: seq<Info>, reqs: Requests, busy: set<nat>, h: nat, r: Request)
    requires Disjoint(reqs) && InfoOk(info, reqs, busy) && h in reqs && reqs[h].phase != Seen && reqs[h].MovesTo(r)
    requires r.phase in {Posted, Taken} ==> r.status == PENDING
    ensures h < |info|
            && InfoOk(info[h := Info(r.b, r.status)], reqs[h := r], if r.phase == Seen then busy - {r.b} else busy)
  {
    hide Cells;
  }

  /** All completed requests are seen, and no others, and none has failed. */
  predicate AllSeen(before: Requests, reqs: Requests) {
    reqs.Keys == before.Keys && forall h | h in reqs && h in before ::
      if before[h].phase == Done then reqs[h] == before[h].(phase := Seen) && before[h].status == 0
      else reqs[h] == before[h]
  }

  /** The same, but for those still in the list. */
  predicate SomeSeen(before: Requests, reqs: Requests, done: seq<nat>) {
    && reqs.Keys == before.Keys && Lists(reqs, done, Done)
    && forall h | h in reqs && h in before ::
         if before[h].phase == Done && h !in done then reqs[h] == before[h].(phase := Seen) && before[h].status == 0
         else reqs[h] == before[h]
  }

  lemma FirstWasDone(before: Requests, reqs: Requests, done: seq<nat>)
    requires SomeSeen(before, reqs, done) && done != []
    ensures done[0] in before && done[0] in reqs && before[done[0]].phase == Done && reqs[done[0]] == before[done[0]]
  {
    assert done[0] in done && done[0] in reqs.Keys;
  }

  lemma SomeSeenStart(reqs: Requests, done: seq<nat>)
    requires Lists(reqs, done, Done)
    ensures SomeSeen(reqs, reqs, done)
  {
  }

  lemma SomeSeenNext(before: Requests, reqs: Requests, done: seq<nat>)
    requires SomeSeen(before, reqs, done) && done != [] && done[0] in reqs && reqs[done[0]].phase == Done
             && reqs[done[0]].status == 0
    ensures SomeSeen(before, reqs[done[0] := reqs[done[0]].(phase := Seen)], done[1..])
  {
    var h := done[0];
    var reqs', done' := reqs[h := reqs[h].(phase := Seen)], done[1..];
    ListsMove(reqs, done, Done, h, reqs[h].(phase := Seen));
    forall g | g in done
      ensures g in done' <==> g != h
    {
    }
    assert forall g | g in done' :: g in done;
    assert reqs'.Keys == reqs.Keys;
  }

  /** What the interrupt handler finds at the front of the used ring. */
  lemma DoneFirst(info: seq<Info>, reqs: Requests, busy: set<nat>, done: seq<nat>, phase: Phase)
    requires Lists(reqs, done, phase) && InfoOk(info, reqs, busy) && done != []
    ensures done[0] in reqs && reqs[done[0]].phase == phase && done[0] < |info|
            && info[done[0]] == Info(reqs[done[0]].b, reqs[done[0]].status)
  {
    assert done[0] in done;
  }

  lemma SomeSeenEnd(before: Requests, reqs: Requests)
    requires SomeSeen(before, reqs, [])
    ensures AllSeen(before, reqs)
  {
  }

  // What the device does while the interrupt handler runs.

  datatype DeviceStep = Take | Complete(head: nat, status: nat)

  /** The requests in flight, as if no completion had been seen, and the unread entries of the avail ring. */
  datatype Flight = Flight(reqs: Requests, posted: seq<nat>)

  predicate CanAct(q: Flight, step: DeviceStep) {
    match step
    case Take => q.posted != [] && q.posted[0] in q.reqs
    case Complete(h, _) => h in q.reqs && q.reqs[h].phase == Taken
  }

  function Act(q: Flight, step: DeviceStep): Flight
    requires CanAct(q, step)
  {
    match step
    case Take =>
      var h := q.posted[0];
      Flight(q.reqs[h := q.reqs[h].(phase := Taken)], q.posted[1..])
    case Complete(h, status) => q.(reqs := q.reqs[h := q.reqs[h].(phase := Done, status := status)])
  }

  predicate CanActAll(q: Flight, steps: seq<DeviceStep>)
    decreases |steps|
  {
    steps != [] ==> CanAct(q, steps[0]) && CanActAll(Act(q, steps[0]), steps[1..])
  }

  function ActAll(q: Flight, steps: seq<DeviceStep>): Flight
    requires CanActAll(q, steps)
    decreases |steps|
  {
    if steps == [] then q else ActAll(Act(q, steps[0]), steps[1..])
  }

  /** The device takes turns with the interrupt handler. */
  predicate CanTurn(q: Flight, turns: seq<seq<DeviceStep>>)
    decreases |turns|
  {
    turns != [] ==> CanActAll(q, turns[0]) && CanTurn(ActAll(q, turns[0]), turns[1..])
  }

  function TurnAll(q: Flight, turns: seq<seq<DeviceStep>>): Flight
    requires CanTurn(q, turns)
    decreases |turns|
  {
    if turns == [] then q else TurnAll(ActAll(q, turns[0]), turns[1..])
  }

  lemma {:induction false} TurnsSplit(q: Flight, turns: seq<seq<DeviceStep>>, k: nat)
    requires CanTurn(q, turns) && k <= |turns|
    ensures CanTurn(q, turns[..k]) && CanTurn(TurnAll(q, turns[..k]), turns[k..])
    ensures k < |turns| ==>
              && CanActAll(TurnAll(q, turns[..k]), turns[k]) && CanTurn(q, turns[..k + 1])
              && TurnAll(q, turns[..k + 1]) == ActAll(TurnAll(q, turns[..k]), turns[k])
    decreases k
  {
    hide CanActAll, ActAll;
    if k == 0 {
      assert turns[0..] == turns;
      if turns != [] {
        assert turns[..1] == [turns[0]] && turns[..1][1..] == [];
      }
    } else {
      TurnsSplit(ActAll(q, turns[0]), turns[1..], k - 1);
      assert turns[..k][1..] == turns[1..][..k - 1] && turns[1..][k - 1..] == turns[k..];
      assert k < |turns| ==> turns[..k + 1][1..] == turns[1..][..k];
    }
  }

  /** What the device does to the requests it also does as seen by the handler. */
  lemma ActSomeSeen(q: Flight, reqs: Requests, done: seq<nat>, step: DeviceStep)
    requires SomeSeen(q.reqs, reqs, done) && CanAct(q, step)
    requires step.Take? ==> q.posted[0] in reqs && reqs[q.posted[0]].phase == Posted
    ensures var h := if step.Take? then q.posted[0] else step.head;
            && h in reqs && reqs[h] == q.reqs[h]
            && var r := if step.Take? then reqs[h].(phase := Taken) else reqs[h].(phase := Done, status := step.status);
            var reqs', done' := reqs[h := r], if step.Take? then done else done + [h];
            Lists(reqs', done', Done) ==> SomeSeen(Act(q, step).reqs, reqs', done')
  {
    var h := if step.Take? then q.posted[0] else step.head;
    assert h in reqs.Keys;
    assert h !in done;
  }

  /** The requests whose completion has not been seen. */
  function Unseen(reqs: Requests): (r: set<nat>) {
    set h | h in reqs && reqs[h].phase != Seen
  }

  lemma SameUnseen(reqs: Requests, h: nat, r: Request)
    requires h in reqs && reqs[h].phase != Seen && r.phase != Seen
    ensures Unseen(reqs[h := r]) == Unseen(reqs)
  {
  }

  lemma FewerUnseen(reqs: Requests, h: nat)
    requires h in reqs && reqs[h].phase != Seen
    ensures Unseen(reqs[h := reqs[h].(phase := Seen)]) < Unseen(reqs)
  {
    assert h in Unseen(reqs);
  }

  lemma TurnsNone(q: Flight)
    ensures CanTurn(q, []) && TurnAll(q, []) == q
  {
  }

  lemma ChainsRest(desc: seq<Desc>, reqs: Requests, h: nat)
    requires AllChainsOk(desc, reqs)
    ensures AllChainsOk(desc, reqs - {h})
  {
    forall g | g in reqs - {h}
      ensures ChainOk(desc, reqs - {h}, g)
    {
      assert ChainOk(desc, reqs, g);
    }
  }

  class Disk {
    var free: seq<bool>
    var desc: seq<Desc>
    var info: seq<Info>
    var ops: seq<BlkReq>
    var availRing: seq<nat>
    var availIdx: nat
    var usedRing: seq<nat>
    var usedIdx: nat
    var seen: nat  // disk.used_idx
    var busy: set<nat>  // the buffers with b->disk == 1
    var devIdx: nat  // the device's place in the avail ring
    ghost var reqs: Requests
    ghost var held: set<nat>
    ghost var posted: seq<nat>  // unread entries of the avail ring
    ghost var done: seq<nat>  // unseen entries of the used ring
    ghost var taken: nat  // entries of the avail ring read so far, without wrap-around
    ghost var handled: nat  // entries of the used ring seen so far

    /** Descriptors and chains. */
    ghost predicate Chains()
      reads this`free, this`desc, this`reqs, this`held
    {
      |free| == NUM && |desc| == NUM && FreeOk(free, reqs, held) && Disjoint(reqs) && AllChainsOk(desc, reqs)
    }

    /** Buffers, headers, and what the interrupt handler looks up. */
    ghost predicate Tracked()
      reads this`info, this`ops, this`reqs, this`busy
    {
      InfoOk(info, reqs, busy) && HeadersOk(ops, reqs)
    }

    /** The rings and their 16-bit indices. */
    ghost predicate Rings()
      reads this
    {
      && Lists(reqs, posted, Posted) && QueueOk(availRing, taken, posted, availIdx, devIdx)
      && Lists(reqs, done, Done) && QueueOk(usedRing, handled, done, usedIdx, seen)
    }

    /** Between critical sections no descriptor is allocated outside a chain. */
    ghost predicate Valid()
      reads this
    {
      Chains() && Tracked() && Rings() && held == {}
    }

    constructor ()
      ensures Valid() && reqs == map[] && busy == {}
    {
      free, desc := seq(NUM, _ => true), seq(NUM, _ => NODESC);
      info, ops := seq(NUM, _ => Info(0, 0)), seq(NUM, _ => BlkReq(0, 0, 0));
      availRing, usedRing := seq(NUM, _ => 0), seq(NUM, _ => 0);
      availIdx, usedIdx, seen, devIdx, busy := 0, 0, 0, 0, {};
      reqs, held, posted, done, taken, handled := map[], {}, [], [], 0, 0;
    }

    /** alloc_desc */
    method AllocDesc() returns (i: int)
      requires Chains()
      modifies this`free, this`held
      ensures Chains() && -1 <= i < NUM
      ensures i == -1 ==> free == old(free) && held == old(held) && forall j | 0 <= j < NUM :: !free[j]
      ensures i >= 0 ==> old(free)[i] && free == old(free)[i := false] && held == old(held) + {i} && i !in old(held)
    {
      i := 0;
      while i < NUM
        invariant 0 <= i <= NUM && free == old(free) && held == old(held) && forall j | 0 <= j < i :: !free[j]
      {
        if free[i] {
          free := free[i := false];
          held := held + {i};
          return;
        }
        i := i + 1;
      }
      i := -1;
    }

    /** free_desc. It panics on a descriptor that does not exist or is free. */
    method FreeDesc(i: nat) returns (panic: bool)
      requires Chains() && (i < NUM && !free[i] ==> i in held)
      modifies this`free, this`held, this`desc
      ensures panic <==> i >= NUM || old(free)[i]
      ensures panic ==> unchanged(this)
      ensures !panic ==> Chains() && free == old(free)[i := true] && held == old(held) - {i}
                         && desc == old(desc)[i := NODESC]
    {
      panic := i >= NUM || free[i];
      if !panic {
        assert forall h | h in reqs :: i !in Cells(reqs, h);
        desc := desc[i := NODESC];
        free := free[i := true];
        held := held - {i};
      }
    }

    /** alloc3_desc: three descriptors, or none if there are not as many free. */
    method Alloc3Desc() returns (ok: bool, idx: seq<nat>)
      requires Chains() && held == {}
      modifies this`free, this`held, this`desc
      ensures Chains() && ok == (|FreeSet(old(free))| >= 3)
      ensures ok ==> |idx| == 3 && Distinct(idx) && held == {idx[0], idx[1], idx[2]} && desc == old(desc)
      ensures !ok ==> held == {} && free == old(free)
    {
      hide Disjoint, FreeOk, InChain;
      idx := [];
      while |idx| < 3
        invariant |idx| <= 3 && Chains() && Distinct(idx) && held == Elements(idx) && desc == old(desc)
        invariant Marked(old(free), free, idx)
      {
        var i := AllocDesc();
        if i < 0 {
          NotEnough(old(free), free, idx);
          Rollback(idx, old(free));
          return false, idx;
        }
        MarkMore(old(free), free, idx, i);
        idx := idx + [i];
      }
      Enough(old(free), free, idx);
      assert held == {idx[0], idx[1], idx[2]};
      ok := true;
    }

    /** alloc3_desc's way out. */
    method Rollback(idx: seq<nat>, ghost before: seq<bool>)
      requires Chains() && Distinct(idx) && held == Elements(idx) && Marked(before, free, idx)
      modifies this`free, this`held, this`desc
      ensures Chains() && held == {} && free == before
    {
      hide Disjoint, FreeOk, InChain;
      var j := 0;
      while j < |idx|
        invariant 0 <= j <= |idx| && Chains() && held == Elements(idx[j..]) && Marked(before, free, idx[j..])
      {
        assert idx[j] in idx[j..] && idx[j..][1..] == idx[j + 1..];
        HeldNotFree(idx[j]);
        var panic := FreeDesc(idx[j]);
        UnmarkOne(before, free, idx[j..]);
        assert Elements(idx[j + 1..]) == Elements(idx[j..]) - {idx[j]};
        j := j + 1;
      }
      assert free == before;
    }

    lemma HeldNotFree(i: nat)
      requires Chains() && i in held
      ensures i < NUM && !free[i]
    {
    }

    /** virtio_disk_rw up to where it waits for the device. If three descriptors are not free it sleeps, and nothing has
        changed; otherwise the request is posted behind the unread ones. */
    method Submit(b: nat, write: bool, blockno: word) returns (ok: bool, head: nat)
      requires Valid() && b !in busy && forall h | h in reqs :: reqs[h].b != b
      modifies this
      ensures Valid() && ok == (|FreeSet(old(free))| >= 3)
      ensures !ok ==> reqs == old(reqs) && busy == old(busy) && free == old(free) && posted == old(posted)
                      && done == old(done)
      ensures ok ==>
                && head !in old(reqs) && head in reqs && posted == old(posted) + [head] && done == old(done)
                && busy == old(busy) + {b}
                && reqs == old(reqs)[head := Request(reqs[head].d1, reqs[head].d2, b, write, blockno, Posted, PENDING)]
                && |desc| == NUM && |ops| == NUM && ReadChain(desc, ops, head)
                                                    == Command(write, Sector(blockno), b, head)
                && head < |info| && info[head] == Info(b, 0xff)
    {
      hide FreeOk, Disjoint, AllChainsOk, InfoOk, HeadersOk, Lists, QueueOk, ReadChain, Sector, FreeSet;
      var idx;
      ok, idx := Alloc3Desc();
      head := 0;
      if ok {
        head := idx[0];
        Format(idx, b, write, blockno);
        ListsNew(old(desc), old(reqs), posted, done, head, reqs[head]);
        HeadBound(head);
        Understood(head);
        InfoIs(head);
        Post(head);
      }
    }

    /** The head of the chain goes into the next slot of the avail ring. */
    method Post(head: nat)
      requires QueueOk(availRing, taken, posted, availIdx, devIdx) && Distinct(posted) && head < NUM && head !in posted
      requires forall x | x in posted :: x < NUM
      modifies this`availRing, this`availIdx, this`posted
      ensures QueueOk(availRing, taken, posted, availIdx, devIdx) && posted == old(posted) + [head]
    {
      hide QueueOk;
      QueuePush(availRing, taken, posted, availIdx, devIdx, head);
      availRing := availRing[availIdx % NUM := head];
      availIdx := (availIdx + 1) % UINT16;
      posted := posted + [head];
    }

    /** Format the three descriptors, and record the buffer. */
    method Format(idx: seq<nat>, b: nat, write: bool, blockno: word)
      requires Chains() && Tracked() && |idx| == 3 && Distinct(idx) && held == {idx[0], idx[1], idx[2]}
      requires b !in busy && forall h | h in reqs :: reqs[h].b != b
      modifies this`desc, this`info, this`ops, this`busy, this`reqs, this`held
      ensures Chains() && Tracked() && held == {} && busy == old(busy) + {b}
      ensures idx[0] !in old(reqs)
              && reqs == old(reqs)[idx[0] := Request(idx[1], idx[2], b, write, blockno, Posted, PENDING)]
    {
      hide FreeOk, Disjoint, ChainOk, Formatted, Sector;
      ghost var r := Request(idx[1], idx[2], b, write, blockno, Posted, PENDING);
      RequestAdded(free, desc, reqs, idx[0], r);
      HeldNotFree(idx[0]);
      HeldNotFree(idx[1]);
      HeldNotFree(idx[2]);
      FormattedOk(desc, reqs, idx[0], r);
      ops := ops[idx[0] := BlkReq(if write then T_OUT else T_IN, 0, Sector(blockno))];
      desc := Formatted(desc, idx[0], idx[1], idx[2], b, write);
      info := info[idx[0] := Info(b, PENDING)];
      busy := busy + {b};
      reqs, held := reqs[idx[0] := r], {};
    }

    lemma Understood(h: nat)
      requires Chains() && Tracked() && h in reqs
      ensures |desc| == NUM && |ops| == NUM
              && ReadChain(desc, ops, h) == Command(reqs[h].write, Sector(reqs[h].blockno), reqs[h].b, h)
    {
      DeviceUnderstands(desc, ops, reqs, h);
    }

    lemma ChainIs(h: nat)
      requires Chains() && h in reqs
      ensures |desc| == NUM && ChainOk(desc, reqs, h)
    {
    }

    lemma InfoIs(h: nat)
      requires Tracked() && h in reqs
      ensures h < |info| == NUM && info[h] == Info(reqs[h].b, reqs[h].status)
      ensures reqs[h].phase == Posted ==> reqs[h].status == PENDING
    {
    }

    lemma HeadBound(h: nat)
      requires Chains() && h in reqs
      ensures h < NUM
    {
      assert ChainOk(desc, reqs, h);
    }

    /** The rest of virtio_disk_rw, once b->disk is no longer set: the completion of the request has been seen, and its
        three descriptors, and no others, become free. */
    method Finish(head: nat)
      requires Valid() && head in reqs && reqs[head].b !in busy
      modifies this
      ensures Valid() && old(reqs)[head].phase == Seen && reqs == old(reqs) - {head} && busy == old(busy)
              && posted == old(posted) && done == old(done)
      ensures |info| == NUM && head < NUM && info[head].b == 0
      ensures forall i | 0 <= i < NUM :: free[i] <==> old(free)[i] || i in Cells(old(reqs), head)
    {
      hide FreeOk, Disjoint, ChainOk, Lists, QueueOk;
      ghost var r := reqs[head];
      HeadBound(head);
      assert r.phase == Seen;
      ListsRemove(reqs, posted, Posted, head);
      ListsRemove(reqs, done, Done, head);
      info := info[head := info[head].(b := 0)];
      FreeChain(head);
    }

    /** free_chain: it follows the links, and never panics. */
    method FreeChain(head: nat)
      requires Chains() && held == {} && head in reqs
      modifies this`free, this`desc, this`held, this`reqs
      ensures Chains() && held == {} && reqs == old(reqs) - {head}
      ensures forall i | 0 <= i < NUM :: free[i] <==> old(free)[i] || i in Cells(old(reqs), head)
    {
      hide Disjoint, FreeOk, AllChainsOk, HasNext, DeviceWrites;
      ghost var r := reqs[head];
      ChainIs(head);
      RequestRemoved(free, reqs, head);
      ghost var chain := [head, r.d1, r.d2];
      ChainsRest(desc, reqs, head);
      held, reqs := Cells(reqs, head), reqs - {head};
      assert held == Elements(chain);
      ghost var k := 0;
      var i := head;
      while true
        invariant 0 <= k < 3 && i == chain[k] && Chains() && reqs == old(reqs) - {head} && held == Elements(chain[k..])
        invariant forall j | k <= j < 3 :: desc[chain[j]] == old(desc)[chain[j]]
        invariant forall j | 0 <= j < NUM :: free[j] <==> old(free)[j] || j in chain[..k]
        decreases 3 - k
      {
        var flag, nxt := desc[i].flags, desc[i].next;
        assert chain[k..][0] == i;
        HeldNotFree(i);
        var panic := FreeDesc(i);
        assert Elements(chain[k + 1..]) == Elements(chain[k..]) - {i};
        assert chain[..k + 1] == chain[..k] + [i];
        k := k + 1;
        if HasNext(flag) {
          i := nxt;
        } else {
          break;
        }
      }
      assert chain[..3] == chain;
    }

    /** The requests in flight are those of q, but for completions that have been seen. */
    ghost predicate Flying(q: Flight)
      reads this`reqs, this`posted, this`done
    {
      SomeSeen(q.reqs, reqs, done) && posted == q.posted
    }

    /** virtio_disk_intr. Before each look at the used ring, the device takes a turn. Everything that it has completed
        by the last look is seen; the handler panics on a request that failed. */
    method Intr(turns: seq<seq<DeviceStep>>) returns (panic: bool, k: nat)
      requires Valid() && CanTurn(Flight(reqs, posted), turns)
      modifies this
      ensures k <= |turns| && CanTurn(old(Flight(reqs, posted)), turns[..k])
      ensures var q := TurnAll(old(Flight(reqs, posted)), turns[..k]);
              && (panic <==> exists h :: h in q.reqs && q.reqs[h].phase == Done && q.reqs[h].status != 0)
              && (!panic ==> Valid() && done == [] && posted == q.posted && free == old(free) && AllSeen(q.reqs, reqs))
    {
      hide FreeOk, Disjoint, AllChainsOk, InfoOk, HeadersOk, Lists, QueueOk, AllSeen, SomeSeen, CanTurn, TurnAll,
        Unseen;
      ghost var q := Flight(reqs, posted);
      SomeSeenStart(reqs, done);
      TurnsSplit(q, turns, 0);
      TurnsNone(q);
      assert turns[..0] == [];
      k := DeviceTurn(turns, 0, q);
      panic := false;
      QueueEmpty(usedRing, handled, done, usedIdx, seen);
      while seen != usedIdx
        invariant Valid() && free == old(free) && k <= |turns| && CanTurn(q, turns[..k])
                  && Flying(TurnAll(q, turns[..k]))
        invariant |usedRing| == NUM && (seen == usedIdx <==> done == [])
        decreases Unseen(reqs)
      {
        ghost var reqs1, done1 := reqs, done;
        panic := SeeOne();
        if panic {
          FirstWasDone(TurnAll(q, turns[..k]).reqs, reqs, done);
          return;
        }
        SomeSeenNext(TurnAll(q, turns[..k]).reqs, reqs1, done1);
        FewerUnseen(reqs1, done1[0]);
        k := DeviceTurn(turns, k, q);
        QueueEmpty(usedRing, handled, done, usedIdx, seen);
      }
      SomeSeenEnd(TurnAll(q, turns[..k]).reqs, reqs);
    }

    /** The device's turn number k, if it has one. */
    method DeviceTurn(turns: seq<seq<DeviceStep>>, k: nat, ghost q: Flight) returns (next: nat)
      requires Valid() && CanTurn(q, turns) && k <= |turns| && CanTurn(q, turns[..k]) && Flying(TurnAll(q, turns[..k]))
      modifies this
      ensures Valid() && k <= next <= |turns| && CanTurn(q, turns[..next]) && Flying(TurnAll(q, turns[..next]))
      ensures free == old(free) && Unseen(reqs) == old(Unseen(reqs))
    {
      hide FreeOk, Disjoint, AllChainsOk, InfoOk, HeadersOk, Lists, QueueOk, SomeSeen, CanTurn, TurnAll, Unseen;
      next := k;
      if k < |turns| {
        TurnsSplit(q, turns, k);
        DeviceActs(turns[k], TurnAll(q, turns[..k]));
        next := k + 1;
      }
    }

    /** The device does some steps, each of which is possible when it comes. */
    method DeviceActs(steps: seq<DeviceStep>, ghost q: Flight)
      requires Valid() && Flying(q) && CanActAll(q, steps)
      modifies this
      ensures Valid() && Flying(ActAll(q, steps)) && free == old(free) && Unseen(reqs) == old(Unseen(reqs))
    {
      hide FreeOk, Disjoint, AllChainsOk, InfoOk, HeadersOk, Lists, QueueOk, SomeSeen, Unseen, Act, CanAct;
      var i := 0;
      ghost var now := q;
      while i < |steps|
        invariant 0 <= i <= |steps| && Valid() && Flying(now) && CanActAll(now, steps[i..])
                  && ActAll(now, steps[i..]) == ActAll(q, steps)
        invariant free == old(free) && Unseen(reqs) == old(Unseen(reqs))
      {
        assert steps[i..][0] == steps[i] && steps[i..][1..] == steps[i + 1..];
        DeviceAct(steps[i], now);
        now := Act(now, steps[i]);
        i := i + 1;
      }
    }

    method DeviceAct(step: DeviceStep, ghost q: Flight)
      requires Valid() && Flying(q) && CanAct(q, step)
      modifies this
      ensures Valid() && Flying(Act(q, step)) && free == old(free) && Unseen(reqs) == old(Unseen(reqs))
    {
      hide FreeOk, Disjoint, AllChainsOk, InfoOk, HeadersOk, Lists, QueueOk, SomeSeen, Unseen;
      if step.Take? {
        QueueEmpty(availRing, taken, posted, availIdx, devIdx);
        DoneFirst(info, reqs, busy, posted, Posted);
        ActSomeSeen(q, reqs, done, step);
        SameUnseen(reqs, posted[0], reqs[posted[0]].(phase := Taken));
        var h := DeviceTake();
      } else {
        ActSomeSeen(q, reqs, done, step);
        SameUnseen(reqs, step.head, reqs[step.head].(phase := Done, status := step.status));
        DeviceComplete(step.head, step.status);
      }
    }

    /** One turn of the loop of virtio_disk_intr. */
    method SeeOne() returns (panic: bool)
      requires Valid() && seen != usedIdx
      modifies this
      ensures panic ==> unchanged(this) && done != [] && done[0] in reqs && reqs[done[0]].phase == Done
                        && reqs[done[0]].status != 0
      ensures !panic ==> Valid() && posted == old(posted) && free == old(free) && info == old(info)
                         && usedIdx == old(usedIdx) && usedRing == old(usedRing)
      ensures !panic ==>
                && old(done) != [] && done == old(done)[1..] && old(done)[0] in old(reqs)
                && old(reqs)[old(done)[0]].phase == Done && old(reqs)[old(done)[0]].status == 0
                && reqs == old(reqs)[old(done)[0] := old(reqs)[old(done)[0]].(phase := Seen)]
    {
      hide FreeOk, Disjoint, AllChainsOk, InfoOk, HeadersOk, Lists, QueueOk;
      QueueEmpty(usedRing, handled, done, usedIdx, seen);
      QueuePop(usedRing, handled, done, usedIdx, seen);
      DoneFirst(info, reqs, busy, done, Done);
      var id := usedRing[seen % NUM];
      if info[id].status != 0 {
        return true;
      }
      ghost var r := reqs[id].(phase := Seen);
      PhaseMoved(free, desc, info, ops, reqs, busy, id, r);
      assert info[id := Info(r.b, r.status)] == info;
      ListsMove(reqs, posted, Posted, id, r);
      ListsMove(reqs, done, Done, id, r);
      busy := busy - {info[id].b};
      seen := (seen + 1) % UINT16;
      reqs, handled, done := reqs[id := r], handled + 1, done[1..];
      panic := false;
    }

    /** The device reads the next entry of the avail ring: the oldest request it has not taken yet. */
    method DeviceTake() returns (h: nat)
      requires Valid() && devIdx != availIdx
      modifies this
      ensures Valid() && old(posted) != [] && h == old(posted)[0] && h in old(reqs)
              && reqs == old(reqs)[h := old(reqs)[h].(phase := Taken)]
      ensures posted == old(posted)[1..] && done == old(done) && free == old(free)
      ensures |desc| == NUM && |ops| == NUM
              && ReadChain(desc, ops, h) == Command(reqs[h].write, Sector(reqs[h].blockno), reqs[h].b, h)
    {
      hide FreeOk, Disjoint, AllChainsOk, InfoOk, HeadersOk, Lists, QueueOk, ReadChain, Sector;
      QueueEmpty(availRing, taken, posted, availIdx, devIdx);
      QueuePop(availRing, taken, posted, availIdx, devIdx);
      DoneFirst(info, reqs, busy, posted, Posted);
      h := availRing[devIdx % NUM];
      ghost var r := reqs[h].(phase := Taken);
      InfoIs(h);
      PhaseMoved(free, desc, info, ops, reqs, busy, h, r);
      assert info[h := Info(r.b, r.status)] == info;
      ListsMove(reqs, posted, Posted, h, r);
      ListsMove(reqs, done, Done, h, r);
      Understood(h);
      devIdx := (devIdx + 1) % UINT16;
      reqs, taken, posted := reqs[h := r], taken + 1, posted[1..];
    }

    /** The device completes any request it has taken: it writes the status, and the used ring. No unseen entry is
      lost. */
    method DeviceComplete(h: nat, status: nat)
      requires Valid() && h in reqs && reqs[h].phase == Taken
      modifies this
      ensures Valid() && reqs == old(reqs)[h := old(reqs)[h].(phase := Done, status := status)]
              && done == old(done) + [h]
              && posted == old(posted) && free == old(free)
    {
      hide FreeOk, Disjoint, QueueOk, Lists, AllChainsOk, InfoOk, HeadersOk;
      InfoIs(h);
      ghost var r := reqs[h].(phase := Done, status := status);
      PhaseMoved(free, desc, info, ops, reqs, busy, h, r);
      info := info[h := info[h].(status := status)];
      ListsMove(reqs, posted, Posted, h, r);
      ListsMove(reqs, done, Done, h, r);
      ListsBound(desc, reqs, done, Done);
      PutUsed(h);
      reqs := reqs[h := r];
    }

    /** The device's side of the used ring. */
    method PutUsed(h: nat)
      requires QueueOk(usedRing, handled, done, usedIdx, seen) && Distinct(done) && h < NUM && h !in done
               && forall x | x in done :: x < NUM
      modifies this`usedRing, this`usedIdx, this`done
      ensures QueueOk(usedRing, handled, done, usedIdx, seen) && done == old(done) + [h]
    {
      hide QueueOk;
      QueuePush(usedRing, handled, done, usedIdx, seen, h);
      usedRing := usedRing[usedIdx % NUM := h];
      usedIdx := (usedIdx + 1) % UINT16;
      done := done + [h];
    }
  }
}
