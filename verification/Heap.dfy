/** The storage allocator of user programs (user/umalloc.c), after section 8.7 of K&R. Addresses and sizes are in units
    of one header, 16 bytes. A block is its header followed by what the user gets. */
module Heap {
  const UNIT: nat := 16
  const INT: nat := 0x8000_0000

  datatype Header = Header(ptr: nat, size: nat)

  type Memory = map<nat, Header>

  predicate Apart(a: nat, m: nat, b: nat, n: nat) {
    a + m <= b || b + n <= a
  }

  /** In the list, q comes after p: it is the next one in address order or, after the last one, base. */
  predicate Follows(free: set<nat>, base: nat, p: nat, q: nat) {
    q in free && if p < q then forall r | r in free :: r <= p || q <= r else q == base && forall r | r in free :: r <= p
  }

  /** The free blocks, and base below them, are one cycle in address order whose only step down is the one back to base.
      Each block ends strictly below the next one, so no two of them are adjacent. */
  predicate ListOk(mem: Memory, free: set<nat>, base: nat) {
    Spaced(mem, free, base) && Chained(mem, free, base)
  }

  predicate Spaced(mem: Memory, free: set<nat>, base: nat) {
    && base in free && (forall p | p in free :: p in mem) && mem[base].size == 0
    && (forall p | p in free && p != base :: base < p && mem[p].size >= 1)
    && (forall p, q | p in free && q in free && p < q :: p + mem[p].size < q)
  }

  predicate Chained(mem: Memory, free: set<nat>, base: nat)
    requires forall p | p in free :: p in mem
  {
    forall p | p in free :: Follows(free, base, p, mem[p].ptr)
  }

  /** Allocated blocks, by address, lie above base, apart from each other and from the free blocks, with their sizes
      intact. */
  predicate UsedOk(mem: Memory, free: set<nat>, used: map<nat, nat>, base: nat)
    requires forall p | p in free :: p in mem
  {
    && (forall a | a in used :: base < a && used[a] >= 1 && a in mem && mem[a].size == used[a])
    && (forall a, b | a in used && b in used && a != b :: Apart(a, used[a], b, used[b]))
    && (forall a, p | a in used && p in free && p != base :: Apart(a, used[a], p, mem[p].size))
  }

  ghost predicate InFree(mem: Memory, free: set<nat>, u: nat) {
    exists p :: p in free && p in mem && p <= u < p + mem[p].size
  }

  ghost predicate InUsed(used: map<nat, nat>, u: nat) {
    exists a :: a in used && a <= u < a + used[a]
  }

  /** The units obtained from the system are exactly those of the free and of the allocated blocks. */
  ghost predicate Covers(mem: Memory, free: set<nat>, used: map<nat, nat>, units: set<nat>) {
    forall u: nat :: u in units <==> InFree(mem, free, u) || InUsed(used, u)
  }

  predicate Below(mem: Memory, free: set<nat>, used: map<nat, nat>, brk: nat) {
    && (forall p | p in free && p in mem :: p + mem[p].size <= brk && p < brk)
    && (forall a | a in used :: a + used[a] <= brk)
  }

  ghost predicate Ok(mem: Memory, free: set<nat>, used: map<nat, nat>, units: set<nat>, base: nat, brk: nat) {
    ListOk(mem, free, base) && UsedOk(mem, free, used, base) && Covers(mem, free, used, units)
    && Below(mem, free, used, brk)
  }

  /** A unit is never both in a free block and in an allocated one. */
  lemma FreeOrUsed(mem: Memory, free: set<nat>, used: map<nat, nat>, units: set<nat>, base: nat, brk: nat, u: nat)
    requires Ok(mem, free, used, units, base, brk)
    ensures !(InFree(mem, free, u) && InUsed(used, u))
  {
    forall a, p | a in used && p in free
      ensures !(a <= u < a + used[a] && p <= u < p + mem[p].size)
    {
      assert p != base ==> Apart(a, used[a], p, mem[p].size);
    }
  }

  /** Free and allocated units together are the units obtained. */
  lemma UnitsConserved(mem: Memory, free: set<nat>, used: map<nat, nat>, units: set<nat>, base: nat, brk: nat)
    requires Ok(mem, free, used, units, base, brk)
    ensures |set u | u in units && InFree(mem, free, u)| + |set u | u in units && InUsed(used, u)| == |units|
  {
    hide ListOk, UsedOk, Below, InFree, InUsed;
    var f, a := set u | u in units && InFree(mem, free, u), set u | u in units && InUsed(used, u);
    forall u | u in units
      ensures (u in f) != (u in a)
    {
      FreeOrUsed(mem, free, used, units, base, brk, u);
    }
    assert f + a == units && f * a == {};
    assert |f + a| == |f| + |a| - |f * a|;
    assert f == (set u | u in units && InFree(mem, free, u)) && a == (set u | u in units && InUsed(used, u));
  }

  // free

  /** free's search is over: the block belongs between p and the one after it. */
  predicate Spot(mem: Memory, free: set<nat>, base: nat, p: nat, bp: nat) {
    p in free && p in mem && p < bp && (bp < mem[p].ptr || mem[p].ptr == base)
  }

  /** The block at bp is put between those at p and p.ptr, and merged with its neighbours. */
  function FreedMem(mem: Memory, p: nat, bp: nat): (mem': Memory)
    requires p in mem && bp in mem && mem[p].ptr in mem
  {
    var next := mem[p].ptr;
    var h := if bp + mem[bp].size == next then Header(mem[next].ptr, mem[bp].size + mem[next].size)
             else Header(next, mem[bp].size);
    var mem1 := mem[bp := h];
    if p + mem1[p].size == bp then mem1[p := Header(h.ptr, mem1[p].size + h.size)]
    else mem1[p := Header(bp, mem1[p].size)]
  }

  function FreedSet(mem: Memory, free: set<nat>, p: nat, bp: nat): (free': set<nat>)
    requires p in mem && bp in mem
  {
    free - (if bp + mem[bp].size == mem[p].ptr then {mem[p].ptr} else {}) + (if p + mem[p].size == bp then {} else {bp})
  }

  /** The freed block lies in the gap between two list entries. */
  predicate Between(mem: Memory, free: set<nat>, base: nat, p: nat, bp: nat) {
    && ListOk(mem, free, base) && p in free && bp in mem && bp !in free && mem[bp].size >= 1 && base < bp
    && p + mem[p].size <= bp && forall r | r in free :: r <= p || bp + mem[bp].size <= r
  }

  lemma BlockBetween(mem: Memory, free: set<nat>, used: map<nat, nat>, base: nat, p: nat, bp: nat)
    requires ListOk(mem, free, base) && UsedOk(mem, free, used, base) && bp in used && Spot(mem, free, base, p, bp)
    ensures Between(mem, free, base, p, bp)
  {
    assert Follows(free, base, p, mem[p].ptr);
    forall r | r in free
      ensures r != bp && (r <= p || bp + mem[bp].size <= r)
    {
      assert r != base ==> Apart(bp, used[bp], r, mem[r].size);
    }
    assert p != base ==> Apart(bp, used[bp], p, mem[p].size);
  }

  // What comes after what when an entry is put in after p, or the one after p is taken out.

  lemma FollowsIn(free: set<nat>, base: nat, p: nat, next: nat, bp: nat, q: nat, r: nat)
    requires Follows(free, base, p, next) && p in free && base <= p < bp && (forall x | x in free :: x <= p || bp < x)
    requires q in free && Follows(free, base, q, r) && (forall x | x in free :: base <= x)
    ensures Follows(free + {bp}, base, q, if q == p then bp else r) && Follows(free + {bp}, base, bp, next)
  {
  }

  lemma FollowsOut(free: set<nat>, base: nat, p: nat, x: nat, y: nat, q: nat, r: nat)
    requires p in free && x in free && x != base && x != p && Follows(free, base, p, x) && Follows(free, base, x, y)
    requires q in free && q != x && Follows(free, base, q, r) && (forall z | z in free :: base <= z)
    ensures Follows(free - {x}, base, q, if q == p then y else r)
  {
  }

  lemma ChainIn(mem: Memory, mem': Memory, free: set<nat>, base: nat, p: nat, bp: nat)
    requires Spaced(mem, free, base) && Chained(mem, free, base) && p in free && p < bp
             && (forall x | x in free :: x <= p || bp < x)
    requires (forall q | q in free :: q in mem' && mem'[q].ptr == if q == p then bp else mem[q].ptr) && bp in mem'
             && mem'[bp].ptr == mem[p].ptr
    ensures Chained(mem', free + {bp}, base)
  {
    forall q | q in free + {bp}
      ensures Follows(free + {bp}, base, q, mem'[q].ptr)
    {
      hide Follows;
      FollowsIn(free, base, p, mem[p].ptr, bp, if q == bp then p else q, mem[if q == bp then p else q].ptr);
    }
  }

  lemma ChainOut(mem: Memory, mem': Memory, free: set<nat>, base: nat, p: nat, x: nat)
    requires Spaced(mem, free, base) && Chained(mem, free, base) && p in free && x in free && mem[p].ptr == x
             && x != base && x != p
    requires forall q | q in free && q != x :: q in mem' && mem'[q].ptr == if q == p then mem[x].ptr else mem[q].ptr
    ensures Chained(mem', free - {x}, base)
  {
    forall q | q in free - {x}
      ensures Follows(free - {x}, base, q, mem'[q].ptr)
    {
      hide Follows;
      FollowsOut(free, base, p, x, mem[x].ptr, q, mem[q].ptr);
    }
  }

  lemma NextInList(mem: Memory, free: set<nat>, base: nat, p: nat)
    requires ListOk(mem, free, base) && p in free
    ensures p in mem && mem[p].ptr in free && mem[p].ptr in mem && (mem[p].ptr > p || mem[p].ptr == base)
  {
    assert Follows(free, base, p, mem[p].ptr);
  }

  lemma FreedAlone(mem: Memory, free: set<nat>, base: nat, p: nat, bp: nat)
    requires Between(mem, free, base, p, bp) && p + mem[p].size < bp && forall r | r in free ::
               r <= p || bp + mem[bp].size < r
    ensures ListOk(mem[bp := Header(mem[p].ptr, mem[bp].size)][p := Header(bp, mem[p].size)], free + {bp}, base)
  {
    hide Chained;
    ChainIn(mem, mem[bp := Header(mem[p].ptr, mem[bp].size)][p := Header(bp, mem[p].size)], free, base, p, bp);
  }

  lemma FreedWithNext(mem: Memory, free: set<nat>, base: nat, p: nat, bp: nat)
    requires Between(mem, free, base, p, bp) && p + mem[p].size < bp && bp + mem[bp].size == mem[p].ptr
    ensures mem[p].ptr in mem
    ensures ListOk(mem[bp := Header(mem[mem[p].ptr].ptr, mem[bp].size + mem[mem[p].ptr].size)][p :=
                   Header(bp, mem[p].size)],
                   free - {mem[p].ptr} + {bp}, base)
  {
    hide Chained;
    var next := mem[p].ptr;
    NextInList(mem, free, base, p);
    var mem', free' := mem[bp := Header(mem[next].ptr, mem[bp].size + mem[next].size)][p := Header(bp, mem[p].size)],
                       free - {next} + {bp};
    var mem1 := mem[p := Header(mem[next].ptr, mem[p].size)];
    ChainOut(mem, mem1, free, base, p, next);
    assert Spaced(mem1, free - {next}, base);
    ChainIn(mem1, mem', free - {next}, base, p, bp);
  }

  lemma FreedWithPrevious(mem: Memory, free: set<nat>, base: nat, p: nat, bp: nat, h: Header)
    requires Between(mem, free, base, p, bp) && p + mem[p].size == bp && forall r | r in free ::
               r <= p || bp + mem[bp].size < r
    ensures ListOk(mem[bp := h][p := Header(mem[p].ptr, mem[p].size + mem[bp].size)], free, base)
  {
    hide Follows;
  }

  lemma FreedWithBoth(mem: Memory, free: set<nat>, base: nat, p: nat, bp: nat, h: Header)
    requires Between(mem, free, base, p, bp) && p + mem[p].size == bp && bp + mem[bp].size == mem[p].ptr
    ensures mem[p].ptr in mem
    ensures ListOk(mem[bp := h][p := Header(mem[mem[p].ptr].ptr, mem[p].size + (mem[bp].size + mem[mem[p].ptr].size))],
                   free - {mem[p].ptr}, base)
  {
    hide Chained;
    var next := mem[p].ptr;
    NextInList(mem, free, base, p);
    var mem' := mem[bp := h][p := Header(mem[next].ptr, mem[p].size + (mem[bp].size + mem[next].size))];
    ChainOut(mem, mem', free, base, p, next);
  }

  /** Freeing keeps the list in order, whichever neighbours are adjacent. */
  lemma FreedListOk(mem: Memory, free: set<nat>, base: nat, p: nat, bp: nat)
    requires Between(mem, free, base, p, bp)
    ensures mem[p].ptr in mem && ListOk(FreedMem(mem, p, bp), FreedSet(mem, free, p, bp), base)
  {
    hide ListOk;
    NextInList(mem, free, base, p);
    var next := mem[p].ptr;
    NextOnly(mem, free, base, p, bp);
    var h := if bp + mem[bp].size == next then Header(mem[next].ptr, mem[bp].size + mem[next].size)
    else Header(next, mem[bp].size);
    if p + mem[p].size == bp {
      if bp + mem[bp].size == next {
        FreedWithBoth(mem, free, base, p, bp, h);
        assert FreedSet(mem, free, p, bp) == free - {next};
      } else {
        FreedWithPrevious(mem, free, base, p, bp, h);
        assert FreedSet(mem, free, p, bp) == free;
      }
    } else if bp + mem[bp].size == next {
      FreedWithNext(mem, free, base, p, bp);
      assert FreedSet(mem, free, p, bp) == free - {next} + {bp};
    } else {
      FreedAlone(mem, free, base, p, bp);
      assert FreedSet(mem, free, p, bp) == free + {bp};
    }
  }

  /** Only the next block can be adjacent above. */
  lemma NextOnly(mem: Memory, free: set<nat>, base: nat, p: nat, bp: nat)
    requires Between(mem, free, base, p, bp)
    ensures forall p | p in free :: p in mem
    ensures bp + mem[bp].size != mem[p].ptr ==> forall r | r in free :: r <= p || bp + mem[bp].size < r
  {
    assert Follows(free, base, p, mem[p].ptr);
  }

  /** The block that the freed one has become part of. */
  function MergedStart(mem: Memory, p: nat, bp: nat): nat
    requires p in mem
  {
    if p + mem[p].size == bp then p else bp
  }

  /** The list after freeing, block by block: entries other than the merged block are as they were, and the merged block
      is the freed one together with the neighbours that are no longer entries. */
  lemma FreedBlocks(mem: Memory, free: set<nat>, base: nat, p: nat, bp: nat)
    requires Between(mem, free, base, p, bp) && mem[p].ptr in mem && mem[p].ptr in free
    ensures var mem', free', s := FreedMem(mem, p, bp), FreedSet(mem, free, p, bp), MergedStart(mem, p, bp);
            && s in free' && s in mem'
            && (forall q | q in free' && q != s :: q in free && q in mem' && q in mem && mem'[q].size == mem[q].size)
            && (forall q | q in free :: (q in free' && q != s)
                                        || (q in mem && s <= q && q + mem[q].size <= s + mem'[s].size))
            && s <= bp && bp + mem[bp].size <= s + mem'[s].size
            && (forall u | s <= u < s + mem'[s].size :: bp <= u < bp + mem[bp].size || InFree(mem, free, u))
            && (forall a | a in mem && a !in free && a != bp :: a in mem' && mem'[a] == mem[a])
  {
    hide Follows;
    var mem', free', s := FreedMem(mem, p, bp), FreedSet(mem, free, p, bp), MergedStart(mem, p, bp);
    var next := mem[p].ptr;
    forall u | s <= u < s + mem'[s].size
      ensures bp <= u < bp + mem[bp].size || InFree(mem, free, u)
    {
      assert u < bp ==> p <= u < p + mem[p].size;
      assert u >= bp + mem[bp].size ==> next <= u < next + mem[next].size;
    }
  }

  /** A block that lies apart from all others lies apart from the merged one. */
  lemma ApartMerged(mem: Memory, free: set<nat>, used: map<nat, nat>, base: nat, bp: nat, s: nat, size: nat, a: nat)
    requires (forall q | q in free :: q in mem) && UsedOk(mem, free, used, base) && bp in used && a in used && a != bp
    requires (s in free && s != base) || s == bp
    requires forall u | s <= u < s + size :: bp <= u < bp + used[bp] || InFree(mem, free, u)
    requires base in free && mem[base].size == 0 && (s in free ==> mem[s].size >= 1)
    ensures Apart(a, used[a], s, size)
  {
    assert Apart(a, used[a], bp, used[bp]);
    assert s in free ==> Apart(a, used[a], s, mem[s].size);
    assert s <= a < s + size ==> bp <= a < bp + used[bp] || InFree(mem, free, a);
    forall q | q in free && q != base
      ensures !(q <= a < q + mem[q].size)
    {
      assert Apart(a, used[a], q, mem[q].size);
    }
  }

  lemma FreedUsedOk(mem: Memory, free: set<nat>, used: map<nat, nat>, base: nat, p: nat, bp: nat)
    requires Between(mem, free, base, p, bp) && UsedOk(mem, free, used, base) && bp in used && mem[p].ptr in mem
             && mem[p].ptr in free
    requires forall q | q in FreedSet(mem, free, p, bp) :: q in FreedMem(mem, p, bp)
    ensures UsedOk(FreedMem(mem, p, bp), FreedSet(mem, free, p, bp), used - {bp}, base)
  {
    hide Follows, FreedMem, FreedSet, InFree, Apart;
    FreedBlocks(mem, free, base, p, bp);
    var mem', free', s := FreedMem(mem, p, bp), FreedSet(mem, free, p, bp), MergedStart(mem, p, bp);
    forall a, q | a in used && a != bp && q in free' && q != base
      ensures Apart(a, used[a], q, mem'[q].size)
    {
      if q == s {
        ApartMerged(mem, free, used, base, bp, s, mem'[s].size, a);
      }
    }
    forall a | a in used && a != bp
      ensures a in mem' && mem'[a].size == used[a]
    {
      UsedNotFree(mem, free, used, base, a);
    }
  }

  lemma UsedNotFree(mem: Memory, free: set<nat>, used: map<nat, nat>, base: nat, a: nat)
    requires (forall q | q in free :: q in mem && (q != base ==> mem[q].size >= 1)) && UsedOk(mem, free, used, base)
             && a in used
    ensures a !in free
  {
    assert a in free && a != base ==> Apart(a, used[a], a, mem[a].size);
  }

  lemma FreedCovers(mem: Memory, free: set<nat>, used: map<nat, nat>, units: set<nat>, base: nat, p: nat, bp: nat)
    requires Between(mem, free, base, p, bp) && UsedOk(mem, free, used, base) && bp in used && mem[p].ptr in mem
             && mem[p].ptr in free
    requires Covers(mem, free, used, units)
    ensures Covers(FreedMem(mem, p, bp), FreedSet(mem, free, p, bp), used - {bp}, units)
  {
    hide Follows, FreedMem, FreedSet, Apart, InFree, InUsed;
    FreedBlocks(mem, free, base, p, bp);
    var mem', free', s := FreedMem(mem, p, bp), FreedSet(mem, free, p, bp), MergedStart(mem, p, bp);
    forall u: nat
      ensures InFree(mem', free', u) || InUsed(used - {bp}, u) <==> InFree(mem, free, u) || InUsed(used, u)
    {
      MergedUnit(mem, free, used, mem', free', s, bp, u);
    }
  }

  lemma MergedUnit(mem: Memory, free: set<nat>, used: map<nat, nat>, mem': Memory, free': set<nat>, s: nat, bp: nat,
                   u: nat)
    requires bp in used && s in free' && s in mem' && s <= bp && bp + used[bp] <= s + mem'[s].size
    requires forall q | q in free' && q != s :: q in free && q in mem' && q in mem && mem'[q].size == mem[q].size
    requires forall q | q in free :: (q in free' && q != s)
                                     || (q in mem && s <= q && q + mem[q].size <= s + mem'[s].size)
    requires s <= u < s + mem'[s].size ==> bp <= u < bp + used[bp] || InFree(mem, free, u)
    ensures InFree(mem', free', u) || InUsed(used - {bp}, u) <==> InFree(mem, free, u) || InUsed(used, u)
  {
    var used' := used - {bp};
    if q :| q in free && q in mem && q <= u < q + mem[q].size {
      assert InFree(mem', free', u);
    } else if a :| a in used && a <= u < a + used[a] {
      assert a != bp ==> a in used' && used'[a] == used[a];
      assert InFree(mem', free', u) || InUsed(used', u);
    } else {
      assert forall a | a in used' :: a in used && used'[a] == used[a];
    }
  }

  /** The units of the block at bp now belong to the block at p, or to the one after it. */
  predicate TakenUp(mem: Memory, p: nat, bp: nat, n: nat) {
    && p in mem && mem[p].ptr in mem
    && ((p <= bp && bp + n <= p + mem[p].size) || (mem[p].ptr <= bp && bp + n <= mem[p].ptr + mem[mem[p].ptr].size))
  }

  lemma FreedTakenUp(mem: Memory, free: set<nat>, base: nat, p: nat, bp: nat)
    requires Between(mem, free, base, p, bp) && mem[p].ptr in mem
    ensures TakenUp(FreedMem(mem, p, bp), p, bp, mem[bp].size)
    ensures forall q | q in FreedSet(mem, free, p, bp) && q in FreedMem(mem, p, bp) && q != p && q != bp ::
              q in mem && FreedMem(mem, p, bp)[q].size == mem[q].size
  {
    hide Follows;
    NextInList(mem, free, base, p);
    NextInList(mem, free, base, mem[p].ptr);
  }

  lemma FreedBelow(mem: Memory, free: set<nat>, used: map<nat, nat>, base: nat, brk: nat, p: nat, bp: nat)
    requires Between(mem, free, base, p, bp) && Below(mem, free, used, brk) && bp in used && used[bp] == mem[bp].size
             && mem[p].ptr in mem && mem[p].ptr in free
    ensures Below(FreedMem(mem, p, bp), FreedSet(mem, free, p, bp), used - {bp}, brk)
  {
    hide Follows;
  }

  /** Freeing an allocated block keeps everything in order, and no unit is lost. */
  lemma Freed(mem: Memory, free: set<nat>, used: map<nat, nat>, units: set<nat>, base: nat, brk: nat, p: nat, bp: nat)
    requires Ok(mem, free, used, units, base, brk) && bp in used && Spot(mem, free, base, p, bp)
    ensures bp in mem && mem[p].ptr in mem
    ensures Ok(FreedMem(mem, p, bp), FreedSet(mem, free, p, bp), used - {bp}, units, base, brk)
    ensures p in FreedSet(mem, free, p, bp) && base <= p < bp && mem[p].ptr != bp
    ensures TakenUp(FreedMem(mem, p, bp), p, bp, used[bp])
  {
    hide Covers, Chained, FreedMem, TakenUp;
    BlockBetween(mem, free, used, base, p, bp);
    NextInList(mem, free, base, p);
    FreedListOk(mem, free, base, p, bp);
    FreedTakenUp(mem, free, base, p, bp);
    FreedUsedOk(mem, free, used, base, p, bp);
    FreedBelow(mem, free, used, base, brk, p, bp);
    FreedCovers(mem, free, used, units, base, p, bp);
  }

  // malloc

  /** Taking a block out of the list whole. */
  lemma TakenWhole(mem: Memory, free: set<nat>, used: map<nat, nat>, units: set<nat>, base: nat, brk: nat, prev: nat,
                   p: nat)
    requires Ok(mem, free, used, units, base, brk) && prev in free && mem[prev].ptr == p && p in free && p != base
    ensures Ok(mem[prev := Header(mem[p].ptr, mem[prev].size)], free - {p}, used[p := mem[p].size], units, base, brk)
            && prev != p
  {
    hide Chained, Covers, UsedOk;
    NextInList(mem, free, base, prev);
    ChainOut(mem, mem[prev := Header(mem[p].ptr, mem[prev].size)], free, base, prev, p);
    UsedAdded(mem, free, used, base, p);
    UsedSame(mem, mem[prev := Header(mem[p].ptr, mem[prev].size)], free - {p}, used[p := mem[p].size], base);
    TakenCovers(mem, free, used, units, prev, p);
  }

  lemma UsedSame(mem: Memory, mem': Memory, free: set<nat>, used: map<nat, nat>, base: nat)
    requires (forall q | q in free :: q in mem) && UsedOk(mem, free, used, base) && forall q | q in mem ::
               q in mem' && mem'[q].size == mem[q].size
    ensures UsedOk(mem', free, used, base)
  {
    hide Apart;
  }

  lemma UsedAdded(mem: Memory, free: set<nat>, used: map<nat, nat>, base: nat, p: nat)
    requires Spaced(mem, free, base) && UsedOk(mem, free, used, base) && p in free && p != base
    ensures UsedOk(mem, free - {p}, used[p := mem[p].size], base) && p !in used
  {
    UsedNotInFree(mem, free, used, base, p);
  }

  lemma UsedNotInFree(mem: Memory, free: set<nat>, used: map<nat, nat>, base: nat, p: nat)
    requires Spaced(mem, free, base) && UsedOk(mem, free, used, base) && p in free
    ensures p !in used
  {
    assert p in used && p != base ==> Apart(p, used[p], p, mem[p].size);
  }

  /** A unit that changes from free to allocated with its block, or stays what it was. */
  lemma TakenUnit(mem: Memory, free: set<nat>, used: map<nat, nat>, mem': Memory, free': set<nat>, p: nat, n: nat,
                  u: nat)
    requires p !in used
    requires forall q | q in free' :: q in free && q in mem' && q in mem && mem'[q].size <= mem[q].size
    requires forall q | q in free && q in mem && q <= u < q + mem[q].size ::
               (q in free' && u < q + mem'[q].size) || p <= u < p + n
    requires p <= u < p + n ==> InFree(mem, free, u)
    ensures InFree(mem', free', u) || InUsed(used[p := n], u) <==> InFree(mem, free, u) || InUsed(used, u)
  {
    var used' := used[p := n];
    if q :| q in free && q in mem && q <= u < q + mem[q].size {
      assert p in used' && used'[p] == n;
    } else if a :| a in used && a <= u < a + used[a] {
      assert a in used' && used'[a] == used[a];
    } else {
      assert forall a | a in used' && a != p :: a in used && used'[a] == used[a];
    }
  }

  lemma TakenCovers(mem: Memory, free: set<nat>, used: map<nat, nat>, units: set<nat>, prev: nat, p: nat)
    requires Covers(mem, free, used, units) && prev in mem && (forall q | q in free :: q in mem) && p in free
             && prev != p && p !in used
    ensures Covers(mem[prev := Header(mem[p].ptr, mem[prev].size)], free - {p}, used[p := mem[p].size], units)
  {
    hide InUsed;
    var mem' := mem[prev := Header(mem[p].ptr, mem[prev].size)];
    forall u: nat
      ensures InFree(mem', free - {p}, u) || InUsed(used[p := mem[p].size], u)
         <==> InFree(mem, free, u) || InUsed(used, u)
    {
      TakenUnit(mem, free, used, mem', free - {p}, p, mem[p].size, u);
    }
  }

  /** Taking the upper end of a block. */
  lemma TakenEnd(mem: Memory, free: set<nat>, used: map<nat, nat>, units: set<nat>, base: nat, brk: nat, p: nat, n: nat)
    requires Ok(mem, free, used, units, base, brk) && p in free && 0 < n < mem[p].size
    ensures var end := p + (mem[p].size - n);
            Ok(mem[p := Header(mem[p].ptr, mem[p].size - n)][end := Header(0, n)], free, used[end := n], units, base,
               brk) && end !in used
  {
    hide Chained, Covers;
    var end := p + (mem[p].size - n);
    var mem' := mem[p := Header(mem[p].ptr, mem[p].size - n)][end := Header(0, n)];
    EndNotThere(mem, free, used, base, p, n);
    ChainSame(mem, mem', free, base);
    EndUsed(mem, free, used, base, p, n, Header(0, n));
    EndCovers(mem, free, used, units, base, p, n, Header(0, n));
  }

  lemma ChainSame(mem: Memory, mem': Memory, free: set<nat>, base: nat)
    requires (forall q | q in free :: q in mem && q in mem' && mem'[q].ptr == mem[q].ptr) && Chained(mem, free, base)
    ensures Chained(mem', free, base)
  {
    hide Follows;
  }

  lemma EndNotThere(mem: Memory, free: set<nat>, used: map<nat, nat>, base: nat, p: nat, n: nat)
    requires Spaced(mem, free, base) && UsedOk(mem, free, used, base) && p in free && 0 < n < mem[p].size
    ensures var end := p + (mem[p].size - n); end !in free && end !in used && p !in used && base < end
  {
    var end := p + (mem[p].size - n);
    assert end in used ==> Apart(end, used[end], p, mem[p].size);
    assert p in used ==> Apart(p, used[p], p, mem[p].size);
  }

  lemma EndUsed(mem: Memory, free: set<nat>, used: map<nat, nat>, base: nat, p: nat, n: nat, h: Header)
    requires Spaced(mem, free, base) && UsedOk(mem, free, used, base) && p in free && 0 < n < mem[p].size && h.size == n
    ensures var end := p + (mem[p].size - n);
            && (forall q | q in free :: q in mem[p := Header(mem[p].ptr, mem[p].size - n)][end := h])
            && UsedOk(mem[p := Header(mem[p].ptr, mem[p].size - n)][end := h], free, used[end := n], base)
  {
    EndNotThere(mem, free, used, base, p, n);
    var end := p + (mem[p].size - n);
    forall a | a in used
      ensures Apart(a, used[a], end, n) && Apart(a, used[a], p, mem[p].size - n) && a != end && a != p
    {
      assert Apart(a, used[a], p, mem[p].size);
    }
    forall q | q in free && q != base
      ensures Apart(end, n, q, if q == p then mem[p].size - n else mem[q].size)
    {
      assert q < p ==> q + mem[q].size < p;
      assert p < q ==> p + mem[p].size < q;
    }
  }

  lemma EndCovers(mem: Memory, free: set<nat>, used: map<nat, nat>, units: set<nat>, base: nat, p: nat, n: nat,
                  h: Header)
    requires Spaced(mem, free, base) && UsedOk(mem, free, used, base) && p in free && 0 < n < mem[p].size
             && Covers(mem, free, used, units)
    ensures var end := p + (mem[p].size - n);
            Covers(mem[p := Header(mem[p].ptr, mem[p].size - n)][end := h], free, used[end := n], units)
  {
    EndNotThere(mem, free, used, base, p, n);
    hide InUsed, UsedOk;
    var end := p + (mem[p].size - n);
    var mem' := mem[p := Header(mem[p].ptr, mem[p].size - n)][end := h];
    forall u: nat
      ensures InFree(mem', free, u) || InUsed(used[end := n], u) <==> InFree(mem, free, u) || InUsed(used, u)
    {
      TakenUnit(mem, free, used, mem', free, end, n, u);
    }
  }

  function Range(start: nat, n: nat): (s: set<nat>)
    ensures forall u :: u in s <==> start <= u < start + n
  {
    if n == 0 then {} else Range(start, n - 1) + {start + n - 1}
  }

  /** A fresh region above everything becomes an allocated block, as if malloc had handed it out. */
  lemma RegionAdded(mem: Memory, free: set<nat>, used: map<nat, nat>, units: set<nat>, base: nat, brk: nat, start: nat,
                    n: nat, h: Header)
    requires Ok(mem, free, used, units, base, brk) && brk <= start && 0 < n && h.size == n
    ensures start !in used && start !in free
    ensures Ok(mem[start := h], free, used[start := n], units + Range(start, n), base, start + n)
  {
    hide Covers, Chained;
    ChainSame(mem, mem[start := h], free, base);
    assert forall a | a in used :: Apart(a, used[a], start, n);
    RegionCovers(mem, free, used, units, start, n, h);
  }

  lemma RegionCovers(mem: Memory, free: set<nat>, used: map<nat, nat>, units: set<nat>, start: nat, n: nat, h: Header)
    requires Covers(mem, free, used, units) && start !in used && start !in free
    ensures Covers(mem[start := h], free, used[start := n], units + Range(start, n))
  {
    var mem', used', more := mem[start := h], used[start := n], Range(start, n);
    forall u: nat
      ensures InFree(mem', free, u) || InUsed(used', u) <==> InFree(mem, free, u) || InUsed(used, u) || u in more
    {
      assert start in used' && used'[start] == n;
      if a :| a in used && a <= u < a + used[a] {
        assert a in used' && used'[a] == used[a];
      }
      assert forall a | a in used' && a != start :: a in used && used'[a] == used[a];
    }
  }

  /** How many units malloc needs for nbytes bytes and a header. */
  function Units(nbytes: nat): (n: nat)
    ensures n >= 1 && nbytes <= (n - 1) * UNIT < nbytes + UNIT
  {
    (nbytes + UNIT - 1) / UNIT + 1
  }

  /** The argument that morecore's call passes to sbrk, whose parameter is an int. */
  function SbrkArgument(nu: nat): (bytes: int) {
    var x := nu * UNIT % (2 * INT);
    if x < INT then x else x - 2 * INT
  }

  /** It is the number of bytes wanted exactly for requests below 2^27 units. */
  lemma SbrkArgumentExactly(nu: nat)
    ensures SbrkArgument(nu) == nu * UNIT <==> nu * UNIT < INT
  {
  }

  /** morecore asks for at least 4096 units. */
  function Grain(nu: nat): nat {
    if nu < 4096 then 4096 else nu
  }

  /** From p on, the search comes past q before it is back at f. */
  predicate Ahead(f: nat, p: nat, q: nat) {
    if p > f then q >= p || q <= f else p <= q <= f
  }

  /** All blocks that the search has passed are too small. */
  predicate AllAhead(mem: Memory, free: set<nat>, f: nat, p: nat, n: nat) {
    forall q | q in free && q in mem :: mem[q].size < n || Ahead(f, p, q)
  }

  lemma SearchStart(mem: Memory, free: set<nat>, used: map<nat, nat>, units: set<nat>, base: nat, brk: nat, f: nat,
                    n: nat)
    requires Ok(mem, free, used, units, base, brk) && f in free
    ensures f in mem && mem[f].ptr in free && mem[f].ptr in mem && AllAhead(mem, free, f, mem[f].ptr, n)
  {
    hide Covers;
    NextInList(mem, free, base, f);
    FirstAhead(free, base, f, mem[f].ptr);
  }

  lemma FirstAhead(free: set<nat>, base: nat, f: nat, q: nat)
    requires Follows(free, base, f, q) && f in free && forall x | x in free :: base <= x
    ensures forall x | x in free :: Ahead(f, q, x)
  {
  }

  /** One step of the search: it comes closer to its end, and a block that is too small is left behind. */
  lemma SearchStep(mem: Memory, free: set<nat>, used: map<nat, nat>, units: set<nat>, base: nat, brk: nat, f: nat,
                   p: nat, n: nat)
    requires Ok(mem, free, used, units, base, brk) && f in free && p in free
    ensures p in mem && f in mem && mem[p].ptr in free && mem[p].ptr in mem && base <= p < brk && mem[base].size == 0
    ensures p !in used && (p != base ==> p > base)
    ensures p != f && AllAhead(mem, free, f, p, n) && mem[p].size < n ==> AllAhead(mem, free, f, mem[p].ptr, n)
    ensures p == f && AllAhead(mem, free, f, p, n) && mem[p].size < n ==> forall q | q in free && q in mem ::
                mem[q].size < n
    ensures p != f ==> var q := mem[p].ptr; q < brk && if (p > f) == (q > f) then p < q else p > f
  {
    hide Follows, Covers;
    NextInList(mem, free, base, p);
    if p != f {
      FollowStep(free, base, f, p, mem[p].ptr);
    }
    UsedNotInFree(mem, free, used, base, p);
  }

  lemma FollowStep(free: set<nat>, base: nat, f: nat, p: nat, q: nat)
    requires Follows(free, base, p, q) && f in free && p in free && p != f && forall x | x in free :: base <= x
    ensures if (p > f) == (q > f) then p < q else p > f
    ensures forall x | x in free && x != p && Ahead(f, p, x) :: Ahead(f, q, x)
  {
  }

  /** A free block of at least n units. */
  predicate Fits(mem: Memory, free: set<nat>, p: nat, n: nat) {
    p in free && p in mem && mem[p].size >= n
  }

  /** The block at b is the end of the first free block, in list order after f, that is large enough; and f' comes right
      before that block. */
  predicate FirstFit(mem: Memory, free: set<nat>, f: nat, n: nat, b: nat, f': nat) {
    f' in mem && Fits(mem, free, mem[f'].ptr, n) && AllAhead(mem, free, f, mem[f'].ptr, n)
    && b + n == mem[f'].ptr + mem[mem[f'].ptr].size
  }

  class Allocator {
    const base: nat
    var mem: Memory
    var freep: nat
    ghost var free: set<nat>
    ghost var used: map<nat, nat>
    ghost var units: set<nat>
    ghost var brk: nat

    ghost predicate Valid()
      reads this
    {
      && 0 < base < brk
      && if freep == 0 then free == {} && used == map[] && units == {} else freep in free
                                                                            && Ok(mem, free, used, units, base, brk)
    }

    constructor (b: nat)
      requires 0 < b
      ensures Valid() && used == map[] && units == {} && base == b
    {
      base, mem, freep, free, used, units, brk := b, map[], 0, {}, map[], {}, b + 1;
    }

    /** free */
    method Free(ap: nat)
      requires Valid() && ap > 0 && ap - 1 in used
      modifies this`mem, this`freep, this`free, this`used
      ensures Valid() && freep != 0 && used == old(used) - {ap - 1}
      ensures TakenUp(mem, freep, ap - 1, old(used)[ap - 1])
    {
      hide Ok, TakenUp, Spot;
      var bp := ap - 1;
      var p := FindSpot(bp);
      Freed(mem, free, used, units, base, brk, p, bp);
      ghost var free' := FreedSet(mem, free, p, bp);
      var next := mem[p].ptr;
      if bp + mem[bp].size == next {
        mem := mem[bp := Header(mem[bp].ptr, mem[bp].size + mem[next].size)];
        mem := mem[bp := Header(mem[next].ptr, mem[bp].size)];
      } else {
        mem := mem[bp := Header(next, mem[bp].size)];
      }
      if p + mem[p].size == bp {
        mem := mem[p := Header(mem[p].ptr, mem[p].size + mem[bp].size)];
        mem := mem[p := Header(mem[bp].ptr, mem[p].size)];
      } else {
        mem := mem[p := Header(bp, mem[p].size)];
      }
      assert mem == FreedMem(old(mem), p, bp);
      freep := p;
      free, used := free', used - {bp};
    }

    /** The search of free, which ends. */
    method FindSpot(bp: nat) returns (p: nat)
      requires freep in free && Ok(mem, free, used, units, base, brk) && bp in used
      ensures Spot(mem, free, base, p, bp)
    {
      p := freep;
      UsedNotFree(mem, free, used, base, bp);
      while !(bp > p && bp < mem[p].ptr)
        invariant p in free
        decreases if p > bp then 1 else 0, brk - p
      {
        NextInList(mem, free, base, p);
        if p >= mem[p].ptr && (bp > p || bp < mem[p].ptr) {
          break;
        }
        p := mem[p].ptr;
      }
    }

    /** morecore, where more is what sbrk returns: -1, or a region above all memory obtained before. */
    method Morecore(nu: nat, more: int) returns (p: nat)
      requires Valid() && freep != 0 && 0 < nu && nu * UNIT < INT && (more == -1 || more >= brk)
      modifies this
      ensures p == 0 <==> more == -1
      ensures p == 0 ==> unchanged(this)
      ensures p != 0 ==>
                && Valid() && p == freep && used == old(used) && units == old(units) + Range(more, Grain(nu))
                && TakenUp(mem, freep, more, Grain(nu))
    {
      hide Ok, TakenUp;
      var n := nu;
      if n < 4096 {
        n := 4096;
      }
      SbrkArgumentExactly(n);
      if more == -1 {
        return 0;
      }
      RegionAdded(mem, free, used, units, base, brk, more, n, Header(0, n));
      mem := mem[more := Header(0, n)];
      units, brk := units + Range(more, n), more + n;
      used := used[more := n];
      Free(more + 1);
      assert used == old(used);
      p := freep;
    }

    /** malloc. If some free block is large enough, the result is cut from the end of the first one that the search
        meets; otherwise it is in new memory, or 0 if sbrk fails. */
    method Malloc(nbytes: nat, more: int) returns (r: nat)
      requires Valid() && Units(nbytes) * UNIT < INT && (more == -1 || more >= brk)
      modifies this
      ensures Valid() && freep != 0
      ensures r == 0 <==> more == -1 && forall p :: !Fits(old(mem), old(free), p, Units(nbytes))
      ensures r == 0 ==> used == old(used)
      ensures r != 0 ==> r - 1 !in old(used) && used == old(used)[r - 1 := Units(nbytes)]
      ensures if r == 0 || exists p :: Fits(old(mem), old(free), p, Units(nbytes)) then units == old(units)
              else units == old(units) + Range(more, Grain(Units(nbytes)))
      ensures (exists p :: Fits(old(mem), old(free), p, Units(nbytes))) ==>
                r != 0 && FirstFit(old(mem), old(free), old(freep), Units(nbytes), r - 1, freep)
    {
      var nunits := Units(nbytes);
      hide Ok, AllAhead;
      Start();
      var prevp := freep;
      SearchStart(mem, free, used, units, base, brk, freep, nunits);
      var p := mem[prevp].ptr;
      ghost var grown := false;
      while true
        invariant Valid() && freep != 0 && prevp in free && p in free && prevp in mem && p == mem[prevp].ptr
                  && used == old(used)
        invariant if grown then more != -1 && units == old(units) + Range(more, Grain(nunits)) else units == old(units)
        invariant more == -1 || grown || more >= brk
        invariant grown ==> freep in mem && p in mem
                            && (mem[freep].size >= nunits || (prevp == freep && mem[p].size >= nunits))
        invariant !grown ==> AllAhead(mem, free, freep, p, nunits)
        invariant !grown ==> if old(freep) == 0 then free == {base} && base in mem && mem[base].size == 0
                    else mem == old(mem) && free == old(free) && freep == old(freep)
        invariant grown ==> forall q :: !Fits(old(mem), old(free), q, nunits)
        decreases if grown then 0 else 1, if p > freep then 1 else 0, brk - p
      {
        SearchStep(mem, free, used, units, base, brk, freep, p, nunits);
        if mem[p].size >= nunits {
          assert !grown ==> Fits(old(mem), old(free), p, nunits);
          r := Take(prevp, p, nunits);
          return;
        }
        if p == freep {
          assert forall q :: !Fits(old(mem), old(free), q, nunits);
          p := Morecore(nunits, more);
          if p == 0 {
            return 0;
          }
          grown := true;
          SearchStart(mem, free, used, units, base, brk, freep, nunits);
        }
        prevp := p;
        p := mem[p].ptr;
      }
    }

    /** The first call: the list is base alone. */
    method Start()
      requires Valid()
      modifies this
      ensures Valid() && freep != 0 && used == old(used) && units == old(units) && brk == old(brk)
      ensures if old(freep) == 0 then free == {base} && base in mem && mem[base].size == 0 else unchanged(this)
    {
      if freep == 0 {
        mem := mem[base := Header(base, 0)];
        freep := base;
        free := {base};
      }
    }

    /** The block is taken out of the list, or its end is cut off. */
    method Take(prevp: nat, p: nat, nunits: nat) returns (r: nat)
      requires Valid() && freep != 0 && prevp in free && p in free && prevp in mem && p in mem && mem[prevp].ptr == p
               && 0 < nunits <= mem[p].size
      modifies this
      ensures Valid() && freep != 0 && r > 0 && r - 1 !in old(used) && used == old(used)[r - 1 := nunits]
              && units == old(units) && freep == prevp && r - 1 + nunits == p + old(mem)[p].size
    {
      hide Ok;
      SearchStep(mem, free, used, units, base, brk, prevp, p, nunits);
      SearchStep(mem, free, used, units, base, brk, prevp, prevp, nunits);
      if mem[p].size == nunits {
        TakenWhole(mem, free, used, units, base, brk, prevp, p);
        mem := mem[prevp := Header(mem[p].ptr, mem[prevp].size)];
        free, used := free - {p}, used[p := nunits];
        freep := prevp;
        return p + 1;
      }
      TakenEnd(mem, free, used, units, base, brk, p, nunits);
      mem := mem[p := Header(mem[p].ptr, mem[p].size - nunits)];
      var q := p + mem[p].size;
      mem := mem[q := Header(0, nunits)];
      used := used[q := nunits];
      freep := prevp;
      r := q + 1;
    }
  }
}
